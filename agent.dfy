/** The DDPG agent: the live critic and actor, their target copies, the replay
    buffer, and the part of a training step that the model covers (sampling a
    batch and synchronising the targets). Each network's parameters are one
    flat vector; the gradient step itself is represented by its outcome. */
module Agent {
  import opened Wrappers
  import opened ReplayBuffers
  import opened TargetSync

  /** Hyperparameters fixed by the agent's constructor (lines 138-143). */
  const BatchSize: nat := 30
  const SoftTau: real := 0.02
  const ReplayBufferSize: nat := 5000

  /** The threshold the training loop compares the buffer length with (line 267). */
  const LoopBatchSize: nat := 32

  /** The training loop's guard `len(replay_buffer) > 32` implies the agent's
      sampling precondition `batch_size <= len(replay_buffer)`. */
  lemma LoopGuardAllowsSample(len: int)
    requires len > LoopBatchSize
    ensures 0 <= BatchSize <= len
  {
  }

  /** Under the loop's guard, sampling a batch for the agent never raises. */
  lemma GuardedUpdateSamples(b: ReplayBuffer, draw: seq<nat>)
    requires b.Valid() && b.Len() > LoopBatchSize && IsDraw(draw, BatchSize, b.Len())
    ensures b.Sample(BatchSize, draw).Success?
  {
    LoopGuardAllowsSample(b.Len());
  }

  class DDPG {
    /** `value_net`, `policy_net` and their targets, as flat parameter vectors. */
    const critic: array<real>
    const actor: array<real>
    const targetCritic: array<real>
    const targetActor: array<real>
    const replayBuffer: ReplayBuffer

    /** Four distinct networks, each target shaped like its live network, and a
        well-formed replay buffer of the configured capacity. */
    ghost predicate Valid()
      reads this, replayBuffer
    {
      critic != actor && critic != targetCritic && critic != targetActor
      && actor != targetCritic && actor != targetActor && targetCritic != targetActor
      && targetCritic.Length == critic.Length && targetActor.Length == actor.Length
      && replayBuffer.Valid() && replayBuffer.capacity == ReplayBufferSize
    }

    /** Build the four networks from their initial parameters, then copy every
        live parameter into its target (lines 153-157). */
    constructor (critic0: seq<real>, actor0: seq<real>, targetCritic0: seq<real>, targetActor0: seq<real>)
      requires |targetCritic0| == |critic0| && |targetActor0| == |actor0|
      ensures Valid()
      ensures fresh(critic) && fresh(actor) && fresh(targetCritic) && fresh(targetActor) && fresh(replayBuffer)
      ensures critic[..] == critic0 && actor[..] == actor0
      ensures targetCritic[..] == critic0 && targetActor[..] == actor0
      ensures replayBuffer.history == [] && replayBuffer.buffer == []
    {
      critic := new real[|critic0|](i requires 0 <= i < |critic0| => critic0[i]);
      actor := new real[|actor0|](i requires 0 <= i < |actor0| => actor0[i]);
      targetCritic := new real[|targetCritic0|](i requires 0 <= i < |targetCritic0| => targetCritic0[i]);
      targetActor := new real[|targetActor0|](i requires 0 <= i < |targetActor0| => targetActor0[i]);
      replayBuffer := new ReplayBuffer(ReplayBufferSize);
      new;
      HardUpdate(targetCritic, critic);
      HardUpdate(targetActor, actor);
    }

    /** One training step: sample a batch of `BatchSize` transitions (raising,
        with nothing changed, when the buffer holds too few); install the live
        parameters the optimisers produce from it; then soft-update both targets. */
    method Update(draw: seq<nat>, trainedCritic: seq<real>, trainedActor: seq<real>)
      returns (r: Result<Batch, SampleError>)
      requires Valid()
      requires BatchSize <= replayBuffer.Len() ==> IsDraw(draw, BatchSize, replayBuffer.Len())
      requires |trainedCritic| == critic.Length && |trainedActor| == actor.Length
      modifies critic, actor, targetCritic, targetActor
      ensures Valid()
      ensures r == replayBuffer.Sample(BatchSize, draw)
      ensures r.Failure? ==> unchanged(critic, actor, targetCritic, targetActor)
      ensures r.Success? ==> critic[..] == trainedCritic && actor[..] == trainedActor
      ensures r.Success? ==> targetCritic[..] == Polyak(old(targetCritic[..]), trainedCritic, SoftTau)
      ensures r.Success? ==> targetActor[..] == Polyak(old(targetActor[..]), trainedActor, SoftTau)
    {
      r := replayBuffer.Sample(BatchSize, draw);
      if r.Failure? {
        return;
      }
      forall i | 0 <= i < critic.Length {
        critic[i] := trainedCritic[i];
      }
      forall i | 0 <= i < actor.Length {
        actor[i] := trainedActor[i];
      }
      SoftUpdate(targetCritic, critic, SoftTau);
      SoftUpdate(targetActor, actor, SoftTau);
    }
  }
}
