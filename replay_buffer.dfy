/** The experience replay store of the DDPG agent: a fixed-capacity ring of
    transitions that overwrites the oldest entry once full, and uniform
    sampling without replacement from its populated slots. */
module ReplayBuffers {
  import opened Wrappers

  /** One `(state, action, reward, next_state, done)` record of interaction. */
  datatype Transition = Transition(
    state: seq<real>, action: seq<real>, reward: real, nextState: seq<real>, done: bool)

  /** A sampled batch regrouped field by field: row `i` of every column comes
      from the same transition. */
  datatype Batch = Batch(
    states: seq<seq<real>>, actions: seq<seq<real>>, rewards: seq<real>,
    nextStates: seq<seq<real>>, dones: seq<bool>)

  /** The two `ValueError`s of `sample` (lines 102-103): `random.sample` refuses
      a batch larger than the population or negative, and an empty batch leaves
      `zip(*batch)` with no columns to unpack into the five names. */
  datatype SampleError = SampleLargerThanPopulationOrNegative | NotEnoughValuesToUnpack

  /** The columns of a batch all have the same length. */
  predicate Rectangular(b: Batch) {
    |b.actions| == |b.states| && |b.rewards| == |b.states|
    && |b.nextStates| == |b.states| && |b.dones| == |b.states|
  }

  /** `zip(*rows)`: transpose a list of transitions into five columns. */
  function Columns(rows: seq<Transition>): (b: Batch)
    ensures Rectangular(b) && |b.states| == |rows|
  {
    Batch(seq(|rows|, i requires 0 <= i < |rows| => rows[i].state),
          seq(|rows|, i requires 0 <= i < |rows| => rows[i].action),
          seq(|rows|, i requires 0 <= i < |rows| => rows[i].reward),
          seq(|rows|, i requires 0 <= i < |rows| => rows[i].nextState),
          seq(|rows|, i requires 0 <= i < |rows| => rows[i].done))
  }

  /** The inverse transposition: row `i` of a batch as one transition. */
  function Rows(b: Batch): (rows: seq<Transition>)
    requires Rectangular(b)
    ensures |rows| == |b.states|
  {
    seq(|b.states|, i requires 0 <= i < |b.states| =>
      Transition(b.states[i], b.actions[i], b.rewards[i], b.nextStates[i], b.dones[i]))
  }

  /** Regrouping loses nothing: the rows of the columns are the original rows. */
  lemma RowsOfColumns(rows: seq<Transition>)
    ensures Rows(Columns(rows)) == rows
  {
  }

  /** ... and every rectangular batch is the regrouping of its rows. */
  lemma ColumnsOfRows(b: Batch)
    requires Rectangular(b)
    ensures Columns(Rows(b)) == b
  {
  }

  /** `draw` is what `random.sample` picks from a population of `len` slots:
      `k` pairwise distinct slot indices. Such a draw fits the population. */
  predicate IsDraw(draw: seq<nat>, k: nat, len: nat): (b: bool)
    ensures b ==> k <= len
  {
    if |draw| == k
       && (forall i :: 0 <= i < |draw| ==> draw[i] < len)
       && (forall i, j :: 0 <= i < j < |draw| ==> draw[i] != draw[j])
    then
      DistinctBelow(draw, len);
      true
    else
      false
  }

  /** Pigeonhole: pairwise distinct indices below `len` number at most `len`. */
  lemma {:induction false} DistinctBelow(draw: seq<nat>, len: nat)
    requires forall i :: 0 <= i < |draw| ==> draw[i] < len
    requires forall i, j :: 0 <= i < j < |draw| ==> draw[i] != draw[j]
    ensures |draw| <= len
    decreases |draw|
  {
    if |draw| > 0 {
      assert 0 <= draw[0] < len;
      var top: nat := len - 1;
      var p := |draw| - 1;
      if exists q :: 0 <= q < |draw| && draw[q] == top {
        p :| 0 <= p < |draw| && draw[p] == top;
      }
      var rest := draw[..p] + draw[p + 1..];
      assert forall i :: 0 <= i < |rest| ==> rest[i] == draw[if i < p then i else i + 1];
      assert forall i :: 0 <= i < |rest| ==> rest[i] < top;
      DistinctBelow(rest, top);
    }
  }

  /** Conversely, every batch size up to the population has a draw: the first `k` slots. */
  lemma DrawExists(k: nat, len: nat)
    requires k <= len
    ensures IsDraw(seq(k, i => i), k, len)
  {
  }

  /** The slots of a ring of capacity `c` after the pushes `h`, in order, each
      push appending an empty slot while below capacity and then writing the
      slot at the cursor `|h'| % c`. */
  ghost function RingAfter<T>(h: seq<T>, c: nat): (r: seq<Option<T>>)
    requires c > 0
    ensures |r| == if |h| < c then |h| else c
    ensures forall i :: 0 <= i < |r| ==> r[i].Some?
    decreases |h|
  {
    if h == [] then []
    else
      var n := |h| - 1;
      var prev := RingAfter(h[..n], c);
      SmallResidue(n, c);
      var grown := if |prev| < c then prev + [None] else prev;
      grown[n % c := Some(h[n])]
  }

  /** Two indices less than `c` apart fall into different slots. */
  lemma SlotsDiffer(j: int, n: int, c: int)
    requires c > 0 && 0 <= j < n < j + c
    ensures j % c != n % c
  {
    var d := n / c - j / c;
    assert n - j == c * d + (n % c - j % c);
    if d <= 0 {
      assert c * d <= 0;
    } else {
      assert c * d >= c;
    }
  }

  /** FIFO eviction: each of the last `c` pushes sits in the slot its index
      maps to, so the ring holds exactly the most recent `c` transitions. */
  lemma {:induction false} RingHoldsRecent<T>(h: seq<T>, c: nat, j: int)
    requires c > 0 && 0 <= j < |h| && |h| - c <= j
    ensures j % c < |RingAfter(h, c)| && RingAfter(h, c)[j % c] == Some(h[j])
  {
    var n := |h| - 1;
    var earlier := h[..n];
    assert h == earlier + [h[n]];
    RingAfterPush(earlier, c, h[n], RingAfter(earlier, c), n % c);
    if j < n {
      RingHoldsRecent(earlier, c, j);
      SlotsDiffer(j, n, c);
    }
  }

  /** A non-zero multiple of a positive `c` is at least `c` in magnitude. */
  lemma MultipleBounds(c: int, k: int)
    requires c > 0
    ensures k >= 1 ==> c * k >= c
    ensures k <= -1 ==> c * k <= -c
  {
    if k >= 1 {
      assert c * k == c + c * (k - 1);
    } else if k <= -1 {
      assert c * k == -c + c * (k + 1);
    }
  }

  /** Adding a multiple of `c` does not change a residue below `c`. */
  lemma ResidueOfMultiplePlus(q: int, c: int, i: int)
    requires c > 0 && 0 <= i < c
    ensures (c * q + i) % c == i
  {
    var x := c * q + i;
    var d := x / c;
    assert x == c * d + x % c;
    assert c * (q - d) == x % c - i;
    MultipleBounds(c, q - d);
  }

  /** A number below `c` is its own residue. */
  lemma SmallResidue(n: int, c: int)
    requires c > 0
    ensures 0 <= n < c ==> n % c == n
  {
    if 0 <= n < c {
      ResidueOfMultiplePlus(0, c, n);
    }
  }

  /** Advancing the cursor modulo `c` tracks the number of pushes modulo `c`. */
  lemma CursorAdvance(n: int, c: int)
    requires c > 0
    ensures (n % c + 1) % c == (n + 1) % c
  {
    var q := n / c;
    assert n == c * q + n % c;
    if n % c + 1 < c {
      ResidueOfMultiplePlus(q, c, n % c + 1);
      ResidueOfMultiplePlus(0, c, n % c + 1);
    } else {
      assert n + 1 == c * (q + 1) + 0;
      ResidueOfMultiplePlus(q + 1, c, 0);
      ResidueOfMultiplePlus(1, c, 0);
    }
  }

  /** The latest index below `n` congruent to `i` is one of the last `c`. */
  lemma LatestCongruent(n: int, c: int, i: int) returns (j: int)
    requires c > 0 && 0 <= i < c && i < n
    ensures n - c <= j < n && 0 <= j && j % c == i
  {
    var q := (n - 1 - i) / c;
    var m := (n - 1 - i) % c;
    assert n - 1 - i == c * q + m && 0 <= m < c;
    j := c * q + i;
    ResidueOfMultiplePlus(q, c, i);
  }

  /** Conversely, every populated slot `i` holds the most recent push whose
      index is congruent to `i` modulo the capacity. */
  lemma SlotHoldsLatest<T>(h: seq<T>, c: nat, i: int)
    requires c > 0 && 0 <= i < |RingAfter(h, c)|
    ensures exists j :: |h| - c <= j < |h| && 0 <= j && j % c == i && RingAfter(h, c)[i] == Some(h[j])
  {
    var j := LatestCongruent(|h|, c, i);
    RingHoldsRecent(h, c, j);
  }

  /** One push in terms of the ring and the cursor before it: the cursor is
      the end of the ring while below capacity, the ring grows by the written
      slot, and the advanced cursor is the new number of pushes modulo `c`. */
  lemma RingAfterPush<T>(h: seq<T>, c: nat, x: T, slots: seq<Option<T>>, pos: nat)
    requires c > 0 && slots == RingAfter(h, c) && pos == |h| % c
    ensures pos < c && (|slots| < c ==> pos == |slots|)
    ensures RingAfter(h + [x], c) == (if |slots| < c then slots + [None] else slots)[pos := Some(x)]
    ensures (pos + 1) % c == |h + [x]| % c
  {
    assert (h + [x])[..|h|] == h;
    CursorAdvance(|h|, c);
    SmallResidue(|h|, c);
  }

  /** The worked example: capacity 5, transitions 0..6 pushed in order. */
  lemma RingExample()
    ensures RingAfter([0, 1, 2, 3, 4, 5, 6], 5) == [Some(5), Some(6), Some(2), Some(3), Some(4)]
  {
    var h := [0, 1, 2, 3, 4, 5, 6];
    RingHoldsRecent(h, 5, 2);
    RingHoldsRecent(h, 5, 3);
    RingHoldsRecent(h, 5, 4);
    RingHoldsRecent(h, 5, 5);
    RingHoldsRecent(h, 5, 6);
  }

  /** `ReplayBuffer` of the agent: `buffer` is the Python list (each populated
      slot a `Some`), `position` the write cursor, and the ghost `history` the
      sequence of every transition ever pushed. */
  class ReplayBuffer {
    const capacity: nat
    var buffer: seq<Option<Transition>>
    var position: nat
    ghost var history: seq<Transition>

    /** The ring invariant: the slots are those of `RingAfter(history)` and the
        cursor is the number of pushes modulo the capacity. */
    ghost predicate Valid()
      reads this
    {
      capacity > 0
      && buffer == RingAfter(history, capacity)
      && position == |history| % capacity
    }

    constructor (capacity: nat)
      requires capacity > 0
      ensures Valid()
      ensures this.capacity == capacity && buffer == [] && position == 0 && history == []
    {
      this.capacity := capacity;
      buffer := [];
      position := 0;
      history := [];
    }

    /** `len(buffer)`: the number of populated slots. */
    function Len(): (n: nat)
      reads this
      requires Valid()
      ensures n <= capacity
      ensures n == if |history| < capacity then |history| else capacity
    {
      |buffer|
    }

    /** Store one transition, appending a slot while below capacity and
        overwriting the slot at the cursor afterwards. */
    method Push(state: seq<real>, action: seq<real>, reward: real, nextState: seq<real>, done: bool)
      requires Valid()
      modifies this
      ensures Valid()
      ensures history == old(history) + [Transition(state, action, reward, nextState, done)]
      ensures position == (old(position) + 1) % capacity
      ensures |buffer| == if old(|buffer|) < capacity then old(|buffer|) + 1 else old(|buffer|)
      ensures old(position) < |buffer| && buffer[old(position)] == Some(Transition(state, action, reward, nextState, done))
      ensures forall i :: 0 <= i < old(|buffer|) && i != old(position) ==> buffer[i] == old(buffer)[i]
    {
      var t := Transition(state, action, reward, nextState, done);
      RingAfterPush(history, capacity, t, buffer, position);
      if |buffer| < capacity {
        buffer := buffer + [None];
      }
      buffer := buffer[position := Some(t)];
      position := (position + 1) % capacity;
      history := history + [t];
    }

    /** `random.sample(buffer, k)` followed by the regrouping into columns; the
        random choice of slots is the argument `draw`. */
    function Sample(k: int, draw: seq<nat>): (r: Result<Batch, SampleError>)
      reads this
      requires Valid()
      requires 0 <= k <= Len() ==> IsDraw(draw, k, Len())
      ensures r.Failure? <==> k <= 0 || k > Len()
      ensures r == Failure(SampleLargerThanPopulationOrNegative) <==> k < 0 || k > Len()
      ensures r == Failure(NotEnoughValuesToUnpack) <==> k == 0
      ensures r.Success? ==> Rectangular(r.value) && |r.value.states| == k
      ensures r.Success? ==> forall i :: 0 <= i < k ==> buffer[draw[i]] == Some(Rows(r.value)[i])
    {
      if k < 0 || k > |buffer| then Failure(SampleLargerThanPopulationOrNegative)
      else if k == 0 then Failure(NotEnoughValuesToUnpack)
      else
        var slots := buffer;
        var rows := seq(k, i requires 0 <= i < k => slots[draw[i]].value);
        RowsOfColumns(rows);
        Success(Columns(rows))
    }
  }
}
