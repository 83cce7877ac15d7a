/**
 * Round-robin rotation of the user-agent list (FetcherDefault.getUserAgent):
 * each call yields the entry at the current index and advances the index
 * modulo the list length; an empty or unset list yields nothing.
 */
module Rotation {
  import opened Wrappers
  import opened Sequences

  /** The index invariant of the rotator: it points into a non-empty list. */
  predicate InRange(agents: seq<string>, index: nat) {
    |agents| > 0 ==> index < |agents|
  }

  /** What one call returns and the index it leaves behind. */
  datatype Rotated = Rotated(agent: Option<string>, index: nat)

  /** One rotation step; it keeps the index invariant. */
  function Step(agents: seq<string>, index: nat): (r: Rotated)
    requires InRange(agents, index)
    ensures InRange(agents, r.index)
    ensures r.agent.Some? <==> |agents| > 0
    ensures |agents| == 0 ==> r.index == index
  {
    if |agents| == 0 then Rotated(None, index)
    else Rotated(Some(agents[index]), (index + 1) % |agents|)
  }

  /** The agents returned by `count` consecutive calls starting at `index`. */
  function Rotations(agents: seq<string>, index: nat, count: nat): (r: seq<Option<string>>)
    requires InRange(agents, index)
    ensures |r| == count
    decreases count
  {
    if count == 0 then []
    else
      var st := Step(agents, index);
      [st.agent] + Rotations(agents, st.index, count - 1)
  }

  /** Euclidean division leaves remainder `r` for `a * n + r` when `0 <= r < n`. */
  lemma ModUnique(y: int, a: int, r: int, n: int)
    requires 0 < n && 0 <= r < n && y == a * n + r
    ensures y % n == r
  {
    var q := y / n;
    var d := q - a;
    assert d * n == r - y % n by {
      assert q * n + y % n == a * n + r;
      assert d * n == q * n - a * n;
    }
  }

  /** Call number `j` (from 0) after starting at `index` returns entry `(index + j) mod n`. */
  lemma {:induction false} RotationsAt(agents: seq<string>, index: nat, count: nat, j: nat)
    requires |agents| > 0 && index < |agents| && j < count
    ensures Rotations(agents, index, count)[j] == Some(agents[(index + j) % |agents|])
    decreases j
  {
    var n := |agents|;
    if j == 0 {
      ModUnique(index, 0, index, n);
    } else {
      var next := (index + 1) % n;
      RotationsAt(agents, next, count - 1, j - 1);
      if index + 1 < n {
        ModUnique(index + 1, 0, index + 1, n);
        assert next + (j - 1) == index + j;
      } else {
        ModUnique(n, 1, 0, n);
        assert next == 0;
        ModUnique(index + j, (j - 1) / n + 1, (j - 1) % n, n);
      }
    }
  }

  /** An empty or unset list always yields nothing and never moves the index. */
  lemma {:induction false} EmptyNeverRotates(index: nat, count: nat)
    ensures forall j :: 0 <= j < count ==> Rotations([], index, count)[j] == None
  {
    if count > 0 {
      EmptyNeverRotates(index, count - 1);
      assert Rotations([], index, count) == [None] + Rotations([], index, count - 1);
    }
  }

  /**
   * Round robin: from index 0, `n` consecutive calls return the list in
   * order, and call `n + 1` returns the first entry again.
   */
  lemma RoundRobin(agents: seq<string>)
    requires |agents| > 0
    ensures Rotations(agents, 0, |agents| + 1)
         == seq(|agents|, i requires 0 <= i < |agents| => Some(agents[i])) + [Some(agents[0])]
  {
    var n := |agents|;
    var r := Rotations(agents, 0, n + 1);
    forall j | 0 <= j <= n
      ensures r[j] == if j < n then Some(agents[j]) else Some(agents[0])
    {
      RotationsAt(agents, 0, n + 1, j);
      if j < n {
        ModUnique(j, 0, j, n);
      } else {
        ModUnique(n, 1, 0, n);
      }
    }
  }

  /**
   * Fairness: over any `n` consecutive calls on a list without repeats (as
   * init leaves it), no agent is returned twice.
   */
  lemma NoRepeatWithinCycle(agents: seq<string>, index: nat)
    requires |agents| > 0 && index < |agents| && NoDup(agents)
    ensures NoDup(Rotations(agents, index, |agents|))
  {
    var n := |agents|;
    var r := Rotations(agents, index, n);
    forall i, j | 0 <= i < j < n
      ensures r[i] != r[j]
    {
      RotationsAt(agents, index, n, i);
      RotationsAt(agents, index, n, j);
      var a := if index + i < n then index + i else index + i - n;
      var b := if index + j < n then index + j else index + j - n;
      ModUnique(index + i, if index + i < n then 0 else 1, a, n);
      ModUnique(index + j, if index + j < n then 0 else 1, b, n);
      assert a != b;
    }
  }
}
