/**
 The vocabulary shared by the three page-replacement engines: the record an
 engine appends for every page reference, the triple every engine returns,
 and small facts about sequences of resident pages.

 Resident memory is a `seq<int>` of page ids; each engine keeps it free of
 duplicates, and its order is part of each engine's behaviour (arrival order
 for FIFO, recency order for LRU, slot order for Optimal).
 */
module Frames {

  datatype Option<T> = None | Some(value: T)

  /** Outcome of one page reference. */
  datatype Status = Hit | Miss

  /** One entry of an engine's `steps` list: the page referenced, whether it
      was resident, and a snapshot of memory right after the reference. */
  datatype Step = Step(page: int, status: Status, memory: seq<int>)

  /** What every engine returns: `(page_faults, page_hits, steps)`. */
  datatype RunResult = RunResult(faults: nat, hits: nat, steps: seq<Step>)

  /** No page id occurs twice. */
  predicate Distinct(s: seq<int>) {
    forall i, j :: 0 <= i < j < |s| ==> s[i] != s[j]
  }

  /** The pages occurring in `s`. */
  function Elems(s: seq<int>): set<int> {
    set x | x in s
  }

  /** Position of the first occurrence of `x` in `s`; `None` where Python's
      `list.index` raises `ValueError`. */
  function IndexOf(s: seq<int>, x: int): (r: Option<nat>)
    ensures r.Some? ==> r.value < |s|
  {
    if |s| == 0 then None
    else if s[0] == x then Some(0)
    else match IndexOf(s[1..], x)
      case None => None
      case Some(k) => Some(k + 1)
  }

  /** `IndexOf` finds `x` exactly when it occurs, and then at its first
      occurrence. */
  lemma {:induction false} IndexOfFacts(s: seq<int>, x: int)
    ensures IndexOf(s, x).Some? <==> x in s
    ensures IndexOf(s, x).Some? ==> s[IndexOf(s, x).value] == x
    ensures IndexOf(s, x).Some? ==> forall j :: 0 <= j < IndexOf(s, x).value ==> s[j] != x
  {
    if |s| > 0 && s[0] != x {
      IndexOfFacts(s[1..], x);
      assert x in s <==> x in s[1..] by {
        assert s == [s[0]] + s[1..];
      }
    }
  }

  /** `s` without its element at position `t`, the rest keeping their order. */
  function RemoveAt(s: seq<int>, t: nat): (r: seq<int>)
    requires t < |s|
    ensures |r| + 1 == |s|
  {
    s[..t] + s[t + 1..]
  }

  /** Removing one position keeps every other value, adds none, and keeps a
      duplicate-free sequence duplicate-free without the removed value. */
  lemma RemoveAtFacts(s: seq<int>, t: nat)
    requires t < |s|
    ensures forall x :: x in RemoveAt(s, t) ==> x in s
    ensures forall x :: x in s && x != s[t] ==> x in RemoveAt(s, t)
    ensures Distinct(s) ==> Distinct(RemoveAt(s, t)) && s[t] !in RemoveAt(s, t)
  {
    var r := RemoveAt(s, t);
    assert forall k :: 0 <= k < |r| ==> r[k] == (if k < t then s[k] else s[k + 1]);
    forall x | x in s && x != s[t] ensures x in r {
      var k :| 0 <= k < |s| && s[k] == x;
      if k < t { assert r[k] == x; } else { assert r[k - 1] == x; }
    }
  }

  /** Number of steps in `steps` whose status is `st`. */
  function Count(steps: seq<Step>, st: Status): (r: nat)
    ensures r <= |steps|
  {
    if |steps| == 0 then 0
    else Count(steps[..|steps| - 1], st) + (if steps[|steps| - 1].status == st then 1 else 0)
  }

  /** Recording one more step bumps exactly the counter of its status. */
  lemma CountAppend(steps: seq<Step>, s: Step, st: Status)
    ensures Count(steps + [s], st) == Count(steps, st) + (if s.status == st then 1 else 0)
  {
    assert (steps + [s])[..|steps|] == steps;
  }

  /** Every step is either a hit or a miss, so the two counters add up. */
  lemma {:induction false} CountPartition(steps: seq<Step>)
    ensures Count(steps, Hit) + Count(steps, Miss) == |steps|
  {
    if |steps| > 0 {
      CountPartition(steps[..|steps| - 1]);
    }
  }

  /** A duplicate-free sequence has as many elements as distinct values. */
  lemma {:induction false} DistinctCardinality(s: seq<int>)
    requires Distinct(s)
    ensures |Elems(s)| == |s|
  {
    if |s| > 0 {
      var init := s[..|s| - 1];
      var last := s[|s| - 1];
      assert s == init + [last];
      assert Elems(s) == Elems(init) + {last};
      assert last !in Elems(init);
      DistinctCardinality(init);
    }
  }

  /** A subset is no larger than its superset. */
  lemma SubsetCardinality(a: set<int>, b: set<int>)
    requires a <= b
    ensures |a| <= |b|
  {
    assert b == a + (b - a);
  }
}
