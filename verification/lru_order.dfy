/**
 What LRU memory is, stated without the `OrderedDict` operations: after any
 prefix of the reference string it holds the most recently used distinct
 pages — as many as fit — listed by their last use, most recent last.
 */
module LruOrder {
  import opened Frames
  import opened Simulator
  import LruEngine

  /** Index of the last reference to `x` in `p`. */
  function LastUse(p: seq<int>, x: int): (r: nat)
    requires x in p
    ensures r < |p| && p[r] == x
    ensures forall j :: r < j < |p| ==> p[j] != x
  {
    if p[|p| - 1] == x then |p| - 1
    else
      assert x in p[..|p| - 1] by {
        var j :| 0 <= j < |p| && p[j] == x;
        assert p[..|p| - 1][j] == x;
      }
      LastUse(p[..|p| - 1], x)
  }

  /** Residents appear in order of their last use in `p`, most recent last. */
  ghost predicate OrderedByLastUse(mem: seq<int>, p: seq<int>)
    requires forall x :: x in mem ==> x in p
  {
    forall i, j :: 0 <= i < j < |mem| ==> LastUse(p, mem[i]) < LastUse(p, mem[j])
  }

  /** Every page of `p` that is not resident, other than `spared`, was last
      used before every resident page. */
  ghost predicate OlderThanResidentsExcept(mem: seq<int>, p: seq<int>, spared: Option<int>)
    requires forall x :: x in mem ==> x in p
  {
    forall y, i :: y in p && y !in mem && Some(y) != spared && 0 <= i < |mem| ==>
      LastUse(p, y) < LastUse(p, mem[i])
  }

  /** `mem` lists, in order of last use in `p`, the up to `k` most recently
      used distinct pages of `p`: every page of `p` left out was last used
      before every page kept, and pages are left out only when all `k`
      frames are taken. */
  ghost predicate RecencyOrdered(mem: seq<int>, p: seq<int>, k: int) {
    && Distinct(mem)
    && |mem| <= k
    && (forall x :: x in mem ==> x in p)
    && OrderedByLastUse(mem, p)
    && OlderThanResidentsExcept(mem, p, None)
    && (|mem| < k ==> forall x :: x in p ==> x in mem)
  }

  /** Referencing `x` makes it the last used page and leaves every other
      page's last use where it was. */
  lemma LastUseAppend(p: seq<int>, x: int, y: int)
    requires y in p + [x]
    ensures LastUse(p + [x], y) == if y == x then |p| else LastUse(p, y)
  {
    if y != x {
      assert (p + [x])[..|p|] == p;
    }
  }

  /** Dropping one resident keeps the others in order. */
  lemma {:induction false} OrderedRemoveAt(mem: seq<int>, p: seq<int>, t: nat)
    requires t < |mem| && forall x :: x in mem ==> x in p
    requires OrderedByLastUse(mem, p)
    ensures forall x :: x in RemoveAt(mem, t) ==> x in p
    ensures OrderedByLastUse(RemoveAt(mem, t), p)
  {
    var rest := RemoveAt(mem, t);
    RemoveAtFacts(mem, t);
    forall i, j | 0 <= i < j < |rest| ensures LastUse(p, rest[i]) < LastUse(p, rest[j]) {
      var i' := if i < t then i else i + 1;
      var j' := if j < t then j else j + 1;
      assert rest[i] == mem[i'] && rest[j] == mem[j'] && i' < j';
    }
  }

  /** Appending the page just referenced keeps residents in order of last use. */
  lemma {:induction false} OrderedAppend(kept: seq<int>, p: seq<int>, x: int)
    requires forall y :: y in kept ==> y in p
    requires OrderedByLastUse(kept, p) && x !in kept
    ensures forall y :: y in kept + [x] ==> y in p + [x]
    ensures OrderedByLastUse(kept + [x], p + [x])
  {
    var mem' := kept + [x];
    forall i, j | 0 <= i < j < |mem'| ensures LastUse(p + [x], mem'[i]) < LastUse(p + [x], mem'[j]) {
      LastUseAppend(p, x, mem'[i]);
      LastUseAppend(p, x, mem'[j]);
      assert mem'[i] == kept[i];
      if j < |kept| {
        assert mem'[j] == kept[j];
      }
    }
  }

  /** Appending the page just referenced: every page left out is older than
      every resident once the only exception, `x`, is resident. */
  lemma {:induction false} OlderAppend(kept: seq<int>, p: seq<int>, x: int)
    requires forall y :: y in kept ==> y in p
    requires OlderThanResidentsExcept(kept, p, Some(x)) && x !in kept
    ensures forall y :: y in kept + [x] ==> y in p + [x]
    ensures OlderThanResidentsExcept(kept + [x], p + [x], None)
  {
    var mem' := kept + [x];
    forall y, i | y in p + [x] && y !in mem' && 0 <= i < |mem'|
      ensures LastUse(p + [x], y) < LastUse(p + [x], mem'[i])
    {
      LastUseAppend(p, x, y);
      LastUseAppend(p, x, mem'[i]);
      if i < |kept| {
        assert mem'[i] == kept[i];
      }
    }
  }

  /** An LRU hit on `x` keeps the order invariant. */
  lemma {:induction false} HitKeepsRecency(mem: seq<int>, p: seq<int>, k: int, x: int)
    requires k >= 1 && RecencyOrdered(mem, p, k) && x in mem
    ensures RecencyOrdered(LruEngine.Access(mem, x, k).memory, p + [x], k)
  {
    IndexOfFacts(mem, x);
    var t := IndexOf(mem, x).value;
    var rest := RemoveAt(mem, t);
    RemoveAtFacts(mem, t);
    assert LruEngine.Access(mem, x, k).memory == rest + [x];
    OrderedRemoveAt(mem, p, t);
    OrderedAppend(rest, p, x);
    assert OlderThanResidentsExcept(rest, p, Some(x));
    OlderAppend(rest, p, x);
  }

  /** Dropping the head, the least recently used resident, leaves every
      non-resident page older than every remaining resident. */
  lemma {:induction false} DropHeadKeepsOlder(mem: seq<int>, p: seq<int>, x: int)
    requires |mem| > 0 && forall y :: y in mem ==> y in p
    requires OrderedByLastUse(mem, p) && OlderThanResidentsExcept(mem, p, None)
    ensures forall y :: y in mem[1..] ==> y in p
    ensures OlderThanResidentsExcept(mem[1..], p, Some(x))
  {
    var rest := mem[1..];
    forall y, i | y in p && y !in rest && Some(y) != Some(x) && 0 <= i < |rest|
      ensures LastUse(p, y) < LastUse(p, rest[i])
    {
      assert rest[i] == mem[i + 1];
      if y == mem[0] {
        assert LastUse(p, mem[0]) < LastUse(p, mem[i + 1]);
      }
    }
  }

  /** An LRU miss on `x` with every frame taken keeps the order invariant:
      the dropped head is the least recently used resident. */
  lemma {:induction false} FullMissKeepsRecency(mem: seq<int>, p: seq<int>, k: int, x: int)
    requires k >= 1 && RecencyOrdered(mem, p, k) && x !in mem && |mem| >= k
    ensures RecencyOrdered(LruEngine.Access(mem, x, k).memory, p + [x], k)
  {
    var rest := RemoveAt(mem, 0);
    RemoveAtFacts(mem, 0);
    IndexOfFacts(mem, x);
    assert rest == mem[1..];
    assert LruEngine.Access(mem, x, k).memory == rest + [x];
    OrderedRemoveAt(mem, p, 0);
    OrderedAppend(rest, p, x);
    DropHeadKeepsOlder(mem, p, x);
    OlderAppend(rest, p, x);
  }

  /** An LRU miss on `x` with a free frame keeps the order invariant. */
  lemma {:induction false} FreeMissKeepsRecency(mem: seq<int>, p: seq<int>, k: int, x: int)
    requires k >= 1 && RecencyOrdered(mem, p, k) && x !in mem && |mem| < k
    ensures RecencyOrdered(LruEngine.Access(mem, x, k).memory, p + [x], k)
  {
    IndexOfFacts(mem, x);
    assert LruEngine.Access(mem, x, k).memory == mem + [x];
    OrderedAppend(mem, p, x);
    OlderAppend(mem, p, x);
    forall y | y in p + [x] ensures y in mem + [x] {
      if y != x {
        assert y in p;
      }
    }
  }

  /** One LRU reference keeps the order invariant. */
  lemma StepKeepsRecency(mem: seq<int>, p: seq<int>, k: int, x: int)
    requires k >= 1 && RecencyOrdered(mem, p, k)
    ensures RecencyOrdered(LruEngine.Access(mem, x, k).memory, p + [x], k)
  {
    if x in mem {
      HitKeepsRecency(mem, p, k, x);
    } else if |mem| >= k {
      FullMissKeepsRecency(mem, p, k, x);
    } else {
      FreeMissKeepsRecency(mem, p, k, x);
    }
  }

  /** After any prefix of the reference string, LRU memory holds the most
      recently used distinct pages that fit, ordered by last use, most
      recent last. */
  lemma {:induction false} LruHoldsMostRecent(pages: seq<int>, frames: int, n: nat)
    requires frames >= 1 && n <= |pages|
    ensures RecencyOrdered(Memory(LRU, pages, frames, n), pages[..n], frames)
  {
    if n > 0 {
      var mem := Memory(LRU, pages, frames, n - 1);
      var before := pages[..n - 1];
      var x := pages[n - 1];
      assert Memory(LRU, pages, frames, n) == LruEngine.Access(mem, x, frames).memory by {
        assert Access(LRU, pages, n - 1, mem, frames) == LruEngine.Access(mem, x, frames);
      }
      assert pages[..n] == before + [x];
      assert RecencyOrdered(LruEngine.Access(mem, x, frames).memory, before + [x], frames) by {
        LruHoldsMostRecent(pages, frames, n - 1);
        StepKeepsRecency(mem, before, frames, x);
      }
    }
  }
}
