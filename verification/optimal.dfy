/**
 The Optimal engine (`PageReplacement.optimal_algorithm`): memory is a list
 of slots. A hit changes nothing; a miss with a free frame appends the page;
 a miss with every frame taken looks ahead in the reference string and
 overwrites the slot of the resident page whose next use is furthest away.
 */
module OptimalEngine {
  import opened Frames

  /** The look-ahead distance of resident page `q` at reference index `i`:
      its position in `pages[i+1..]`, or the sentinel `|pages|` when it is
      never referenced again. */
  function NextUse(pages: seq<int>, i: nat, q: int): (d: nat)
    requires i < |pages|
    ensures d <= |pages|
  {
    match IndexOf(pages[i + 1..], q)
    case Some(k) => k
    case None => |pages|
  }

  /** The distance is the sentinel exactly when `q` is never referenced
      after `i`; otherwise `pages[i + 1 + d]` is the next reference to `q`. */
  lemma NextUseFacts(pages: seq<int>, i: nat, q: int)
    requires i < |pages|
    ensures NextUse(pages, i, q) == |pages| <==> q !in pages[i + 1..]
    ensures NextUse(pages, i, q) != |pages| ==>
              i + 1 + NextUse(pages, i, q) < |pages| && pages[i + 1 + NextUse(pages, i, q)] == q
    ensures NextUse(pages, i, q) != |pages| ==> forall j :: i < j < i + 1 + NextUse(pages, i, q) ==> pages[j] != q
  {
    var rest := pages[i + 1..];
    IndexOfFacts(rest, q);
    if IndexOf(rest, q).Some? {
      var k := IndexOf(rest, q).value;
      forall j | i < j < i + 1 + k ensures pages[j] != q {
        assert pages[j] == rest[j - i - 1];
      }
    }
  }

  /** Conversely, the distance is pinned down by the reference string: it is
      `d` when `pages[i + 1 + d]` is the first later reference to `q`, and the
      sentinel when there is none. */
  lemma NextUseExact(pages: seq<int>, i: nat, q: int, d: nat)
    requires i < |pages|
    requires || (i + 1 + d < |pages| && pages[i + 1 + d] == q && q !in pages[i + 1..i + 1 + d])
             || (d == |pages| && q !in pages[i + 1..])
    ensures NextUse(pages, i, q) == d
  {
    NextUseFacts(pages, i, q);
    if d != |pages| {
      assert pages[i + 1..][d] == q;
      assert forall j :: i + 1 <= j < i + 1 + d ==> pages[j] == pages[i + 1..i + 1 + d][j - i - 1];
    }
  }

  /** The real distances are strictly below the sentinel: a page that recurs
      always ranks nearer than one that never does. */
  lemma SentinelExceedsRealDistances(pages: seq<int>, i: nat, q: int, q': int)
    requires i < |pages|
    requires q in pages[i + 1..] && q' !in pages[i + 1..]
    ensures NextUse(pages, i, q) < NextUse(pages, i, q')
  {
    NextUseFacts(pages, i, q);
    NextUseFacts(pages, i, q');
  }

  /** Two different pages can share a distance only when neither recurs:
      ties are confined to the sentinel. */
  lemma TiesOnlyAtSentinel(pages: seq<int>, i: nat, q: int, q': int)
    requires i < |pages| && q != q'
    requires NextUse(pages, i, q) == NextUse(pages, i, q')
    ensures NextUse(pages, i, q) == |pages|
    ensures q !in pages[i + 1..] && q' !in pages[i + 1..]
  {
    NextUseFacts(pages, i, q);
    NextUseFacts(pages, i, q');
  }

  /** The slot `max(future_refs, key=future_refs.get)` picks: Python's `max`
      scans left to right and replaces its candidate only on a strictly
      greater key, so the earliest maximal slot wins. */
  function FirstMax(ds: seq<nat>): (v: nat)
    requires |ds| > 0
    ensures v < |ds|
    ensures forall j :: 0 <= j < |ds| ==> ds[j] <= ds[v]
    ensures forall j :: 0 <= j < v ==> ds[j] < ds[v]
  {
    if |ds| == 1 then 0
    else
      var v := FirstMax(ds[..|ds| - 1]);
      if ds[|ds| - 1] > ds[v] then |ds| - 1 else v
  }

  /** `future_refs` as a list indexed by slot. */
  function Distances(mem: seq<int>, pages: seq<int>, i: nat): (ds: seq<nat>)
    requires i < |pages|
    ensures |ds| == |mem|
  {
    seq(|mem|, s requires 0 <= s < |mem| => NextUse(pages, i, mem[s]))
  }

  /** The page that will be used furthest in the future sits at slot `v`;
      every earlier slot holds a page used strictly sooner. */
  ghost predicate Furthest(mem: seq<int>, pages: seq<int>, i: nat, v: nat)
    requires i < |pages|
  {
    && v < |mem|
    && (forall t :: 0 <= t < |mem| ==> NextUse(pages, i, mem[t]) <= NextUse(pages, i, mem[v]))
    && (forall t :: 0 <= t < v ==> NextUse(pages, i, mem[t]) < NextUse(pages, i, mem[v]))
  }

  /** The victim slot on a miss with every frame taken. */
  function Victim(mem: seq<int>, pages: seq<int>, i: nat): (v: nat)
    requires i < |pages| && |mem| > 0
    ensures v < |mem|
  {
    FirstMax(Distances(mem, pages, i))
  }

  /** The victim holds the page used furthest in the future, and every
      earlier slot holds a page used strictly sooner. */
  lemma VictimIsFurthest(mem: seq<int>, pages: seq<int>, i: nat)
    requires i < |pages| && |mem| > 0
    ensures Furthest(mem, pages, i, Victim(mem, pages, i))
  {
    var ds := Distances(mem, pages, i);
    assert forall t :: 0 <= t < |mem| ==> ds[t] == NextUse(pages, i, mem[t]);
  }

  /** Only one slot is furthest in the sense of `Furthest`, so it is the
      victim. */
  lemma VictimExact(mem: seq<int>, pages: seq<int>, i: nat, v: nat)
    requires i < |pages| && |mem| > 0
    requires Furthest(mem, pages, i, v)
    ensures Victim(mem, pages, i) == v
  {
    VictimIsFurthest(mem, pages, i);
  }

  /** One iteration of the Optimal loop at reference index `i`: `mem` is the
      slot list before the reference to `pages[i]`. */
  function Access(mem: seq<int>, pages: seq<int>, i: nat, frames: int): (r: Step)
    requires i < |pages| && frames >= 1
    ensures r.page == pages[i]
    ensures |mem| <= frames ==> |r.memory| <= frames
    ensures |mem| <= |r.memory|
  {
    var page := pages[i];
    if page in mem then Step(page, Hit, mem)
    else if |mem| < frames then Step(page, Miss, mem + [page])
    else Step(page, Miss, mem[Victim(mem, pages, i) := page])
  }

  /** A reference hits exactly when the page occupies a slot; a hit leaves
      the slots as they were, and afterwards the page occupies a slot next
      to pages that did before. */
  lemma HitIffResident(mem: seq<int>, pages: seq<int>, i: nat, frames: int)
    requires i < |pages| && frames >= 1
    ensures Access(mem, pages, i, frames).status == Hit <==> pages[i] in mem
    ensures Access(mem, pages, i, frames).status == Hit ==> Access(mem, pages, i, frames).memory == mem
    ensures pages[i] in Access(mem, pages, i, frames).memory
    ensures forall x :: x in Access(mem, pages, i, frames).memory ==> x in mem || x == pages[i]
  {
    if pages[i] !in mem && |mem| >= frames {
      var v := Victim(mem, pages, i);
      assert mem[v := pages[i]][v] == pages[i];
    }
  }

  /** Duplicate-free slots stay duplicate-free. */
  lemma KeepsDistinct(mem: seq<int>, pages: seq<int>, i: nat, frames: int)
    requires i < |pages| && frames >= 1 && Distinct(mem)
    ensures Distinct(Access(mem, pages, i, frames).memory)
  {
  }

  /** Occupied slots stay where they are: at most one of them changes, and
      only to the referenced page, and only on a miss with every frame
      taken. */
  lemma SlotStability(mem: seq<int>, pages: seq<int>, i: nat, frames: int)
    requires i < |pages| && frames >= 1
    ensures forall s :: 0 <= s < |mem| && Access(mem, pages, i, frames).memory[s] != mem[s] ==>
              Access(mem, pages, i, frames).memory[s] == pages[i] && pages[i] !in mem && |mem| >= frames
    ensures forall s, t :: 0 <= s < t < |mem| && Access(mem, pages, i, frames).memory[s] != mem[s] ==>
              Access(mem, pages, i, frames).memory[t] == mem[t]
  {
  }

  /** On a miss with every frame taken, the overwritten slot is the furthest
      one, and the memory keeps its length. */
  lemma EvictsFurthest(mem: seq<int>, pages: seq<int>, i: nat, frames: int)
    requires i < |pages| && frames >= 1
    requires pages[i] !in mem && |mem| >= frames
    ensures |Access(mem, pages, i, frames).memory| == |mem|
    ensures forall s :: 0 <= s < |mem| && Access(mem, pages, i, frames).memory[s] != mem[s] ==> Furthest(mem, pages, i, s)
  {
    VictimIsFurthest(mem, pages, i);
  }

  /** If the evicted page is ever referenced again, every other resident page
      is referenced again strictly sooner. */
  lemma {:induction false} RecurringVictimIsUnique(mem: seq<int>, pages: seq<int>, i: nat, v: nat)
    requires i < |pages| && Distinct(mem)
    requires Furthest(mem, pages, i, v)
    requires mem[v] in pages[i + 1..]
    ensures forall t :: 0 <= t < |mem| && t != v ==> NextUse(pages, i, mem[t]) < NextUse(pages, i, mem[v])
  {
    forall t | 0 <= t < |mem| && t != v
      ensures NextUse(pages, i, mem[t]) < NextUse(pages, i, mem[v])
    {
      if NextUse(pages, i, mem[t]) == NextUse(pages, i, mem[v]) {
        TiesOnlyAtSentinel(pages, i, mem[t], mem[v]);
        assert false;
      }
    }
  }
}
