/**
 The LRU engine (`PageReplacement.lru_algorithm`): memory is the key order of
 an `OrderedDict`, least recently used first. A hit moves the page to the
 end; a miss appends it, first dropping the head when every frame is taken.
 */
module LruEngine {
  import opened Frames

  /** One iteration of the LRU loop: `mem` is the key order before the
      reference to `page`; the result carries the status and the key order
      after it. */
  function Access(mem: seq<int>, page: int, frames: int): (r: Step)
    requires frames >= 1
    ensures r.page == page
    ensures |r.memory| > 0 && r.memory[|r.memory| - 1] == page
    ensures |mem| <= frames ==> |r.memory| <= frames
  {
    if page in mem then Step(page, Hit, MoveToEnd(mem, page))
    else Step(page, Miss, (if |mem| >= frames then mem[1..] else mem) + [page])
  }

  /** `move_to_end(page)` on a key of the `OrderedDict`: the key leaves its
      place and becomes the last one. */
  function MoveToEnd(mem: seq<int>, page: int): (r: seq<int>)
    requires page in mem
    ensures |r| == |mem|
  {
    IndexOfFacts(mem, page);
    RemoveAt(mem, IndexOf(mem, page).value) + [page]
  }

  /** A reference hits exactly when the page is a key; a hit keeps every
      key, and afterwards the keys are the page and keys there before. */
  lemma HitIffResident(mem: seq<int>, page: int, frames: int)
    requires frames >= 1
    ensures Access(mem, page, frames).status == Hit <==> page in mem
    ensures Access(mem, page, frames).status == Hit ==>
              |Access(mem, page, frames).memory| == |mem| && forall x :: x in mem ==> x in Access(mem, page, frames).memory
    ensures page in Access(mem, page, frames).memory
    ensures forall x :: x in Access(mem, page, frames).memory ==> x in mem || x == page
  {
    IndexOfFacts(mem, page);
    if IndexOf(mem, page).Some? {
      RemoveAtFacts(mem, IndexOf(mem, page).value);
    }
  }

  /** Duplicate-free keys stay duplicate-free. */
  lemma KeepsDistinct(mem: seq<int>, page: int, frames: int)
    requires frames >= 1 && Distinct(mem)
    ensures Distinct(Access(mem, page, frames).memory)
  {
    IndexOfFacts(mem, page);
    if IndexOf(mem, page).Some? {
      RemoveAtFacts(mem, IndexOf(mem, page).value);
    }
  }
}
