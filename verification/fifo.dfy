/**
 The FIFO engine (`PageReplacement.fifo_algorithm`): memory is a queue in
 arrival order. A hit changes nothing; a miss appends the page, first
 dropping the oldest arrival when every frame is taken.
 */
module FifoEngine {
  import opened Frames

  /** One iteration of the FIFO loop: `mem` is the queue before the reference
      to `page`; the result carries the status and the queue after it. */
  function Access(mem: seq<int>, page: int, frames: int): (r: Step)
    requires frames >= 1
    ensures r.page == page
    ensures |mem| <= frames ==> |r.memory| <= frames
  {
    if page in mem then Step(page, Hit, mem)
    else if |mem| < frames then Step(page, Miss, mem + [page])
    else Step(page, Miss, mem[1..] + [page])
  }

  /** A reference hits exactly when the page is queued; a hit leaves the
      queue as it was, and afterwards the page is queued alongside pages
      that were queued before. */
  lemma HitIffResident(mem: seq<int>, page: int, frames: int)
    requires frames >= 1
    ensures Access(mem, page, frames).status == Hit <==> page in mem
    ensures Access(mem, page, frames).status == Hit ==> Access(mem, page, frames).memory == mem
    ensures page in Access(mem, page, frames).memory
    ensures forall x :: x in Access(mem, page, frames).memory ==> x in mem || x == page
  {
  }

  /** A duplicate-free queue stays duplicate-free. */
  lemma KeepsDistinct(mem: seq<int>, page: int, frames: int)
    requires frames >= 1 && Distinct(mem)
    ensures Distinct(Access(mem, page, frames).memory)
  {
  }
}
