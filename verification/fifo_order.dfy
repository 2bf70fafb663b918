/**
 What FIFO memory is, stated without the queue operations: it is made of
 the pages of the most recent misses, in the order they were missed. Hits
 play no part, so they can neither reorder memory nor delay an eviction.
 */
module FifoOrder {
  import opened Frames
  import opened Simulator
  import FifoEngine

  /** The pages of the miss steps, in the order the misses happened. */
  function MissPages(steps: seq<Step>): (arrivals: seq<int>)
    ensures |arrivals| == Count(steps, Miss)
  {
    if |steps| == 0 then []
    else
      var last := steps[|steps| - 1];
      MissPages(steps[..|steps| - 1]) + (if last.status == Miss then [last.page] else [])
  }

  /** The last `k` elements of `s` (all of `s` when it is shorter). */
  function Newest(s: seq<int>, k: nat): (r: seq<int>)
    ensures |r| <= k && |r| <= |s|
  {
    if |s| <= k then s else s[|s| - k..]
  }

  /** Keeping the newest `k` arrivals as a queue: one more arrival is
      appended, pushing out the oldest once `k` are held. */
  lemma NewestAppend(arrivals: seq<int>, x: int, k: nat)
    requires k >= 1
    ensures var kept := Newest(arrivals, k);
            Newest(arrivals + [x], k) == (if |kept| < k then kept else kept[1..]) + [x]
  {
    var kept := Newest(arrivals, k);
    if |arrivals| > k {
      var drop := |arrivals| - k;
      assert (arrivals + [x])[drop + 1..] == arrivals[drop + 1..] + [x];
    }
  }

  /** After any prefix of the reference string, FIFO memory is exactly the
      last `frames` missed pages (all of them when fewer), oldest arrival
      first. */
  lemma {:induction false} FifoHoldsNewestArrivals(pages: seq<int>, frames: int, n: nat)
    requires frames >= 1 && n <= |pages|
    ensures Memory(FIFO, pages, frames, n) == Newest(MissPages(Steps(FIFO, pages, frames, n)), frames)
  {
    hide *;
    if n == 0 {
      NothingArrivedYet(pages, frames);
    } else {
      var mem := Memory(FIFO, pages, frames, n - 1);
      var before := Steps(FIFO, pages, frames, n - 1);
      var x := pages[n - 1];
      AccessDispatch(FIFO, pages, n - 1, mem, frames);
      MemoryNext(FIFO, pages, frames, n - 1);
      StepsNext(FIFO, pages, frames, n - 1);
      assert mem == Newest(MissPages(before), frames) by {
        FifoHoldsNewestArrivals(pages, frames, n - 1);
      }
      ArrivalStep(before, mem, x, frames);
    }
  }

  /** Before the first reference memory is empty and nothing has arrived. */
  lemma NothingArrivedYet(pages: seq<int>, frames: int)
    requires frames >= 1
    ensures Memory(FIFO, pages, frames, 0) == Newest(MissPages(Steps(FIFO, pages, frames, 0)), frames)
  {
    Start(FIFO, pages, frames);
  }

  /** One FIFO reference keeps memory equal to the newest arrivals: a miss is
      one more arrival, a hit is none. */
  lemma ArrivalStep(before: seq<Step>, mem: seq<int>, x: int, frames: int)
    requires frames >= 1 && mem == Newest(MissPages(before), frames)
    ensures var step := FifoEngine.Access(mem, x, frames);
            step.memory == Newest(MissPages(before + [step]), frames)
  {
    var step := FifoEngine.Access(mem, x, frames);
    assert (before + [step])[..|before|] == before;
    if step.status == Miss {
      assert MissPages(before + [step]) == MissPages(before) + [x];
      NewestAppend(MissPages(before), x, frames);
    }
  }

  /** A FIFO hit changes nothing in memory. */
  lemma FifoHitKeepsMemory(pages: seq<int>, frames: int, k: nat)
    requires frames >= 1 && k < |pages|
    requires Run(FIFO, pages, frames).steps[k].status == Hit
    ensures Memory(FIFO, pages, frames, k + 1) == Memory(FIFO, pages, frames, k)
  {
    StepAt(FIFO, pages, frames, |pages|, k);
    FifoEngine.HitIffResident(Memory(FIFO, pages, frames, k), pages[k], frames);
  }
}
