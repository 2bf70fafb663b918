/**
 The three static methods of `PageReplacement`, written as loops over the
 reference string the way the source writes them: counters bumped per
 reference, one step appended per reference, list operations on memory.
 Each is proved to return exactly the result of the corresponding fold in
 `Simulator`, so every property proved there holds of these loops.
 */
module PageReplacement {
  import opened Frames
  import opened Simulator
  import FifoEngine
  import LruEngine
  import OptimalEngine

  /** `fifo_algorithm(pages, total_frames)`. */
  method FifoAlgorithm(pages: seq<int>, totalFrames: int) returns (pageFaults: nat, pageHits: nat, steps: seq<Step>)
    requires totalFrames >= 1
    ensures RunResult(pageFaults, pageHits, steps) == Run(FIFO, pages, totalFrames)
    ensures pageFaults == Count(steps, Miss) && pageHits == Count(steps, Hit)
    ensures pageFaults + pageHits == |pages| == |steps|
  {
    var queue: seq<int> := [];
    pageFaults, pageHits, steps := 0, 0, [];
    for i := 0 to |pages|
      invariant queue == Memory(FIFO, pages, totalFrames, i)
      invariant steps == Steps(FIFO, pages, totalFrames, i)
      invariant pageFaults == Count(steps, Miss) && pageHits == Count(steps, Hit)
    {
      ghost var before := steps;
      MemoryNext(FIFO, pages, totalFrames, i);
      StepsNext(FIFO, pages, totalFrames, i);
      var page := pages[i];
      var status;
      FifoEngine.HitIffResident(queue, page, totalFrames);
      AccessDispatch(FIFO, pages, i, queue, totalFrames);
      if page in queue {
        status := Hit;
        pageHits := pageHits + 1;
      } else {
        status := Miss;
        pageFaults := pageFaults + 1;
        if |queue| < totalFrames {
          queue := queue + [page];
        } else {
          queue := queue[1..] + [page];
        }
      }
      steps := steps + [Step(page, status, queue)];
      CountAppend(before, Step(page, status, queue), Miss);
      CountAppend(before, Step(page, status, queue), Hit);
    }
    CountPartition(steps);
  }

  /** `lru_algorithm(pages, total_frames)`; the `OrderedDict` is its key
      order, least recently used first. */
  method LruAlgorithm(pages: seq<int>, totalFrames: int) returns (pageFaults: nat, pageHits: nat, steps: seq<Step>)
    requires totalFrames >= 1
    ensures RunResult(pageFaults, pageHits, steps) == Run(LRU, pages, totalFrames)
    ensures pageFaults == Count(steps, Miss) && pageHits == Count(steps, Hit)
    ensures pageFaults + pageHits == |pages| == |steps|
  {
    var cache: seq<int> := [];
    pageFaults, pageHits, steps := 0, 0, [];
    for i := 0 to |pages|
      invariant cache == Memory(LRU, pages, totalFrames, i)
      invariant steps == Steps(LRU, pages, totalFrames, i)
      invariant pageFaults == Count(steps, Miss) && pageHits == Count(steps, Hit)
    {
      hide Memory, Steps, Count, Access, FifoEngine.Access, OptimalEngine.Access;
      ghost var mem := cache;
      var page := pages[i];
      var status;
      if page in cache {
        status := Hit;
        pageHits := pageHits + 1;
        cache := LruEngine.MoveToEnd(cache, page);
      } else {
        status := Miss;
        pageFaults := pageFaults + 1;
        if |cache| >= totalFrames {
          // popitem(last=False)
          cache := cache[1..];
        }
        cache := cache + [page];
      }
      AccessDispatch(LRU, pages, i, mem, totalFrames);
      Record(LRU, pages, totalFrames, i, mem, Step(page, status, cache));
      steps := steps + [Step(page, status, cache)];
    }
    CountPartition(steps);
  }

  /** `optimal_algorithm(pages, total_frames)`: on a miss with every frame
      taken, `future_refs` is built slot by slot, the first slot with the
      largest distance is chosen, and that page's slot is overwritten. */
  method OptimalAlgorithm(pages: seq<int>, totalFrames: int) returns (pageFaults: nat, pageHits: nat, steps: seq<Step>)
    requires totalFrames >= 1
    ensures RunResult(pageFaults, pageHits, steps) == Run(Optimal, pages, totalFrames)
    ensures pageFaults == Count(steps, Miss) && pageHits == Count(steps, Hit)
    ensures pageFaults + pageHits == |pages| == |steps|
  {
    var memoryStore: seq<int> := [];
    pageFaults, pageHits, steps := 0, 0, [];
    for i := 0 to |pages|
      invariant memoryStore == Memory(Optimal, pages, totalFrames, i)
      invariant steps == Steps(Optimal, pages, totalFrames, i)
      invariant pageFaults == Count(steps, Miss) && pageHits == Count(steps, Hit)
    {
      ghost var before := steps;
      MemoryNext(Optimal, pages, totalFrames, i);
      StepsNext(Optimal, pages, totalFrames, i);
      var page := pages[i];
      var status;
      MemoryInvariant(Optimal, pages, totalFrames, i);
      status, memoryStore := OptimalReference(memoryStore, pages, i, totalFrames);
      if status == Hit {
        pageHits := pageHits + 1;
      } else {
        pageFaults := pageFaults + 1;
      }
      steps := steps + [Step(page, status, memoryStore)];
      CountAppend(before, Step(page, status, memoryStore), Miss);
      CountAppend(before, Step(page, status, memoryStore), Hit);
    }
    CountPartition(steps);
  }

  /** The body of the Optimal loop for reference `pages[i]`. */
  method OptimalReference(memoryStore: seq<int>, pages: seq<int>, i: nat, totalFrames: int)
    returns (status: Status, memoryStore': seq<int>)
    requires i < |pages| && totalFrames >= 1
    requires Distinct(memoryStore)
    ensures Step(pages[i], status, memoryStore') == OptimalEngine.Access(memoryStore, pages, i, totalFrames)
  {
    var page := pages[i];
    if page in memoryStore {
      status, memoryStore' := Hit, memoryStore;
    } else {
      status := Miss;
      if |memoryStore| < totalFrames {
        memoryStore' := memoryStore + [page];
      } else {
        var slot := FurthestSlot(memoryStore, pages, i);
        // memory_store.index(replace_page): the slot itself, as memory has
        // no duplicates
        var replacePage := memoryStore[slot];
        IndexOfFacts(memoryStore, replacePage);
        var at := IndexOf(memoryStore, replacePage).value;
        memoryStore' := memoryStore[at := page];
      }
    }
  }

  /** The look-ahead of the Optimal loop at index `i`: `future_refs` holds,
      slot by slot, the index of the resident page in `pages[i+1..]`, or
      `len(pages)` where `index` raises; then `max` over it keeps the
      earliest slot on a tie. */
  method FurthestSlot(memoryStore: seq<int>, pages: seq<int>, i: nat) returns (slot: nat)
    requires i < |pages| && |memoryStore| > 0
    ensures slot == OptimalEngine.Victim(memoryStore, pages, i)
    ensures OptimalEngine.Furthest(memoryStore, pages, i, slot)
  {
    var futureRefs: seq<nat> := [];
    for s := 0 to |memoryStore|
      invariant |futureRefs| == s
      invariant forall t :: 0 <= t < s ==> futureRefs[t] == OptimalEngine.NextUse(pages, i, memoryStore[t])
    {
      var distance: nat;
      match IndexOf(pages[i + 1..], memoryStore[s]) {
        case Some(k) => distance := k;
        case None => distance := |pages|;
      }
      futureRefs := futureRefs + [distance];
    }
    assert futureRefs == OptimalEngine.Distances(memoryStore, pages, i);
    slot := MaxSlot(futureRefs);
    OptimalEngine.VictimIsFurthest(memoryStore, pages, i);
  }

  /** `max(future_refs, key=future_refs.get)` as the left-to-right scan it
      is: the candidate moves only on a strictly greater distance. */
  method MaxSlot(futureRefs: seq<nat>) returns (slot: nat)
    requires |futureRefs| > 0
    ensures slot < |futureRefs|
    ensures forall t :: 0 <= t < |futureRefs| ==> futureRefs[t] <= futureRefs[slot]
    ensures forall t :: 0 <= t < slot ==> futureRefs[t] < futureRefs[slot]
    ensures slot == OptimalEngine.FirstMax(futureRefs)
  {
    slot := 0;
    for s := 1 to |futureRefs|
      invariant slot == OptimalEngine.FirstMax(futureRefs[..s])
    {
      assert futureRefs[..s + 1][..s] == futureRefs[..s];
      if futureRefs[s] > futureRefs[slot] {
        slot := s;
      }
    }
    assert futureRefs[..|futureRefs|] == futureRefs;
  }
}
