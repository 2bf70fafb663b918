/**
 The three engines as one fold over the reference string. Each engine is a
 loop that, for every index `i`, processes `pages[i]` against the memory left
 by the previous iterations and appends one step; this module states that
 loop index by index, so that facts about "memory after `n` references" can
 be proved by induction on `n`. The Optimal engine needs the whole string
 and the index (for its look-ahead), so every transition receives both.
 */
module Simulator {
  import opened Frames
  import FifoEngine
  import LruEngine
  import OptimalEngine

  datatype Policy = FIFO | LRU | Optimal

  /** Processes reference `pages[i]` against memory `mem` with the chosen policy. */
  function Access(policy: Policy, pages: seq<int>, i: nat, mem: seq<int>, frames: int): (r: Step)
    requires i < |pages| && frames >= 1
    ensures r.page == pages[i]
    ensures |mem| <= frames ==> |r.memory| <= frames
  {
    match policy
    case FIFO => FifoEngine.Access(mem, pages[i], frames)
    case LRU => LruEngine.Access(mem, pages[i], frames)
    case Optimal => OptimalEngine.Access(mem, pages, i, frames)
  }

  /** The transition is the chosen engine's loop body. */
  lemma AccessDispatch(policy: Policy, pages: seq<int>, i: nat, mem: seq<int>, frames: int)
    requires i < |pages| && frames >= 1
    ensures policy == FIFO ==> Access(policy, pages, i, mem, frames) == FifoEngine.Access(mem, pages[i], frames)
    ensures policy == LRU ==> Access(policy, pages, i, mem, frames) == LruEngine.Access(mem, pages[i], frames)
    ensures policy == Optimal ==> Access(policy, pages, i, mem, frames) == OptimalEngine.Access(mem, pages, i, frames)
  {
  }

  /** What every policy shares: a reference hits exactly when its page is
      resident, leaves its page resident next to pages resident before, and
      keeps memory free of duplicates. */
  lemma AccessFacts(policy: Policy, pages: seq<int>, i: nat, mem: seq<int>, frames: int)
    requires i < |pages| && frames >= 1
    ensures Access(policy, pages, i, mem, frames).status == Hit <==> pages[i] in mem
    ensures pages[i] in Access(policy, pages, i, mem, frames).memory
    ensures forall x :: x in Access(policy, pages, i, mem, frames).memory ==> x in mem || x == pages[i]
    ensures Distinct(mem) ==> Distinct(Access(policy, pages, i, mem, frames).memory)
  {
    match policy
    case FIFO =>
      FifoEngine.HitIffResident(mem, pages[i], frames);
      if Distinct(mem) { FifoEngine.KeepsDistinct(mem, pages[i], frames); }
    case LRU =>
      LruEngine.HitIffResident(mem, pages[i], frames);
      if Distinct(mem) { LruEngine.KeepsDistinct(mem, pages[i], frames); }
    case Optimal =>
      OptimalEngine.HitIffResident(mem, pages, i, frames);
      if Distinct(mem) { OptimalEngine.KeepsDistinct(mem, pages, i, frames); }
  }

  /** Resident memory after the first `n` references; the engine starts
      with empty memory. */
  function Memory(policy: Policy, pages: seq<int>, frames: int, n: nat): seq<int>
    requires frames >= 1 && n <= |pages|
    decreases n
  {
    if n == 0 then []
    else Access(policy, pages, n - 1, Memory(policy, pages, frames, n - 1), frames).memory
  }

  /** Memory after any number of references never holds more pages than
      frames, never holds a page twice, and holds only pages already
      referenced. */
  lemma {:induction false} MemoryInvariant(policy: Policy, pages: seq<int>, frames: int, n: nat)
    requires frames >= 1 && n <= |pages|
    ensures Distinct(Memory(policy, pages, frames, n))
    ensures |Memory(policy, pages, frames, n)| <= frames
    ensures forall x :: x in Memory(policy, pages, frames, n) ==> x in pages[..n]
    decreases n
  {
    hide Access;
    if n > 0 {
      var mem := Memory(policy, pages, frames, n - 1);
      var step := Access(policy, pages, n - 1, mem, frames);
      MemoryInvariant(policy, pages, frames, n - 1);
      AccessFacts(policy, pages, n - 1, mem, frames);
      InvariantStep(mem, step.memory, pages[..n - 1], pages[n - 1], frames);
      assert pages[..n] == pages[..n - 1] + [pages[n - 1]];
      MemoryNext(policy, pages, frames, n - 1);
    } else {
      assert Memory(policy, pages, frames, 0) == [];
    }
  }

  /** The invariant of `MemoryInvariant` carried across one transition
      from `mem` to `mem'` on a reference to `x`. */
  lemma InvariantStep(mem: seq<int>, mem': seq<int>, p: seq<int>, x: int, frames: int)
    requires Distinct(mem) && |mem| <= frames && forall y :: y in mem ==> y in p
    requires Distinct(mem) ==> Distinct(mem')
    requires |mem| <= frames ==> |mem'| <= frames
    requires forall y :: y in mem' ==> y in mem || y == x
    ensures Distinct(mem') && |mem'| <= frames
    ensures forall y :: y in mem' ==> y in p + [x]
  {
  }

  /** Before the first reference memory is empty and no step is recorded. */
  lemma Start(policy: Policy, pages: seq<int>, frames: int)
    requires frames >= 1
    ensures Memory(policy, pages, frames, 0) == [] && Steps(policy, pages, frames, 0) == []
    ensures Count(Steps(policy, pages, frames, 0), Miss) == 0 && Count(Steps(policy, pages, frames, 0), Hit) == 0
  {
  }

  /** One more reference: the memory it leaves is the transition applied to
      the memory before it. */
  lemma MemoryNext(policy: Policy, pages: seq<int>, frames: int, n: nat)
    requires frames >= 1 && n < |pages|
    ensures Memory(policy, pages, frames, n + 1)
         == Access(policy, pages, n, Memory(policy, pages, frames, n), frames).memory
  {
  }

  /** The steps recorded for the first `n` references, one appended per
      reference as the loop does. */
  function Steps(policy: Policy, pages: seq<int>, frames: int, n: nat): (steps: seq<Step>)
    requires frames >= 1 && n <= |pages|
    ensures |steps| == n
    decreases n
  {
    if n == 0 then []
    else Steps(policy, pages, frames, n - 1)
         + [Access(policy, pages, n - 1, Memory(policy, pages, frames, n - 1), frames)]
  }

  /** One more reference appends one step: the transition applied to the
      memory before it. */
  lemma StepsNext(policy: Policy, pages: seq<int>, frames: int, n: nat)
    requires frames >= 1 && n < |pages|
    ensures Steps(policy, pages, frames, n + 1)
         == Steps(policy, pages, frames, n) + [Access(policy, pages, n, Memory(policy, pages, frames, n), frames)]
  {
  }

  lemma WholePrefix(steps: seq<Step>)
    ensures steps[..|steps|] == steps
  {
  }

  lemma AppendKeepsPrefix(steps: seq<Step>, last: Step, m: nat)
    requires m <= |steps|
    ensures (steps + [last])[..m] == steps[..m]
  {
  }

  /** Later references do not rewrite earlier steps: the first `m` steps
      of a longer run are the steps of the first `m` references. */
  lemma {:induction false} PrefixStable(policy: Policy, pages: seq<int>, frames: int, n: nat, m: nat)
    requires frames >= 1 && m <= n <= |pages|
    ensures Steps(policy, pages, frames, n)[..m] == Steps(policy, pages, frames, m)
    decreases n
  {
    hide Access;
    if m < n {
      var prev := Steps(policy, pages, frames, n - 1);
      var last := Access(policy, pages, n - 1, Memory(policy, pages, frames, n - 1), frames);
      StepsNext(policy, pages, frames, n - 1);
      AppendKeepsPrefix(prev, last, m);
      PrefixStable(policy, pages, frames, n - 1, m);
    } else {
      WholePrefix(Steps(policy, pages, frames, n));
    }
  }

  /** Each reference bumps exactly one counter: the fault counter when its
      page is not resident, the hit counter when it is. */
  lemma CountersNext(policy: Policy, pages: seq<int>, frames: int, n: nat)
    requires frames >= 1 && n < |pages|
    ensures Count(Steps(policy, pages, frames, n + 1), Miss)
         == Count(Steps(policy, pages, frames, n), Miss) + (if pages[n] in Memory(policy, pages, frames, n) then 0 else 1)
    ensures Count(Steps(policy, pages, frames, n + 1), Hit)
         == Count(Steps(policy, pages, frames, n), Hit) + (if pages[n] in Memory(policy, pages, frames, n) then 1 else 0)
  {
    hide *;
    var mem := Memory(policy, pages, frames, n);
    var step := Access(policy, pages, n, mem, frames);
    StepsNext(policy, pages, frames, n);
    AccessFacts(policy, pages, n, mem, frames);
    CountAppend(Steps(policy, pages, frames, n), step, Miss);
    CountAppend(Steps(policy, pages, frames, n), step, Hit);
  }

  /** Records one more reference: given the step the transition takes from
      the memory after `k` references, the memory, the steps and the
      counters after `k + 1` references follow from it. */
  lemma Record(policy: Policy, pages: seq<int>, frames: int, k: nat, mem: seq<int>, step: Step)
    requires frames >= 1 && k < |pages|
    requires Memory(policy, pages, frames, k) == mem
    requires Access(policy, pages, k, mem, frames) == step
    ensures Memory(policy, pages, frames, k + 1) == step.memory
    ensures Steps(policy, pages, frames, k + 1) == Steps(policy, pages, frames, k) + [step]
    ensures Count(Steps(policy, pages, frames, k + 1), Miss)
         == Count(Steps(policy, pages, frames, k), Miss) + (if step.status == Miss then 1 else 0)
    ensures Count(Steps(policy, pages, frames, k + 1), Hit)
         == Count(Steps(policy, pages, frames, k), Hit) + (if step.status == Hit then 1 else 0)
  {
    hide *;
    MemoryNext(policy, pages, frames, k);
    StepsNext(policy, pages, frames, k);
    CountAppend(Steps(policy, pages, frames, k), step, Miss);
    CountAppend(Steps(policy, pages, frames, k), step, Hit);
  }

  /** Follows a run one reference further: from the memory and counters
      after `k` references to those after `k + 1`. */
  lemma Advance(policy: Policy, pages: seq<int>, frames: int, k: nat, mem: seq<int>, next: seq<int>, faults: nat, hits: nat)
    requires frames >= 1 && k < |pages|
    requires Memory(policy, pages, frames, k) == mem
    requires Count(Steps(policy, pages, frames, k), Miss) == faults
    requires Count(Steps(policy, pages, frames, k), Hit) == hits
    requires Access(policy, pages, k, mem, frames).memory == next
    ensures Memory(policy, pages, frames, k + 1) == next
    ensures Count(Steps(policy, pages, frames, k + 1), Miss) == faults + (if pages[k] in mem then 0 else 1)
    ensures Count(Steps(policy, pages, frames, k + 1), Hit) == hits + (if pages[k] in mem then 1 else 0)
  {
    hide *;
    MemoryNext(policy, pages, frames, k);
    CountersNext(policy, pages, frames, k);
  }

  /** Step `k` is reference `k` processed against the memory left by the
      references before it. */
  lemma StepAt(policy: Policy, pages: seq<int>, frames: int, n: nat, k: nat)
    requires frames >= 1 && k < n <= |pages|
    ensures Steps(policy, pages, frames, n)[k]
         == Access(policy, pages, k, Memory(policy, pages, frames, k), frames)
  {
    hide Access;
    PrefixStable(policy, pages, frames, n, k + 1);
    StepsNext(policy, pages, frames, k);
    assert Steps(policy, pages, frames, n)[k] == Steps(policy, pages, frames, n)[..k + 1][k];
  }

  /** The engine's return value `(page_faults, page_hits, steps)`: one
      step per reference, recording that reference's page and the memory it
      leaves, and a counter per status. */
  function Run(policy: Policy, pages: seq<int>, frames: int): (r: RunResult)
    requires frames >= 1
    ensures |r.steps| == |pages|
    ensures r.faults + r.hits == |pages|
    ensures forall k :: 0 <= k < |pages| ==> r.steps[k].page == pages[k]
    ensures forall k :: 0 <= k < |pages| ==> r.steps[k].memory == Memory(policy, pages, frames, k + 1)
  {
    var steps := Steps(policy, pages, frames, |pages|);
    CountPartition(steps);
    forall k | 0 <= k < |pages|
      ensures steps[k] == Access(policy, pages, k, Memory(policy, pages, frames, k), frames)
    {
      StepAt(policy, pages, frames, |pages|, k);
    }
    RunResult(Count(steps, Miss), Count(steps, Hit), steps)
  }

  /** The engine's counters and last snapshot, read off the fold. */
  lemma Finish(policy: Policy, pages: seq<int>, frames: int)
    requires frames >= 1
    ensures Run(policy, pages, frames).faults == Count(Steps(policy, pages, frames, |pages|), Miss)
    ensures Run(policy, pages, frames).hits == Count(Steps(policy, pages, frames, |pages|), Hit)
    ensures |pages| > 0 ==> Run(policy, pages, frames).steps[|pages| - 1].memory == Memory(policy, pages, frames, |pages|)
  {
  }

  /** A step is a hit exactly when its page was resident before it. */
  lemma StatusIsMembership(policy: Policy, pages: seq<int>, frames: int, k: nat)
    requires frames >= 1 && k < |pages|
    ensures Run(policy, pages, frames).steps[k].status == Hit <==> pages[k] in Memory(policy, pages, frames, k)
  {
    StepAt(policy, pages, frames, |pages|, k);
    AccessFacts(policy, pages, k, Memory(policy, pages, frames, k), frames);
  }

  /** Every snapshot fits the frames and holds no page twice. */
  lemma SnapshotsBounded(policy: Policy, pages: seq<int>, frames: int, k: nat)
    requires frames >= 1 && k < |pages|
    ensures Distinct(Run(policy, pages, frames).steps[k].memory)
    ensures |Run(policy, pages, frames).steps[k].memory| <= frames
  {
    MemoryInvariant(policy, pages, frames, k + 1);
  }

  /** The first reference to a page is always a miss (a compulsory fault). */
  lemma FirstReferenceMisses(policy: Policy, pages: seq<int>, frames: int, k: nat)
    requires frames >= 1 && k < |pages|
    requires pages[k] !in pages[..k]
    ensures Run(policy, pages, frames).steps[k].status == Miss
  {
    MemoryInvariant(policy, pages, frames, k);
    StatusIsMembership(policy, pages, frames, k);
  }

  /** Memory after `n` references never holds more pages than the number of
      distinct pages referenced so far. */
  lemma ResidentWithinDistinctSeen(policy: Policy, pages: seq<int>, frames: int, n: nat)
    requires frames >= 1 && n <= |pages|
    ensures |Memory(policy, pages, frames, n)| <= |Elems(pages[..n])|
  {
    var mem := Memory(policy, pages, frames, n);
    MemoryInvariant(policy, pages, frames, n);
    DistinctCardinality(mem);
    SubsetCardinality(Elems(mem), Elems(pages[..n]));
  }
}
