/**
 Concrete runs with 3 frames: on the default reference string
 `7 0 1 2 0 3 4 2 3 0 3 2` of the simulator and on `1 2 3 4 1 2 5`, the
 counts and the final memory each engine produces.
 */
module Examples {
  import opened Frames
  import opened Simulator
  import FifoEngine
  import LruEngine
  import OptimalEngine

  /** The FIFO engine on references 0 to 3. */
  lemma FifoDefaultUpto4Accesses()
    ensures FifoEngine.Access([], 7, 3) == Step(7, Miss, [7])
    ensures FifoEngine.Access([7], 0, 3) == Step(0, Miss, [7, 0])
    ensures FifoEngine.Access([7, 0], 1, 3) == Step(1, Miss, [7, 0, 1])
    ensures FifoEngine.Access([7, 0, 1], 2, 3) == Step(2, Miss, [0, 1, 2])
  {
  }

  /** FIFO after the first 4 references. */
  lemma FifoDefaultUpto4(pages: seq<int>)
    requires pages == [7, 0, 1, 2, 0, 3, 4, 2, 3, 0, 3, 2]
    ensures Memory(FIFO, pages, 3, 4) == [0, 1, 2]
    ensures Count(Steps(FIFO, pages, 3, 4), Miss) == 4
    ensures Count(Steps(FIFO, pages, 3, 4), Hit) == 0
  {
    hide Memory, Steps, Count, Run, Simulator.Access, LruEngine.Access, OptimalEngine.Access, FifoEngine.Access;
    Start(FIFO, pages, 3);
    FifoDefaultUpto4Accesses();
    AccessDispatch(FIFO, pages, 0, [], 3);
    Advance(FIFO, pages, 3, 0, [], [7], 0, 0);
    AccessDispatch(FIFO, pages, 1, [7], 3);
    Advance(FIFO, pages, 3, 1, [7], [7, 0], 1, 0);
    AccessDispatch(FIFO, pages, 2, [7, 0], 3);
    Advance(FIFO, pages, 3, 2, [7, 0], [7, 0, 1], 2, 0);
    AccessDispatch(FIFO, pages, 3, [7, 0, 1], 3);
    Advance(FIFO, pages, 3, 3, [7, 0, 1], [0, 1, 2], 3, 0);
  }

  /** The FIFO engine on references 4 to 7. */
  lemma FifoDefaultUpto8Accesses()
    ensures FifoEngine.Access([0, 1, 2], 0, 3) == Step(0, Hit, [0, 1, 2])
    ensures FifoEngine.Access([0, 1, 2], 3, 3) == Step(3, Miss, [1, 2, 3])
    ensures FifoEngine.Access([1, 2, 3], 4, 3) == Step(4, Miss, [2, 3, 4])
    ensures FifoEngine.Access([2, 3, 4], 2, 3) == Step(2, Hit, [2, 3, 4])
  {
  }

  /** FIFO after the first 8 references. */
  lemma FifoDefaultUpto8(pages: seq<int>)
    requires pages == [7, 0, 1, 2, 0, 3, 4, 2, 3, 0, 3, 2]
    ensures Memory(FIFO, pages, 3, 8) == [2, 3, 4]
    ensures Count(Steps(FIFO, pages, 3, 8), Miss) == 6
    ensures Count(Steps(FIFO, pages, 3, 8), Hit) == 2
  {
    hide Memory, Steps, Count, Run, Simulator.Access, LruEngine.Access, OptimalEngine.Access, FifoEngine.Access;
    FifoDefaultUpto4(pages);
    FifoDefaultUpto8Accesses();
    AccessDispatch(FIFO, pages, 4, [0, 1, 2], 3);
    Advance(FIFO, pages, 3, 4, [0, 1, 2], [0, 1, 2], 4, 0);
    AccessDispatch(FIFO, pages, 5, [0, 1, 2], 3);
    Advance(FIFO, pages, 3, 5, [0, 1, 2], [1, 2, 3], 4, 1);
    AccessDispatch(FIFO, pages, 6, [1, 2, 3], 3);
    Advance(FIFO, pages, 3, 6, [1, 2, 3], [2, 3, 4], 5, 1);
    AccessDispatch(FIFO, pages, 7, [2, 3, 4], 3);
    Advance(FIFO, pages, 3, 7, [2, 3, 4], [2, 3, 4], 6, 1);
  }

  /** The FIFO engine on references 8 to 11. */
  lemma FifoDefaultAccesses()
    ensures FifoEngine.Access([2, 3, 4], 3, 3) == Step(3, Hit, [2, 3, 4])
    ensures FifoEngine.Access([2, 3, 4], 0, 3) == Step(0, Miss, [3, 4, 0])
    ensures FifoEngine.Access([3, 4, 0], 3, 3) == Step(3, Hit, [3, 4, 0])
    ensures FifoEngine.Access([3, 4, 0], 2, 3) == Step(2, Miss, [4, 0, 2])
  {
  }

  /** FIFO on the whole string: 8 faults, 4 hits, final memory [4, 0, 2]. */
  lemma FifoDefault(pages: seq<int>)
    requires pages == [7, 0, 1, 2, 0, 3, 4, 2, 3, 0, 3, 2]
    ensures Run(FIFO, pages, 3).faults == 8
    ensures Run(FIFO, pages, 3).hits == 4
    ensures Run(FIFO, pages, 3).steps[11].memory == [4, 0, 2]
  {
    hide Memory, Steps, Count, Run, Simulator.Access, LruEngine.Access, OptimalEngine.Access, FifoEngine.Access;
    FifoDefaultUpto8(pages);
    FifoDefaultAccesses();
    AccessDispatch(FIFO, pages, 8, [2, 3, 4], 3);
    Advance(FIFO, pages, 3, 8, [2, 3, 4], [2, 3, 4], 6, 2);
    AccessDispatch(FIFO, pages, 9, [2, 3, 4], 3);
    Advance(FIFO, pages, 3, 9, [2, 3, 4], [3, 4, 0], 6, 3);
    AccessDispatch(FIFO, pages, 10, [3, 4, 0], 3);
    Advance(FIFO, pages, 3, 10, [3, 4, 0], [3, 4, 0], 7, 3);
    AccessDispatch(FIFO, pages, 11, [3, 4, 0], 3);
    Advance(FIFO, pages, 3, 11, [3, 4, 0], [4, 0, 2], 7, 4);
    Finish(FIFO, pages, 3);
  }

  /** The LRU engine on references 0 to 2. */
  lemma LruDefaultUpto3Accesses()
    ensures LruEngine.Access([], 7, 3) == Step(7, Miss, [7])
    ensures LruEngine.Access([7], 0, 3) == Step(0, Miss, [7, 0])
    ensures LruEngine.Access([7, 0], 1, 3) == Step(1, Miss, [7, 0, 1])
  {
  }

  /** LRU after the first 3 references. */
  lemma LruDefaultUpto3(pages: seq<int>)
    requires pages == [7, 0, 1, 2, 0, 3, 4, 2, 3, 0, 3, 2]
    ensures Memory(LRU, pages, 3, 3) == [7, 0, 1]
    ensures Count(Steps(LRU, pages, 3, 3), Miss) == 3
    ensures Count(Steps(LRU, pages, 3, 3), Hit) == 0
  {
    hide Memory, Steps, Count, Run, Simulator.Access, FifoEngine.Access, OptimalEngine.Access, LruEngine.Access;
    Start(LRU, pages, 3);
    LruDefaultUpto3Accesses();
    AccessDispatch(LRU, pages, 0, [], 3);
    Advance(LRU, pages, 3, 0, [], [7], 0, 0);
    AccessDispatch(LRU, pages, 1, [7], 3);
    Advance(LRU, pages, 3, 1, [7], [7, 0], 1, 0);
    AccessDispatch(LRU, pages, 2, [7, 0], 3);
    Advance(LRU, pages, 3, 2, [7, 0], [7, 0, 1], 2, 0);
  }

  /** The LRU engine on references 3 to 5. */
  lemma LruDefaultUpto6Accesses()
    ensures LruEngine.Access([7, 0, 1], 2, 3) == Step(2, Miss, [0, 1, 2])
    ensures LruEngine.Access([0, 1, 2], 0, 3) == Step(0, Hit, [1, 2, 0])
    ensures LruEngine.Access([1, 2, 0], 3, 3) == Step(3, Miss, [2, 0, 3])
  {
  }

  /** LRU after the first 6 references. */
  lemma LruDefaultUpto6(pages: seq<int>)
    requires pages == [7, 0, 1, 2, 0, 3, 4, 2, 3, 0, 3, 2]
    ensures Memory(LRU, pages, 3, 6) == [2, 0, 3]
    ensures Count(Steps(LRU, pages, 3, 6), Miss) == 5
    ensures Count(Steps(LRU, pages, 3, 6), Hit) == 1
  {
    hide Memory, Steps, Count, Run, Simulator.Access, FifoEngine.Access, OptimalEngine.Access, LruEngine.Access;
    LruDefaultUpto3(pages);
    LruDefaultUpto6Accesses();
    AccessDispatch(LRU, pages, 3, [7, 0, 1], 3);
    Advance(LRU, pages, 3, 3, [7, 0, 1], [0, 1, 2], 3, 0);
    AccessDispatch(LRU, pages, 4, [0, 1, 2], 3);
    Advance(LRU, pages, 3, 4, [0, 1, 2], [1, 2, 0], 4, 0);
    AccessDispatch(LRU, pages, 5, [1, 2, 0], 3);
    Advance(LRU, pages, 3, 5, [1, 2, 0], [2, 0, 3], 4, 1);
  }

  /** The LRU engine on references 6 to 8. */
  lemma LruDefaultUpto9Accesses()
    ensures LruEngine.Access([2, 0, 3], 4, 3) == Step(4, Miss, [0, 3, 4])
    ensures LruEngine.Access([0, 3, 4], 2, 3) == Step(2, Miss, [3, 4, 2])
    ensures LruEngine.Access([3, 4, 2], 3, 3) == Step(3, Hit, [4, 2, 3])
  {
  }

  /** LRU after the first 9 references. */
  lemma LruDefaultUpto9(pages: seq<int>)
    requires pages == [7, 0, 1, 2, 0, 3, 4, 2, 3, 0, 3, 2]
    ensures Memory(LRU, pages, 3, 9) == [4, 2, 3]
    ensures Count(Steps(LRU, pages, 3, 9), Miss) == 7
    ensures Count(Steps(LRU, pages, 3, 9), Hit) == 2
  {
    hide Memory, Steps, Count, Run, Simulator.Access, FifoEngine.Access, OptimalEngine.Access, LruEngine.Access;
    LruDefaultUpto6(pages);
    LruDefaultUpto9Accesses();
    AccessDispatch(LRU, pages, 6, [2, 0, 3], 3);
    Advance(LRU, pages, 3, 6, [2, 0, 3], [0, 3, 4], 5, 1);
    AccessDispatch(LRU, pages, 7, [0, 3, 4], 3);
    Advance(LRU, pages, 3, 7, [0, 3, 4], [3, 4, 2], 6, 1);
    AccessDispatch(LRU, pages, 8, [3, 4, 2], 3);
    Advance(LRU, pages, 3, 8, [3, 4, 2], [4, 2, 3], 7, 1);
  }

  /** The LRU engine on references 9 to 11. */
  lemma LruDefaultAccesses()
    ensures LruEngine.Access([4, 2, 3], 0, 3) == Step(0, Miss, [2, 3, 0])
    ensures LruEngine.Access([2, 3, 0], 3, 3) == Step(3, Hit, [2, 0, 3])
    ensures LruEngine.Access([2, 0, 3], 2, 3) == Step(2, Hit, [0, 3, 2])
  {
  }

  /** LRU on the whole string: 8 faults, 4 hits, final memory [0, 3, 2]. */
  lemma LruDefault(pages: seq<int>)
    requires pages == [7, 0, 1, 2, 0, 3, 4, 2, 3, 0, 3, 2]
    ensures Run(LRU, pages, 3).faults == 8
    ensures Run(LRU, pages, 3).hits == 4
    ensures Run(LRU, pages, 3).steps[11].memory == [0, 3, 2]
  {
    hide Memory, Steps, Count, Run, Simulator.Access, FifoEngine.Access, OptimalEngine.Access, LruEngine.Access;
    LruDefaultUpto9(pages);
    LruDefaultAccesses();
    AccessDispatch(LRU, pages, 9, [4, 2, 3], 3);
    Advance(LRU, pages, 3, 9, [4, 2, 3], [2, 3, 0], 7, 2);
    AccessDispatch(LRU, pages, 10, [2, 3, 0], 3);
    Advance(LRU, pages, 3, 10, [2, 3, 0], [2, 0, 3], 8, 2);
    AccessDispatch(LRU, pages, 11, [2, 0, 3], 3);
    Advance(LRU, pages, 3, 11, [2, 0, 3], [0, 3, 2], 8, 3);
    Finish(LRU, pages, 3);
  }

  /** At reference 3 the slots [7, 0, 1] are next used at distances [12, 0, 12]. */
  lemma OptimalDefaultEvict3(pages: seq<int>)
    requires pages == [7, 0, 1, 2, 0, 3, 4, 2, 3, 0, 3, 2]
    ensures OptimalEngine.Victim([7, 0, 1], pages, 3) == 0
  {
    OptimalEngine.NextUseExact(pages, 3, 7, 12);
    OptimalEngine.NextUseExact(pages, 3, 0, 0);
    OptimalEngine.NextUseExact(pages, 3, 1, 12);
    OptimalEngine.VictimExact([7, 0, 1], pages, 3, 0);
  }

  /** At reference 5 the slots [2, 0, 1] are next used at distances [1, 3, 12]. */
  lemma OptimalDefaultEvict5(pages: seq<int>)
    requires pages == [7, 0, 1, 2, 0, 3, 4, 2, 3, 0, 3, 2]
    ensures OptimalEngine.Victim([2, 0, 1], pages, 5) == 2
  {
    OptimalEngine.NextUseExact(pages, 5, 2, 1);
    OptimalEngine.NextUseExact(pages, 5, 0, 3);
    OptimalEngine.NextUseExact(pages, 5, 1, 12);
    OptimalEngine.VictimExact([2, 0, 1], pages, 5, 2);
  }

  /** At reference 6 the slots [2, 0, 3] are next used at distances [0, 2, 1]. */
  lemma OptimalDefaultEvict6(pages: seq<int>)
    requires pages == [7, 0, 1, 2, 0, 3, 4, 2, 3, 0, 3, 2]
    ensures OptimalEngine.Victim([2, 0, 3], pages, 6) == 1
  {
    OptimalEngine.NextUseExact(pages, 6, 2, 0);
    OptimalEngine.NextUseExact(pages, 6, 0, 2);
    OptimalEngine.NextUseExact(pages, 6, 3, 1);
    OptimalEngine.VictimExact([2, 0, 3], pages, 6, 1);
  }

  /** At reference 9 the slots [2, 4, 3] are next used at distances [1, 12, 0]. */
  lemma OptimalDefaultEvict9(pages: seq<int>)
    requires pages == [7, 0, 1, 2, 0, 3, 4, 2, 3, 0, 3, 2]
    ensures OptimalEngine.Victim([2, 4, 3], pages, 9) == 1
  {
    OptimalEngine.NextUseExact(pages, 9, 2, 1);
    OptimalEngine.NextUseExact(pages, 9, 4, 12);
    OptimalEngine.NextUseExact(pages, 9, 3, 0);
    OptimalEngine.VictimExact([2, 4, 3], pages, 9, 1);
  }

  /** The Optimal engine on references 0 to 3. */
  lemma OptimalDefaultUpto4Accesses(pages: seq<int>)
    requires pages == [7, 0, 1, 2, 0, 3, 4, 2, 3, 0, 3, 2]
    ensures OptimalEngine.Access([], pages, 0, 3) == Step(7, Miss, [7])
    ensures OptimalEngine.Access([7], pages, 1, 3) == Step(0, Miss, [7, 0])
    ensures OptimalEngine.Access([7, 0], pages, 2, 3) == Step(1, Miss, [7, 0, 1])
    ensures OptimalEngine.Access([7, 0, 1], pages, 3, 3) == Step(2, Miss, [2, 0, 1])
  {
    hide OptimalEngine.Victim;
    OptimalDefaultEvict3(pages);
  }

  /** Optimal after the first 4 references. */
  lemma OptimalDefaultUpto4(pages: seq<int>)
    requires pages == [7, 0, 1, 2, 0, 3, 4, 2, 3, 0, 3, 2]
    ensures Memory(Optimal, pages, 3, 4) == [2, 0, 1]
    ensures Count(Steps(Optimal, pages, 3, 4), Miss) == 4
    ensures Count(Steps(Optimal, pages, 3, 4), Hit) == 0
  {
    hide Memory, Steps, Count, Run, Simulator.Access, FifoEngine.Access, LruEngine.Access, OptimalEngine.Access;
    Start(Optimal, pages, 3);
    OptimalDefaultUpto4Accesses(pages);
    AccessDispatch(Optimal, pages, 0, [], 3);
    Advance(Optimal, pages, 3, 0, [], [7], 0, 0);
    AccessDispatch(Optimal, pages, 1, [7], 3);
    Advance(Optimal, pages, 3, 1, [7], [7, 0], 1, 0);
    AccessDispatch(Optimal, pages, 2, [7, 0], 3);
    Advance(Optimal, pages, 3, 2, [7, 0], [7, 0, 1], 2, 0);
    AccessDispatch(Optimal, pages, 3, [7, 0, 1], 3);
    Advance(Optimal, pages, 3, 3, [7, 0, 1], [2, 0, 1], 3, 0);
  }

  /** The Optimal engine on references 4 to 7. */
  lemma OptimalDefaultUpto8Accesses(pages: seq<int>)
    requires pages == [7, 0, 1, 2, 0, 3, 4, 2, 3, 0, 3, 2]
    ensures OptimalEngine.Access([2, 0, 1], pages, 4, 3) == Step(0, Hit, [2, 0, 1])
    ensures OptimalEngine.Access([2, 0, 1], pages, 5, 3) == Step(3, Miss, [2, 0, 3])
    ensures OptimalEngine.Access([2, 0, 3], pages, 6, 3) == Step(4, Miss, [2, 4, 3])
    ensures OptimalEngine.Access([2, 4, 3], pages, 7, 3) == Step(2, Hit, [2, 4, 3])
  {
    hide OptimalEngine.Victim;
    OptimalDefaultEvict5(pages);
    OptimalDefaultEvict6(pages);
  }

  /** Optimal after the first 8 references. */
  lemma OptimalDefaultUpto8(pages: seq<int>)
    requires pages == [7, 0, 1, 2, 0, 3, 4, 2, 3, 0, 3, 2]
    ensures Memory(Optimal, pages, 3, 8) == [2, 4, 3]
    ensures Count(Steps(Optimal, pages, 3, 8), Miss) == 6
    ensures Count(Steps(Optimal, pages, 3, 8), Hit) == 2
  {
    hide Memory, Steps, Count, Run, Simulator.Access, FifoEngine.Access, LruEngine.Access, OptimalEngine.Access;
    OptimalDefaultUpto4(pages);
    OptimalDefaultUpto8Accesses(pages);
    AccessDispatch(Optimal, pages, 4, [2, 0, 1], 3);
    Advance(Optimal, pages, 3, 4, [2, 0, 1], [2, 0, 1], 4, 0);
    AccessDispatch(Optimal, pages, 5, [2, 0, 1], 3);
    Advance(Optimal, pages, 3, 5, [2, 0, 1], [2, 0, 3], 4, 1);
    AccessDispatch(Optimal, pages, 6, [2, 0, 3], 3);
    Advance(Optimal, pages, 3, 6, [2, 0, 3], [2, 4, 3], 5, 1);
    AccessDispatch(Optimal, pages, 7, [2, 4, 3], 3);
    Advance(Optimal, pages, 3, 7, [2, 4, 3], [2, 4, 3], 6, 1);
  }

  /** The Optimal engine on references 8 to 11. */
  lemma OptimalDefaultAccesses(pages: seq<int>)
    requires pages == [7, 0, 1, 2, 0, 3, 4, 2, 3, 0, 3, 2]
    ensures OptimalEngine.Access([2, 4, 3], pages, 8, 3) == Step(3, Hit, [2, 4, 3])
    ensures OptimalEngine.Access([2, 4, 3], pages, 9, 3) == Step(0, Miss, [2, 0, 3])
    ensures OptimalEngine.Access([2, 0, 3], pages, 10, 3) == Step(3, Hit, [2, 0, 3])
    ensures OptimalEngine.Access([2, 0, 3], pages, 11, 3) == Step(2, Hit, [2, 0, 3])
  {
    hide OptimalEngine.Victim;
    OptimalDefaultEvict9(pages);
  }

  /** Optimal on the whole string: 7 faults, 5 hits, final memory [2, 0, 3]. */
  lemma OptimalDefault(pages: seq<int>)
    requires pages == [7, 0, 1, 2, 0, 3, 4, 2, 3, 0, 3, 2]
    ensures Run(Optimal, pages, 3).faults == 7
    ensures Run(Optimal, pages, 3).hits == 5
    ensures Run(Optimal, pages, 3).steps[11].memory == [2, 0, 3]
  {
    hide Memory, Steps, Count, Run, Simulator.Access, FifoEngine.Access, LruEngine.Access, OptimalEngine.Access;
    OptimalDefaultUpto8(pages);
    OptimalDefaultAccesses(pages);
    AccessDispatch(Optimal, pages, 8, [2, 4, 3], 3);
    Advance(Optimal, pages, 3, 8, [2, 4, 3], [2, 4, 3], 6, 2);
    AccessDispatch(Optimal, pages, 9, [2, 4, 3], 3);
    Advance(Optimal, pages, 3, 9, [2, 4, 3], [2, 0, 3], 6, 3);
    AccessDispatch(Optimal, pages, 10, [2, 0, 3], 3);
    Advance(Optimal, pages, 3, 10, [2, 0, 3], [2, 0, 3], 7, 3);
    AccessDispatch(Optimal, pages, 11, [2, 0, 3], 3);
    Advance(Optimal, pages, 3, 11, [2, 0, 3], [2, 0, 3], 7, 4);
    Finish(Optimal, pages, 3);
  }

  /** The FIFO engine on references 0 to 3. */
  lemma FifoShortUpto4Accesses()
    ensures FifoEngine.Access([], 1, 3) == Step(1, Miss, [1])
    ensures FifoEngine.Access([1], 2, 3) == Step(2, Miss, [1, 2])
    ensures FifoEngine.Access([1, 2], 3, 3) == Step(3, Miss, [1, 2, 3])
    ensures FifoEngine.Access([1, 2, 3], 4, 3) == Step(4, Miss, [2, 3, 4])
  {
  }

  /** FIFO after the first 4 references. */
  lemma FifoShortUpto4(pages: seq<int>)
    requires pages == [1, 2, 3, 4, 1, 2, 5]
    ensures Memory(FIFO, pages, 3, 4) == [2, 3, 4]
    ensures Count(Steps(FIFO, pages, 3, 4), Miss) == 4
    ensures Count(Steps(FIFO, pages, 3, 4), Hit) == 0
  {
    hide Memory, Steps, Count, Run, Simulator.Access, LruEngine.Access, OptimalEngine.Access, FifoEngine.Access;
    Start(FIFO, pages, 3);
    FifoShortUpto4Accesses();
    AccessDispatch(FIFO, pages, 0, [], 3);
    Advance(FIFO, pages, 3, 0, [], [1], 0, 0);
    AccessDispatch(FIFO, pages, 1, [1], 3);
    Advance(FIFO, pages, 3, 1, [1], [1, 2], 1, 0);
    AccessDispatch(FIFO, pages, 2, [1, 2], 3);
    Advance(FIFO, pages, 3, 2, [1, 2], [1, 2, 3], 2, 0);
    AccessDispatch(FIFO, pages, 3, [1, 2, 3], 3);
    Advance(FIFO, pages, 3, 3, [1, 2, 3], [2, 3, 4], 3, 0);
  }

  /** The FIFO engine on references 4 to 6. */
  lemma FifoShortAccesses()
    ensures FifoEngine.Access([2, 3, 4], 1, 3) == Step(1, Miss, [3, 4, 1])
    ensures FifoEngine.Access([3, 4, 1], 2, 3) == Step(2, Miss, [4, 1, 2])
    ensures FifoEngine.Access([4, 1, 2], 5, 3) == Step(5, Miss, [1, 2, 5])
  {
  }

  /** FIFO on the whole string: 7 faults, 0 hits, final memory [1, 2, 5]. */
  lemma FifoShort(pages: seq<int>)
    requires pages == [1, 2, 3, 4, 1, 2, 5]
    ensures Run(FIFO, pages, 3).faults == 7
    ensures Run(FIFO, pages, 3).hits == 0
    ensures Run(FIFO, pages, 3).steps[6].memory == [1, 2, 5]
  {
    hide Memory, Steps, Count, Run, Simulator.Access, LruEngine.Access, OptimalEngine.Access, FifoEngine.Access;
    FifoShortUpto4(pages);
    FifoShortAccesses();
    AccessDispatch(FIFO, pages, 4, [2, 3, 4], 3);
    Advance(FIFO, pages, 3, 4, [2, 3, 4], [3, 4, 1], 4, 0);
    AccessDispatch(FIFO, pages, 5, [3, 4, 1], 3);
    Advance(FIFO, pages, 3, 5, [3, 4, 1], [4, 1, 2], 5, 0);
    AccessDispatch(FIFO, pages, 6, [4, 1, 2], 3);
    Advance(FIFO, pages, 3, 6, [4, 1, 2], [1, 2, 5], 6, 0);
    Finish(FIFO, pages, 3);
  }

  /** The LRU engine on references 0 to 2. */
  lemma LruShortUpto3Accesses()
    ensures LruEngine.Access([], 1, 3) == Step(1, Miss, [1])
    ensures LruEngine.Access([1], 2, 3) == Step(2, Miss, [1, 2])
    ensures LruEngine.Access([1, 2], 3, 3) == Step(3, Miss, [1, 2, 3])
  {
  }

  /** LRU after the first 3 references. */
  lemma LruShortUpto3(pages: seq<int>)
    requires pages == [1, 2, 3, 4, 1, 2, 5]
    ensures Memory(LRU, pages, 3, 3) == [1, 2, 3]
    ensures Count(Steps(LRU, pages, 3, 3), Miss) == 3
    ensures Count(Steps(LRU, pages, 3, 3), Hit) == 0
  {
    hide Memory, Steps, Count, Run, Simulator.Access, FifoEngine.Access, OptimalEngine.Access, LruEngine.Access;
    Start(LRU, pages, 3);
    LruShortUpto3Accesses();
    AccessDispatch(LRU, pages, 0, [], 3);
    Advance(LRU, pages, 3, 0, [], [1], 0, 0);
    AccessDispatch(LRU, pages, 1, [1], 3);
    Advance(LRU, pages, 3, 1, [1], [1, 2], 1, 0);
    AccessDispatch(LRU, pages, 2, [1, 2], 3);
    Advance(LRU, pages, 3, 2, [1, 2], [1, 2, 3], 2, 0);
  }

  /** The LRU engine on references 3 to 5. */
  lemma LruShortUpto6Accesses()
    ensures LruEngine.Access([1, 2, 3], 4, 3) == Step(4, Miss, [2, 3, 4])
    ensures LruEngine.Access([2, 3, 4], 1, 3) == Step(1, Miss, [3, 4, 1])
    ensures LruEngine.Access([3, 4, 1], 2, 3) == Step(2, Miss, [4, 1, 2])
  {
  }

  /** LRU after the first 6 references. */
  lemma LruShortUpto6(pages: seq<int>)
    requires pages == [1, 2, 3, 4, 1, 2, 5]
    ensures Memory(LRU, pages, 3, 6) == [4, 1, 2]
    ensures Count(Steps(LRU, pages, 3, 6), Miss) == 6
    ensures Count(Steps(LRU, pages, 3, 6), Hit) == 0
  {
    hide Memory, Steps, Count, Run, Simulator.Access, FifoEngine.Access, OptimalEngine.Access, LruEngine.Access;
    LruShortUpto3(pages);
    LruShortUpto6Accesses();
    AccessDispatch(LRU, pages, 3, [1, 2, 3], 3);
    Advance(LRU, pages, 3, 3, [1, 2, 3], [2, 3, 4], 3, 0);
    AccessDispatch(LRU, pages, 4, [2, 3, 4], 3);
    Advance(LRU, pages, 3, 4, [2, 3, 4], [3, 4, 1], 4, 0);
    AccessDispatch(LRU, pages, 5, [3, 4, 1], 3);
    Advance(LRU, pages, 3, 5, [3, 4, 1], [4, 1, 2], 5, 0);
  }

  /** The LRU engine on references 6 to 6. */
  lemma LruShortAccesses()
    ensures LruEngine.Access([4, 1, 2], 5, 3) == Step(5, Miss, [1, 2, 5])
  {
  }

  /** LRU on the whole string: 7 faults, 0 hits, final memory [1, 2, 5]. */
  lemma LruShort(pages: seq<int>)
    requires pages == [1, 2, 3, 4, 1, 2, 5]
    ensures Run(LRU, pages, 3).faults == 7
    ensures Run(LRU, pages, 3).hits == 0
    ensures Run(LRU, pages, 3).steps[6].memory == [1, 2, 5]
  {
    hide Memory, Steps, Count, Run, Simulator.Access, FifoEngine.Access, OptimalEngine.Access, LruEngine.Access;
    LruShortUpto6(pages);
    LruShortAccesses();
    AccessDispatch(LRU, pages, 6, [4, 1, 2], 3);
    Advance(LRU, pages, 3, 6, [4, 1, 2], [1, 2, 5], 6, 0);
    Finish(LRU, pages, 3);
  }

  /** At reference 3 the slots [1, 2, 3] are next used at distances [0, 1, 7]. */
  lemma OptimalShortEvict3(pages: seq<int>)
    requires pages == [1, 2, 3, 4, 1, 2, 5]
    ensures OptimalEngine.Victim([1, 2, 3], pages, 3) == 2
  {
    OptimalEngine.NextUseExact(pages, 3, 1, 0);
    OptimalEngine.NextUseExact(pages, 3, 2, 1);
    OptimalEngine.NextUseExact(pages, 3, 3, 7);
    OptimalEngine.VictimExact([1, 2, 3], pages, 3, 2);
  }

  /** At reference 6 the slots [1, 2, 4] are next used at distances [7, 7, 7]. */
  lemma OptimalShortEvict6(pages: seq<int>)
    requires pages == [1, 2, 3, 4, 1, 2, 5]
    ensures OptimalEngine.Victim([1, 2, 4], pages, 6) == 0
  {
    OptimalEngine.NextUseExact(pages, 6, 1, 7);
    OptimalEngine.NextUseExact(pages, 6, 2, 7);
    OptimalEngine.NextUseExact(pages, 6, 4, 7);
    OptimalEngine.VictimExact([1, 2, 4], pages, 6, 0);
  }

  /** The Optimal engine on references 0 to 3. */
  lemma OptimalShortUpto4Accesses(pages: seq<int>)
    requires pages == [1, 2, 3, 4, 1, 2, 5]
    ensures OptimalEngine.Access([], pages, 0, 3) == Step(1, Miss, [1])
    ensures OptimalEngine.Access([1], pages, 1, 3) == Step(2, Miss, [1, 2])
    ensures OptimalEngine.Access([1, 2], pages, 2, 3) == Step(3, Miss, [1, 2, 3])
    ensures OptimalEngine.Access([1, 2, 3], pages, 3, 3) == Step(4, Miss, [1, 2, 4])
  {
    hide OptimalEngine.Victim;
    OptimalShortEvict3(pages);
  }

  /** Optimal after the first 4 references. */
  lemma OptimalShortUpto4(pages: seq<int>)
    requires pages == [1, 2, 3, 4, 1, 2, 5]
    ensures Memory(Optimal, pages, 3, 4) == [1, 2, 4]
    ensures Count(Steps(Optimal, pages, 3, 4), Miss) == 4
    ensures Count(Steps(Optimal, pages, 3, 4), Hit) == 0
  {
    hide Memory, Steps, Count, Run, Simulator.Access, FifoEngine.Access, LruEngine.Access, OptimalEngine.Access;
    Start(Optimal, pages, 3);
    OptimalShortUpto4Accesses(pages);
    AccessDispatch(Optimal, pages, 0, [], 3);
    Advance(Optimal, pages, 3, 0, [], [1], 0, 0);
    AccessDispatch(Optimal, pages, 1, [1], 3);
    Advance(Optimal, pages, 3, 1, [1], [1, 2], 1, 0);
    AccessDispatch(Optimal, pages, 2, [1, 2], 3);
    Advance(Optimal, pages, 3, 2, [1, 2], [1, 2, 3], 2, 0);
    AccessDispatch(Optimal, pages, 3, [1, 2, 3], 3);
    Advance(Optimal, pages, 3, 3, [1, 2, 3], [1, 2, 4], 3, 0);
  }

  /** The Optimal engine on references 4 to 6. */
  lemma OptimalShortAccesses(pages: seq<int>)
    requires pages == [1, 2, 3, 4, 1, 2, 5]
    ensures OptimalEngine.Access([1, 2, 4], pages, 4, 3) == Step(1, Hit, [1, 2, 4])
    ensures OptimalEngine.Access([1, 2, 4], pages, 5, 3) == Step(2, Hit, [1, 2, 4])
    ensures OptimalEngine.Access([1, 2, 4], pages, 6, 3) == Step(5, Miss, [5, 2, 4])
  {
    hide OptimalEngine.Victim;
    OptimalShortEvict6(pages);
  }

  /** Optimal on the whole string: 5 faults, 2 hits, final memory [5, 2, 4]. */
  lemma OptimalShort(pages: seq<int>)
    requires pages == [1, 2, 3, 4, 1, 2, 5]
    ensures Run(Optimal, pages, 3).faults == 5
    ensures Run(Optimal, pages, 3).hits == 2
    ensures Run(Optimal, pages, 3).steps[6].memory == [5, 2, 4]
  {
    hide Memory, Steps, Count, Run, Simulator.Access, FifoEngine.Access, LruEngine.Access, OptimalEngine.Access;
    OptimalShortUpto4(pages);
    OptimalShortAccesses(pages);
    AccessDispatch(Optimal, pages, 4, [1, 2, 4], 3);
    Advance(Optimal, pages, 3, 4, [1, 2, 4], [1, 2, 4], 4, 0);
    AccessDispatch(Optimal, pages, 5, [1, 2, 4], 3);
    Advance(Optimal, pages, 3, 5, [1, 2, 4], [1, 2, 4], 4, 1);
    AccessDispatch(Optimal, pages, 6, [1, 2, 4], 3);
    Advance(Optimal, pages, 3, 6, [1, 2, 4], [5, 2, 4], 4, 2);
    Finish(Optimal, pages, 3);
  }

}
