# Page replacement simulator — a Dafny model of its three engines

The simulator replays a reference string of page numbers against a fixed
number of memory frames under three policies — First-In-First-Out, Least
Recently Used and Optimal (Belady's look-ahead) — and reports, for each
policy, the number of page faults, the number of hits and one step record
per reference: the page, `Hit` or `Miss`, and a snapshot of resident memory
after the reference. The three engines are the static methods
`fifo_algorithm`, `lru_algorithm` and `optimal_algorithm` of the class
`PageReplacement` in `efficient_page_replacement.py`.

The model is organised as follows.

- `frames.dfy` (`Frames`): the step record, the run result, `Hit`/`Miss`,
  duplicate-free sequences, and the list operations the engines use
  (`list.index`, removal at a position, counting steps by status).
- `fifo.dfy`, `lru.dfy`, `optimal.dfy` (`FifoEngine`, `LruEngine`,
  `OptimalEngine`): one loop iteration of each engine as a pure function
  `Access` from the memory before a reference to the step after it, with the
  facts every caller needs. The LRU memory is the key order of the
  `OrderedDict`, least recently used first. The Optimal engine's
  look-ahead (`NextUse`, with `len(pages)` as the "never again" sentinel),
  its `max` over `future_refs` (`FirstMax`: the earliest slot among the
  largest distances, which is what Python's `max` returns because the dict
  is filled in slot order) and the slot overwrite are modelled separately.
- `simulator.dfy` (`Simulator`): the loop of each engine as a fold indexed
  by the number of references processed (`Memory`, `Steps`, `Run`), and the
  properties the three engines share: the counters partition the input,
  step `k` records `pages[k]`, a step is a hit exactly when its page was
  resident, memory stays within the frames and duplicate-free, and a first
  reference always misses.
- `fifo_order.dfy` (`FifoOrder`) and `lru_order.dfy` (`LruOrder`):
  independent descriptions of what FIFO and LRU memory is after any prefix
  of the input — the newest `frames` missed pages in arrival order, and the
  most recently used distinct pages in order of last use — each proved to
  agree with the engine.
- `page_replacement.dfy` (`PageReplacement`): the three engines written as
  loops the way the source writes them (counters bumped in the loop, one
  step appended per reference, the Optimal look-ahead built slot by slot
  and scanned with a strict `>`), each proved to return exactly `Run` of its
  policy.
- `examples.dfy` (`Examples`): the simulator's default reference string
  `7 0 1 2 0 3 4 2 3 0 3 2` with its default of 3 frames, run through each
  engine: FIFO 8 faults and 4 hits ending in `[4, 0, 2]`, LRU 8 faults and
  4 hits ending in `[0, 3, 2]`, Optimal 7 faults and 5 hits ending in
  `[2, 0, 3]`; and the string `1 2 3 4 1 2 5` with 3 frames.

Page numbers are unbounded integers; the engines only compare them for
equality. The frame count is an integer that the model requires to be at
least 1 (see "Left out").

On `1 2 3 4 1 2 5` with 3 frames the engines give FIFO 7 faults ending in
`[1, 2, 5]`, LRU 7 faults ending in `[1, 2, 5]`, and Optimal 5 faults and
2 hits ending in `[5, 2, 4]`; the last reference there evicts among three
pages none of which recurs, so the earliest slot is replaced.

## Model

| member | source | states |
|---|---|---|
| Frames.IndexOfFacts | efficient_page_replacement.py:113 | `list.index` finds an element exactly when it is present, at a position holding it, with no earlier occurrence |
| Frames.RemoveAtFacts | efficient_page_replacement.py:60 | removing one position keeps every other element, adds none, and on a duplicate-free list removes the element entirely |
| Frames.CountPartition | efficient_page_replacement.py:24-44 | every step is a hit or a miss, so the two counters add up to the number of steps |
| FifoEngine.Access | efficient_page_replacement.py:24-44 | a FIFO step records the referenced page, and a queue within the frames stays within the frames |
| FifoEngine.HitIffResident | efficient_page_replacement.py:25-44 | a FIFO reference hits exactly when the page is queued; a hit leaves the queue alone; afterwards the page is queued and only previously queued pages remain beside it |
| FifoEngine.KeepsDistinct | efficient_page_replacement.py:32-38 | the FIFO queue never holds a page twice |
| LruEngine.Access | efficient_page_replacement.py:56-77 | an LRU step records the referenced page, leaves it last (most recently used) and keeps the key count within the frames |
| LruEngine.HitIffResident | efficient_page_replacement.py:57-72 | an LRU reference hits exactly when the page is a key; a hit keeps every key and the key count; afterwards the page is a key next to keys there before |
| LruEngine.KeepsDistinct | efficient_page_replacement.py:57-72 | the LRU key order never lists a page twice |
| OptimalEngine.NextUseFacts | efficient_page_replacement.py:105-109 | the look-ahead distance is the sentinel `len(pages)` exactly when the page never recurs after `i`; otherwise it points at the first later reference |
| OptimalEngine.NextUseExact | efficient_page_replacement.py:105-109 | conversely, the first later reference (or its absence) determines the distance |
| OptimalEngine.SentinelExceedsRealDistances | efficient_page_replacement.py:106-109 | a page that recurs always has a smaller distance than one that never does |
| OptimalEngine.TiesOnlyAtSentinel | efficient_page_replacement.py:104-112 | two different pages share a distance only when neither recurs |
| OptimalEngine.FirstMax | efficient_page_replacement.py:112 | `max` with a key returns a slot whose distance is largest, and every earlier slot's distance is strictly smaller |
| OptimalEngine.VictimIsFurthest | efficient_page_replacement.py:111-112 | the chosen slot holds the page used furthest in the future, every earlier slot a page used strictly sooner |
| OptimalEngine.VictimExact | efficient_page_replacement.py:111-113 | only one slot satisfies that description, so it determines the replaced slot |
| OptimalEngine.Access | efficient_page_replacement.py:89-119 | an Optimal step records the referenced page, never shrinks memory and keeps it within the frames |
| OptimalEngine.HitIffResident | efficient_page_replacement.py:90-113 | an Optimal reference hits exactly when the page occupies a slot; a hit changes nothing; afterwards the page occupies a slot next to pages there before |
| OptimalEngine.KeepsDistinct | efficient_page_replacement.py:100-113 | the slots never hold a page twice |
| OptimalEngine.SlotStability | efficient_page_replacement.py:100-113 | occupied slots keep their place: at most one slot changes, only to the referenced page, and only on a miss with every frame taken |
| OptimalEngine.EvictsFurthest | efficient_page_replacement.py:102-113 | on a miss with every frame taken, memory keeps its length and the overwritten slot is the furthest one |
| OptimalEngine.RecurringVictimIsUnique | efficient_page_replacement.py:104-112 | when the evicted page recurs, every other resident page recurs strictly sooner |
| Simulator.AccessFacts | efficient_page_replacement.py:25-119 | for every policy a reference hits exactly when its page is resident, leaves its page resident beside previously resident pages, and keeps memory duplicate-free |
| Simulator.MemoryInvariant | efficient_page_replacement.py:17-121 | after any number of references memory is duplicate-free, within the frames, and holds only pages already referenced |
| Simulator.PrefixStable | efficient_page_replacement.py:27-44 | later references never rewrite earlier step records |
| Simulator.CountersNext | efficient_page_replacement.py:25-33 | each reference bumps exactly one counter: faults when its page is not resident, hits when it is |
| Simulator.Record | efficient_page_replacement.py:56-77 | processing one more reference appends exactly its step, leaves the memory that step records, and bumps the fault counter on a miss and the hit counter on a hit |
| Simulator.StepAt | efficient_page_replacement.py:24-44 | step `k` is reference `k` processed against the memory left by the references before it |
| Simulator.Run | efficient_page_replacement.py:17-46 | one step per reference, step `k` records `pages[k]` and the memory after it, and faults plus hits equal the number of references |
| Simulator.StatusIsMembership | efficient_page_replacement.py:25-32 | a recorded step is `Hit` exactly when its page was resident before it |
| Simulator.SnapshotsBounded | efficient_page_replacement.py:30-43 | every memory snapshot fits the frames and holds no page twice |
| Simulator.FirstReferenceMisses | efficient_page_replacement.py:25-33 | the first reference to a page is always a miss |
| Simulator.ResidentWithinDistinctSeen | efficient_page_replacement.py:24-44 | memory never holds more pages than distinct pages referenced so far |
| FifoOrder.NewestAppend | efficient_page_replacement.py:34-38 | appending to the queue and popping its head once full keeps exactly the newest `frames` arrivals |
| FifoOrder.ArrivalStep | efficient_page_replacement.py:25-44 | one FIFO reference keeps the queue equal to the newest missed pages: a miss is one more arrival, a hit none |
| FifoOrder.FifoHoldsNewestArrivals | efficient_page_replacement.py:19-44 | after any prefix of the input the FIFO queue is exactly the last `frames` missed pages, oldest first |
| FifoOrder.FifoHitKeepsMemory | efficient_page_replacement.py:25-31 | a FIFO hit never changes memory |
| LruOrder.LastUse | efficient_page_replacement.py:56-60 | the last use of a referenced page is a position holding it with no later reference to it |
| LruOrder.LastUseAppend | efficient_page_replacement.py:56-60 | a reference makes its page the last used and leaves every other page's last use unchanged |
| LruOrder.HitKeepsRecency | efficient_page_replacement.py:57-65 | moving the hit page to the end keeps the keys ordered by last use and every evicted page older than every key |
| LruOrder.FullMissKeepsRecency | efficient_page_replacement.py:66-77 | dropping the head on a full miss evicts the least recently used page and keeps the order invariant |
| LruOrder.FreeMissKeepsRecency | efficient_page_replacement.py:66-77 | a miss with a free frame keeps every page seen so far as a key, in order of last use |
| LruOrder.LruHoldsMostRecent | efficient_page_replacement.py:51-77 | after any prefix of the input the LRU keys are the most recently used distinct pages that fit, ordered by last use, most recent last, and every page left out was used before every key |
| PageReplacement.FifoAlgorithm | efficient_page_replacement.py:17-46 | the FIFO loop returns exactly the fold's faults, hits and steps; faults count the misses, hits the hits, and together they count the references |
| PageReplacement.LruAlgorithm | efficient_page_replacement.py:49-79 | the LRU loop returns exactly the fold's faults, hits and steps; faults count the misses, hits the hits, and together they count the references |
| PageReplacement.OptimalAlgorithm | efficient_page_replacement.py:82-121 | the Optimal loop returns exactly the fold's faults, hits and steps; faults count the misses, hits the hits, and together they count the references |
| PageReplacement.OptimalReference | efficient_page_replacement.py:90-119 | the Optimal loop body, including `memory_store.index(replace_page)`, agrees with the Optimal transition |
| PageReplacement.FurthestSlot | efficient_page_replacement.py:104-112 | building `future_refs` slot by slot and taking its `max` selects the slot whose page is used furthest in the future, the earliest one among ties |
| PageReplacement.MaxSlot | efficient_page_replacement.py:112 | the left-to-right scan returns a slot with the largest distance and no earlier slot with an equal one |
| Examples.FifoDefault | efficient_page_replacement.py:142-153 | FIFO on the default string with 3 frames: 8 faults, 4 hits, final memory `[4, 0, 2]` |
| Examples.LruDefault | efficient_page_replacement.py:142-153 | LRU on the default string with 3 frames: 8 faults, 4 hits, final memory `[0, 3, 2]` |
| Examples.OptimalDefault | efficient_page_replacement.py:142-153 | Optimal on the default string with 3 frames: 7 faults, 5 hits, final memory `[2, 0, 3]` |
| Examples.OptimalDefaultEvict3 | efficient_page_replacement.py:104-113 | at the fourth reference of the default string pages 7 and 1 tie at the sentinel and the earlier slot, page 7's, is replaced |
| Examples.FifoShort | efficient_page_replacement.py:17-46 | FIFO on `1 2 3 4 1 2 5` with 3 frames: 7 faults, no hits, final memory `[1, 2, 5]` |
| Examples.LruShort | efficient_page_replacement.py:49-79 | LRU on `1 2 3 4 1 2 5` with 3 frames: 7 faults, no hits, final memory `[1, 2, 5]` |
| Examples.OptimalShort | efficient_page_replacement.py:82-121 | Optimal on `1 2 3 4 1 2 5` with 3 frames: 5 faults, 2 hits, final memory `[5, 2, 4]` |
| Examples.OptimalShortEvict6 | efficient_page_replacement.py:104-113 | at the last reference of `1 2 3 4 1 2 5` none of the pages 1, 2, 4 recurs, all three tie at the sentinel and slot 0 is replaced |

## Left out

- The Streamlit user interface, tables and charts (`main`, lines 123-261): presentation only.
- Parsing the reference string with `int(x)` (line 165) and the error shown for malformed input: the model starts from a list of integers.
- Hit and fault ratios (lines 195-197): floating-point division over the counts the model does prove.
- Choosing which engines to run (lines 186-192): each engine is modelled on its own and takes no shared state.
- A frame count below 1: the engines raise on their first reference (`pop(0)` on an empty list, `popitem` on an empty dict, `max` of an empty dict), so every operation requires `frames >= 1`; the interface slider never offers less than 1 (lines 149-154).
- Belady's optimality (Optimal never faults more than FIFO or LRU): a global property over all reference strings, not proved here; the model proves the local choice Optimal makes.
- PageReplacement.OptimalReference: requires duplicate-free memory, which `Simulator.MemoryInvariant` establishes for every memory the loop reaches; the source assumes the same when it looks a page up with `index`.
