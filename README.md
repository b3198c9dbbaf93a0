# Shift assignment engine, modelled in Dafny

The engine builds one shift's roster. Its input is:
- the workers present;
- the locked requests (worker to Main position, or worker to named zone);
- the past final assignments, oldest first;
- the shift type.

A weekday fills the 18 numbered Main positions. A weekend also fills three named zones of fixed
size: Small 4, Far 3, Veranda 9. The engine works in three phases:
1. It grants the locked requests, in request order.
2. It rotates the unlocked workers through Main. Fairness comes from history: those closest to
   finishing a full cycle through the 18 positions go first. Each takes the lowest free position
   not yet visited in the current cycle, or else the free position they held least often.
3. On a weekend, it fills Small, Far and Veranda in turn. Each place goes to the remaining worker
   with the least experience in that zone, then in named zones overall, then the lowest id.

The model follows the structure of `engine.py`, one module per part:

| module | file | models |
|---|---|---|
| `ShiftTypes` | `types.dfy` | `MAIN_POSITIONS`, `WEEKEND_ZONES`, records, requests, placements, the errors `assign_shift` raises, and list and set facts the phases share |
| `Ranking` | `ranking.dfy` | the tuple keys the engine sorts and minimises by; `min`, `list.sort` and `sorted` as functions |
| `History` | `history.dfy` | `_main_counts_all`, `_visited_in_current_cycle` and the weekend statistics loop, each a method with a loop proved against a function of the history |
| `LockedPhase` | `locked.dfy` | phase 1: the loop over the locked requests, with `free_main`, `free_zones`, `assignments` and `locked` as its state |
| `MainRotation` | `rotation.dfy` | phase 2: `main_priority`, the sort, the choice of position and the Main loop |
| `ZoneAllocation` | `zones.dfy` | phase 3: the per-pick `min` and the loops over WEEKEND_ZONES and `range(count)` |
| `Engine` | `engine.dfy` | `assign_shift` as a method (`AssignShift`) proved equal to the function `Plan`, and the whole-call properties |
| `Corrected` | `corrected.dfy` | phase 3 filling `free_zones[zone]` places instead of the full count (see Findings) |
| `Scenarios` | `scenarios.dfy` | whole-call outcomes: fresh weekday, full weekend, a locked Main request, the two Main-request errors, a short weekend |

`assign_shift` keeps all its mutable state in local variables: `free_main`, `free_zones`,
`assignments`, `locked`, `remaining` and `need_main`. So it is modelled as methods whose loops
update local `set`, `map` and `seq` variables. Each loop is proved equal to a recursive
specification function (`LockAll`, `RotateMain`, `FillZones`), and the properties are lemmas
about those functions. The result is a function of the inputs, so two calls with equal inputs
return equal results. Errors are a `Result` value carrying one variant per `raise`.

Two behaviours of the code are modelled as written:
- A locked named-zone request is accepted on a weekday too.
- Phase 3 always fills the full WEEKEND_ZONES count of each zone.

The second one means the promise that a zone never holds more workers than its capacity holds
only when no granted locked request (one from a present worker) names that zone. With such a
granted request, a successful weekend overfills the zone. A request from an absent worker is
skipped and leaves the zone's capacity untouched. See Findings.

## Model

| member | source | states |
|---|---|---|
| ShiftTypes.AllPositionsFacts | engine.py:3 | MAIN_POSITIONS is exactly the 18 positions 1..18 |
| ShiftTypes.HoldersAdd | engine.py:141 | placing a new worker adds it to the holders of its own zone and of no other |
| ShiftTypes.MainAddSound | engine.py:126-127 | giving a new worker a free position keeps the Main positions distinct and disjoint from `free_main`, with holders plus free positions still 18 |
| ShiftTypes.RemoveFirstMultiset | engine.py:128 | `remaining.remove(wid)` takes away exactly one occurrence of `wid` |
| ShiftTypes.RemovePresent | engine.py:142 | removing a present worker from a list without repeats leaves every other worker, once each, one fewer |
| ShiftTypes.DistinctPermutation | engine.py:112 | sorting a list without repeats leaves it without repeats |
| Ranking.Lowest | engine.py:140 | `min(..., key=...)` returns an element of the list that no element's key is below |
| Ranking.Sort | engine.py:112 | `list.sort` keeps the multiset of keys |
| Ranking.SortAscending | engine.py:112 | the sorted keys are in ascending tuple order |
| Ranking.AscendingUnique | engine.py:112 | two ascending arrangements of the same keys are equal, so the model's sort agrees with Python's |
| Ranking.SortIds | engine.py:112 | sorting by key keeps the multiset of worker ids |
| Ranking.BelowTotal | engine.py:105-110 | two different keys are always ordered one way or the other |
| Ranking.PositionsUpTo | engine.py:119 | `sorted(list(s))` lists members of `s` in strictly ascending order |
| Ranking.PositionsUpToComplete | engine.py:119 | every member of `s` in 1..n appears in `sorted(list(s))` |
| Ranking.LeastPosition | engine.py:121 | `candidates[0]` is a candidate no larger than any other |
| History.MainCountsAll | engine.py:7-24 | `by_waiter[w]` is w's Main positions in history order, skipping records that are not Main or have no position; `counts[w][p]` is how often `p` occurs there |
| History.MainPositionsAppend | engine.py:16-22 | newer records extend each worker's list at its end, so the list keeps chronological order |
| History.CurrentCycle | engine.py:27-38 | the cycle set has fewer than 18 positions, all from the list |
| History.VisitedInCurrentCycle | engine.py:27-38 | the backward loop returns the cycle set |
| History.ScanBackCharacterized | engine.py:32-38 | a scan resumed with `seen` returns {} if `seen` plus the rest reaches 18 distinct positions, and otherwise their union |
| History.CurrentCycleCharacterized | engine.py:27-38 | the cycle set is empty exactly when the list holds at least 18 distinct positions, and is otherwise every position in the list |
| History.CycleReset | engine.py:33-37 | a worker whose latest 18 Main records are 18 distinct positions has an empty cycle set |
| History.WeekendStats | engine.py:61-68 | `weekend_total[w]` and `weekend_zone[w][z]` equal w's named-zone records and w's records in `z` |
| History.ZoneTotalSplits | engine.py:65-68 | the weekend total is the sum of the Small, Far and Veranda counts, and Main records never count |
| LockedPhase.ApplyLocked | engine.py:71-95 | the phase 1 loop returns `LockAll`: the first error, or the final state |
| LockedPhase.LockOutcome | engine.py:73-93 | each request, after those before it: absent worker skipped; Main without position fails; Main position taken or outside 1..18 fails; unknown zone fails; full zone fails; otherwise granted exactly |
| LockedPhase.StepOutcome | engine.py:73-93 | the same six outcomes, read from the capacity the earlier requests left |
| LockedPhase.LockAllSucceeds | engine.py:71-95 | phase 1 succeeds exactly when every request is admissible given the ones before it |
| LockedPhase.ErrorPersists | engine.py:79-91 | once a prefix of the requests fails, the whole phase fails with that error |
| LockedPhase.LockAllError | engine.py:79-91 | phase 1 raises only its own four errors |
| LockedPhase.LockAllConsistent | engine.py:83-95 | phase 1 keeps `locked` equal to the assigned workers, Main positions distinct and outside `free_main`, and zone holders plus free places equal to capacity |
| LockedPhase.LockAllPrecedence | engine.py:79-93 | every present requested worker holds exactly the requested zone and position |
| LockedPhase.LockAllFree | engine.py:83-93 | after phase 1, `free_main` is MAIN_POSITIONS minus the granted positions, and `free_zones[z]` is capacity minus the granted requests for `z` |
| LockedPhase.LockedWorkersPresent | engine.py:73-74 | only present workers are locked |
| LockedPhase.InitialConsistent | engine.py:51-55 | the initial state is consistent |
| LockedPhase.StepConsistent | engine.py:85-95 | a granted request keeps the state consistent and adds only its own placement |
| LockedPhase.MainStepConsistent | engine.py:85-86 | a granted Main request keeps the state consistent |
| LockedPhase.ZoneStepConsistent | engine.py:92-93 | a granted zone request keeps the state consistent |
| LockedPhase.ZonesAddMain | engine.py:85 | a Main placement leaves every zone's holders and free places balanced |
| LockedPhase.MainAddZone | engine.py:92 | a zone placement leaves the Main bookkeeping intact |
| LockedPhase.ZonesAddZone | engine.py:92-93 | a zone placement moves one unit from `free_zones[z]` to the holders of `z` |
| LockedPhase.OneZoneRequest | engine.py:88-93 | one present request for Small leaves all of Main free and three places in Small |
| MainRotation.PriorityOrderFacts | engine.py:105-112 | the sorted `remaining` rearranges the workers so that no worker follows one with a larger `main_priority` key |
| MainRotation.SortByPriority | engine.py:112 | sorting with keys read from `main_by_waiter` gives the priority order |
| MainRotation.TotalMainAsWritten | engine.py:108 | `sum(main_counts[wid].values())`, summed over the keys of `main_counts[wid]` as `_main_counts_all` builds it, is the number of the worker's Main records, the second component of `MainRank` |
| MainRotation.SumIsLength | engine.py:108 | summing the multiplicities of a list over distinct keys that include all its elements gives its length |
| MainRotation.UnvisitedAsWritten | engine.py:119 | `(set(MAIN_POSITIONS) - visited) & free_main` is that candidate set |
| MainRotation.LeastUnvisitedIsBest | engine.py:119-121 | with candidates, `candidates[0]` satisfies the choice rule |
| MainRotation.LeastUsedIsBest | engine.py:122-124 | without candidates, `min(free_main, key=count)` satisfies the choice rule |
| MainRotation.BestExists | engine.py:118-124 | some free position satisfies the choice rule whenever `free_main` is non-empty |
| MainRotation.BestUnique | engine.py:118-124 | at most one position satisfies the choice rule |
| MainRotation.PickMain | engine.py:118-124 | the chosen position is free and satisfies the choice rule |
| MainRotation.FreshPickLowest | engine.py:118-121 | a worker with no Main history takes the smallest free position |
| MainRotation.UsageRanks | engine.py:124 | the fallback compares each free position by how often the worker held it |
| MainRotation.UsageRanksCover | engine.py:124 | every free position is among the compared ones |
| MainRotation.CountedUsageRanks | engine.py:124 | keys read from `main_counts` are the history counts |
| MainRotation.ChooseMain | engine.py:118-124 | the choice computed from the statistics maps is `PickMain` |
| MainRotation.MainStep | engine.py:126-127 | one loop body puts the worker in Main and removes exactly one position from `free_main` |
| MainRotation.MainStepSound | engine.py:126-127 | one loop body keeps Main positions distinct, outside `free_main`, and summing to 18 |
| MainRotation.RotateMainSound | engine.py:114-129 | the Main loop keeps that bookkeeping and removes one free position per placed worker |
| MainRotation.RotateMainEntry | engine.py:114-129 | the loop places the first `Placed` workers in Main and changes no other entry |
| MainRotation.RotateMainKeys | engine.py:114-129 | the loop assigns exactly the workers it reaches |
| MainRotation.AssignMain | engine.py:114-129 | the loop computes `RotateMain`; `remaining` ends as the workers not reached; with `need_main == len(free_main)` at entry it stays so |
| ZoneAllocation.PickForZone | engine.py:140 | the per-pick `min` returns a remaining worker |
| ZoneAllocation.PickForZoneBest | engine.py:140 | a worker is the pick exactly when no remaining worker has a smaller `(zone count, zone total, id)` key |
| ZoneAllocation.LowestIsZoneBest | engine.py:140 | the worker `min` returns has no remaining worker below it |
| ZoneAllocation.ZoneBestUnique | engine.py:140 | at most one remaining worker has the minimal key, so tie-breaking in `min` does not matter |
| ZoneAllocation.LowestZoneRank | engine.py:140 | the minimal key belongs to one of the remaining workers |
| ZoneAllocation.ZoneOrderDemand | engine.py:136-137 | phase 3 asks for 4 + 3 + 9 = 16 workers |
| ZoneAllocation.FillWithOk | engine.py:137-139 | filling one zone succeeds exactly when `count` workers remain, and then uses up `count` |
| ZoneAllocation.FillWithError | engine.py:138-139 | filling one zone fails only with the staff shortage |
| ZoneAllocation.PickStepSound | engine.py:140-142 | each pick takes an unassigned worker out of `remaining` |
| ZoneAllocation.PickStepKeys | engine.py:141-142 | each pick moves exactly one worker from `remaining` into the assignments |
| ZoneAllocation.PickStepHolders | engine.py:141 | each pick adds one holder to its zone and none to any other |
| ZoneAllocation.PickStepEntry | engine.py:141 | each pick leaves earlier entries and gives its worker the zone without a position |
| ZoneAllocation.FillWithSound | engine.py:137-142 | filling a zone assigns exactly the workers it takes from `remaining` |
| ZoneAllocation.FillWithEntry | engine.py:137-141 | filling a zone leaves earlier entries and puts newcomers in that zone |
| ZoneAllocation.FillWithHolders | engine.py:137-141 | filling a zone with `count` adds `count` holders to it and none elsewhere |
| ZoneAllocation.FillZonesOk | engine.py:136-139 | phase 3 succeeds exactly when at least the total count remains, and then uses up that many |
| ZoneAllocation.FillZonesError | engine.py:136-139 | phase 3 fails only with the staff shortage |
| ZoneAllocation.FillZonesSound | engine.py:136-142 | phase 3 assigns exactly the workers it takes from `remaining` |
| ZoneAllocation.FillZonesEntry | engine.py:136-142 | phase 3 keeps earlier entries and places newcomers in a named zone without a position |
| ZoneAllocation.FillZonesHolders | engine.py:136-141 | phase 3 adds each zone's full WEEKEND_ZONES count to its holders |
| ZoneAllocation.ZoneFillCount | engine.py:136-141 | over WEEKEND_ZONES, each named zone gains exactly its count |
| ZoneAllocation.ChooseForZone | engine.py:140 | the pick computed from the statistics maps is `PickForZone` |
| ZoneAllocation.FillZoneLoop | engine.py:137-142 | the `range(count)` loop computes `FillZone` |
| ZoneAllocation.AssignWeekendZones | engine.py:136-142 | the loop over WEEKEND_ZONES computes `FillZones` over Small, Far, Veranda |
| Engine.UnlockedMembers | engine.py:97 | `remaining` holds exactly the present workers not locked |
| Engine.UnlockedDistinct | engine.py:97 | `remaining` has no repeats when `present` has none |
| Engine.CountMain | engine.py:100 | `already_main` is the number of workers in Main |
| Engine.AssignShift | engine.py:41-147 | the method returns `Plan`: phase 1's error, `OverAllocatedMain`, phase 3's error, or the assignments |
| Engine.RunPhases | engine.py:112-147 | the sort, the Main loop and phase 3 return what `AfterMain` specifies |
| Engine.PhaseOneFacts | engine.py:100-103 | after phase 1, `need_main == len(free_main)` and the locked workers are present |
| Engine.OrderFacts | engine.py:97-112 | the sorted `remaining` holds each present unlocked worker once |
| Engine.OrderLength | engine.py:97 | `len(remaining)` is the present workers less the locked ones |
| Engine.MainPhaseEntry | engine.py:114-129 | the Main loop keeps every locked entry and places newcomers only in Main |
| Engine.MainPhaseZones | engine.py:114-129 | the Main loop leaves named-zone holders as phase 1 left them |
| Engine.MainPhaseSound | engine.py:114-129 | after the Main loop, Main positions are distinct and Main gains `Placed` holders |
| Engine.MainPhaseUnplaced | engine.py:114-129 | after the Main loop, `remaining` is unassigned and without repeats |
| Engine.MainPhaseWellPlaced | engine.py:114-129 | after the Main loop every placement is well formed |
| Engine.MainPhaseWithin | engine.py:114-129 | the Main loop assigns and leaves only present workers |
| Engine.ZonePlacementsWellPlaced | engine.py:141 | adding named-zone placements without positions keeps the assignment well formed |
| Engine.FillZonesExtends | engine.py:136-142 | phase 3 keeps every entry and adds only named-zone placements |
| Engine.ZoneOrderDistinct | engine.py:4 | WEEKEND_ZONES iterates three distinct named zones, none of them Main |
| Engine.PlanShape | engine.py:132-147 | a weekday returns the Main loop's assignments; a weekend returns phase 3's result or error |
| Engine.PlanErrors | engine.py:79-139 | phase 1's error is raised as is; the only other error is the weekend staff shortage; `OverAllocatedMain` never occurs; a weekday fails only in phase 1 |
| Engine.PlanWellPlaced | engine.py:85-141 | no two workers share a Main position; every Main position is in 1..18; named zones carry no position |
| Engine.PlanPresent | engine.py:71-142 | every worker in the result is present |
| Engine.PlanLocked | engine.py:85-142 | a granted request appears in the result exactly as requested |
| Engine.MainPhaseCount | engine.py:114-129 | Main ends full when enough unlocked workers are present, otherwise with all of them |
| Engine.PlanMainCount | engine.py:114-142 | the same count holds in the returned result |
| Engine.LockedZoneCount | engine.py:88-93 | phase 1 puts exactly the granted requests for a zone into it |
| Engine.WeekendZoneCount | engine.py:136-137 | phase 3 adds a zone's full count on top of the locked holders |
| Engine.PlanWeekendZones | engine.py:136-137 | a zone ends with its locked requests plus its full count |
| Engine.PlanWeekendOk | engine.py:136-139 | a weekend succeeds exactly when the unlocked workers cover the open Main places plus 16 |
| Engine.PlanWeekendCapacity | engine.py:136-137 | a zone with no locked request ends at exactly its capacity |
| Engine.LockedZoneOverfills | engine.py:136-137 | a zone with a locked request ends above its capacity whenever the weekend succeeds |
| Engine.LockedZoneShortfall | engine.py:136-139 | 34 present with locked zone requests only makes a weekend raise the shortage |
| Engine.OneLockedShortfall | engine.py:136-139 | 34 present and one locked Small request make a weekend raise the shortage |
| Corrected.FillFreeOk | engine.py:136-139 | filling `free_zones` places succeeds exactly when that many workers remain |
| Corrected.FillFreeHolders | engine.py:136-141 | it adds `free_zones[z]` holders to each zone `z` |
| Corrected.CorrectedShape | engine.py:132-147 | the corrected weekend result is the corrected phase 3 result |
| Corrected.FreeZoneCount | engine.py:136-141 | each zone gains `free_zones[z]` on top of its locked holders |
| Corrected.CorrectedCapacity | engine.py:136-137 | with the correction every named zone ends at exactly its capacity, locked requests included |
| Corrected.CorrectedWeekendOk | engine.py:136-139 | the corrected weekend succeeds exactly when the unlocked workers cover the open Main places plus the free zone places, or no zone place is free |
| Corrected.FreeDemandZones | engine.py:136-137 | the corrected phase 3 asks for the free places of Small, Far and Veranda |
| Corrected.FreeDemandAfterLocks | engine.py:90-93 | those free places are 16 less one per granted zone request |
| Corrected.CorrectedOneLocked | engine.py:136-139 | with the correction, 34 present and one locked Small request succeed with every zone at capacity |
| Corrected.FillFreeAgrees | engine.py:136-137 | with every zone's capacity still free, the corrected phase 3 equals the one as written |
| Corrected.CorrectedAgrees | engine.py:132-147 | when no granted locked request names a zone, the corrected engine returns what the engine as written returns |
| Scenarios.FreshStep | engine.py:118-127 | a worker with no Main history, with the positions above `lo` free, takes `lo + 1` |
| Scenarios.RotateFresh | engine.py:114-129 | such workers placed in turn take `lo + 1`, `lo + 2`, ... in order |
| Scenarios.FreshRank | engine.py:105-110 | a worker with no Main history has key `(18, 0, id)` |
| Scenarios.FreshOrderIncreasing | engine.py:105-112 | with nobody locked and nobody ever in Main, the sort orders by ascending id |
| Scenarios.FreshWeekday | engine.py:41-147 | 18 present, no requests, nobody ever in Main, weekday: every worker is placed, the k-th lowest id at position k |
| Scenarios.FullWeekend | engine.py:41-147 | 34 present, no requests, weekend: Main holds 18; Small, Far and Veranda hold 4, 3 and 9; everyone is placed |
| Scenarios.LockedMainScenario | engine.py:79-86 | a locked Main request takes its position out of `free_main`; on success the worker holds it and nobody else does |
| Scenarios.MissingPositionScenario | engine.py:79-81 | a Main request without a position raises, on any shift |
| Scenarios.ConflictScenario | engine.py:83-84 | two requests for the same Main position make the second raise the conflict |
| Scenarios.ShortWeekend | engine.py:136-139 | 28 present and no requests on a weekend raise the shortage |

## Left out

- bot.py is not part of this model. It holds the chat handlers, the SQLite history store, the spreadsheet import and export, and the polling loop: all I/O with no algorithmic content.
- The `int(...)` coercions and the `defaultdict` mechanics are not modelled. Inputs are naturals already, and a missing map entry reads as 0 or as the empty list.
- Exception messages and the partially updated state at a `raise` are not modelled. An error is a `Result` variant, and no assignments are returned with it.
- The fallback `min(free_main, ...)` depends on CPython's set iteration order when counts tie. The model takes the lowest tied position.
- The baseline sort of `remaining` before phase 3 (engine.py:134) is dropped. Every pick's key ends with the unique id, so the sort cannot change the outcome (ZoneAllocation.ZoneBestUnique).
- `list.sort` and `sorted` are modelled as an insertion sort, and `min` as a scan for the first minimal key. Keys end with the worker id, so only one ascending order exists (Ranking.AscendingUnique) and ties never arise.
- The in-place updates of the local list `remaining` (sort, `remove`) become new values of a local sequence. The list never escapes the call, so no aliasing is lost.
- History records carry no date. Only their order matters, and the caller supplies them oldest first.
- The result is a map, so the insertion order of the returned dict is not modelled.
- The whole-call lemmas assume `present` has no repeats. `Plan` itself accepts any list.
- The locked requests are a sequence in dictionary iteration order, with distinct workers.

## Findings

Engine.Plan follows the code: phase 3 asks for the full WEEKEND_ZONES count of each zone. Corrected.CorrectedPlan is the evidently intended version: it fills the places phase 1 left free in `free_zones`. The two return the same result whenever no granted locked request names a zone (Corrected.CorrectedAgrees). So the scenario lemmas, all stated for such inputs, hold for both.

| source | as written | input that shows it | evidently intended | confidence | as-written member | corrected member |
|---|---|---|---|---|---|---|
| engine.py:136-137 | phase 3 fills `WEEKEND_ZONES[zone]` places per zone and ignores the places locked requests took from `free_zones` | a weekend where a granted locked request names Small and at least 16 unlocked workers remain after Main: Small ends with 5 workers, capacity 4 | fill `free_zones[zone]` places, so no zone exceeds its capacity | high; not executed | Engine.LockedZoneOverfills | Corrected.CorrectedCapacity |
| engine.py:136-139 | phase 3 still asks for 16 workers although a locked zone worker is no longer in `remaining` | 34 distinct present workers, one locked request for Small, weekend: raises the staff shortage with 15 workers for 15 free places | the weekend succeeds with every zone exactly full | high; not executed | Engine.OneLockedShortfall | Corrected.CorrectedOneLocked |
