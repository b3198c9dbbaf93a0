/** `assign_shift` as a whole: the locked requests first, then the Main rotation over everyone
    else, then, on weekends, the named zones, each phase starting from what the one before it
    left. */
module Engine {
  import opened ShiftTypes
  import opened History
  import opened LockedPhase
  import opened MainRotation
  import opened ZoneAllocation

  /** `[w for w in present if w not in locked]` */
  function Unlocked(present: seq<nat>, locked: set<nat>): seq<nat>
    decreases |present|
  {
    if present == [] then []
    else
      var w := present[|present| - 1];
      Unlocked(present[..|present| - 1], locked) + (if w in locked then [] else [w])
  }

  /** The filter keeps exactly the present workers who are not locked. */
  lemma {:induction false} UnlockedMembers(present: seq<nat>, locked: set<nat>)
    ensures Elements(Unlocked(present, locked)) == Elements(present) - locked
    decreases |present|
  {
    if present != [] {
      var n := |present| - 1;
      UnlockedMembers(present[..n], locked);
      assert present == present[..n] + [present[n]];
      assert Elements(present) == Elements(present[..n]) + {present[n]};
      var t := Unlocked(present[..n], locked);
      var x: seq<nat> := if present[n] in locked then [] else [present[n]];
      assert Elements(t + x) == Elements(t) + Elements(x);
    }
  }

  /** The filter keeps the list free of repeats. */
  lemma {:induction false} UnlockedDistinct(present: seq<nat>, locked: set<nat>)
    requires NoDuplicates(present)
    ensures NoDuplicates(Unlocked(present, locked))
    decreases |present|
  {
    if present != [] {
      var n := |present| - 1;
      var w := present[n];
      assert NoDuplicates(present[..n]);
      UnlockedDistinct(present[..n], locked);
      if w !in locked {
        var t := Unlocked(present[..n], locked);
        UnlockedMembers(present[..n], locked);
        assert w !in Elements(present[..n]);
        assert w !in t by {
          assert w !in Elements(t);
        }
        var r := t + [w];
        forall i, j | 0 <= i < j < |r| ensures r[i] != r[j] {
          if j < |t| {
            assert r[i] == t[i] && r[j] == t[j];
          } else {
            assert r[i] == t[i];
          }
        }
      }
    }
  }

  /** Visiting one more worker of the assignment counts it exactly when it is in Main. */
  lemma {:induction false} CountedStep(asg: Assignment, todo: set<nat>, w: nat)
    requires w in todo && w in asg
    ensures |Holders(asg, Main) - (todo - {w})|
      == |Holders(asg, Main) - todo| + (if asg[w].zone == Main then 1 else 0)
  {
    if asg[w].zone == Main {
      assert Holders(asg, Main) - (todo - {w}) == (Holders(asg, Main) - todo) + {w};
    } else {
      assert Holders(asg, Main) - (todo - {w}) == Holders(asg, Main) - todo;
    }
  }

  /** `sum(1 for a in assignments.values() if a["zone"] == "Main")` */
  method CountMain(asg: Assignment) returns (n: nat)
    ensures n == |Holders(asg, Main)|
  {
    n := 0;
    var todo := asg.Keys;
    while todo != {}
      invariant todo <= asg.Keys
      invariant n == |Holders(asg, Main) - todo|
      decreases |todo|
    {
      var w :| w in todo;
      CountedStep(asg, todo, w);
      if asg[w].zone == Main {
        n := n + 1;
      }
      todo := todo - {w};
    }
    assert Holders(asg, Main) - todo == Holders(asg, Main);
  }

  /** `need_main = 18 - already_main`: the Main places phase 1 left open. */
  function OpenMain(st: LockState): int {
    MainSlots - |Holders(st.assignments, Main)|
  }

  /** `remaining` after `remaining.sort(key=main_priority)`. */
  function MainOrder(present: seq<nat>, st: LockState, history: seq<Record>): seq<nat> {
    PriorityOrder(Unlocked(present, st.locked), history)
  }

  /** The assignments and `free_main` after the Main loop. */
  function MainPhase(present: seq<nat>, st: LockState, history: seq<Record>): MainState
    requires Consistent(st)
  {
    RotateMain(MainOrder(present, st, history), OpenMain(st), MainState(st.assignments, st.free), history)
  }

  /** `remaining` after the Main loop: the sorted workers it did not reach. */
  function Leftover(present: seq<nat>, st: LockState, history: seq<Record>): seq<nat> {
    var order := MainOrder(present, st, history);
    order[Placed(order, OpenMain(st))..]
  }

  /** What phase 3 starts from: the assignments and `remaining` after the Main loop. */
  function WeekendStart(present: seq<nat>, st: LockState, history: seq<Record>): ZoneState
    requires Consistent(st)
  {
    ZoneState(MainPhase(present, st, history).assignments, Leftover(present, st, history))
  }

  /** What `assign_shift` returns once phase 1 has succeeded: the Main loop's assignments on a
      weekday, and on a weekend those of phase 3, or its error. */
  function AfterMain(present: seq<nat>, st: LockState, history: seq<Record>, shift: ShiftType): Result<Assignment>
    requires Consistent(st)
  {
    if shift == Weekday then Ok(MainPhase(present, st, history).assignments)
    else
      match FillZones(ZoneOrder, WeekendStart(present, st, history), history)
      case Err(e) => Err(e)
      case Ok(z) => Ok(z.assignments)
  }

  /** `assign_shift(present, requests, history, shift_type)`: the assignments it returns, or the
      error it raises. `requests` lists the request dictionary in its iteration order. */
  function Plan(present: seq<nat>, requests: seq<Request>, history: seq<Record>, shift: ShiftType): Result<Assignment>
    requires DistinctWorkers(requests)
  {
    match LockAll(requests, Elements(present))
    case Err(e) => Err(e)
    case Ok(st) =>
      if OpenMain(st) < 0 then Err(OverAllocatedMain)
      else
        LockAllConsistent(requests, Elements(present));
        AfterMain(present, st, history, shift)
  }

  /** `assign_shift` as written: the statistics, the three phases and their loops. */
  method AssignShift(present: seq<nat>, requests: seq<Request>, history: seq<Record>, shift: ShiftType)
    returns (r: Result<Assignment>)
    requires DistinctWorkers(requests)
    ensures r == Plan(present, requests, history, shift)
  {
    var counts, byWorker := MainCountsAll(history);
    var total, perZone := WeekendStats(history);
    var phase1 := ApplyLocked(requests, present);
    if phase1.Err? {
      return Err(phase1.error);
    }
    var st := phase1.value;
    var remaining: seq<nat> := [];
    for i := 0 to |present|
      invariant remaining == Unlocked(present[..i], st.locked)
    {
      assert present[..i + 1][..i] == present[..i];
      if present[i] !in st.locked {
        remaining := remaining + [present[i]];
      }
    }
    assert present[..|present|] == present;
    var alreadyMain := CountMain(st.assignments);
    var need := MainSlots - alreadyMain;
    if need < 0 {
      return Err(OverAllocatedMain);
    }
    LockAllConsistent(requests, Elements(present));
    r := RunPhases(present, st, history, shift, remaining, need, counts, byWorker, total, perZone);
  }

  /** The rest of `assign_shift` once `need_main` is known: the sort, the Main loop and, on
      weekends, phase 3. */
  method RunPhases(present: seq<nat>, st: LockState, history: seq<Record>, shift: ShiftType,
                   remaining: seq<nat>, need: int, counts: map<nat, map<nat, nat>>, byWorker: map<nat, seq<nat>>,
                   total: map<nat, nat>, perZone: map<nat, map<Zone, nat>>)
    returns (r: Result<Assignment>)
    requires Consistent(st) && remaining == Unlocked(present, st.locked) && need == OpenMain(st)
    requires forall w :: Held(byWorker, w) == MainPositions(history, w)
    requires forall w, p :: Times(counts, w, p) == multiset(MainPositions(history, w))[p]
    requires StatsOf(total, perZone, history)
    ensures r == AfterMain(present, st, history, shift)
  {
    var sorted := SortByPriority(remaining, byWorker, history);
    var assignments, free, rest := AssignMain(sorted, need, st.free, st.assignments, byWorker, counts, history);
    if shift == Weekend {
      var filled := AssignWeekendZones(rest, assignments, total, perZone, history);
      if filled.Err? {
        return Err(filled.error);
      }
      return Ok(filled.value.assignments);
    }
    return Ok(assignments);
  }

  /** What phase 1 leaves when it succeeds: a consistent state whose locked workers are present,
      with exactly `|free_main|` Main places open. */
  lemma {:induction false} PhaseOneFacts(present: seq<nat>, requests: seq<Request>, st: LockState)
    requires DistinctWorkers(requests) && LockAll(requests, Elements(present)) == Ok(st)
    ensures Consistent(st) && OpenMain(st) == |st.free|
    ensures st.assignments.Keys <= Elements(present)
  {
    LockAllConsistent(requests, Elements(present));
    LockedWorkersPresent(requests, Elements(present));
  }

  /** The sorted `remaining` holds each present, unlocked worker once. */
  lemma {:induction false} OrderFacts(present: seq<nat>, st: LockState, history: seq<Record>)
    ensures Elements(MainOrder(present, st, history)) == Elements(present) - st.locked
    ensures NoDuplicates(present) ==> NoDuplicates(MainOrder(present, st, history))
    ensures NoDuplicates(present) ==> |MainOrder(present, st, history)| == |Elements(present) - st.locked|
  {
    var u := Unlocked(present, st.locked);
    var order := MainOrder(present, st, history);
    UnlockedMembers(present, st.locked);
    PriorityOrderFacts(u, history);
    assert Elements(order) == Elements(u) by {
      forall w ensures w in order <==> w in u {
        assert w in order <==> w in multiset(order);
        assert w in u <==> w in multiset(u);
      }
    }
    if NoDuplicates(present) {
      UnlockedDistinct(present, st.locked);
      DistinctPermutation(u, order);
      DistinctCard(order);
    }
  }

  /** The Main loop never touches a locked worker: it changes no earlier entry and places only
      in Main. */
  lemma {:induction false} MainPhaseEntry(present: seq<nat>, st: LockState, history: seq<Record>, w: nat)
    requires Consistent(st)
    ensures w in st.assignments ==>
      w in MainPhase(present, st, history).assignments
      && MainPhase(present, st, history).assignments[w] == st.assignments[w]
    ensures w in MainPhase(present, st, history).assignments && w !in st.assignments ==>
      MainPhase(present, st, history).assignments[w].zone == Main
  {
    var order := MainOrder(present, st, history);
    OrderFacts(present, st, history);
    RotateMainEntry(order, OpenMain(st), MainState(st.assignments, st.free), history, w);
    if w in order[..Placed(order, OpenMain(st))] {
      assert w in Elements(order);
    }
  }

  /** The Main loop leaves every named zone's holders as phase 1 left them. */
  lemma {:induction false} MainPhaseZones(present: seq<nat>, st: LockState, history: seq<Record>, y: Zone)
    requires Consistent(st) && y != Main
    ensures Holders(MainPhase(present, st, history).assignments, y) == Holders(st.assignments, y)
  {
    var m := MainPhase(present, st, history);
    forall w ensures w in Holders(m.assignments, y) <==> w in Holders(st.assignments, y) {
      MainPhaseEntry(present, st, history, w);
    }
  }

  /** The workers a loop over a list without repeats has not reached are neither repeated nor
      among those it has reached. */
  lemma {:induction false} SuffixFresh(order: seq<nat>, k: nat, before: set<nat>)
    requires NoDuplicates(order) && k <= |order|
    requires forall w :: w in order ==> w !in before
    ensures NoDuplicates(order[k..])
    ensures forall w :: w in order[k..] ==> w !in before + Elements(order[..k])
  {
    var rest := order[k..];
    forall i, j | 0 <= i < j < |rest| ensures rest[i] != rest[j] {
      assert rest[i] == order[k + i] && rest[j] == order[k + j];
    }
    forall w | w in rest ensures w !in before + Elements(order[..k]) {
      var j :| 0 <= j < |rest| && rest[j] == w;
      assert w == order[k + j];
      forall i | 0 <= i < k ensures order[..k][i] != w {
        assert order[..k][i] == order[i];
      }
    }
  }

  /** The Main loop keeps the Main half sound and adds `Placed` Main holders. */
  lemma {:induction false} MainPhaseSound(present: seq<nat>, st: LockState, history: seq<Record>)
    requires Consistent(st) && NoDuplicates(present)
    ensures MainSound(MainPhase(present, st, history).assignments, MainPhase(present, st, history).free)
    ensures |Holders(MainPhase(present, st, history).assignments, Main)|
      == |Holders(st.assignments, Main)| + Placed(MainOrder(present, st, history), OpenMain(st))
  {
    var order := MainOrder(present, st, history);
    OrderFacts(present, st, history);
    RotateMainSound(order, OpenMain(st), MainState(st.assignments, st.free), history);
  }

  /** The Main loop places the workers it reaches and leaves a `remaining` list of workers
      without repeats, none of them assigned. */
  lemma {:induction false} MainPhaseUnplaced(present: seq<nat>, st: LockState, history: seq<Record>)
    requires Consistent(st) && NoDuplicates(present)
    ensures MainPhase(present, st, history).assignments.Keys
      == st.assignments.Keys + Elements(MainOrder(present, st, history)[..Placed(MainOrder(present, st, history), OpenMain(st))])
    ensures Unplaced(ZoneState(MainPhase(present, st, history).assignments, Leftover(present, st, history)))
  {
    var order := MainOrder(present, st, history);
    OrderFacts(present, st, history);
    RotateMainKeys(order, OpenMain(st), MainState(st.assignments, st.free), history);
    forall w | w in order ensures w !in st.assignments.Keys {
      assert w in Elements(order);
    }
    SuffixFresh(order, Placed(order, OpenMain(st)), st.assignments.Keys);
  }

  /** The sorted `remaining` is as long as the list of present workers less those locked. */
  lemma {:induction false} OrderLength(present: seq<nat>, requests: seq<Request>, st: LockState, history: seq<Record>)
    requires DistinctWorkers(requests) && NoDuplicates(present)
    requires LockAll(requests, Elements(present)) == Ok(st)
    ensures |MainOrder(present, st, history)| == |present| - |st.assignments|
  {
    PhaseOneFacts(present, requests, st);
    OrderFacts(present, st, history);
    DistinctCard(present);
    var keys := st.assignments.Keys;
    assert Elements(present) == (Elements(present) - keys) + keys;
  }

  /** Every Main placement carries a position of MAIN_POSITIONS, no two the same, and every
      other placement is a named zone without a position. */
  predicate WellPlaced(a: Assignment) {
    && MainDistinct(a)
    && forall w :: w in a ==>
         if a[w].zone == Main then a[w].position.Some? && IsPosition(a[w].position.value)
         else a[w].zone in WeekendZones && a[w].position.None?
  }

  /** After the Main loop every placement is well formed. */
  lemma {:induction false} MainPhaseWellPlaced(present: seq<nat>, st: LockState, history: seq<Record>)
    requires Consistent(st) && NoDuplicates(present)
    ensures WellPlaced(MainPhase(present, st, history).assignments)
  {
    var m := MainPhase(present, st, history).assignments;
    MainPhaseSound(present, st, history);
    forall w | w in m && m[w].zone != Main ensures m[w].zone in WeekendZones && m[w].position.None? {
      MainPhaseEntry(present, st, history, w);
    }
  }

  /** Adding named-zone placements without positions to a well-formed assignment, changing no
      earlier entry, keeps it well formed. */
  lemma {:induction false} ZonePlacementsWellPlaced(before: Assignment, after: Assignment)
    requires WellPlaced(before)
    requires forall w :: w in before ==> w in after && after[w] == before[w]
    requires forall w :: w in after && w !in before ==>
      after[w].zone in WeekendZones && after[w].zone != Main && after[w].position.None?
    ensures WellPlaced(after)
  {
  }

  /** Phase 3 keeps every earlier entry and adds only named-zone placements without positions. */
  lemma {:induction false} FillZonesExtends(zs: ZoneState, history: seq<Record>)
    requires Unplaced(zs) && FillZones(ZoneOrder, zs, history).Ok?
    ensures forall w :: w in zs.assignments ==>
      w in FillZones(ZoneOrder, zs, history).value.assignments
      && FillZones(ZoneOrder, zs, history).value.assignments[w] == zs.assignments[w]
    ensures forall w :: w in FillZones(ZoneOrder, zs, history).value.assignments && w !in zs.assignments ==>
      FillZones(ZoneOrder, zs, history).value.assignments[w].zone in WeekendZones
      && FillZones(ZoneOrder, zs, history).value.assignments[w].zone != Main
      && FillZones(ZoneOrder, zs, history).value.assignments[w].position.None?
  {
    var a := FillZones(ZoneOrder, zs, history).value.assignments;
    forall w | w in a || w in zs.assignments
      ensures w in zs.assignments ==> w in a && a[w] == zs.assignments[w]
      ensures w in a && w !in zs.assignments ==> a[w].zone in ZoneOrder && a[w].position.None?
    {
      FillZonesEntry(ZoneOrder, zs, history, w);
    }
  }

  /** The Main loop places only present workers and leaves only present workers. */
  lemma {:induction false} MainPhaseWithin(present: seq<nat>, st: LockState, history: seq<Record>)
    requires Consistent(st) && NoDuplicates(present) && st.assignments.Keys <= Elements(present)
    ensures MainPhase(present, st, history).assignments.Keys <= Elements(present)
    ensures Elements(Leftover(present, st, history)) <= Elements(present)
  {
    var order := MainOrder(present, st, history);
    var k := Placed(order, OpenMain(st));
    OrderFacts(present, st, history);
    MainPhaseUnplaced(present, st, history);
    assert Elements(order[..k]) <= Elements(order) && Elements(order[k..]) <= Elements(order);
  }

  /** WEEKEND_ZONES iterates three distinct named zones, none of them Main. */
  lemma {:induction false} ZoneOrderDistinct()
    ensures DistinctZones(ZoneOrder) && Main !in ZoneOrder
    ensures forall z :: z in WeekendZones <==> z in ZoneOrder
  {
  }

  /** How the result of `assign_shift` is made from the phase states once phase 1 succeeds. */
  lemma {:induction false} PlanShape(present: seq<nat>, requests: seq<Request>, history: seq<Record>, shift: ShiftType, st: LockState)
    requires DistinctWorkers(requests) && LockAll(requests, Elements(present)) == Ok(st)
    ensures Consistent(st)
    ensures shift == Weekday ==> Plan(present, requests, history, shift) == Ok(MainPhase(present, st, history).assignments)
    ensures shift == Weekend ==>
      (Plan(present, requests, history, shift).Ok? <==> FillZones(ZoneOrder, WeekendStart(present, st, history), history).Ok?)
    ensures shift == Weekend && Plan(present, requests, history, shift).Ok? ==>
      Plan(present, requests, history, shift).value == FillZones(ZoneOrder, WeekendStart(present, st, history), history).value.assignments
    ensures shift == Weekend && Plan(present, requests, history, shift).Err? ==>
      Plan(present, requests, history, shift).error == FillZones(ZoneOrder, WeekendStart(present, st, history), history).error
  {
    PhaseOneFacts(present, requests, st);
  }

  /** `assign_shift` raises only phase 1's errors, and on weekends the shortage of workers;
      phase 1's error is raised as it is; `need_main < 0` never happens. */
  lemma {:induction false} PlanErrors(present: seq<nat>, requests: seq<Request>, history: seq<Record>, shift: ShiftType)
    requires DistinctWorkers(requests)
    ensures LockAll(requests, Elements(present)).Err? ==>
      Plan(present, requests, history, shift) == Err(LockAll(requests, Elements(present)).error)
    ensures Plan(present, requests, history, shift).Err? ==>
      LockAll(requests, Elements(present)).Err?
      || (shift == Weekend && Plan(present, requests, history, shift).error == InsufficientWeekendStaff)
    ensures Plan(present, requests, history, shift) != Err(OverAllocatedMain)
    ensures shift == Weekday ==> (Plan(present, requests, history, shift).Ok? <==> LockAll(requests, Elements(present)).Ok?)
  {
    LockAllError(requests, Elements(present));
    if LockAll(requests, Elements(present)).Ok? {
      var st := LockAll(requests, Elements(present)).value;
      PlanShape(present, requests, history, shift, st);
      FillZonesError(ZoneOrder, WeekendStart(present, st, history), history);
    }
  }

  /** Every Main placement `assign_shift` returns carries a position of MAIN_POSITIONS, no two
      the same; every other one is a named zone without a position. */
  lemma {:induction false} PlanWellPlaced(present: seq<nat>, requests: seq<Request>, history: seq<Record>, shift: ShiftType, st: LockState)
    requires DistinctWorkers(requests) && NoDuplicates(present)
    requires LockAll(requests, Elements(present)) == Ok(st) && Plan(present, requests, history, shift).Ok?
    ensures WellPlaced(Plan(present, requests, history, shift).value)
  {
    PlanShape(present, requests, history, shift, st);
    MainPhaseWellPlaced(present, st, history);
    if shift == Weekend {
      var zs := WeekendStart(present, st, history);
      MainPhaseUnplaced(present, st, history);
      FillZonesExtends(zs, history);
      ZonePlacementsWellPlaced(zs.assignments, FillZones(ZoneOrder, zs, history).value.assignments);
    }
  }

  /** `assign_shift` assigns only workers who are present. */
  lemma {:induction false} PlanPresent(present: seq<nat>, requests: seq<Request>, history: seq<Record>, shift: ShiftType, st: LockState)
    requires DistinctWorkers(requests) && NoDuplicates(present)
    requires LockAll(requests, Elements(present)) == Ok(st) && Plan(present, requests, history, shift).Ok?
    ensures Plan(present, requests, history, shift).value.Keys <= Elements(present)
  {
    PlanShape(present, requests, history, shift, st);
    PhaseOneFacts(present, requests, st);
    MainPhaseWithin(present, st, history);
    if shift == Weekend {
      MainPhaseUnplaced(present, st, history);
      FillZonesSound(ZoneOrder, WeekendStart(present, st, history), history);
    }
  }

  /** A granted locked request is in the result exactly as requested: no later phase overrides it. */
  lemma {:induction false} PlanLocked(present: seq<nat>, requests: seq<Request>, history: seq<Record>, shift: ShiftType, st: LockState, i: nat)
    requires DistinctWorkers(requests) && NoDuplicates(present)
    requires LockAll(requests, Elements(present)) == Ok(st) && Plan(present, requests, history, shift).Ok?
    requires i < |requests| && requests[i].worker in present
    ensures requests[i].worker in Plan(present, requests, history, shift).value
    ensures Plan(present, requests, history, shift).value[requests[i].worker] == LockedPlacement(requests[i])
  {
    var w := requests[i].worker;
    PlanShape(present, requests, history, shift, st);
    LockAllPrecedence(requests, Elements(present), i);
    MainPhaseEntry(present, st, history, w);
    if shift == Weekend {
      MainPhaseUnplaced(present, st, history);
      FillZonesEntry(ZoneOrder, WeekendStart(present, st, history), history, w);
    }
  }

  /** After the Main loop, Main holds all 18 places when enough unlocked workers are present,
      and otherwise every unlocked worker besides the locked Main holders. */
  lemma {:induction false} MainPhaseCount(present: seq<nat>, requests: seq<Request>, history: seq<Record>, st: LockState)
    requires DistinctWorkers(requests) && NoDuplicates(present)
    requires LockAll(requests, Elements(present)) == Ok(st)
    ensures Consistent(st)
    ensures |Holders(MainPhase(present, st, history).assignments, Main)|
      == if |present| - |st.assignments| >= OpenMain(st) then MainSlots
         else |Holders(st.assignments, Main)| + |present| - |st.assignments|
  {
    PhaseOneFacts(present, requests, st);
    OrderLength(present, requests, st, history);
    MainPhaseSound(present, st, history);
  }

  /** Main ends with all 18 places taken when enough unlocked workers are present, and otherwise
      with every unlocked worker in Main. */
  lemma {:induction false} PlanMainCount(present: seq<nat>, requests: seq<Request>, history: seq<Record>, shift: ShiftType, st: LockState)
    requires DistinctWorkers(requests) && NoDuplicates(present)
    requires LockAll(requests, Elements(present)) == Ok(st) && Plan(present, requests, history, shift).Ok?
    ensures |Holders(Plan(present, requests, history, shift).value, Main)|
      == if |present| - |st.assignments| >= OpenMain(st) then MainSlots
         else |Holders(st.assignments, Main)| + |present| - |st.assignments|
  {
    PlanShape(present, requests, history, shift, st);
    MainPhaseCount(present, requests, history, st);
    if shift == Weekend {
      MainPhaseUnplaced(present, st, history);
      ZoneOrderDistinct();
      FillZonesHolders(ZoneOrder, WeekendStart(present, st, history), history, Main);
    }
  }

  /** Phase 1 puts exactly the granted requests for a named zone into it. */
  lemma {:induction false} LockedZoneCount(requests: seq<Request>, present: set<nat>, st: LockState, z: Zone)
    requires DistinctWorkers(requests) && LockAll(requests, present) == Ok(st) && z in WeekendZones
    ensures |Holders(st.assignments, z)| == ZoneRequests(requests, present, z)
  {
    LockAllConsistent(requests, present);
    LockAllFree(requests, present);
    assert |Holders(st.assignments, z)| + FreeIn(st.freeZones, z) == WeekendZones[z];
  }

  /** Phase 3 adds WEEKEND_ZONES[z] workers to each named zone `z` on top of what phases 1 and 2
      left there, and phase 2 leaves the named zones as phase 1 did. */
  lemma {:induction false} WeekendZoneCount(present: seq<nat>, st: LockState, history: seq<Record>, z: Zone)
    requires Consistent(st) && z in WeekendZones
    requires Unplaced(WeekendStart(present, st, history))
    requires FillZones(ZoneOrder, WeekendStart(present, st, history), history).Ok?
    ensures |Holders(FillZones(ZoneOrder, WeekendStart(present, st, history), history).value.assignments, z)|
      == |Holders(st.assignments, z)| + WeekendZones[z]
  {
    var zs := WeekendStart(present, st, history);
    assert Holders(zs.assignments, z) == Holders(st.assignments, z) by {
      MainPhaseZones(present, st, history, z);
    }
    assert |Holders(FillZones(ZoneOrder, zs, history).value.assignments, z)|
      == |Holders(zs.assignments, z)| + WeekendZones[z] by {
      ZoneFillCount(zs, history, z);
    }
  }

  /** On a weekend each named zone ends with its locked requests plus its full WEEKEND_ZONES
      count: phase 3 fills every zone to capacity whatever phase 1 already put there. */
  lemma {:induction false} PlanWeekendZones(present: seq<nat>, requests: seq<Request>, history: seq<Record>, st: LockState, z: Zone)
    requires DistinctWorkers(requests) && NoDuplicates(present)
    requires LockAll(requests, Elements(present)) == Ok(st)
    requires Plan(present, requests, history, Weekend).Ok? && z in WeekendZones
    ensures |Holders(Plan(present, requests, history, Weekend).value, z)|
      == ZoneRequests(requests, Elements(present), z) + WeekendZones[z]
  {
    PlanShape(present, requests, history, Weekend, st);
    LockedZoneCount(requests, Elements(present), st, z);
    MainPhaseUnplaced(present, st, history);
    WeekendZoneCount(present, st, history, z);
  }

  /** A weekend shift succeeds after phase 1 exactly when the unlocked workers can fill the open
      Main places and all 4 + 3 + 9 zone places. */
  lemma {:induction false} PlanWeekendOk(present: seq<nat>, requests: seq<Request>, history: seq<Record>, st: LockState)
    requires DistinctWorkers(requests) && NoDuplicates(present)
    requires LockAll(requests, Elements(present)) == Ok(st)
    ensures Plan(present, requests, history, Weekend).Ok? <==> |present| - |st.assignments| >= OpenMain(st) + 16
  {
    PlanShape(present, requests, history, Weekend, st);
    PhaseOneFacts(present, requests, st);
    OrderLength(present, requests, st, history);
    ZoneOrderDemand();
    FillZonesOk(ZoneOrder, WeekendStart(present, st, history), history);
  }

  /** Capacity holds for a named zone that no granted locked request names: phase 3 puts
      exactly its WEEKEND_ZONES count there. */
  lemma {:induction false} PlanWeekendCapacity(present: seq<nat>, requests: seq<Request>, history: seq<Record>, st: LockState, z: Zone)
    requires DistinctWorkers(requests) && NoDuplicates(present)
    requires LockAll(requests, Elements(present)) == Ok(st)
    requires Plan(present, requests, history, Weekend).Ok? && z in WeekendZones
    requires ZoneRequests(requests, Elements(present), z) == 0
    ensures |Holders(Plan(present, requests, history, Weekend).value, z)| == WeekendZones[z]
  {
    PlanWeekendZones(present, requests, history, st, z);
  }

  /** As written, a granted locked request for a named zone makes that zone overflow: whenever
      enough workers are present for the weekend to succeed, the zone ends above its capacity. */
  lemma {:induction false} LockedZoneOverfills(present: seq<nat>, requests: seq<Request>, history: seq<Record>, st: LockState, z: Zone)
    requires DistinctWorkers(requests) && NoDuplicates(present)
    requires LockAll(requests, Elements(present)) == Ok(st) && z in WeekendZones
    requires ZoneRequests(requests, Elements(present), z) > 0
    requires |present| - |st.assignments| >= OpenMain(st) + 16
    ensures Plan(present, requests, history, Weekend).Ok?
    ensures |Holders(Plan(present, requests, history, Weekend).value, z)| > WeekendZones[z]
  {
    PlanWeekendOk(present, requests, history, st);
    PlanWeekendZones(present, requests, history, st, z);
  }

  /** As written, 34 present workers are not enough for a weekend once a locked request names
      a zone: the locked worker is not in `remaining`, yet phase 3 still asks for 16. */
  lemma {:induction false} LockedZoneShortfall(present: seq<nat>, requests: seq<Request>, history: seq<Record>, st: LockState)
    requires DistinctWorkers(requests) && NoDuplicates(present)
    requires LockAll(requests, Elements(present)) == Ok(st)
    requires |present| == MainSlots + 16
    requires st.assignments != map[] && Holders(st.assignments, Main) == {}
    ensures Plan(present, requests, history, Weekend) == Err(InsufficientWeekendStaff)
  {
    PlanWeekendOk(present, requests, history, st);
    PlanErrors(present, requests, history, Weekend);
    assert |st.assignments| > 0 by {
      var w :| w in st.assignments;
    }
  }

  /** As written, 34 present workers and a single locked request, for Small, make a weekend
      shift raise the shortage of weekend staff. */
  lemma {:induction false} OneLockedShortfall(present: seq<nat>, r: Request, history: seq<Record>)
    requires NoDuplicates(present) && |present| == MainSlots + 16
    requires r.worker in present && r.zone == Small
    ensures Plan(present, [r], history, Weekend) == Err(InsufficientWeekendStaff)
  {
    var asg: Assignment := map[r.worker := Placement(Small, None)];
    OneZoneRequest(r, Elements(present));
    assert Holders(asg, Main) == {};
    LockedZoneShortfall(present, [r], history, LockState(asg, AllPositions, WeekendZones[Small := 3], {r.worker}));
  }
}
