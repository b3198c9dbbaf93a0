/** Phase 3 as evidently intended: each named zone receives the places phase 1 left free in it
    (`free_zones[zone]`) rather than its full WEEKEND_ZONES count, so that a locked request for
    a zone counts against that zone's capacity. The engine itself (module Engine) keeps the
    behaviour of the code as written. */
module Corrected {
  import opened ShiftTypes
  import opened History
  import opened LockedPhase
  import opened MainRotation
  import opened ZoneAllocation
  import opened Engine

  /** `for zone in WEEKEND_ZONES: for _ in range(free_zones[zone])`: the zones of `zones` in
      turn, each filled with the places left free in it, stopping at the first failure. */
  function FillFree(zones: seq<Zone>, freeZones: map<Zone, nat>, st: ZoneState, history: seq<Record>): Result<ZoneState>
    decreases |zones|
  {
    if zones == [] then Ok(st)
    else
      match FillZone(zones[0], FreeIn(freeZones, zones[0]), st, history)
      case Err(e) => Err(e)
      case Ok(s) => FillFree(zones[1..], freeZones, s, history)
  }

  /** The places the corrected phase 3 fills over `zones`. */
  function FreeDemand(zones: seq<Zone>, freeZones: map<Zone, nat>): nat {
    if zones == [] then 0 else FreeIn(freeZones, zones[0]) + FreeDemand(zones[1..], freeZones)
  }

  /** The corrected phase 3 succeeds exactly when enough workers remain for the free places,
      and then uses up that many. */
  lemma {:induction false} FillFreeOk(zones: seq<Zone>, freeZones: map<Zone, nat>, st: ZoneState, history: seq<Record>)
    ensures FillFree(zones, freeZones, st, history).Ok? <==> FreeDemand(zones, freeZones) <= |st.remaining|
    ensures FillFree(zones, freeZones, st, history).Ok? ==>
      |FillFree(zones, freeZones, st, history).value.remaining| == |st.remaining| - FreeDemand(zones, freeZones)
    decreases |zones|
  {
    if zones != [] {
      PickerPicksMember(history, zones[0]);
      FillWithOk(zones[0], FreeIn(freeZones, zones[0]), st, Picker(history, zones[0]));
      var first := FillZone(zones[0], FreeIn(freeZones, zones[0]), st, history);
      if first.Ok? {
        FillFreeOk(zones[1..], freeZones, first.value, history);
      }
    }
  }

  /** The corrected phase 3 over distinct `zones` adds each one's free places to its holders
      and no holder to any other zone. */
  lemma {:induction false} FillFreeHolders(zones: seq<Zone>, freeZones: map<Zone, nat>, st: ZoneState, history: seq<Record>, y: Zone)
    requires DistinctZones(zones)
    requires Unplaced(st) && FillFree(zones, freeZones, st, history).Ok?
    ensures |Holders(FillFree(zones, freeZones, st, history).value.assignments, y)|
      == |Holders(st.assignments, y)| + (if y in zones then FreeIn(freeZones, y) else 0)
    decreases |zones|
  {
    if zones != [] {
      var count := FreeIn(freeZones, zones[0]);
      var first := FillZone(zones[0], count, st, history);
      PickerPicksMember(history, zones[0]);
      FillWithHolders(zones[0], count, st, Picker(history, zones[0]), y);
      FillWithSound(zones[0], count, st, Picker(history, zones[0]));
      DistinctZonesTail(zones, y);
      FillFreeHolders(zones[1..], freeZones, first.value, history, y);
    }
  }

  /** `assign_shift` with the corrected phase 3. */
  function CorrectedPlan(present: seq<nat>, requests: seq<Request>, history: seq<Record>, shift: ShiftType): Result<Assignment>
    requires DistinctWorkers(requests)
  {
    match LockAll(requests, Elements(present))
    case Err(e) => Err(e)
    case Ok(st) =>
      if OpenMain(st) < 0 then Err(OverAllocatedMain)
      else
        LockAllConsistent(requests, Elements(present));
        if shift == Weekday then Ok(MainPhase(present, st, history).assignments)
        else
          match FillFree(ZoneOrder, st.freeZones, WeekendStart(present, st, history), history)
          case Err(e) => Err(e)
          case Ok(z) => Ok(z.assignments)
  }

  /** How the corrected result is made from the phase states once phase 1 succeeds. */
  lemma {:induction false} CorrectedShape(present: seq<nat>, requests: seq<Request>, history: seq<Record>, st: LockState)
    requires DistinctWorkers(requests) && LockAll(requests, Elements(present)) == Ok(st)
    ensures Consistent(st)
    ensures CorrectedPlan(present, requests, history, Weekend).Ok?
      <==> FillFree(ZoneOrder, st.freeZones, WeekendStart(present, st, history), history).Ok?
    ensures CorrectedPlan(present, requests, history, Weekend).Ok? ==>
      CorrectedPlan(present, requests, history, Weekend).value
        == FillFree(ZoneOrder, st.freeZones, WeekendStart(present, st, history), history).value.assignments
  {
    LockAllConsistent(requests, Elements(present));
  }

  /** Phase 3 of the corrected engine adds `free_zones[z]` holders to a named zone `z` that
      phases 1 and 2 left as phase 1 did. */
  lemma {:induction false} FreeZoneCount(present: seq<nat>, st: LockState, history: seq<Record>, z: Zone)
    requires Consistent(st) && z in WeekendZones
    requires Unplaced(WeekendStart(present, st, history))
    requires FillFree(ZoneOrder, st.freeZones, WeekendStart(present, st, history), history).Ok?
    ensures |Holders(FillFree(ZoneOrder, st.freeZones, WeekendStart(present, st, history), history).value.assignments, z)|
      == |Holders(st.assignments, z)| + FreeIn(st.freeZones, z)
  {
    assert z != Main by {
      ZoneOrderDistinct();
    }
    MainPhaseZones(present, st, history, z);
    FreeZoneCountFrom(WeekendStart(present, st, history), st.assignments, st.freeZones, history, z);
  }

  /** The same count for any phase 3 start state whose holders of `z` are `before`'s. */
  lemma {:induction false} FreeZoneCountFrom(zs: ZoneState, before: Assignment, freeZones: map<Zone, nat>, history: seq<Record>, z: Zone)
    requires z in WeekendZones && Unplaced(zs) && Holders(zs.assignments, z) == Holders(before, z)
    requires FillFree(ZoneOrder, freeZones, zs, history).Ok?
    ensures |Holders(FillFree(ZoneOrder, freeZones, zs, history).value.assignments, z)|
      == |Holders(before, z)| + FreeIn(freeZones, z)
  {
    ZoneOrderDistinct();
    FillFreeHolders(ZoneOrder, freeZones, zs, history, z);
  }

  /** Capacity: with the corrected phase 3 every named zone ends with exactly its WEEKEND_ZONES
      count of workers, locked requests for it included. */
  lemma {:induction false} CorrectedCapacity(present: seq<nat>, requests: seq<Request>, history: seq<Record>, st: LockState, z: Zone)
    requires DistinctWorkers(requests) && NoDuplicates(present)
    requires LockAll(requests, Elements(present)) == Ok(st)
    requires CorrectedPlan(present, requests, history, Weekend).Ok? && z in WeekendZones
    ensures |Holders(CorrectedPlan(present, requests, history, Weekend).value, z)| == WeekendZones[z]
  {
    CorrectedShape(present, requests, history, st);
    MainPhaseUnplaced(present, st, history);
    FreeZoneCount(present, st, history, z);
    LockedZoneCount(requests, Elements(present), st, z);
    LockAllFree(requests, Elements(present));
  }

  /** With the corrected phase 3 a weekend succeeds exactly when the unlocked workers can fill
      the open Main places and the zone places phase 1 left free, or when locked requests took
      every zone place (then phase 3 asks for nobody, as on a weekday). */
  lemma {:induction false} CorrectedWeekendOk(present: seq<nat>, requests: seq<Request>, history: seq<Record>, st: LockState)
    requires DistinctWorkers(requests) && NoDuplicates(present)
    requires LockAll(requests, Elements(present)) == Ok(st)
    ensures CorrectedPlan(present, requests, history, Weekend).Ok?
      <==> FreeDemand(ZoneOrder, st.freeZones) == 0
           || |present| - |st.assignments| >= OpenMain(st) + FreeDemand(ZoneOrder, st.freeZones)
  {
    CorrectedShape(present, requests, history, st);
    PhaseOneFacts(present, requests, st);
    OrderLength(present, requests, st, history);
    FillFreeOk(ZoneOrder, st.freeZones, WeekendStart(present, st, history), history);
  }

  /** Phase 3 over ZoneOrder asks for the free places of Small, Far and Veranda. */
  lemma {:induction false} FreeDemandZones(freeZones: map<Zone, nat>)
    ensures FreeDemand(ZoneOrder, freeZones)
      == FreeIn(freeZones, Small) + FreeIn(freeZones, Far) + FreeIn(freeZones, Veranda)
  {
    assert ZoneOrder[1..] == [Far, Veranda] && ZoneOrder[1..][1..] == [Veranda];
    assert [Veranda][1..] == [];
    assert FreeDemand([Veranda], freeZones) == FreeIn(freeZones, Veranda);
    assert FreeDemand([Far, Veranda], freeZones) == FreeIn(freeZones, Far) + FreeIn(freeZones, Veranda);
  }

  /** The free places after phase 1 are 16 less one per granted named-zone request. */
  lemma {:induction false} FreeDemandAfterLocks(requests: seq<Request>, present: set<nat>, st: LockState)
    requires LockAll(requests, present) == Ok(st)
    ensures FreeDemand(ZoneOrder, st.freeZones)
      == 16 - ZoneRequests(requests, present, Small) - ZoneRequests(requests, present, Far)
         - ZoneRequests(requests, present, Veranda)
  {
    FreeDemandZones(st.freeZones);
    LockAllFree(requests, present);
    assert FreeIn(st.freeZones, Small) + ZoneRequests(requests, present, Small) == 4;
    assert FreeIn(st.freeZones, Far) + ZoneRequests(requests, present, Far) == 3;
    assert FreeIn(st.freeZones, Veranda) + ZoneRequests(requests, present, Veranda) == 9;
  }

  /** 34 present workers and a single locked request, for Small: with the corrected phase 3 the
      weekend succeeds, and each named zone ends exactly at its capacity. */
  lemma {:induction false} CorrectedOneLocked(present: seq<nat>, r: Request, history: seq<Record>)
    requires NoDuplicates(present) && |present| == MainSlots + 16
    requires r.worker in present && r.zone == Small
    ensures CorrectedPlan(present, [r], history, Weekend).Ok?
    ensures forall z :: z in WeekendZones ==>
      |Holders(CorrectedPlan(present, [r], history, Weekend).value, z)| == WeekendZones[z]
  {
    var asg: Assignment := map[r.worker := Placement(Small, None)];
    var st := LockState(asg, AllPositions, WeekendZones[Small := 3], {r.worker});
    OneZoneRequest(r, Elements(present));
    assert Holders(asg, Main) == {};
    assert FreeDemand(ZoneOrder, st.freeZones) == 15 by {
      assert ZoneOrder[1..] == [Far, Veranda] && ZoneOrder[1..][1..] == [Veranda];
      assert FreeDemand([], st.freeZones) == 0;
      assert FreeDemand([Veranda], st.freeZones) == 9;
      assert FreeDemand([Far, Veranda], st.freeZones) == 12;
    }
    CorrectedWeekendOk(present, [r], history, st);
    forall z | z in WeekendZones
      ensures |Holders(CorrectedPlan(present, [r], history, Weekend).value, z)| == WeekendZones[z]
    {
      CorrectedCapacity(present, [r], history, st, z);
    }
  }

  /** Where every zone still has its full capacity free, the corrected phase 3 is the one as
      written. */
  lemma {:induction false} FillFreeAgrees(zones: seq<Zone>, freeZones: map<Zone, nat>, st: ZoneState, history: seq<Record>)
    requires forall z :: z in zones ==> z in WeekendZones && FreeIn(freeZones, z) == WeekendZones[z]
    ensures FillFree(zones, freeZones, st, history) == FillZones(zones, st, history)
    decreases |zones|
  {
    if zones != [] {
      var first := FillZone(zones[0], WeekendZones[zones[0]], st, history);
      if first.Ok? {
        forall z | z in zones[1..] ensures z in WeekendZones && FreeIn(freeZones, z) == WeekendZones[z] {
          assert z in zones;
        }
        FillFreeAgrees(zones[1..], freeZones, first.value, history);
      }
    }
  }

  /** When no granted locked request names a zone, the corrected engine and the engine as
      written return the same result. */
  lemma {:induction false} CorrectedAgrees(present: seq<nat>, requests: seq<Request>, history: seq<Record>, shift: ShiftType)
    requires DistinctWorkers(requests)
    requires forall z :: z in WeekendZones ==> ZoneRequests(requests, Elements(present), z) == 0
    ensures CorrectedPlan(present, requests, history, shift) == Plan(present, requests, history, shift)
  {
    if LockAll(requests, Elements(present)).Ok? {
      var st := LockAll(requests, Elements(present)).value;
      assert Consistent(st) by {
        LockAllConsistent(requests, Elements(present));
      }
      assert forall z :: z in ZoneOrder ==> z in WeekendZones && FreeIn(st.freeZones, z) == WeekendZones[z] by {
        LockAllFree(requests, Elements(present));
        ZoneOrderDistinct();
      }
      FillFreeAgrees(ZoneOrder, st.freeZones, WeekendStart(present, st, history), history);
    }
  }
}
