/** Phase 1 of `assign_shift`: the locked (mandatory) requests, applied in dictionary order
    before any fairness ranking. */
module LockedPhase {
  import opened ShiftTypes

  /** The working state phase 1 threads through its loop. */
  datatype LockState = LockState(assignments: Assignment, free: set<nat>, freeZones: map<Zone, nat>, locked: set<nat>)

  /** Before the first request: nothing assigned, all of MAIN_POSITIONS free, a copy of WEEKEND_ZONES. */
  const Initial: LockState := LockState(map[], AllPositions, WeekendZones, {})

  /** `free_zones.get(z, 0)` */
  function FreeIn(freeZones: map<Zone, nat>, z: Zone): nat {
    if z in freeZones then freeZones[z] else 0
  }

  /** The placement a granted request receives: its Main position, or its named zone without one. */
  function LockedPlacement(r: Request): Placement {
    if r.zone == Main then Placement(Main, r.position) else Placement(r.zone, None)
  }

  /** Dictionary keys are unique: no worker has two requests. */
  predicate DistinctWorkers(requests: seq<Request>) {
    forall i, j :: 0 <= i < j < |requests| ==> requests[i].worker != requests[j].worker
  }

  /** One iteration of the phase 1 loop. */
  function LockStep(st: LockState, r: Request, present: set<nat>): Result<LockState> {
    if r.worker !in present then Ok(st)
    else if r.zone == Main then
      if r.position.None? then Err(MissingPosition(r.worker))
      else if r.position.value !in st.free then Err(PositionConflict(r.position.value))
      else Ok(LockState(st.assignments[r.worker := Placement(Main, r.position)],
                        st.free - {r.position.value}, st.freeZones, st.locked + {r.worker}))
    else if r.zone !in WeekendZones then Err(UnknownZone(r.zone))
    else if FreeIn(st.freeZones, r.zone) == 0 then Err(ZoneFull(r.zone))
    else Ok(LockState(st.assignments[r.worker := Placement(r.zone, None)], st.free,
                      st.freeZones[r.zone := FreeIn(st.freeZones, r.zone) - 1], st.locked + {r.worker}))
  }

  /** The outcome of phase 1 over a prefix of the requests: the first error, or the state. */
  function LockAll(requests: seq<Request>, present: set<nat>): Result<LockState>
    decreases |requests|
  {
    if requests == [] then Ok(Initial)
    else
      match LockAll(requests[..|requests| - 1], present)
      case Err(e) => Err(e)
      case Ok(st) => LockStep(st, requests[|requests| - 1], present)
  }

  /** The workers whose requests phase 1 handles (the others are skipped). */
  function LockedWorkers(requests: seq<Request>, present: set<nat>): set<nat>
    decreases |requests|
  {
    if requests == [] then {}
    else
      var r := requests[|requests| - 1];
      LockedWorkers(requests[..|requests| - 1], present) + (if r.worker in present then {r.worker} else {})
  }

  /** The Main positions that the handled requests name. */
  function TakenPositions(requests: seq<Request>, present: set<nat>): set<nat>
    decreases |requests|
  {
    if requests == [] then {}
    else
      var r := requests[|requests| - 1];
      TakenPositions(requests[..|requests| - 1], present)
        + (if r.worker in present && r.zone == Main && r.position.Some? then {r.position.value} else {})
  }

  /** How many handled requests name zone `z`. */
  function ZoneRequests(requests: seq<Request>, present: set<nat>, z: Zone): nat
    decreases |requests|
  {
    if requests == [] then 0
    else
      var r := requests[|requests| - 1];
      ZoneRequests(requests[..|requests| - 1], present, z) + (if r.worker in present && r.zone == z then 1 else 0)
  }

  /** The zone half: every other placement is a named zone without a position, and each named
      zone's holders plus its entry of `free_zones` make up its capacity. */
  predicate ZonesSound(asg: Assignment, freeZones: map<Zone, nat>) {
    && (forall w :: w in asg && asg[w].zone != Main ==> asg[w].zone in WeekendZones && asg[w].position.None?)
    && (forall z :: z in WeekendZones ==> |Holders(asg, z)| + FreeIn(freeZones, z) == WeekendZones[z])
  }

  /** The consistency phase 1 keeps between its assignments, `free_main`, `free_zones` and `locked`. */
  predicate Consistent(st: LockState) {
    && st.locked == st.assignments.Keys
    && MainSound(st.assignments, st.free)
    && ZonesSound(st.assignments, st.freeZones)
  }

  lemma {:induction false} InitialConsistent()
    ensures Consistent(Initial)
  {
    var asg: Assignment := map[];
    assert forall z :: Holders(asg, z) == {};
    AllPositionsFacts();
  }

  /** A granted request keeps the state consistent and adds exactly its own placement. */
  lemma {:induction false} StepConsistent(st: LockState, r: Request, present: set<nat>)
    requires Consistent(st) && r.worker !in st.assignments
    requires LockStep(st, r, present).Ok?
    ensures Consistent(LockStep(st, r, present).value)
    ensures LockStep(st, r, present).value.assignments
      == if r.worker in present then st.assignments[r.worker := LockedPlacement(r)] else st.assignments
  {
    if r.worker in present {
      if r.zone == Main {
        MainStepConsistent(st, r.worker, r.position.value);
      } else {
        ZoneStepConsistent(st, r.worker, r.zone);
      }
    }
  }

  lemma {:induction false} MainStepConsistent(st: LockState, w: nat, p: nat)
    requires Consistent(st) && w !in st.assignments && p in st.free
    ensures Consistent(LockState(st.assignments[w := Placement(Main, Some(p))], st.free - {p},
                                 st.freeZones, st.locked + {w}))
  {
    MainAddSound(st.assignments, st.free, w, p);
    ZonesAddMain(st.assignments, st.freeZones, w, p);
  }

  lemma {:induction false} ZoneStepConsistent(st: LockState, w: nat, z: Zone)
    requires Consistent(st) && w !in st.assignments
    requires z != Main && z in WeekendZones && FreeIn(st.freeZones, z) > 0
    ensures Consistent(LockState(st.assignments[w := Placement(z, None)], st.free,
                                 st.freeZones[z := FreeIn(st.freeZones, z) - 1], st.locked + {w}))
  {
    MainAddZone(st.assignments, st.free, w, z);
    ZonesAddZone(st.assignments, st.freeZones, w, z);
  }

  /** A Main placement leaves the zone half untouched. */
  lemma {:induction false} ZonesAddMain(asg: Assignment, freeZones: map<Zone, nat>, w: nat, p: nat)
    requires ZonesSound(asg, freeZones) && w !in asg
    ensures ZonesSound(asg[w := Placement(Main, Some(p))], freeZones)
  {
    forall z | z in WeekendZones
      ensures |Holders(asg[w := Placement(Main, Some(p))], z)| + FreeIn(freeZones, z) == WeekendZones[z]
    {
      HoldersAdd(asg, w, Placement(Main, Some(p)), z);
    }
  }

  /** A named-zone placement leaves the Main half untouched. */
  lemma {:induction false} MainAddZone(asg: Assignment, free: set<nat>, w: nat, z: Zone)
    requires MainSound(asg, free) && w !in asg && z != Main
    ensures MainSound(asg[w := Placement(z, None)], free)
  {
    var asg' := asg[w := Placement(z, None)];
    HoldersAdd(asg, w, Placement(z, None), Main);
    forall w1, w2 | w1 in asg' && w2 in asg' && w1 != w2 && asg'[w1].zone == Main && asg'[w2].zone == Main
      ensures asg'[w1].position != asg'[w2].position
    {
      assert asg'[w1] == asg[w1] && asg'[w2] == asg[w2];
    }
    forall v | v in asg' && asg'[v].zone == Main
      ensures asg'[v].position.Some? && IsPosition(asg'[v].position.value) && asg'[v].position.value !in free
    {
      assert asg'[v] == asg[v];
    }
  }

  /** A placement in a named zone with room moves one unit from `free_zones` to the holders. */
  lemma {:induction false} ZonesAddZone(asg: Assignment, freeZones: map<Zone, nat>, w: nat, z: Zone)
    requires ZonesSound(asg, freeZones) && w !in asg
    requires z != Main && z in WeekendZones && FreeIn(freeZones, z) > 0
    ensures ZonesSound(asg[w := Placement(z, None)], freeZones[z := FreeIn(freeZones, z) - 1])
  {
    var asg' := asg[w := Placement(z, None)];
    var fz := freeZones[z := FreeIn(freeZones, z) - 1];
    forall y | y in WeekendZones ensures |Holders(asg', y)| + FreeIn(fz, y) == WeekendZones[y] {
      HoldersAdd(asg, w, Placement(z, None), y);
      if y != z {
        assert FreeIn(fz, y) == FreeIn(freeZones, y);
      }
    }
  }

  /** A successful phase 1 over a non-empty list is a successful phase 1 over its prefix
      followed by one granted (or skipped) request. */
  lemma {:induction false} LockAllLast(requests: seq<Request>, present: set<nat>)
    requires requests != [] && LockAll(requests, present).Ok?
    ensures LockAll(requests[..|requests| - 1], present).Ok?
    ensures LockStep(LockAll(requests[..|requests| - 1], present).value, requests[|requests| - 1], present)
      == LockAll(requests, present)
  {
  }

  lemma {:induction false} LockAllConsistent(requests: seq<Request>, present: set<nat>)
    requires DistinctWorkers(requests)
    requires LockAll(requests, present).Ok?
    ensures Consistent(LockAll(requests, present).value)
    ensures LockAll(requests, present).value.assignments.Keys == LockedWorkers(requests, present)
    decreases |requests|
  {
    if requests == [] {
      InitialConsistent();
    } else {
      var n := |requests| - 1;
      var prefix, r := requests[..n], requests[n];
      assert DistinctWorkers(prefix);
      LockAllLast(requests, present);
      LockAllConsistent(prefix, present);
      var st := LockAll(prefix, present).value;
      assert r.worker !in st.assignments by {
        if r.worker in LockedWorkers(prefix, present) {
          LockedWorkersFrom(prefix, present, r.worker);
        }
      }
      StepConsistent(st, r, present);
    }
  }

  /** Locked precedence: every handled worker holds exactly the placement its request names. */
  lemma {:induction false} LockAllPrecedence(requests: seq<Request>, present: set<nat>, i: nat)
    requires DistinctWorkers(requests)
    requires LockAll(requests, present).Ok?
    requires i < |requests| && requests[i].worker in present
    ensures requests[i].worker in LockAll(requests, present).value.assignments
    ensures LockAll(requests, present).value.assignments[requests[i].worker] == LockedPlacement(requests[i])
    decreases |requests|
  {
    var n := |requests| - 1;
    var prefix, r := requests[..n], requests[n];
    assert DistinctWorkers(prefix);
    LockAllLast(requests, present);
    LockAllConsistent(prefix, present);
    var st := LockAll(prefix, present).value;
    assert r.worker !in st.assignments by {
      if r.worker in LockedWorkers(prefix, present) {
        LockedWorkersFrom(prefix, present, r.worker);
      }
    }
    StepConsistent(st, r, present);
    if i < n {
      assert requests[i] == prefix[i];
      LockAllPrecedence(prefix, present, i);
    }
  }

  /** `free_main` and `free_zones` after phase 1 are the capacity the handled requests left. */
  lemma {:induction false} LockAllFree(requests: seq<Request>, present: set<nat>)
    requires LockAll(requests, present).Ok?
    ensures LockAll(requests, present).value.free == AllPositions - TakenPositions(requests, present)
    ensures forall z :: z in WeekendZones ==>
      FreeIn(LockAll(requests, present).value.freeZones, z) + ZoneRequests(requests, present, z) == WeekendZones[z]
    decreases |requests|
  {
    if requests != [] {
      var n := |requests| - 1;
      var prefix, r := requests[..n], requests[n];
      LockAllLast(requests, present);
      LockAllFree(prefix, present);
      var st := LockAll(prefix, present).value;
      var st' := LockAll(requests, present).value;
      if r.worker in present && r.zone != Main {
        forall z | z in WeekendZones
          ensures FreeIn(st'.freeZones, z) + ZoneRequests(requests, present, z) == WeekendZones[z]
        {
          if z != r.zone {
            assert FreeIn(st'.freeZones, z) == FreeIn(st.freeZones, z);
          }
        }
      }
    }
  }

  /** A handled worker comes from some handled request. */
  lemma {:induction false} LockedWorkersFrom(requests: seq<Request>, present: set<nat>, w: nat)
    requires w in LockedWorkers(requests, present)
    ensures exists i :: 0 <= i < |requests| && requests[i].worker == w
    decreases |requests|
  {
    var n := |requests| - 1;
    if w != requests[n].worker || requests[n].worker !in present {
      LockedWorkersFrom(requests[..n], present, w);
      var i :| 0 <= i < n && requests[..n][i].worker == w;
      assert requests[i].worker == w;
    }
  }

  /** A request phase 1 grants (or skips), judged from the requests handled before it. */
  predicate Admissible(earlier: seq<Request>, r: Request, present: set<nat>) {
    || r.worker !in present
    || (r.zone == Main && r.position.Some? && IsPosition(r.position.value)
        && r.position.value !in TakenPositions(earlier, present))
    || (r.zone in WeekendZones && ZoneRequests(earlier, present, r.zone) < WeekendZones[r.zone])
  }

  /** The outcome of one locked request, given the requests handled before it: a worker who is
      not present is skipped; a Main request without a position fails; a Main request for a
      position outside MAIN_POSITIONS or named by an earlier request fails; an unknown zone fails;
      a named zone already requested to capacity fails; anything else is granted exactly. */
  lemma {:induction false} LockOutcome(requests: seq<Request>, present: set<nat>)
    requires requests != []
    requires LockAll(requests[..|requests| - 1], present).Ok?
    ensures var earlier, r := requests[..|requests| - 1], requests[|requests| - 1];
      var st, out := LockAll(earlier, present).value, LockAll(requests, present);
      && (r.worker !in present ==> out == Ok(st))
      && (r.worker in present && r.zone == Main && r.position.None? ==> out == Err(MissingPosition(r.worker)))
      && (r.worker in present && r.zone == Main && r.position.Some?
          && (!IsPosition(r.position.value) || r.position.value in TakenPositions(earlier, present))
          ==> out == Err(PositionConflict(r.position.value)))
      && (r.worker in present && r.zone != Main && r.zone !in WeekendZones ==> out == Err(UnknownZone(r.zone)))
      && (r.worker in present && r.zone in WeekendZones && ZoneRequests(earlier, present, r.zone) >= WeekendZones[r.zone]
          ==> out == Err(ZoneFull(r.zone)))
      && (out.Ok? <==> Admissible(earlier, r, present))
      && (out.Ok? && r.worker in present ==> out.value.assignments == st.assignments[r.worker := LockedPlacement(r)])
  {
    var n := |requests| - 1;
    LockAllFree(requests[..n], present);
    LockAllUnfold(requests, present);
    StepOutcome(requests[..n], LockAll(requests[..n], present).value, requests[n], present);
  }

  lemma {:induction false} LockAllUnfold(requests: seq<Request>, present: set<nat>)
    requires requests != [] && LockAll(requests[..|requests| - 1], present).Ok?
    ensures LockAll(requests, present)
      == LockStep(LockAll(requests[..|requests| - 1], present).value, requests[|requests| - 1], present)
  {
  }

  /** The outcome of one loop iteration, from the capacity the earlier requests left. */
  lemma {:induction false} StepOutcome(earlier: seq<Request>, st: LockState, r: Request, present: set<nat>)
    requires st.free == AllPositions - TakenPositions(earlier, present)
    requires forall z :: z in WeekendZones ==>
      FreeIn(st.freeZones, z) + ZoneRequests(earlier, present, z) == WeekendZones[z]
    ensures var out := LockStep(st, r, present);
      && (r.worker !in present ==> out == Ok(st))
      && (r.worker in present && r.zone == Main && r.position.None? ==> out == Err(MissingPosition(r.worker)))
      && (r.worker in present && r.zone == Main && r.position.Some?
          && (!IsPosition(r.position.value) || r.position.value in TakenPositions(earlier, present))
          ==> out == Err(PositionConflict(r.position.value)))
      && (r.worker in present && r.zone != Main && r.zone !in WeekendZones ==> out == Err(UnknownZone(r.zone)))
      && (r.worker in present && r.zone in WeekendZones && ZoneRequests(earlier, present, r.zone) >= WeekendZones[r.zone]
          ==> out == Err(ZoneFull(r.zone)))
      && (out.Ok? <==> Admissible(earlier, r, present))
      && (out.Ok? && r.worker in present ==> out.value.assignments == st.assignments[r.worker := LockedPlacement(r)])
  {
    AllPositionsFacts();
    if r.worker in present && r.zone in WeekendZones {
      assert FreeIn(st.freeZones, r.zone) + ZoneRequests(earlier, present, r.zone) == WeekendZones[r.zone];
    }
  }

  /** Phase 1 succeeds exactly when every request is admissible given the ones before it. */
  lemma {:induction false} LockAllSucceeds(requests: seq<Request>, present: set<nat>)
    requires DistinctWorkers(requests)
    ensures LockAll(requests, present).Ok?
      <==> forall i :: 0 <= i < |requests| ==> Admissible(requests[..i], requests[i], present)
    decreases |requests|
  {
    if requests != [] {
      var n := |requests| - 1;
      var earlier := requests[..n];
      assert DistinctWorkers(earlier);
      LockAllSucceeds(earlier, present);
      assert forall i :: 0 <= i < n ==> earlier[..i] == requests[..i] && earlier[i] == requests[i];
      if LockAll(earlier, present).Ok? {
        LockOutcome(requests, present);
      }
    }
  }

  /** Once a prefix of the requests fails, the whole phase fails with the same error. */
  lemma {:induction false} ErrorPersists(requests: seq<Request>, present: set<nat>, k: nat, e: Error)
    requires k <= |requests| && LockAll(requests[..k], present) == Err(e)
    ensures LockAll(requests, present) == Err(e)
    decreases |requests| - k
  {
    if k < |requests| {
      assert requests[..k + 1][..k] == requests[..k];
      ErrorPersists(requests, present, k + 1, e);
    } else {
      assert requests[..k] == requests;
    }
  }

  /** Phase 1 fails only with one of its own four errors. */
  lemma {:induction false} LockAllError(requests: seq<Request>, present: set<nat>)
    ensures LockAll(requests, present).Err? ==>
      LockAll(requests, present).error.MissingPosition? || LockAll(requests, present).error.PositionConflict?
      || LockAll(requests, present).error.UnknownZone? || LockAll(requests, present).error.ZoneFull?
    decreases |requests|
  {
    if requests != [] {
      LockAllError(requests[..|requests| - 1], present);
    }
  }

  /** Phase 1 handles only workers who are present. */
  lemma {:induction false} LockedWorkersPresent(requests: seq<Request>, present: set<nat>)
    ensures LockedWorkers(requests, present) <= present
    decreases |requests|
  {
    if requests != [] {
      LockedWorkersPresent(requests[..|requests| - 1], present);
    }
  }

  /** A single request for Small from a present worker: phase 1 grants it, leaving every Main
      position free and three places in Small. */
  lemma {:induction false} OneZoneRequest(r: Request, present: set<nat>)
    requires r.worker in present && r.zone == Small
    ensures LockAll([r], present)
      == Ok(LockState(map[r.worker := Placement(Small, None)], AllPositions, WeekendZones[Small := 3], {r.worker}))
  {
    assert [r][..0] == [];
    assert FreeIn(WeekendZones, Small) == 4;
    assert LockAll([r], present) == LockStep(Initial, r, present);
    assert map[][r.worker := Placement(r.zone, None)] == map[r.worker := Placement(Small, None)];
    assert {} + {r.worker} == {r.worker};
  }

  /** Phase 1 of `assign_shift`: the loop over the locked requests. */
  method ApplyLocked(requests: seq<Request>, present: seq<nat>) returns (r: Result<LockState>)
    ensures r == LockAll(requests, Elements(present))
  {
    var presentSet := set w | w in present;
    var assignments: Assignment := map[];
    var locked: set<nat> := {};
    var freeMain := AllPositions;
    var freeZones := WeekendZones;
    for i := 0 to |requests|
      invariant LockAll(requests[..i], presentSet) == Ok(LockState(assignments, freeMain, freeZones, locked))
    {
      var req := requests[i];
      assert requests[..i + 1][..i] == requests[..i];
      if req.worker !in presentSet {
        continue;
      }
      if req.zone == Main {
        if req.position.None? {
          ErrorPersists(requests, presentSet, i + 1, MissingPosition(req.worker));
          return Err(MissingPosition(req.worker));
        }
        var pos := req.position.value;
        if pos !in freeMain {
          ErrorPersists(requests, presentSet, i + 1, PositionConflict(pos));
          return Err(PositionConflict(pos));
        }
        assignments := assignments[req.worker := Placement(Main, Some(pos))];
        freeMain := freeMain - {pos};
      } else {
        if req.zone !in WeekendZones {
          ErrorPersists(requests, presentSet, i + 1, UnknownZone(req.zone));
          return Err(UnknownZone(req.zone));
        }
        if FreeIn(freeZones, req.zone) == 0 {
          ErrorPersists(requests, presentSet, i + 1, ZoneFull(req.zone));
          return Err(ZoneFull(req.zone));
        }
        assignments := assignments[req.worker := Placement(req.zone, None)];
        freeZones := freeZones[req.zone := freeZones[req.zone] - 1];
      }
      locked := locked + {req.worker};
    }
    assert requests[..|requests|] == requests;
    return Ok(LockState(assignments, freeMain, freeZones, locked));
  }
}
