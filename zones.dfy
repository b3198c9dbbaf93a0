/** Phase 3 of `assign_shift`, on weekend shifts only: Small, then Far, then Veranda each receive
    their WEEKEND_ZONES count of workers from those Main did not take, every pick being the
    remaining worker who worked that zone least. */
module ZoneAllocation {
  import opened ShiftTypes
  import opened Ranking
  import opened History

  /** The key `(weekend_zone[x][zone], weekend_total[x], x)` of a pick. */
  function ZoneRank(history: seq<Record>, w: nat, z: Zone): Rank {
    Rank(ZoneCount(history, w, z), ZoneTotal(history, w), w)
  }

  function ZoneRanks(ws: seq<nat>, history: seq<Record>, z: Zone): seq<Rank> {
    seq(|ws|, i requires 0 <= i < |ws| => ZoneRank(history, ws[i], z))
  }

  /** The first minimal key of the list is the key of one of its workers. */
  lemma {:induction false} LowestZoneRank(ws: seq<nat>, history: seq<Record>, z: Zone)
    requires ws != []
    ensures Lowest(ZoneRanks(ws, history, z)).id in ws
    ensures Lowest(ZoneRanks(ws, history, z)) == ZoneRank(history, Lowest(ZoneRanks(ws, history, z)).id, z)
  {
    var r := ZoneRanks(ws, history, z);
    var i :| 0 <= i < |r| && r[i] == Lowest(r);
  }

  /** Every remaining worker's key is among those `min` compares. */
  lemma {:induction false} ZoneRankListed(ws: seq<nat>, history: seq<Record>, z: Zone, v: nat)
    requires v in ws
    ensures ZoneRank(history, v, z) in ZoneRanks(ws, history, z)
  {
    var i :| 0 <= i < |ws| && ws[i] == v;
    assert ZoneRanks(ws, history, z)[i] == ZoneRank(history, v, z);
  }

  /** The rule `min(remaining, key=lambda x: (weekend_zone[x][zone], weekend_total[x], x))`
      applies: `w` remains and no remaining worker's key is below its key. */
  predicate ZoneBest(remaining: seq<nat>, history: seq<Record>, z: Zone, w: nat) {
    && w in remaining
    && forall v {:trigger ZoneRank(history, v, z)} :: v in remaining ==> !Below(ZoneRank(history, v, z), ZoneRank(history, w, z))
  }

  /** The worker `min` returns meets the rule. */
  lemma {:induction false} LowestIsZoneBest(remaining: seq<nat>, history: seq<Record>, z: Zone)
    requires remaining != []
    ensures ZoneBest(remaining, history, z, Lowest(ZoneRanks(remaining, history, z)).id)
  {
    LowestZoneRank(remaining, history, z);
    var w := Lowest(ZoneRanks(remaining, history, z)).id;
    forall v | v in remaining ensures !Below(ZoneRank(history, v, z), ZoneRank(history, w, z)) {
      ZoneRankListed(remaining, history, z, v);
    }
  }

  /** The rule does not depend on how `min` breaks ties: the id ends the key, so at most one
      remaining worker meets it. */
  lemma {:induction false} ZoneBestUnique(remaining: seq<nat>, history: seq<Record>, z: Zone)
    ensures forall v, w :: ZoneBest(remaining, history, z, v) && ZoneBest(remaining, history, z, w) ==> v == w
  {
    forall v, w | ZoneBest(remaining, history, z, v) && ZoneBest(remaining, history, z, w) ensures v == w {
      BelowTotal(ZoneRank(history, v, z), ZoneRank(history, w, z));
    }
  }

  /** `min(remaining, key=lambda x: (weekend_zone[x][zone], weekend_total[x], x))`: the worker a
      pick for zone `z` takes. */
  function PickForZone(remaining: seq<nat>, history: seq<Record>, z: Zone): (w: nat)
    requires remaining != []
    ensures w in remaining
  {
    LowestZoneRank(remaining, history, z);
    Lowest(ZoneRanks(remaining, history, z)).id
  }

  /** The pick is the one remaining worker that meets the rule. */
  lemma {:induction false} PickForZoneBest(remaining: seq<nat>, history: seq<Record>, z: Zone, w: nat)
    requires remaining != []
    ensures ZoneBest(remaining, history, z, w) <==> w == PickForZone(remaining, history, z)
  {
    LowestIsZoneBest(remaining, history, z);
    ZoneBestUnique(remaining, history, z);
  }

  /** The working state of phase 3: the assignments and the `remaining` list. */
  datatype ZoneState = ZoneState(assignments: Assignment, remaining: seq<nat>)

  /** Nobody is listed twice in `remaining` and nobody listed there is assigned yet. */
  predicate Unplaced(st: ZoneState) {
    NoDuplicates(st.remaining) && forall w :: w in st.remaining ==> w !in st.assignments
  }

  /** The pick rule for zone `z` as a function of the `remaining` list (the empty list is never
      asked for a pick). */
  function Picker(history: seq<Record>, z: Zone): seq<nat> -> nat {
    s => if s == [] then 0 else PickForZone(s, history, z)
  }

  /** A pick rule that always returns a member of a non-empty list. */
  ghost predicate PicksMember(pick: seq<nat> -> nat) {
    forall s :: s != [] ==> pick(s) in s
  }

  lemma {:induction false} PickerPicksMember(history: seq<Record>, z: Zone)
    ensures PicksMember(Picker(history, z))
  {
  }

  /** One pick: the chosen worker goes to `z` and leaves `remaining`. */
  function PickStep(z: Zone, st: ZoneState, pick: seq<nat> -> nat): ZoneState {
    var w := pick(st.remaining);
    ZoneState(st.assignments[w := Placement(z, None)], RemoveFirst(st.remaining, w))
  }

  /** `for _ in range(count)` for zone `z` under the pick rule `pick`: `count` picks, failing as
      soon as `remaining` is empty. */
  function FillWith(z: Zone, count: nat, st: ZoneState, pick: seq<nat> -> nat): Result<ZoneState>
    decreases count
  {
    if count == 0 then Ok(st)
    else if st.remaining == [] then Err(InsufficientWeekendStaff)
    else FillWith(z, count - 1, PickStep(z, st, pick), pick)
  }

  /** `for _ in range(count)` for zone `z`, each pick by the rule of `min(remaining, key=...)`. */
  function FillZone(z: Zone, count: nat, st: ZoneState, history: seq<Record>): Result<ZoneState> {
    FillWith(z, count, st, Picker(history, z))
  }

  /** `for zone, count in WEEKEND_ZONES.items()`: the zones of `zones` in turn, each filled to its
      full capacity, stopping at the first failure. */
  function FillZones(zones: seq<Zone>, st: ZoneState, history: seq<Record>): Result<ZoneState>
    requires forall z :: z in zones ==> z in WeekendZones
    decreases |zones|
  {
    if zones == [] then Ok(st)
    else
      match FillZone(zones[0], WeekendZones[zones[0]], st, history)
      case Err(e) => Err(e)
      case Ok(s) => FillZones(zones[1..], s, history)
  }

  /** The places phase 3 fills over `zones`: the sum of their WEEKEND_ZONES counts. */
  function Demand(zones: seq<Zone>): nat
    requires forall z :: z in zones ==> z in WeekendZones
  {
    if zones == [] then 0 else WeekendZones[zones[0]] + Demand(zones[1..])
  }

  /** Phase 3 fills 4 + 3 + 9 places in all. */
  lemma {:induction false} ZoneOrderDemand()
    ensures forall z :: z in ZoneOrder ==> z in WeekendZones
    ensures Demand(ZoneOrder) == 16
  {
    assert ZoneOrder[1..] == [Far, Veranda];
    assert ZoneOrder[1..][1..] == [Veranda];
  }

  /** Filling one zone succeeds exactly when at least `count` workers remain, and then uses up
      `count` of them. */
  lemma {:induction false} FillWithOk(z: Zone, count: nat, st: ZoneState, pick: seq<nat> -> nat)
    requires PicksMember(pick)
    ensures FillWith(z, count, st, pick).Ok? <==> count <= |st.remaining|
    ensures FillWith(z, count, st, pick).Ok? ==>
      |FillWith(z, count, st, pick).value.remaining| == |st.remaining| - count
    decreases count
  {
    if count > 0 && st.remaining != [] {
      FillWithUnfold(z, count, st, pick);
      RemoveLength(st.remaining, pick(st.remaining));
      FillWithOk(z, count - 1, PickStep(z, st, pick), pick);
    }
  }

  /** One pick keeps the bookkeeping right: the worker it takes leaves `remaining` and was not
      placed before. */
  lemma {:induction false} PickStepSound(z: Zone, st: ZoneState, pick: seq<nat> -> nat)
    requires PicksMember(pick) && Unplaced(st) && st.remaining != []
    ensures Unplaced(PickStep(z, st, pick))
    ensures pick(st.remaining) !in st.assignments
    ensures Elements(PickStep(z, st, pick).remaining) == Elements(st.remaining) - {pick(st.remaining)}
  {
    var w := pick(st.remaining);
    RemovePresent(st.remaining, w);
    var r := PickStep(z, st, pick);
    forall v | v in r.remaining ensures v !in r.assignments {
      assert v in Elements(r.remaining);
    }
  }

  /** One pick keeps the bookkeeping right (the part the induction below carries along). */
  lemma {:induction false} PickStepUnplaced(z: Zone, st: ZoneState, pick: seq<nat> -> nat)
    requires PicksMember(pick) && Unplaced(st) && st.remaining != []
    ensures Unplaced(PickStep(z, st, pick))
  {
    PickStepSound(z, st, pick);
  }

  /** One pick moves one worker from `remaining` to the assignments. */
  lemma {:induction false} PickStepKeys(z: Zone, st: ZoneState, pick: seq<nat> -> nat)
    requires PicksMember(pick) && Unplaced(st) && st.remaining != []
    ensures PickStep(z, st, pick).assignments.Keys == st.assignments.Keys + {pick(st.remaining)}
    ensures Elements(PickStep(z, st, pick).remaining) == Elements(st.remaining) - {pick(st.remaining)}
    ensures pick(st.remaining) in Elements(st.remaining)
  {
    PickStepSound(z, st, pick);
  }

  /** One pick adds one holder to its zone and none to any other. */
  lemma {:induction false} PickStepHolders(z: Zone, st: ZoneState, pick: seq<nat> -> nat, y: Zone)
    requires PicksMember(pick) && Unplaced(st) && st.remaining != []
    ensures |Holders(PickStep(z, st, pick).assignments, y)| == |Holders(st.assignments, y)| + (if y == z then 1 else 0)
  {
    PickStepSound(z, st, pick);
    HoldersAdd(st.assignments, pick(st.remaining), Placement(z, None), y);
  }

  /** One pick leaves an earlier entry as it was and places its worker in `z`. */
  lemma {:induction false} PickStepEntry(z: Zone, st: ZoneState, pick: seq<nat> -> nat, w: nat)
    requires PicksMember(pick) && Unplaced(st) && st.remaining != []
    ensures w in st.assignments ==> PickStep(z, st, pick).assignments[w] == st.assignments[w]
    ensures w in PickStep(z, st, pick).assignments && w !in st.assignments ==>
      PickStep(z, st, pick).assignments[w] == Placement(z, None)
  {
    PickStepSound(z, st, pick);
  }

  /** One turn of the `range(count)` loop. */
  lemma {:induction false} FillWithUnfold(z: Zone, count: nat, st: ZoneState, pick: seq<nat> -> nat)
    requires count > 0 && st.remaining != []
    ensures FillWith(z, count, st, pick) == FillWith(z, count - 1, PickStep(z, st, pick), pick)
  {
  }

  /** Filling a zone places exactly the workers it takes from `remaining`. */
  lemma {:induction false} FillWithSound(z: Zone, count: nat, st: ZoneState, pick: seq<nat> -> nat)
    requires PicksMember(pick) && Unplaced(st) && FillWith(z, count, st, pick).Ok?
    ensures Unplaced(FillWith(z, count, st, pick).value)
    ensures Elements(FillWith(z, count, st, pick).value.remaining) <= Elements(st.remaining)
    ensures FillWith(z, count, st, pick).value.assignments.Keys
      == st.assignments.Keys + (Elements(st.remaining) - Elements(FillWith(z, count, st, pick).value.remaining))
    decreases count
  {
    if count > 0 {
      var s1 := PickStep(z, st, pick);
      FillWithUnfold(z, count, st, pick);
      PickStepUnplaced(z, st, pick);
      FillWithSound(z, count - 1, s1, pick);
      PickStepKeys(z, st, pick);
    }
  }

  /** Filling a zone leaves an earlier entry as it was and puts a newcomer in that zone. */
  lemma {:induction false} FillWithEntry(z: Zone, count: nat, st: ZoneState, pick: seq<nat> -> nat, w: nat)
    requires PicksMember(pick) && Unplaced(st) && FillWith(z, count, st, pick).Ok?
    ensures w in st.assignments ==>
      w in FillWith(z, count, st, pick).value.assignments
      && FillWith(z, count, st, pick).value.assignments[w] == st.assignments[w]
    ensures w in FillWith(z, count, st, pick).value.assignments && w !in st.assignments ==>
      FillWith(z, count, st, pick).value.assignments[w] == Placement(z, None)
    decreases count
  {
    if count > 0 {
      var s1 := PickStep(z, st, pick);
      FillWithUnfold(z, count, st, pick);
      PickStepUnplaced(z, st, pick);
      FillWithEntry(z, count - 1, s1, pick, w);
      PickStepEntry(z, st, pick, w);
    }
  }

  /** Filling a zone with `count` workers adds `count` holders to it and none to any other zone. */
  lemma {:induction false} FillWithHolders(z: Zone, count: nat, st: ZoneState, pick: seq<nat> -> nat, y: Zone)
    requires PicksMember(pick) && Unplaced(st) && FillWith(z, count, st, pick).Ok?
    ensures |Holders(FillWith(z, count, st, pick).value.assignments, y)|
      == |Holders(st.assignments, y)| + (if y == z then count else 0)
    decreases count
  {
    if count > 0 {
      var s1 := PickStep(z, st, pick);
      FillWithUnfold(z, count, st, pick);
      PickStepUnplaced(z, st, pick);
      FillWithHolders(z, count - 1, s1, pick, y);
      PickStepHolders(z, st, pick, y);
    }
  }

  /** Phase 3 over `zones` succeeds exactly when at least their total count of workers remain,
      and then uses up that many. */
  lemma {:induction false} FillZonesOk(zones: seq<Zone>, st: ZoneState, history: seq<Record>)
    requires forall z :: z in zones ==> z in WeekendZones
    ensures FillZones(zones, st, history).Ok? <==> Demand(zones) <= |st.remaining|
    ensures FillZones(zones, st, history).Ok? ==>
      |FillZones(zones, st, history).value.remaining| == |st.remaining| - Demand(zones)
    decreases |zones|
  {
    if zones != [] {
      PickerPicksMember(history, zones[0]);
      FillWithOk(zones[0], WeekendZones[zones[0]], st, Picker(history, zones[0]));
      var first := FillZone(zones[0], WeekendZones[zones[0]], st, history);
      if first.Ok? {
        FillZonesOk(zones[1..], first.value, history);
      }
    }
  }

  /** Phase 3 over `zones` places exactly the workers it takes from `remaining`, each in one of
      `zones`, and leaves every earlier entry as it was. */
  lemma {:induction false} FillZonesSound(zones: seq<Zone>, st: ZoneState, history: seq<Record>)
    requires forall z :: z in zones ==> z in WeekendZones
    requires Unplaced(st) && FillZones(zones, st, history).Ok?
    ensures Unplaced(FillZones(zones, st, history).value)
    ensures Elements(FillZones(zones, st, history).value.remaining) <= Elements(st.remaining)
    ensures FillZones(zones, st, history).value.assignments.Keys
      == st.assignments.Keys + (Elements(st.remaining) - Elements(FillZones(zones, st, history).value.remaining))
    decreases |zones|
  {
    if zones != [] {
      var first := FillZone(zones[0], WeekendZones[zones[0]], st, history);
      PickerPicksMember(history, zones[0]);
      FillWithSound(zones[0], WeekendZones[zones[0]], st, Picker(history, zones[0]));
      FillZonesSound(zones[1..], first.value, history);
      var r := FillZones(zones[1..], first.value, history).value;
      assert Elements(r.remaining) <= Elements(first.value.remaining);
    }
  }

  /** Phase 3 over `zones` leaves an earlier entry as it was and puts a newcomer in one of
      `zones`, without a position. */
  lemma {:induction false} FillZonesEntry(zones: seq<Zone>, st: ZoneState, history: seq<Record>, w: nat)
    requires forall z :: z in zones ==> z in WeekendZones
    requires Unplaced(st) && FillZones(zones, st, history).Ok?
    ensures w in st.assignments ==>
      w in FillZones(zones, st, history).value.assignments
      && FillZones(zones, st, history).value.assignments[w] == st.assignments[w]
    ensures w in FillZones(zones, st, history).value.assignments && w !in st.assignments ==>
      FillZones(zones, st, history).value.assignments[w].zone in zones
      && FillZones(zones, st, history).value.assignments[w].position == None
    decreases |zones|
  {
    if zones != [] {
      var first := FillZone(zones[0], WeekendZones[zones[0]], st, history);
      PickerPicksMember(history, zones[0]);
      FillWithSound(zones[0], WeekendZones[zones[0]], st, Picker(history, zones[0]));
      FillWithEntry(zones[0], WeekendZones[zones[0]], st, Picker(history, zones[0]), w);
      FillZonesEntry(zones[1..], first.value, history, w);
      assert forall z :: z in zones[1..] ==> z in zones;
    }
  }

  /** No zone is listed twice. */
  predicate DistinctZones(zones: seq<Zone>) {
    forall i, j :: 0 <= i < j < |zones| ==> zones[i] != zones[j]
  }

  /** The tail of a list of distinct zones is distinct and lacks the head. */
  lemma {:induction false} DistinctZonesTail(zones: seq<Zone>, y: Zone)
    requires DistinctZones(zones) && zones != []
    ensures DistinctZones(zones[1..])
    ensures y in zones <==> y == zones[0] || y in zones[1..]
    ensures y == zones[0] ==> y !in zones[1..]
  {
    forall i, j | 0 <= i < j < |zones[1..]| ensures zones[1..][i] != zones[1..][j] {
      assert zones[1..][i] == zones[i + 1] && zones[1..][j] == zones[j + 1];
    }
    assert zones == [zones[0]] + zones[1..];
    forall k | 0 <= k < |zones[1..]| ensures zones[1..][k] != zones[0] {
      assert zones[1..][k] == zones[k + 1];
    }
  }

  /** Phase 3 over distinct `zones` adds each one's full WEEKEND_ZONES count to its holders and
      no holder to any other zone. */
  lemma {:induction false} FillZonesHolders(zones: seq<Zone>, st: ZoneState, history: seq<Record>, y: Zone)
    requires forall z :: z in zones ==> z in WeekendZones
    requires DistinctZones(zones)
    requires Unplaced(st) && FillZones(zones, st, history).Ok?
    ensures |Holders(FillZones(zones, st, history).value.assignments, y)|
      == |Holders(st.assignments, y)| + (if y in zones then WeekendZones[y] else 0)
    decreases |zones|
  {
    if zones != [] {
      var first := FillZone(zones[0], WeekendZones[zones[0]], st, history);
      PickerPicksMember(history, zones[0]);
      FillWithHolders(zones[0], WeekendZones[zones[0]], st, Picker(history, zones[0]), y);
      FillWithSound(zones[0], WeekendZones[zones[0]], st, Picker(history, zones[0]));
      DistinctZonesTail(zones, y);
      FillZonesHolders(zones[1..], first.value, history, y);
    }
  }

  /** Phase 3 over WEEKEND_ZONES adds each named zone's full count to its holders. */
  lemma {:induction false} ZoneFillCount(st: ZoneState, history: seq<Record>, z: Zone)
    requires Unplaced(st) && z in WeekendZones
    requires FillZones(ZoneOrder, st, history).Ok?
    ensures |Holders(FillZones(ZoneOrder, st, history).value.assignments, z)|
      == |Holders(st.assignments, z)| + WeekendZones[z]
  {
    assert DistinctZones(ZoneOrder);
    FillZonesHolders(ZoneOrder, st, history, z);
  }

  /** Filling a zone fails only for want of workers. */
  lemma {:induction false} FillWithError(z: Zone, count: nat, st: ZoneState, pick: seq<nat> -> nat)
    ensures FillWith(z, count, st, pick).Err? ==> FillWith(z, count, st, pick).error == InsufficientWeekendStaff
    decreases count
  {
    if count > 0 && st.remaining != [] {
      FillWithUnfold(z, count, st, pick);
      FillWithError(z, count - 1, PickStep(z, st, pick), pick);
    }
  }

  /** Phase 3 fails only for want of workers. */
  lemma {:induction false} FillZonesError(zones: seq<Zone>, st: ZoneState, history: seq<Record>)
    requires forall z :: z in zones ==> z in WeekendZones
    ensures FillZones(zones, st, history).Err? ==> FillZones(zones, st, history).error == InsufficientWeekendStaff
    decreases |zones|
  {
    if zones != [] {
      var first := FillZone(zones[0], WeekendZones[zones[0]], st, history);
      FillWithError(zones[0], WeekendZones[zones[0]], st, Picker(history, zones[0]));
      if first.Ok? {
        FillZonesError(zones[1..], first.value, history);
      }
    }
  }

  /** The per-zone statistics maps the method reads, tied to the history they were built from. */
  ghost predicate StatsOf(total: map<nat, nat>, perZone: map<nat, map<Zone, nat>>, history: seq<Record>) {
    && (forall w :: TotalOf(total, w) == ZoneTotal(history, w))
    && (forall w, z :: ZoneTally(perZone, w, z) == ZoneCount(history, w, z))
  }

  /** `min(remaining, key=...)` computed from the statistics maps. */
  method ChooseForZone(remaining: seq<nat>, zone: Zone, total: map<nat, nat>, perZone: map<nat, map<Zone, nat>>,
                       ghost history: seq<Record>) returns (wid: nat)
    requires remaining != [] && StatsOf(total, perZone, history)
    ensures wid == PickForZone(remaining, history, zone)
  {
    var keys := seq(|remaining|, k requires 0 <= k < |remaining| =>
      Rank(ZoneTally(perZone, remaining[k], zone), TotalOf(total, remaining[k]), remaining[k]));
    assert keys == ZoneRanks(remaining, history, zone);
    wid := Lowest(keys).id;
  }

  /** `for _ in range(count)` for one zone, raising as soon as `remaining` is empty. */
  method FillZoneLoop(zone: Zone, count: nat, assignments0: Assignment, remaining0: seq<nat>,
                      total: map<nat, nat>, perZone: map<nat, map<Zone, nat>>, ghost history: seq<Record>)
    returns (r: Result<ZoneState>)
    requires StatsOf(total, perZone, history)
    ensures r == FillZone(zone, count, ZoneState(assignments0, remaining0), history)
  {
    var assignments: Assignment, remaining: seq<nat> := assignments0, remaining0;
    for c := 0 to count
      invariant FillZone(zone, count, ZoneState(assignments0, remaining0), history)
        == FillZone(zone, count - c, ZoneState(assignments, remaining), history)
    {
      if remaining == [] {
        return Err(InsufficientWeekendStaff);
      }
      var wid := ChooseForZone(remaining, zone, total, perZone, history);
      assignments := assignments[wid := Placement(zone, None)];
      remaining := RemoveFirst(remaining, wid);
    }
    r := Ok(ZoneState(assignments, remaining));
  }

  /** Phase 3 as `assign_shift` runs it: the loop over WEEKEND_ZONES in its order. */
  method AssignWeekendZones(remaining0: seq<nat>, assignments0: Assignment, total: map<nat, nat>,
                            perZone: map<nat, map<Zone, nat>>, ghost history: seq<Record>)
    returns (r: Result<ZoneState>)
    requires StatsOf(total, perZone, history)
    ensures forall z :: z in ZoneOrder ==> z in WeekendZones
    ensures r == FillZones(ZoneOrder, ZoneState(assignments0, remaining0), history)
  {
    ZoneOrderDemand();
    var st := ZoneState(assignments0, remaining0);
    for zi := 0 to |ZoneOrder|
      invariant FillZones(ZoneOrder, ZoneState(assignments0, remaining0), history) == FillZones(ZoneOrder[zi..], st, history)
    {
      var zone := ZoneOrder[zi];
      assert ZoneOrder[zi..][1..] == ZoneOrder[zi + 1..];
      var filled := FillZoneLoop(zone, WeekendZones[zone], st.assignments, st.remaining, total, perZone, history);
      if filled.Err? {
        return filled;
      }
      st := filled.value;
    }
    r := Ok(st);
  }
}
