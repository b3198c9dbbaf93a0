/** Whole-shift outcomes of `assign_shift` for workers with no Main history and no locked
    requests: a weekday hands out positions 1..18 by ascending id, and a weekend with 34 workers
    fills Main and the three named zones exactly. */
module Scenarios {
  import opened ShiftTypes
  import opened Ranking
  import opened History
  import opened LockedPhase
  import opened MainRotation
  import opened ZoneAllocation
  import opened Engine

  /** The positions of MAIN_POSITIONS above `lo`. */
  function Above(lo: nat): set<nat> {
    PositionRange(MainSlots) - PositionRange(lo)
  }

  lemma {:induction false} AboveMembers(lo: nat)
    ensures forall p :: p in Above(lo) <==> lo < p <= MainSlots
  {
    PositionRangeFacts(MainSlots);
    PositionRangeFacts(lo);
  }

  lemma {:induction false} AboveCard(lo: nat)
    requires lo <= MainSlots
    ensures |Above(lo)| == MainSlots - lo
  {
    PositionRangeFacts(MainSlots);
    PositionRangeFacts(lo);
    assert PositionRange(lo) <= PositionRange(MainSlots);
  }

  lemma {:induction false} AboveNext(lo: nat)
    requires lo < MainSlots
    ensures lo + 1 in Above(lo) && Above(lo) - {lo + 1} == Above(lo + 1)
  {
    AboveMembers(lo);
    AboveMembers(lo + 1);
  }

  lemma {:induction false} AboveFacts(lo: nat)
    requires lo <= MainSlots
    ensures forall p :: p in Above(lo) <==> lo < p <= MainSlots
    ensures |Above(lo)| == MainSlots - lo
    ensures ValidPositions(Above(lo))
    ensures lo < MainSlots ==> lo + 1 in Above(lo) && Above(lo) - {lo + 1} == Above(lo + 1)
  {
    AboveMembers(lo);
    AboveCard(lo);
    if lo < MainSlots {
      AboveNext(lo);
    }
  }

  /** A worker with no Main history, placed while the free positions are those above `lo`,
      takes `lo + 1`. */
  lemma {:induction false} FreshStep(st: MainState, w: nat, lo: nat, history: seq<Record>)
    requires lo < MainSlots && st.free == Above(lo) && ValidPositions(st.free) && lo + 1 in st.free
    requires MainPositions(history, w) == []
    ensures MainStep(st, w, history) == MainState(st.assignments[w := Placement(Main, Some(lo + 1))], Above(lo + 1))
  {
    var p := PickMain(MainPositions(history, w), st.free);
    assert p == lo + 1 by {
      AboveMembers(lo);
      FreshPickLowest(st.free);
    }
    assert st.free - {p} == Above(lo + 1) by {
      AboveNext(lo);
    }
  }

  /** The turns after the first leave the first worker's entry alone. */
  lemma {:induction false} HeadKept(order: seq<nat>, need: int, next: MainState, history: seq<Record>)
    requires order != [] && NoDuplicates(order) && order[0] in next.assignments
    requires ValidPositions(next.free) && need <= |next.free|
    ensures order[0] in RotateMain(order[1..], need, next, history).assignments
    ensures RotateMain(order[1..], need, next, history).assignments[order[0]] == next.assignments[order[0]]
  {
    TailDistinct(order);
    RotateMainEntry(order[1..], need, next, history, order[0]);
    var k := Placed(order[1..], need);
    forall j | 0 <= j < |order[1..][..k]| ensures order[1..][..k][j] != order[0] {
      assert order[1..][..k][j] == order[j + 1];
    }
  }

  /** Each worker of `order` holds Main position `lo + 1`, `lo + 2`, ... in turn. */
  predicate FreshlyPlaced(order: seq<nat>, lo: nat, asg: Assignment) {
    forall i :: 0 <= i < |order| ==> order[i] in asg && asg[order[i]] == Placement(Main, Some(lo + i + 1))
  }

  lemma {:induction false} FreshCons(order: seq<nat>, lo: nat, asg: Assignment)
    requires order != [] && order[0] in asg && asg[order[0]] == Placement(Main, Some(lo + 1))
    requires FreshlyPlaced(order[1..], lo + 1, asg)
    ensures FreshlyPlaced(order, lo, asg)
  {
    forall i | 0 < i < |order|
      ensures order[i] in asg && asg[order[i]] == Placement(Main, Some(lo + i + 1))
    {
      assert order[i] == order[1..][i - 1];
    }
  }

  /** No worker of `order` has ever held a Main position. */
  predicate NeverMain(order: seq<nat>, history: seq<Record>) {
    forall w :: w in order ==> MainPositions(history, w) == []
  }

  /** The first turn with the free positions above `lo`: the first worker takes `lo + 1` and the
      rest of the rotation starts from the positions above `lo + 1`. */
  lemma {:induction false} FreshTurn(order: seq<nat>, lo: nat, st: MainState, history: seq<Record>)
    requires NoDuplicates(order) && lo + |order| <= MainSlots && st.free == Above(lo)
    requires ValidPositions(st.free) && |order| <= |st.free| && order != []
    requires NeverMain(order, history)
    ensures MainStep(st, order[0], history).free == Above(lo + 1)
    ensures MainStep(st, order[0], history).assignments[order[0]] == Placement(Main, Some(lo + 1))
    ensures ValidPositions(MainStep(st, order[0], history).free)
    ensures |order[1..]| <= |MainStep(st, order[0], history).free|
    ensures NoDuplicates(order[1..]) && NeverMain(order[1..], history)
    ensures RotateMain(order, |order|, st, history)
      == RotateMain(order[1..], |order[1..]|, MainStep(st, order[0], history), history)
  {
    AboveFacts(lo);
    AboveFacts(lo + 1);
    FreshStep(st, order[0], lo, history);
    TailDistinct(order);
    forall v | v in order[1..] ensures MainPositions(history, v) == [] {
      assert v in order;
    }
    RotateMainUnfold(order, |order|, st, history);
  }

  /** Workers with no Main history, placed one after another while the free positions are those
      above `lo`, take `lo + 1`, `lo + 2`, ... in their order. */
  lemma {:induction false} RotateFresh(order: seq<nat>, lo: nat, st: MainState, history: seq<Record>)
    requires NoDuplicates(order) && lo + |order| <= MainSlots && st.free == Above(lo)
    requires ValidPositions(st.free) && |order| <= |st.free|
    requires NeverMain(order, history)
    ensures FreshlyPlaced(order, lo, RotateMain(order, |order|, st, history).assignments)
    decreases |order|
  {
    if order != [] {
      FreshTurn(order, lo, st, history);
      var next := MainStep(st, order[0], history);
      RotateFresh(order[1..], lo + 1, next, history);
      HeadKept(order, |order[1..]|, next, history);
      FreshCons(order, lo, RotateMain(order[1..], |order[1..]|, next, history).assignments);
    }
  }

  /** A worker who never held Main ranks by id alone: every position still to visit, none held. */
  lemma {:induction false} FreshRank(history: seq<Record>, w: nat)
    requires MainPositions(history, w) == []
    ensures MainRank(history, w) == Rank(MainSlots, 0, w)
  {
    assert CurrentCycle([]) == {};
  }

  /** The present workers with a lower id than `w`. */
  function Lower(present: seq<nat>, w: nat): set<nat> {
    set v | v in present && v < w
  }

  /** With nobody locked and nobody ever in Main, `remaining.sort(key=main_priority)` sorts
      by ascending id. */
  lemma {:induction false} FreshOrderIncreasing(present: seq<nat>, history: seq<Record>)
    requires NoDuplicates(present) && NeverMain(present, history)
    ensures var order := MainOrder(present, Initial, history);
      forall i, j :: 0 <= i < j < |order| ==> order[i] < order[j]
  {
    var order := MainOrder(present, Initial, history);
    OrderFacts(present, Initial, history);
    PriorityOrderFacts(Unlocked(present, {}), history);
    forall i, j | 0 <= i < j < |order| ensures order[i] < order[j] {
      assert order[i] in Elements(order) && order[j] in Elements(order);
      FreshRank(history, order[i]);
      FreshRank(history, order[j]);
    }
  }

  /** In an increasing order of the present workers, the worker at index `i` has exactly `i`
      present workers below it. */
  lemma {:induction false} RankInOrder(order: seq<nat>, present: seq<nat>, i: nat)
    requires forall a, b :: 0 <= a < b < |order| ==> order[a] < order[b]
    requires Elements(order) == Elements(present) && i < |order|
    ensures |Lower(present, order[i])| == i
  {
    assert Lower(present, order[i]) == Elements(order[..i]) by {
      forall v ensures v in Lower(present, order[i]) <==> v in order[..i] {
        if v in Lower(present, order[i]) {
          assert v in Elements(order);
          var k :| 0 <= k < |order| && order[k] == v;
          assert k < i;
          assert order[..i][k] == v;
        }
        if v in order[..i] {
          var k :| 0 <= k < i && order[..i][k] == v;
          assert order[k] == v && v in Elements(order);
        }
      }
    }
    DistinctCard(order[..i]);
  }

  lemma {:induction false} AboveZero()
    ensures Above(0) == AllPositions && |AllPositions| == MainSlots && ValidPositions(AllPositions)
  {
    AboveFacts(0);
    assert PositionRange(0) == {};
  }

  /** A weekday with 18 present workers, no requests and nobody ever in Main: the Main loop
      visits all of them in sorted order, handing out positions 1, 2, ... in turn. */
  lemma {:induction false} FreshWeekdayPlaces(present: seq<nat>, history: seq<Record>)
    requires NoDuplicates(present) && |present| == MainSlots && NeverMain(present, history)
    ensures Plan(present, [], history, Weekday).Ok?
    ensures Elements(MainOrder(present, Initial, history)) == Elements(present)
    ensures FreshlyPlaced(MainOrder(present, Initial, history), 0, Plan(present, [], history, Weekday).value)
  {
    var order := MainOrder(present, Initial, history);
    assert LockAll([], Elements(present)) == Ok(Initial);
    PlanShape(present, [], history, Weekday, Initial);
    assert |order| == MainSlots && Elements(order) == Elements(present) && NoDuplicates(order) by {
      OrderFacts(present, Initial, history);
      DistinctCard(present);
      assert Elements(present) - {} == Elements(present);
    }
    assert OpenMain(Initial) == MainSlots by {
      assert Holders(map[], Main) == {};
    }
    AboveZero();
    assert NeverMain(order, history) by {
      forall w | w in order ensures MainPositions(history, w) == [] {
        assert w in Elements(order);
      }
    }
    RotateFresh(order, 0, MainState(map[], AllPositions), history);
  }

  /** In an increasing order of the present workers placed at positions 1, 2, ..., each present
      worker holds the position one above the number of present workers below it. */
  lemma {:induction false} PlacedAtRank(order: seq<nat>, present: seq<nat>, asg: Assignment, w: nat)
    requires forall a, b :: 0 <= a < b < |order| ==> order[a] < order[b]
    requires Elements(order) == Elements(present) && FreshlyPlaced(order, 0, asg) && w in present
    ensures w in asg && asg[w] == Placement(Main, Some(|Lower(present, w)| + 1))
  {
    assert w in Elements(order);
    var i :| 0 <= i < |order| && order[i] == w;
    RankInOrder(order, present, i);
  }

  /** A weekday with 18 present workers, no requests and nobody ever in Main: the worker with
      the k-th lowest id gets Main position k, and everyone present is placed. */
  lemma {:induction false} FreshWeekday(present: seq<nat>, history: seq<Record>)
    requires NoDuplicates(present) && |present| == MainSlots && NeverMain(present, history)
    ensures Plan(present, [], history, Weekday).Ok?
    ensures Plan(present, [], history, Weekday).value.Keys == Elements(present)
    ensures forall w :: w in present ==>
      w in Plan(present, [], history, Weekday).value
      && Plan(present, [], history, Weekday).value[w] == Placement(Main, Some(|Lower(present, w)| + 1))
  {
    var order := MainOrder(present, Initial, history);
    FreshWeekdayPlaces(present, history);
    var asg := Plan(present, [], history, Weekday).value;
    assert forall a, b :: 0 <= a < b < |order| ==> order[a] < order[b] by {
      FreshOrderIncreasing(present, history);
    }
    forall w | w in present
      ensures w in asg && asg[w] == Placement(Main, Some(|Lower(present, w)| + 1))
    {
      PlacedAtRank(order, present, asg, w);
    }
    assert asg.Keys <= Elements(present) by {
      assert LockAll([], Elements(present)) == Ok(Initial);
      PlanPresent(present, [], history, Weekday, Initial);
    }
    assert Elements(present) <= asg.Keys;
  }

  lemma {:induction false} HoldersDisjoint(asg: Assignment, y: Zone, z: Zone)
    requires y != z
    ensures Holders(asg, y) * Holders(asg, z) == {}
  {
  }

  lemma {:induction false} DisjointCard(a: set<nat>, b: set<nat>)
    requires a * b == {}
    ensures |a + b| == |a| + |b|
  {
  }

  lemma {:induction false} FillsSet(u: set<nat>, ws: set<nat>)
    requires u <= ws && |u| == |ws|
    ensures u == ws
  {
    assert ws == u + (ws - u);
  }

  /** An assignment inside `ws` whose Main and named-zone holders add up to `|ws|` places every
      worker of `ws`. */
  lemma {:induction false} HoldersCover(asg: Assignment, ws: set<nat>)
    requires asg.Keys <= ws
    requires |Holders(asg, Main)| + |Holders(asg, Small)| + |Holders(asg, Far)| + |Holders(asg, Veranda)| == |ws|
    ensures asg.Keys == ws
  {
    var m, s, f, v := Holders(asg, Main), Holders(asg, Small), Holders(asg, Far), Holders(asg, Veranda);
    HoldersDisjoint(asg, Main, Small);
    HoldersDisjoint(asg, Main, Far);
    HoldersDisjoint(asg, Main, Veranda);
    HoldersDisjoint(asg, Small, Far);
    HoldersDisjoint(asg, Small, Veranda);
    HoldersDisjoint(asg, Far, Veranda);
    DisjointCard(m, s);
    DisjointCard(m + s, f);
    DisjointCard(m + s + f, v);
    assert m + s + f + v <= asg.Keys;
    FillsSet(m + s + f + v, ws);
  }

  /** A weekend with 34 present workers and no requests: Main takes 18 of them, Small, Far and
      Veranda exactly their 4, 3 and 9, and nobody present is left without a place. */
  lemma {:induction false} FullWeekend(present: seq<nat>, history: seq<Record>)
    requires NoDuplicates(present) && |present| == MainSlots + 16
    ensures Plan(present, [], history, Weekend).Ok?
    ensures |Holders(Plan(present, [], history, Weekend).value, Main)| == MainSlots
    ensures forall z :: z in WeekendZones ==> |Holders(Plan(present, [], history, Weekend).value, z)| == WeekendZones[z]
    ensures Plan(present, [], history, Weekend).value.Keys == Elements(present)
  {
    assert LockAll([], Elements(present)) == Ok(Initial);
    assert Plan(present, [], history, Weekend).Ok? by {
      assert Holders(map[], Main) == {};
      PlanWeekendOk(present, [], history, Initial);
    }
    var asg := Plan(present, [], history, Weekend).value;
    assert |Holders(asg, Main)| == MainSlots by {
      assert Holders(map[], Main) == {};
      PlanMainCount(present, [], history, Weekend, Initial);
    }
    assert forall z :: z in WeekendZones ==> |Holders(asg, z)| == WeekendZones[z] by {
      forall z | z in WeekendZones ensures |Holders(asg, z)| == WeekendZones[z] {
        PlanWeekendCapacity(present, [], history, Initial, z);
      }
    }
    assert asg.Keys == Elements(present) by {
      assert Small in WeekendZones && Far in WeekendZones && Veranda in WeekendZones;
      PlanPresent(present, [], history, Weekend, Initial);
      DistinctCard(present);
      HoldersCover(asg, Elements(present));
    }
  }

  /** A locked request puts a present worker at Main position `p`: whenever `assign_shift`
      succeeds the worker holds exactly that position, and nobody else holds it. */
  lemma {:induction false} LockedMainScenario(present: seq<nat>, w: nat, p: nat, history: seq<Record>, shift: ShiftType)
    requires NoDuplicates(present) && w in present && IsPosition(p)
    ensures LockAll([Request(w, Main, Some(p))], Elements(present)).Ok?
    ensures LockAll([Request(w, Main, Some(p))], Elements(present)).value.free == AllPositions - {p}
    ensures shift == Weekday ==> Plan(present, [Request(w, Main, Some(p))], history, shift).Ok?
    ensures Plan(present, [Request(w, Main, Some(p))], history, shift).Ok? ==>
      var asg := Plan(present, [Request(w, Main, Some(p))], history, shift).value;
      && w in asg && asg[w] == Placement(Main, Some(p))
      && forall v :: v in asg && v != w && asg[v].zone == Main ==> asg[v].position != Some(p)
  {
    var requests := [Request(w, Main, Some(p))];
    assert requests[..0] == [];
    AllPositionsFacts();
    var st := LockState(map[w := Placement(Main, Some(p))], AllPositions - {p}, WeekendZones, {w});
    assert LockAll(requests, Elements(present)) == Ok(st) by {
      assert LockAll(requests, Elements(present)) == LockStep(Initial, requests[0], Elements(present));
      assert map[][w := Placement(Main, Some(p))] == map[w := Placement(Main, Some(p))];
      assert {} + {w} == {w};
    }
    PlanErrors(present, requests, history, shift);
    if Plan(present, requests, history, shift).Ok? {
      PlanLocked(present, requests, history, shift, st, 0);
      PlanWellPlaced(present, requests, history, shift, st);
    }
  }

  /** A locked Main request without a position makes `assign_shift` raise, on any shift. */
  lemma {:induction false} MissingPositionScenario(present: seq<nat>, w: nat, history: seq<Record>, shift: ShiftType)
    requires w in present
    ensures Plan(present, [Request(w, Main, None)], history, shift) == Err(MissingPosition(w))
  {
    var requests := [Request(w, Main, None)];
    assert requests[..0] == [];
    assert LockAll(requests, Elements(present)) == Err(MissingPosition(w));
    PlanErrors(present, requests, history, shift);
  }

  /** Two present workers locked to the same Main position: the second request raises the
      conflict. */
  lemma {:induction false} ConflictScenario(present: seq<nat>, v: nat, w: nat, p: nat, history: seq<Record>, shift: ShiftType)
    requires v in present && w in present && v != w && IsPosition(p)
    ensures Plan(present, [Request(v, Main, Some(p)), Request(w, Main, Some(p))], history, shift)
      == Err(PositionConflict(p))
  {
    var requests := [Request(v, Main, Some(p)), Request(w, Main, Some(p))];
    AllPositionsFacts();
    assert requests[..1] == [Request(v, Main, Some(p))] && requests[..1][..0] == [];
    var st := LockState(map[v := Placement(Main, Some(p))], AllPositions - {p}, WeekendZones, {v});
    assert LockAll(requests[..1], Elements(present)) == Ok(st) by {
      assert map[][v := Placement(Main, Some(p))] == map[v := Placement(Main, Some(p))];
      assert {} + {v} == {v};
    }
    assert LockAll(requests, Elements(present)) == Err(PositionConflict(p));
    PlanErrors(present, requests, history, shift);
  }

  /** A weekend with 28 present workers and no requests: the Main loop takes 18, the 10 left
      cannot fill the 16 zone places, and `assign_shift` raises the shortage. */
  lemma {:induction false} ShortWeekend(present: seq<nat>, history: seq<Record>)
    requires NoDuplicates(present) && |present| == MainSlots + 10
    ensures Plan(present, [], history, Weekend) == Err(InsufficientWeekendStaff)
  {
    assert LockAll([], Elements(present)) == Ok(Initial);
    assert Holders(map[], Main) == {};
    PlanWeekendOk(present, [], history, Initial);
    PlanErrors(present, [], history, Weekend);
  }
}
