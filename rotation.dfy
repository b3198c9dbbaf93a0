/** Phase 2 of `assign_shift`: the remaining workers are ranked by how close they are to closing
    their rotation cycle, and each in turn takes a Main position they have not visited in the
    current cycle, or else the position they have held least often. */
module MainRotation {
  import opened ShiftTypes
  import opened Ranking
  import opened History

  /** `main_priority(w)`: the number of positions `w` has not visited in the current cycle, then
      the number of Main shifts `w` has worked, then the id. */
  function MainRank(history: seq<Record>, w: nat): Rank {
    var held := MainPositions(history, w);
    Rank(MainSlots - |CurrentCycle(held)|, |held|, w)
  }

  /** `sum(main_counts[w][k] for k in keys)`, absent entries reading as 0. */
  function SumCounts(counts: map<nat, map<nat, nat>>, w: nat, keys: seq<nat>): nat {
    if keys == [] then 0 else Times(counts, w, keys[0]) + SumCounts(counts, w, keys[1..])
  }

  /** How often the members of `keys` occur in `held`, summed. */
  function SumMultiplicity(held: seq<nat>, keys: seq<nat>): nat {
    if keys == [] then 0 else multiset(held)[keys[0]] + SumMultiplicity(held, keys[1..])
  }

  /** The second component of `main_priority`, `sum(main_counts[wid].values())`, is the number
      of Main shifts in the worker's history, which is what `MainRank` reads: summing the
      counts `_main_counts_all` computes over the keys of `main_counts[wid]` gives
      `len(main_by_waiter[wid])`. */
  lemma {:induction false} TotalMainAsWritten(history: seq<Record>, w: nat, counts: map<nat, map<nat, nat>>, keys: seq<nat>)
    requires forall p :: Times(counts, w, p) == multiset(MainPositions(history, w))[p]
    requires NoDuplicates(keys)
    requires forall p :: (w in counts && p in counts[w]) <==> p in keys
    ensures SumCounts(counts, w, keys) == MainRank(history, w).second
  {
    var held := MainPositions(history, w);
    forall i | 0 <= i < |held| ensures held[i] in keys {
      assert held[i] in multiset(held);
      assert Times(counts, w, held[i]) > 0;
    }
    SumCountsMultiplicity(counts, w, held, keys);
    SumIsLength(held, keys);
  }

  lemma {:induction false} SumCountsMultiplicity(counts: map<nat, map<nat, nat>>, w: nat, held: seq<nat>, keys: seq<nat>)
    requires forall p :: Times(counts, w, p) == multiset(held)[p]
    ensures SumCounts(counts, w, keys) == SumMultiplicity(held, keys)
    decreases |keys|
  {
    if keys != [] {
      SumCountsMultiplicity(counts, w, held, keys[1..]);
    }
  }

  /** Every element of `held` is among the distinct `keys`, so each is counted once. */
  lemma {:induction false} SumIsLength(held: seq<nat>, keys: seq<nat>)
    requires NoDuplicates(keys)
    requires forall i :: 0 <= i < |held| ==> held[i] in keys
    ensures SumMultiplicity(held, keys) == |held|
    decreases |held|
  {
    if held == [] {
      SumEmpty(keys);
    } else {
      var init, x := held[..|held| - 1], held[|held| - 1];
      assert held == init + [x];
      SumIsLength(init, keys);
      SumAppend(init, x, keys);
    }
  }

  lemma {:induction false} SumEmpty(keys: seq<nat>)
    ensures SumMultiplicity([], keys) == 0
    decreases |keys|
  {
    if keys != [] {
      SumEmpty(keys[1..]);
    }
  }

  /** One more occurrence of `x` adds one to the sum when `x` is a key, nothing otherwise. */
  lemma {:induction false} SumAppend(held: seq<nat>, x: nat, keys: seq<nat>)
    requires NoDuplicates(keys)
    ensures SumMultiplicity(held + [x], keys) == SumMultiplicity(held, keys) + (if x in keys then 1 else 0)
    decreases |keys|
  {
    if keys != [] {
      assert NoDuplicates(keys[1..]) by {
        forall i, j | 0 <= i < j < |keys| - 1 ensures keys[1..][i] != keys[1..][j] {
          assert keys[i + 1] != keys[j + 1];
        }
      }
      assert x in keys <==> x == keys[0] || x in keys[1..];
      assert keys[0] !in keys[1..] by {
        forall i | 0 <= i < |keys| - 1 ensures keys[1..][i] != keys[0] {
          assert keys[0] != keys[i + 1];
        }
      }
      SumAppend(held, x, keys[1..]);
    }
  }

  function MainRanks(ws: seq<nat>, history: seq<Record>): seq<Rank> {
    seq(|ws|, i requires 0 <= i < |ws| => MainRank(history, ws[i]))
  }

  /** `remaining.sort(key=main_priority)` */
  function PriorityOrder(ws: seq<nat>, history: seq<Record>): seq<nat> {
    Ids(Sort(MainRanks(ws, history)))
  }

  /** The `min(free_main, key=...)` candidates: each free position keyed by how often the worker
      held it, in ascending position order. */
  function UsageRanks(free: set<nat>, held: seq<nat>): (r: seq<Rank>)
    ensures forall x :: x in r ==> x.id in free && x.first == multiset(held)[x.id] && x.second == 0
  {
    var ps := PositionsUpTo(free, MainSlots);
    seq(|ps|, i requires 0 <= i < |ps| => Rank(multiset(held)[ps[i]], 0, ps[i]))
  }

  /** Every free position is among the candidates. */
  lemma {:induction false} UsageRanksCover(free: set<nat>, held: seq<nat>, q: nat)
    requires ValidPositions(free) && q in free
    ensures Rank(multiset(held)[q], 0, q) in UsageRanks(free, held)
  {
    PositionsUpToComplete(free, MainSlots, q);
    var ps := PositionsUpTo(free, MainSlots);
    var i :| 0 <= i < |ps| && ps[i] == q;
    assert UsageRanks(free, held)[i] == Rank(multiset(held)[q], 0, q);
  }

  /** The free positions outside the current cycle. */
  function Unvisited(held: seq<nat>, free: set<nat>): set<nat> {
    free - CurrentCycle(held)
  }

  /** `(set(MAIN_POSITIONS) - visited) & free_main`: since `free_main` only ever holds numbers
      of MAIN_POSITIONS, the intersection is the set of free positions outside the cycle. */
  lemma {:induction false} UnvisitedAsWritten(held: seq<nat>, free: set<nat>)
    requires ValidPositions(free)
    ensures (AllPositions - CurrentCycle(held)) * free == Unvisited(held, free)
  {
    AllPositionsFacts();
  }

  /** The choice rule of the Main loop body: a free position outside the current cycle, the
      smallest such, when there is one; otherwise the free position held least often, the
      smallest on a tie (Python iterates a set of small ints in ascending order, so `min`
      returns the smallest of the tied positions). */
  predicate BestFor(held: seq<nat>, free: set<nat>, p: nat) {
    && p in free
    && if Unvisited(held, free) != {} then
         p in Unvisited(held, free) && forall q :: q in Unvisited(held, free) ==> p <= q
       else
         forall q :: q in free ==> UsedLess(held, p, q)
  }

  /** `sorted(list(candidates))[0]` meets the choice rule when there are candidates. */
  lemma {:induction false} LeastUnvisitedIsBest(held: seq<nat>, free: set<nat>)
    requires ValidPositions(free) && Unvisited(held, free) != {}
    ensures BestFor(held, free, LeastPosition(Unvisited(held, free)))
  {
  }

  /** `min(free_main, key=lambda p: main_counts[wid][p])` meets the choice rule when there are
      no candidates. */
  lemma {:induction false} LeastUsedIsBest(held: seq<nat>, free: set<nat>)
    requires free != {} && ValidPositions(free) && Unvisited(held, free) == {}
    ensures UsageRanks(free, held) != []
    ensures BestFor(held, free, Lowest(UsageRanks(free, held)).id)
  {
    var x :| x in free;
    UsageRanksCover(free, held, x);
    var m := Lowest(UsageRanks(free, held));
    forall q | q in free ensures UsedLess(held, m.id, q) {
      UsageRanksCover(free, held, q);
      assert !Below(Rank(multiset(held)[q], 0, q), m);
    }
  }

  /** Some position meets the choice rule. */
  lemma {:induction false} BestExists(held: seq<nat>, free: set<nat>)
    requires free != {} && ValidPositions(free)
    ensures exists p :: BestFor(held, free, p)
  {
    if Unvisited(held, free) != {} {
      LeastUnvisitedIsBest(held, free);
    } else {
      LeastUsedIsBest(held, free);
    }
  }

  /** At most one position meets the choice rule. */
  lemma {:induction false} BestUnique(held: seq<nat>, free: set<nat>)
    ensures forall p, q :: BestFor(held, free, p) && BestFor(held, free, q) ==> p == q
  {
    forall p, q | BestFor(held, free, p) && BestFor(held, free, q) ensures p == q {
      if Unvisited(held, free) == {} {
        assert UsedLess(held, p, q) && UsedLess(held, q, p);
      }
    }
  }

  /** The position the Main loop body gives a worker whose Main history is `held`: the one
      position that meets the choice rule. */
  function PickMain(held: seq<nat>, free: set<nat>): (p: nat)
    requires free != {} && ValidPositions(free)
    ensures BestFor(held, free, p)
  {
    BestExists(held, free);
    BestUnique(held, free);
    var p :| BestFor(held, free, p);
    p
  }

  /** A worker with no Main history has visited nothing in the current cycle and takes the
      smallest free position. */
  lemma {:induction false} FreshPickLowest(free: set<nat>)
    requires free != {} && ValidPositions(free)
    ensures forall q :: q in free ==> PickMain([], free) <= q
  {
    assert Unvisited([], free) == free;
  }

  /** Position `p` was held less often than `q`, or as often and `p` is not larger. */
  predicate UsedLess(held: seq<nat>, p: nat, q: nat) {
    multiset(held)[p] < multiset(held)[q] || (multiset(held)[p] == multiset(held)[q] && p <= q)
  }

  /** The priority order is a rearrangement of the workers in which nobody follows a worker
      whose key is greater: fewer unvisited positions first, then fewer Main shifts, then the
      lower id. */
  lemma {:induction false} PriorityOrderFacts(ws: seq<nat>, history: seq<Record>)
    ensures multiset(PriorityOrder(ws, history)) == multiset(ws)
    ensures var order := PriorityOrder(ws, history);
      forall i, j :: 0 <= i < j < |order| ==> !Below(MainRank(history, order[j]), MainRank(history, order[i]))
  {
    var ranks := MainRanks(ws, history);
    var sorted := Sort(ranks);
    var order := PriorityOrder(ws, history);
    assert multiset(order) == multiset(ws) by {
      SortIds(ranks);
      assert Ids(ranks) == ws;
    }
    assert Ascending(sorted) by {
      SortAscending(ranks);
    }
    forall k | 0 <= k < |sorted| ensures sorted[k] == MainRank(history, sorted[k].id) {
      assert sorted[k] in multiset(ranks);
      var m :| 0 <= m < |ranks| && ranks[m] == sorted[k];
    }
    forall i, j | 0 <= i < j < |order|
      ensures !Below(MainRank(history, order[j]), MainRank(history, order[i]))
    {
      assert order[i] == sorted[i].id && order[j] == sorted[j].id;
    }
  }

  /** The working state of the Main loop: assignments and `free_main`. (`remaining` is always
      the part of the sorted order the loop has not reached; see `AssignMain`.) */
  datatype MainState = MainState(assignments: Assignment, free: set<nat>)

  /** One pass of the Main loop body: `w` takes the position `PickMain` chooses. */
  function MainStep(st: MainState, w: nat, history: seq<Record>): (r: MainState)
    requires st.free != {} && ValidPositions(st.free)
    ensures r.free <= st.free && |r.free| == |st.free| - 1 && ValidPositions(r.free)
    ensures w in r.assignments && r.assignments[w].zone == Main
  {
    var p := PickMain(MainPositions(history, w), st.free);
    MainState(st.assignments[w := Placement(Main, Some(p))], st.free - {p})
  }

  /** The Main loop over `order` (the sorted copy of `remaining`) with `need` places to fill. */
  function RotateMain(order: seq<nat>, need: int, st: MainState, history: seq<Record>): (r: MainState)
    requires ValidPositions(st.free) && need <= |st.free|
    ensures r.free <= st.free
    decreases |order|
  {
    if order == [] || need <= 0 then st
    else RotateMain(order[1..], need - 1, MainStep(st, order[0], history), history)
  }

  /** How many workers of `order` the Main loop places when `need` places are open. */
  function Placed(order: seq<nat>, need: int): (k: nat)
    ensures k <= |order|
  {
    if need <= 0 then 0 else if need < |order| then need else |order|
  }

  lemma {:induction false} PlacedStep(order: seq<nat>, need: int)
    requires order != [] && need > 0
    ensures Placed(order, need) == Placed(order[1..], need - 1) + 1
  {
  }

  lemma {:induction false} TakeCons(s: seq<nat>, k: nat)
    requires 0 < k <= |s|
    ensures s[..k] == [s[0]] + s[1..][..k - 1]
  {
  }

  /** One turn of the Main loop. */
  lemma {:induction false} RotateMainUnfold(order: seq<nat>, need: int, st: MainState, history: seq<Record>)
    requires ValidPositions(st.free) && need <= |st.free| && order != [] && need > 0
    ensures RotateMain(order, need, st, history)
      == RotateMain(order[1..], need - 1, MainStep(st, order[0], history), history)
  {
  }

  /** One turn of the loop body keeps the Main positions a partition of MAIN_POSITIONS. */
  lemma {:induction false} MainStepSound(st: MainState, w: nat, history: seq<Record>)
    requires st.free != {} && ValidPositions(st.free) && w !in st.assignments
    requires MainSound(st.assignments, st.free)
    ensures MainSound(MainStep(st, w, history).assignments, MainStep(st, w, history).free)
  {
    MainAddSound(st.assignments, st.free, w, PickMain(MainPositions(history, w), st.free));
  }

  /** Placing distinct newcomers keeps the Main positions a partition of MAIN_POSITIONS, one
      free position fewer per placed worker. */
  lemma {:induction false} RotateMainSound(order: seq<nat>, need: int, st: MainState, history: seq<Record>)
    requires ValidPositions(st.free) && need <= |st.free|
    requires NoDuplicates(order) && forall w :: w in order ==> w !in st.assignments
    requires MainSound(st.assignments, st.free)
    ensures MainSound(RotateMain(order, need, st, history).assignments, RotateMain(order, need, st, history).free)
    ensures |RotateMain(order, need, st, history).free| == |st.free| - Placed(order, need)
    decreases |order|
  {
    if order != [] && need > 0 {
      var next := MainStep(st, order[0], history);
      MainStepSound(st, order[0], history);
      TailDistinct(order);
      forall v | v in order[1..] ensures v !in next.assignments {
        assert v in order;
      }
      RotateMainSound(order[1..], need - 1, next, history);
      RotateMainUnfold(order, need, st, history);
      PlacedStep(order, need);
    }
  }

  /** What the Main loop does to one worker's entry: a worker among the first
      `Placed(order, need)` of `order` ends in Main; any other entry is left alone. */
  lemma {:induction false} RotateMainEntry(order: seq<nat>, need: int, st: MainState, history: seq<Record>, w: nat)
    requires ValidPositions(st.free) && need <= |st.free|
    ensures EntryOutcome(RotateMain(order, need, st, history).assignments, st.assignments, order[..Placed(order, need)], w)
    decreases |order|
  {
    if order == [] || need <= 0 {
      EntryBase(order, need, st, history, w);
    } else {
      var next := MainStep(st, order[0], history);
      assert EntryOutcome(RotateMain(order[1..], need - 1, next, history).assignments,
                          next.assignments, order[1..][..Placed(order[1..], need - 1)], w) by {
        RotateMainEntry(order[1..], need - 1, next, history, w);
      }
      EntryStep(order, need, st, history, w);
    }
  }

  /** A worker in `placed` ends in Main; every other entry of `before` is unchanged. */
  predicate EntryOutcome(after: Assignment, before: Assignment, placed: seq<nat>, w: nat) {
    && (w in after <==> w in before || w in placed)
    && (w in placed ==> w in after && after[w].zone == Main)
    && (w in before && w !in placed ==> w in after && after[w] == before[w])
  }

  /** With nothing left to place, the Main loop leaves every entry alone. */
  lemma {:induction false} EntryBase(order: seq<nat>, need: int, st: MainState, history: seq<Record>, w: nat)
    requires ValidPositions(st.free) && need <= |st.free| && (order == [] || need <= 0)
    ensures EntryOutcome(RotateMain(order, need, st, history).assignments, st.assignments, order[..Placed(order, need)], w)
  {
    assert order[..Placed(order, need)] == [];
  }

  lemma {:induction false} EntryStep(order: seq<nat>, need: int, st: MainState, history: seq<Record>, w: nat)
    requires ValidPositions(st.free) && need <= |st.free| && order != [] && need > 0
    requires EntryOutcome(RotateMain(order[1..], need - 1, MainStep(st, order[0], history), history).assignments,
                          MainStep(st, order[0], history).assignments, order[1..][..Placed(order[1..], need - 1)], w)
    ensures EntryOutcome(RotateMain(order, need, st, history).assignments, st.assignments, order[..Placed(order, need)], w)
  {
    RotateMainUnfold(order, need, st, history);
    PlacedStep(order, need);
    TakeCons(order, Placed(order, need));
  }

  /** The Main loop places exactly the first `Placed(order, need)` workers of `order`. */
  lemma {:induction false} RotateMainKeys(order: seq<nat>, need: int, st: MainState, history: seq<Record>)
    requires ValidPositions(st.free) && need <= |st.free|
    ensures RotateMain(order, need, st, history).assignments.Keys
      == st.assignments.Keys + Elements(order[..Placed(order, need)])
  {
    forall w ensures w in RotateMain(order, need, st, history).assignments
      <==> w in st.assignments || w in Elements(order[..Placed(order, need)])
    {
      RotateMainEntry(order, need, st, history, w);
    }
  }

  /** `remaining.sort(key=main_priority)`, with each key computed once per worker as the sort does. */
  method SortByPriority(remaining: seq<nat>, byWorker: map<nat, seq<nat>>, ghost history: seq<Record>)
    returns (sorted: seq<nat>)
    requires forall w :: Held(byWorker, w) == MainPositions(history, w)
    ensures sorted == PriorityOrder(remaining, history)
  {
    var keys: seq<Rank> := [];
    for i := 0 to |remaining|
      invariant |keys| == i
      invariant forall k :: 0 <= k < i ==> keys[k] == MainRank(history, remaining[k])
    {
      var wid := remaining[i];
      var visited := VisitedInCurrentCycle(Held(byWorker, wid));
      keys := keys + [Rank(MainSlots - |visited|, |Held(byWorker, wid)|, wid)];
    }
    assert keys == MainRanks(remaining, history);
    sorted := Ids(Sort(keys));
  }

  /** The keys `min(free_main, key=lambda p: main_counts[wid][p])` compares, read from the
      counts map, in ascending position order. */
  function CountedUsage(free: set<nat>, counts: map<nat, map<nat, nat>>, wid: nat): seq<Rank> {
    var ps := PositionsUpTo(free, MainSlots);
    seq(|ps|, k requires 0 <= k < |ps| => Rank(Times(counts, wid, ps[k]), 0, ps[k]))
  }

  /** Read from counts that match the history, they are the keys of the choice rule. */
  lemma {:induction false} CountedUsageRanks(free: set<nat>, counts: map<nat, map<nat, nat>>, wid: nat, held: seq<nat>)
    requires forall p :: Times(counts, wid, p) == multiset(held)[p]
    ensures CountedUsage(free, counts, wid) == UsageRanks(free, held)
  {
  }

  /** The choice in the Main loop body: the smallest free position outside the current cycle,
      or else `min(free_main, key=lambda p: main_counts[wid][p])`. */
  method ChooseMain(wid: nat, free: set<nat>, byWorker: map<nat, seq<nat>>, counts: map<nat, map<nat, nat>>,
                    ghost history: seq<Record>) returns (pos: nat)
    requires free != {} && ValidPositions(free)
    requires Held(byWorker, wid) == MainPositions(history, wid)
    requires forall p :: Times(counts, wid, p) == multiset(MainPositions(history, wid))[p]
    ensures pos == PickMain(MainPositions(history, wid), free)
  {
    var visited := VisitedInCurrentCycle(Held(byWorker, wid));
    var candidates := (AllPositions - visited) * free;
    UnvisitedAsWritten(MainPositions(history, wid), free);
    if candidates != {} {
      pos := LeastPosition(candidates);
      LeastUnvisitedIsBest(MainPositions(history, wid), free);
    } else {
      var usage := CountedUsage(free, counts, wid);
      CountedUsageRanks(free, counts, wid, MainPositions(history, wid));
      LeastUsedIsBest(MainPositions(history, wid), free);
      pos := Lowest(usage).id;
    }
    BestUnique(MainPositions(history, wid), free);
  }

  /** One turn of the Main loop at index `i` of the sorted copy, in the terms the loop keeps. */
  lemma {:induction false} MainLoopTurn(order: seq<nat>, i: nat, need: int, st: MainState, history: seq<Record>, pos: nat)
    requires i < |order| && need > 0 && ValidPositions(st.free) && need <= |st.free|
    requires pos == PickMain(MainPositions(history, order[i]), st.free)
    ensures RotateMain(order[i..], need, st, history)
      == RotateMain(order[i + 1..], need - 1, MainState(st.assignments[order[i] := Placement(Main, Some(pos))], st.free - {pos}), history)
    ensures ValidPositions(st.free - {pos}) && |st.free - {pos}| == |st.free| - 1
    ensures Placed(order[i..], need) == Placed(order[i + 1..], need - 1) + 1
    ensures RemoveFirst(order[i..], order[i]) == order[i + 1..]
  {
    assert order[i..][1..] == order[i + 1..];
    RotateMainUnfold(order[i..], need, st, history);
    PlacedStep(order[i..], need);
  }

  /** The Main loop of `assign_shift`: `for wid in remaining[:]`. Each placed worker is removed
      from `remaining`, so afterwards it holds exactly the workers the loop did not reach. */
  method AssignMain(remaining0: seq<nat>, need0: int, free0: set<nat>, assignments0: Assignment,
                    byWorker: map<nat, seq<nat>>, counts: map<nat, map<nat, nat>>, ghost history: seq<Record>)
    returns (assignments: Assignment, free: set<nat>, remaining: seq<nat>)
    requires ValidPositions(free0) && need0 <= |free0|
    requires forall w :: Held(byWorker, w) == MainPositions(history, w)
    requires forall w, p :: Times(counts, w, p) == multiset(MainPositions(history, w))[p]
    ensures MainState(assignments, free) == RotateMain(remaining0, need0, MainState(assignments0, free0), history)
    ensures remaining == remaining0[Placed(remaining0, need0)..]
    ensures need0 == |free0| ==> |free| == need0 - Placed(remaining0, need0)
  {
    assignments, free, remaining := assignments0, free0, remaining0;
    var need := need0;
    var order := remaining0;
    for i := 0 to |order|
      invariant ValidPositions(free) && need <= |free|
      invariant RotateMain(order, need0, MainState(assignments0, free0), history)
        == RotateMain(order[i..], need, MainState(assignments, free), history)
      invariant remaining == order[i..]
      invariant Placed(order, need0) == i + Placed(order[i..], need)
      invariant need == need0 - i
      invariant need0 == |free0| ==> need == |free|
    {
      if need <= 0 {
        break;
      }
      var wid := order[i];
      var pos := ChooseMain(wid, free, byWorker, counts, history);
      MainLoopTurn(order, i, need, MainState(assignments, free), history, pos);
      assignments := assignments[wid := Placement(Main, Some(pos))];
      free := free - {pos};
      remaining := RemoveFirst(remaining, wid);
      need := need - 1;
    }
  }
}
