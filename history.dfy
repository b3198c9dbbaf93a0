/** Fairness statistics derived from the ordered history (engine.py `_main_counts_all`,
    `_visited_in_current_cycle` and the weekend statistics at the top of `assign_shift`). */
module History {
  import opened ShiftTypes

  /** A record that says worker `w` held a numbered Main position. */
  predicate HeldMain(r: Record, w: nat) {
    r.worker == w && r.zone == Main && r.position.Some?
  }

  /** `by_waiter[w]`: the Main positions `w` held, oldest first. */
  function MainPositions(history: seq<Record>, w: nat): seq<nat>
    decreases |history|
  {
    if history == [] then []
    else
      var last := history[|history| - 1];
      MainPositions(history[..|history| - 1], w) + (if HeldMain(last, w) then [last.position.value] else [])
  }

  /** Reading `by_waiter[w]` from the defaultdict (an absent worker reads as the empty list). */
  function Held(byWorker: map<nat, seq<nat>>, w: nat): seq<nat> {
    if w in byWorker then byWorker[w] else []
  }

  /** Reading `counts[w][p]` from the nested defaultdict (absent entries read as 0). */
  function Times(counts: map<nat, map<nat, nat>>, w: nat, p: nat): nat {
    if w in counts && p in counts[w] then counts[w][p] else 0
  }

  /** `_main_counts_all`: one pass over the history that skips every record that is not a
      Main record with a position. */
  method MainCountsAll(history: seq<Record>) returns (counts: map<nat, map<nat, nat>>, byWorker: map<nat, seq<nat>>)
    ensures forall w :: Held(byWorker, w) == MainPositions(history, w)
    ensures forall w, p :: Times(counts, w, p) == multiset(MainPositions(history, w))[p]
  {
    counts, byWorker := map[], map[];
    for i := 0 to |history|
      invariant forall w :: Held(byWorker, w) == MainPositions(history[..i], w)
      invariant forall w, p :: Times(counts, w, p) == multiset(MainPositions(history[..i], w))[p]
    {
      var h := history[i];
      if h.zone == Main && h.position.Some? {
        var wid, pos := h.worker, h.position.value;
        var row := if wid in counts then counts[wid] else map[];
        ghost var counts0, byWorker0 := counts, byWorker;
        counts := counts[wid := row[pos := Times(counts, wid, pos) + 1]];
        byWorker := byWorker[wid := Held(byWorker, wid) + [pos]];
        CountsStep(counts0, counts, history, i);
        HeldStep(byWorker0, byWorker, history, i);
      } else {
        MainPositionsStep(history, i);
      }
    }
    assert history[..|history|] == history;
  }

  /** The loop step of `_main_counts_all` for a Main record keeps the list invariant. */
  lemma {:induction false} HeldStep(byWorker0: map<nat, seq<nat>>, byWorker: map<nat, seq<nat>>, history: seq<Record>, i: nat)
    requires i < |history| && HeldMain(history[i], history[i].worker)
    requires forall w :: Held(byWorker0, w) == MainPositions(history[..i], w)
    requires byWorker == byWorker0[history[i].worker := Held(byWorker0, history[i].worker) + [history[i].position.value]]
    ensures forall w :: Held(byWorker, w) == MainPositions(history[..i + 1], w)
  {
    MainPositionsStep(history, i);
    forall w ensures Held(byWorker, w) == MainPositions(history[..i + 1], w) {
      if w != history[i].worker {
        assert MainPositions(history[..i], w) + [] == MainPositions(history[..i], w);
      }
    }
  }

  /** The loop step of `_main_counts_all` for a Main record keeps the counts invariant. */
  lemma {:induction false} CountsStep(counts0: map<nat, map<nat, nat>>, counts: map<nat, map<nat, nat>>, history: seq<Record>, i: nat)
    requires i < |history| && HeldMain(history[i], history[i].worker)
    requires forall w, p :: Times(counts0, w, p) == multiset(MainPositions(history[..i], w))[p]
    requires var wid, pos := history[i].worker, history[i].position.value;
      counts == counts0[wid := (if wid in counts0 then counts0[wid] else map[])[pos := Times(counts0, wid, pos) + 1]]
    ensures forall w, p :: Times(counts, w, p) == multiset(MainPositions(history[..i + 1], w))[p]
  {
    forall w, p ensures Times(counts, w, p) == multiset(MainPositions(history[..i + 1], w))[p] {
      CountStep(counts0, counts, history, i, w, p);
    }
  }

  lemma {:induction false} CountStep(counts0: map<nat, map<nat, nat>>, counts: map<nat, map<nat, nat>>, history: seq<Record>, i: nat, w: nat, p: nat)
    requires i < |history| && HeldMain(history[i], history[i].worker)
    requires Times(counts0, w, p) == multiset(MainPositions(history[..i], w))[p]
    requires var wid, pos := history[i].worker, history[i].position.value;
      counts == counts0[wid := (if wid in counts0 then counts0[wid] else map[])[pos := Times(counts0, wid, pos) + 1]]
    ensures Times(counts, w, p) == multiset(MainPositions(history[..i + 1], w))[p]
  {
    var wid, pos := history[i].worker, history[i].position.value;
    var before := MainPositions(history[..i], w);
    MainPositionsStep(history, i);
    assert Times(counts, w, p) == Times(counts0, w, p) + (if w == wid && p == pos then 1 else 0);
    if w == wid {
      assert multiset(before + [pos]) == multiset(before) + multiset{pos};
    } else {
      assert before + [] == before;
    }
  }

  /** One more record extends each worker's Main list by at most that record's position. */
  lemma {:induction false} MainPositionsStep(history: seq<Record>, i: nat)
    requires i < |history|
    ensures forall w {:trigger MainPositions(history[..i + 1], w)} :: (MainPositions(history[..i + 1], w)
      == MainPositions(history[..i], w) + (if HeldMain(history[i], w) then [history[i].position.value] else []))
  {
    assert history[..i + 1][..i] == history[..i];
  }

  /** Appending records to the history appends to each worker's Main list: the list keeps
      the history's chronological order. */
  lemma {:induction false} MainPositionsAppend(older: seq<Record>, newer: seq<Record>, w: nat)
    ensures MainPositions(older + newer, w) == MainPositions(older, w) + MainPositions(newer, w)
    decreases |newer|
  {
    if newer == [] {
      assert older + newer == older;
    } else {
      var n := newer[..|newer| - 1];
      assert (older + newer)[..|older + newer| - 1] == older + n;
      assert (older + newer)[|older + newer| - 1] == newer[|newer| - 1];
      MainPositionsAppend(older, n, w);
    }
  }

  /** The backward scan of `_visited_in_current_cycle`, resumed with the set `seen` collected so
      far: it stops with the empty set as soon as 18 distinct positions have been seen. */
  function ScanBack(s: seq<nat>, seen: set<nat>): (r: set<nat>)
    requires |seen| < MainSlots
    ensures |r| < MainSlots
    ensures r <= seen + Elements(s)
    decreases |s|
  {
    if s == [] then seen
    else
      var seen' := seen + {s[|s| - 1]};
      assert Elements(s) == Elements(s[..|s| - 1]) + {s[|s| - 1]} by {
        assert s == s[..|s| - 1] + [s[|s| - 1]];
      }
      if |seen'| == MainSlots then {} else ScanBack(s[..|s| - 1], seen')
  }

  /** The positions a worker visited in the current rotation cycle. */
  function CurrentCycle(s: seq<nat>): (r: set<nat>)
    ensures |r| < MainSlots && r <= Elements(s)
  {
    ScanBack(s, {})
  }

  /** `_visited_in_current_cycle` */
  method VisitedInCurrentCycle(posList: seq<nat>) returns (seen: set<nat>)
    ensures seen == CurrentCycle(posList)
  {
    seen := {};
    var i := |posList|;
    assert posList[..i] == posList;
    while i > 0
      invariant 0 <= i <= |posList|
      invariant |seen| < MainSlots
      invariant ScanBack(posList[..i], seen) == CurrentCycle(posList)
    {
      assert posList[..i][..i - 1] == posList[..i - 1];
      i := i - 1;
      seen := seen + {posList[i]};
      if |seen| == MainSlots {
        return {};
      }
    }
  }

  lemma {:induction false} ScanBackCharacterized(s: seq<nat>, seen: set<nat>)
    requires |seen| < MainSlots
    ensures ScanBack(s, seen) == if |seen + Elements(s)| >= MainSlots then {} else seen + Elements(s)
    decreases |s|
  {
    if s != [] {
      var last := s[|s| - 1];
      var seen' := seen + {last};
      assert Elements(s) == Elements(s[..|s| - 1]) + {last} by {
        assert s == s[..|s| - 1] + [last];
      }
      if |seen'| == MainSlots {
        SubsetCard(seen', seen + Elements(s));
      } else {
        ScanBackCharacterized(s[..|s| - 1], seen');
        assert seen' + Elements(s[..|s| - 1]) == seen + Elements(s);
      }
    }
  }

  /** The cycle set is empty exactly when the list holds at least 18 distinct positions (or is
      empty); otherwise it is every position in the list. So a worker who has ever covered 18
      distinct positions always has an empty cycle set. */
  lemma {:induction false} CurrentCycleCharacterized(s: seq<nat>)
    ensures CurrentCycle(s) == if |Elements(s)| >= MainSlots then {} else Elements(s)
  {
    ScanBackCharacterized(s, {});
    assert {} + Elements(s) == Elements(s);
  }

  /** Cycle reset: a worker whose latest 18 Main records are 18 distinct positions has just
      completed a rotation. */
  lemma {:induction false} CycleReset(s: seq<nat>)
    requires |s| >= MainSlots
    requires |Elements(s[|s| - MainSlots..])| == MainSlots
    ensures CurrentCycle(s) == {}
  {
    CurrentCycleCharacterized(s);
    SubsetCard(Elements(s[|s| - MainSlots..]), Elements(s));
  }

  /** `weekend_zone[w][z]`: how often `w` worked named zone `z`. */
  function ZoneCount(history: seq<Record>, w: nat, z: Zone): nat
    decreases |history|
  {
    if history == [] then 0
    else
      var last := history[|history| - 1];
      ZoneCount(history[..|history| - 1], w, z)
        + (if last.worker == w && last.zone == z && z in WeekendZones then 1 else 0)
  }

  /** `weekend_total[w]`: how often `w` worked any named zone. */
  function ZoneTotal(history: seq<Record>, w: nat): nat
    decreases |history|
  {
    if history == [] then 0
    else
      var last := history[|history| - 1];
      ZoneTotal(history[..|history| - 1], w) + (if last.worker == w && last.zone in WeekendZones then 1 else 0)
  }

  function TotalOf(total: map<nat, nat>, w: nat): nat {
    if w in total then total[w] else 0
  }

  function ZoneTally(perZone: map<nat, map<Zone, nat>>, w: nat, z: Zone): nat {
    if w in perZone && z in perZone[w] then perZone[w][z] else 0
  }

  /** The weekend statistics loop of `assign_shift`. */
  method WeekendStats(history: seq<Record>) returns (total: map<nat, nat>, perZone: map<nat, map<Zone, nat>>)
    ensures forall w :: TotalOf(total, w) == ZoneTotal(history, w)
    ensures forall w, z :: ZoneTally(perZone, w, z) == ZoneCount(history, w, z)
  {
    total, perZone := map[], map[];
    for i := 0 to |history|
      invariant forall w :: TotalOf(total, w) == ZoneTotal(history[..i], w)
      invariant forall w, z :: ZoneTally(perZone, w, z) == ZoneCount(history[..i], w, z)
    {
      var h := history[i];
      assert history[..i + 1][..i] == history[..i];
      var z := h.zone;
      if z in WeekendZones {
        var wid := h.worker;
        total := total[wid := TotalOf(total, wid) + 1];
        var row := if wid in perZone then perZone[wid] else map[];
        perZone := perZone[wid := row[z := ZoneTally(perZone, wid, z) + 1]];
      }
    }
    assert history[..|history|] == history;
  }

  /** The zone total is the sum of the three per-zone counts, and no other zone is counted. */
  lemma {:induction false} ZoneTotalSplits(history: seq<Record>, w: nat)
    ensures ZoneTotal(history, w)
      == ZoneCount(history, w, Small) + ZoneCount(history, w, Far) + ZoneCount(history, w, Veranda)
    ensures ZoneCount(history, w, Main) == 0
    decreases |history|
  {
    if history != [] {
      ZoneTotalSplits(history[..|history| - 1], w);
    }
  }
}
