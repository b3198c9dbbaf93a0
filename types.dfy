/** Vocabulary shared by every phase of the shift-assignment engine (engine.py):
    worker ids, zones, history records, locked requests, placements and errors. */
module ShiftTypes {

  /** Number of numbered Main positions (MAIN_POSITIONS is 1..18). */
  const MainSlots: nat := 18


  /** A number of MAIN_POSITIONS. */
  predicate IsPosition(p: nat) {
    1 <= p <= MainSlots
  }

  /** A set of numbers of MAIN_POSITIONS. */
  predicate ValidPositions(s: set<nat>) {
    forall p :: p in s ==> IsPosition(p)
  }

  /** The positions 1..n. */
  function PositionRange(n: nat): set<nat>
    decreases n
  {
    if n == 0 then {} else PositionRange(n - 1) + {n}
  }

  /** A zone name. `Other` stands for any name that is none of the four the engine knows
      (including a request that carries no zone at all): its `name` is never "Main", "Small",
      "Far" or "Veranda", which are always read as the constructors of the same name. */
  datatype Zone = Main | Small | Far | Veranda | Other(name: string)

  /** WEEKEND_ZONES: the named zones and their fixed capacities. */
  const WeekendZones: map<Zone, nat> := map[Small := 4, Far := 3, Veranda := 9]

  /** The order in which WEEKEND_ZONES is iterated (dict insertion order). */
  const ZoneOrder: seq<Zone> := [Small, Far, Veranda]

  datatype Option<T> = None | Some(value: T)

  /** One row of the history store; `date` is not kept, the sequence order stands for it
      (oldest first). */
  datatype Record = Record(worker: nat, zone: Zone, position: Option<nat>)

  /** One entry `wid -> {"zone", "position"}` of the locked-request dictionary. */
  datatype Request = Request(worker: nat, zone: Zone, position: Option<nat>)

  /** The value the engine stores for a worker: a zone and, for Main, a position. */
  datatype Placement = Placement(zone: Zone, position: Option<nat>)

  type Assignment = map<nat, Placement>

  datatype ShiftType = Weekday | Weekend

  /** One variant per `raise ValueError` of assign_shift. */
  datatype Error =
    | MissingPosition(worker: nat)
    | PositionConflict(position: nat)
    | UnknownZone(zone: Zone)
    | ZoneFull(zone: Zone)
    | OverAllocatedMain
    | InsufficientWeekendStaff

  datatype Result<T> = Ok(value: T) | Err(error: Error)

  /** The values occurring in a sequence. */
  function Elements(s: seq<nat>): set<nat> {
    set x | x in s
  }

  predicate NoDuplicates(s: seq<nat>) {
    forall i, j :: 0 <= i < j < |s| ==> s[i] != s[j]
  }

  /** The workers an assignment places in zone `z`. */
  function Holders(asg: Assignment, z: Zone): set<nat> {
    set w | w in asg && asg[w].zone == z
  }

  /** No two workers share a Main position. */
  predicate MainDistinct(asg: Assignment) {
    forall w1, w2 :: w1 in asg && w2 in asg && w1 != w2 && asg[w1].zone == Main && asg[w2].zone == Main
      ==> asg[w1].position != asg[w2].position
  }

  /** Every Main placement carries a position of MAIN_POSITIONS that is not in `free`. */
  predicate MainTakenFrom(asg: Assignment, free: set<nat>) {
    forall w :: w in asg && asg[w].zone == Main ==>
      asg[w].position.Some? && IsPosition(asg[w].position.value) && asg[w].position.value !in free
  }

  /** Cardinality is monotone under inclusion. */
  lemma {:induction false} SubsetCard(a: set<nat>, b: set<nat>)
    requires a <= b
    ensures |a| <= |b|
  {
    assert b == a + (b - a);
  }

  /** Placing a new worker adds it to the holders of its zone and to no other zone's. */
  lemma {:induction false} HoldersAdd(asg: Assignment, w: nat, pl: Placement, z: Zone)
    requires w !in asg
    ensures Holders(asg[w := pl], z) == if pl.zone == z then Holders(asg, z) + {w} else Holders(asg, z)
    ensures |Holders(asg[w := pl], z)| == |Holders(asg, z)| + (if pl.zone == z then 1 else 0)
  {
    if pl.zone == z {
      assert Holders(asg[w := pl], z) == Holders(asg, z) + {w};
    } else {
      assert Holders(asg[w := pl], z) == Holders(asg, z);
    }
  }

  lemma {:induction false} PositionRangeFacts(n: nat)
    ensures |PositionRange(n)| == n
    ensures forall p :: p in PositionRange(n) <==> 1 <= p <= n
    decreases n
  {
    if n > 0 {
      PositionRangeFacts(n - 1);
    }
  }

  /** MAIN_POSITIONS as a set. */
  const AllPositions: set<nat> := PositionRange(MainSlots)

  lemma {:induction false} AllPositionsFacts()
    ensures |AllPositions| == MainSlots
    ensures forall p :: p in AllPositions <==> IsPosition(p)
  {
    PositionRangeFacts(MainSlots);
  }

  /** The Main half of the consistency phase 1 keeps: the Main placements and `free_main`
      partition MAIN_POSITIONS. */
  predicate MainSound(asg: Assignment, free: set<nat>) {
    && ValidPositions(free)
    && MainDistinct(asg)
    && MainTakenFrom(asg, free)
    && |Holders(asg, Main)| + |free| == MainSlots
  }

  /** Taking a free position for a new worker keeps the Main half. */
  lemma {:induction false} MainAddSound(asg: Assignment, free: set<nat>, w: nat, p: nat)
    requires MainSound(asg, free) && w !in asg && p in free
    ensures MainSound(asg[w := Placement(Main, Some(p))], free - {p})
  {
    var asg' := asg[w := Placement(Main, Some(p))];
    HoldersAdd(asg, w, Placement(Main, Some(p)), Main);
    assert |free - {p}| == |free| - 1;
    forall w1, w2 | w1 in asg' && w2 in asg' && w1 != w2 && asg'[w1].zone == Main && asg'[w2].zone == Main
      ensures asg'[w1].position != asg'[w2].position
    {
      if w1 != w && w2 != w {
        assert asg'[w1] == asg[w1] && asg'[w2] == asg[w2];
      } else if w1 == w {
        assert asg[w2].position.value !in free;
      } else {
        assert asg[w1].position.value !in free;
      }
    }
    forall v | v in asg' && asg'[v].zone == Main
      ensures asg'[v].position.Some? && IsPosition(asg'[v].position.value) && asg'[v].position.value !in free - {p}
    {
      if v != w {
        assert asg'[v] == asg[v];
      }
    }
  }


  /** `list.remove(x)`: drops the first occurrence of `x`, if any. */
  function RemoveFirst(s: seq<nat>, x: nat): seq<nat>
    decreases |s|
  {
    if s == [] then []
    else if s[0] == x then s[1..]
    else [s[0]] + RemoveFirst(s[1..], x)
  }

  /** `list.remove(x)` takes away one occurrence of `x` and nothing else. */
  lemma {:induction false} RemoveFirstMultiset(s: seq<nat>, x: nat)
    ensures multiset(RemoveFirst(s, x)) == multiset(s) - multiset{x}
    decreases |s|
  {
    if s != [] {
      assert s == [s[0]] + s[1..];
      if s[0] != x {
        RemoveFirstMultiset(s[1..], x);
      }
    }
  }

  /** Removing a present element from a list without repeats leaves a list without repeats,
      one shorter, holding every other element. */
  lemma {:induction false} RemovePresent(s: seq<nat>, x: nat)
    requires NoDuplicates(s) && x in s
    ensures NoDuplicates(RemoveFirst(s, x))
    ensures |RemoveFirst(s, x)| == |s| - 1
    ensures Elements(RemoveFirst(s, x)) == Elements(s) - {x}
    decreases |s|
  {
    TailDistinct(s);
    assert Elements(s) == {s[0]} + Elements(s[1..]) by {
      assert s == [s[0]] + s[1..];
    }
    if s[0] != x {
      var t := RemoveFirst(s[1..], x);
      RemovePresent(s[1..], x);
      RemoveKeeps(s[1..], x, s[0]);
      ConsDistinct(s[0], t);
      assert Elements([s[0]] + t) == {s[0]} + Elements(t);
    }
  }

  /** Removing an element that occurs shortens the list by one. */
  lemma {:induction false} RemoveLength(s: seq<nat>, x: nat)
    requires x in s
    ensures |RemoveFirst(s, x)| == |s| - 1
    decreases |s|
  {
    if s[0] != x {
      assert x in s[1..] by {
        assert s == [s[0]] + s[1..];
      }
      RemoveLength(s[1..], x);
    }
  }

  /** Removing never introduces an element. */
  lemma {:induction false} RemoveKeeps(s: seq<nat>, x: nat, y: nat)
    requires y !in s
    ensures y !in RemoveFirst(s, x)
  {
    RemoveFirstMultiset(s, x);
    assert multiset(s)[y] == 0;
    assert multiset(RemoveFirst(s, x))[y] == 0;
  }

  /** The tail of a list without repeats has none and does not hold the head. */
  lemma {:induction false} TailDistinct(s: seq<nat>)
    requires NoDuplicates(s) && s != []
    ensures NoDuplicates(s[1..]) && s[0] !in s[1..]
  {
    forall i, j | 0 <= i < j < |s[1..]| ensures s[1..][i] != s[1..][j] {
      assert s[1..][i] == s[i + 1] && s[1..][j] == s[j + 1];
    }
    forall k | 0 <= k < |s[1..]| ensures s[1..][k] != s[0] {
      assert s[1..][k] == s[k + 1];
    }
  }

  /** Prefixing a new element to a list without repeats keeps it without repeats. */
  lemma {:induction false} ConsDistinct(x: nat, t: seq<nat>)
    requires NoDuplicates(t) && x !in t
    ensures NoDuplicates([x] + t)
  {
    var s := [x] + t;
    forall i, j | 0 <= i < j < |s| ensures s[i] != s[j] {
      assert s[j] == t[j - 1];
      if i > 0 {
        assert s[i] == t[i - 1];
      }
    }
  }

  /** A list without repeats holds each value at most once. */
  lemma {:induction false} DistinctCount(s: seq<nat>, x: nat)
    requires NoDuplicates(s)
    ensures multiset(s)[x] <= 1
    decreases |s|
  {
    if s != [] {
      TailDistinct(s);
      DistinctCount(s[1..], x);
      assert s == [s[0]] + s[1..];
      if s[0] == x {
        assert multiset(s[1..])[x] == 0;
      }
    }
  }

  /** Rearranging a list without repeats leaves it without repeats. */
  lemma {:induction false} DistinctPermutation(a: seq<nat>, b: seq<nat>)
    requires NoDuplicates(a) && multiset(a) == multiset(b)
    ensures NoDuplicates(b)
  {
    forall i, j | 0 <= i < j < |b| ensures b[i] != b[j] {
      DistinctCount(a, b[i]);
      assert b == b[..j] + b[j..];
      assert multiset(b) == multiset(b[..j]) + multiset(b[j..]);
      assert b[..j][i] == b[i] && b[j..][0] == b[j];
      assert b[i] in multiset(b[..j]);
      assert b[j] in multiset(b[j..]);
    }
  }

  /** A list without repeats has as many distinct values as entries. */
  lemma {:induction false} DistinctCard(s: seq<nat>)
    requires NoDuplicates(s)
    ensures |Elements(s)| == |s|
    decreases |s|
  {
    if s != [] {
      TailDistinct(s);
      DistinctCard(s[1..]);
      assert Elements(s) == {s[0]} + Elements(s[1..]) by {
        assert s == [s[0]] + s[1..];
      }
    }
  }
}
