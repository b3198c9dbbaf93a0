/** The ordering machinery engine.py borrows from Python: tuple keys compared element by element,
    `min(xs, key=...)` (first minimal element), `list.sort(key=...)` (stable) and
    `sorted(list(s))` over a set of positions. */
module Ranking {
  import opened ShiftTypes

  /** A three-element sort key `(first, second, id)`; the last element is always a worker id
      or a position, which makes keys of distinct items distinct. */
  datatype Rank = Rank(first: nat, second: nat, id: nat)

  /** Strict lexicographic order on keys, as Python compares tuples. */
  predicate Below(x: Rank, y: Rank) {
    || x.first < y.first
    || (x.first == y.first && x.second < y.second)
    || (x.first == y.first && x.second == y.second && x.id < y.id)
  }

  /** `min(s, key=...)`: the first element of `s` that no other element is below. */
  function Lowest(s: seq<Rank>): (m: Rank)
    requires s != []
    ensures m in s
    ensures forall x :: x in s ==> !Below(x, m)
    decreases |s|
  {
    if |s| == 1 then s[0]
    else
      var m := Lowest(s[..|s| - 1]);
      assert s == s[..|s| - 1] + [s[|s| - 1]];
      if Below(s[|s| - 1], m) then s[|s| - 1] else m
  }

  predicate Ascending(s: seq<Rank>) {
    forall i, j :: 0 <= i < j < |s| ==> !Below(s[j], s[i])
  }

  /** Places `x` before the first element that is not below it. */
  function Insert(x: Rank, s: seq<Rank>): (r: seq<Rank>)
    ensures multiset(r) == multiset(s) + multiset{x}
    decreases |s|
  {
    if s == [] || !Below(s[0], x) then [x] + s
    else
      assert s == [s[0]] + s[1..];
      [s[0]] + Insert(x, s[1..])
  }

  /** A key that no element of an ascending list is below can go in front of it. */
  lemma {:induction false} ConsAscending(y: Rank, t: seq<Rank>)
    requires Ascending(t)
    requires forall k :: 0 <= k < |t| ==> !Below(t[k], y)
    ensures Ascending([y] + t)
  {
    var r := [y] + t;
    forall i, j | 0 <= i < j < |r| ensures !Below(r[j], r[i]) {
      assert r[j] == t[j - 1];
      if i > 0 {
        assert r[i] == t[i - 1];
      }
    }
  }

  lemma {:induction false} InsertAscending(x: Rank, s: seq<Rank>)
    requires Ascending(s)
    ensures Ascending(Insert(x, s))
    decreases |s|
  {
    if s == [] || !Below(s[0], x) {
      forall k | 0 <= k < |s| ensures !Below(s[k], x) {
        assert k == 0 || !Below(s[k], s[0]);
      }
      ConsAscending(x, s);
    } else {
      var t := Insert(x, s[1..]);
      AscendingTail(s);
      InsertAscending(x, s[1..]);
      forall k | 0 <= k < |t| ensures !Below(t[k], s[0]) {
        assert t[k] in multiset(s[1..]) + multiset{x} by {
          assert t[k] in multiset(t);
        }
        if t[k] != x {
          var m :| 0 <= m < |s[1..]| && s[1..][m] == t[k];
          assert t[k] == s[m + 1];
        }
      }
      ConsAscending(s[0], t);
    }
  }

  /** `list.sort(key=...)` as an insertion sort. The engine only sorts keys that end in distinct
      worker ids, so which stable order equal keys would take never arises. */
  function Sort(s: seq<Rank>): (r: seq<Rank>)
    ensures multiset(r) == multiset(s)
    decreases |s|
  {
    if s == [] then []
    else
      assert s == [s[0]] + s[1..];
      Insert(s[0], Sort(s[1..]))
  }

  lemma {:induction false} SortAscending(s: seq<Rank>)
    ensures Ascending(Sort(s))
    decreases |s|
  {
    if s != [] {
      SortAscending(s[1..]);
      InsertAscending(s[0], Sort(s[1..]));
    }
  }

  /** The ids carried by a sequence of keys, in order. */
  function Ids(s: seq<Rank>): seq<nat> {
    seq(|s|, i requires 0 <= i < |s| => s[i].id)
  }

  lemma {:induction false} IdsCons(x: Rank, s: seq<Rank>)
    ensures Ids([x] + s) == [x.id] + Ids(s)
  {
  }

  /** Sorting keeps the ids the keys carry, as a multiset. */
  lemma {:induction false} InsertIds(x: Rank, s: seq<Rank>)
    ensures multiset(Ids(Insert(x, s))) == multiset(Ids(s)) + multiset{x.id}
    decreases |s|
  {
    if s == [] || !Below(s[0], x) {
      IdsCons(x, s);
    } else {
      InsertIds(x, s[1..]);
      IdsCons(s[0], Insert(x, s[1..]));
      IdsCons(s[0], s[1..]);
      assert [s[0]] + s[1..] == s;
    }
  }

  lemma {:induction false} SortIds(s: seq<Rank>)
    ensures multiset(Ids(Sort(s))) == multiset(Ids(s))
    decreases |s|
  {
    if s != [] {
      var x, t := s[0], s[1..];
      SortIds(t);
      InsertIds(x, Sort(t));
      IdsCons(x, t);
      assert s == [x] + t;
      assert Sort(s) == Insert(x, Sort(t));
      calc {
        multiset(Ids(Sort(s)));
        multiset(Ids(Sort(t))) + multiset{x.id};
        multiset(Ids(t)) + multiset{x.id};
        multiset([x.id] + Ids(t));
      }
    }
  }

  /** Distinct keys are always ordered one way or the other. */
  lemma {:induction false} BelowTotal(x: Rank, y: Rank)
    ensures x == y || Below(x, y) || Below(y, x)
  {
  }

  /** There is only one ascending arrangement of a multiset of keys, so the insertion sort
      agrees with any other sort, Python's included. */
  lemma {:induction false} AscendingUnique(a: seq<Rank>, b: seq<Rank>)
    requires Ascending(a) && Ascending(b) && multiset(a) == multiset(b)
    ensures a == b
    decreases |a|
  {
    if a != [] {
      assert |b| == |a| by {
        assert |multiset(a)| == |multiset(b)|;
      }
      HeadsAgree(a, b);
      var x := a[0];
      assert a == [x] + a[1..] && b == [x] + b[1..];
      assert multiset(a[1..]) == multiset(b[1..]) by {
        assert multiset(a) == multiset{x} + multiset(a[1..]);
        assert multiset(b) == multiset{x} + multiset(b[1..]);
        forall y ensures multiset(a[1..])[y] == multiset(b[1..])[y] {
          assert multiset(a)[y] == multiset(b)[y];
        }
      }
      AscendingTail(a);
      AscendingTail(b);
      AscendingUnique(a[1..], b[1..]);
    }
  }

  /** Two ascending arrangements of the same keys start with the same key. */
  lemma {:induction false} HeadsAgree(a: seq<Rank>, b: seq<Rank>)
    requires Ascending(a) && Ascending(b) && multiset(a) == multiset(b) && a != [] && b != []
    ensures a[0] == b[0]
  {
    assert a[0] in multiset(b);
    var k :| 0 <= k < |b| && b[k] == a[0];
    assert b[0] in multiset(a);
    var m :| 0 <= m < |a| && a[m] == b[0];
    BelowTotal(a[0], b[0]);
    if k > 0 {
      assert !Below(b[k], b[0]);
    }
    if m > 0 {
      assert !Below(a[m], a[0]);
    }
  }

  lemma {:induction false} AscendingTail(a: seq<Rank>)
    requires Ascending(a) && a != []
    ensures Ascending(a[1..])
  {
    forall i, j | 0 <= i < j < |a| - 1 ensures !Below(a[1..][j], a[1..][i]) {
      assert a[1..][j] == a[j + 1] && a[1..][i] == a[i + 1];
    }
  }

  /** `sorted(list(s))` for the members of `s` among the positions 1..n. */
  function PositionsUpTo(s: set<nat>, n: nat): (r: seq<nat>)
    ensures forall i :: 0 <= i < |r| ==> 1 <= r[i] <= n && r[i] in s
    ensures forall i, j :: 0 <= i < j < |r| ==> r[i] < r[j]
    decreases n
  {
    if n == 0 then []
    else
      var r := PositionsUpTo(s, n - 1);
      if n in s then r + [n] else r
  }

  lemma {:induction false} PositionsUpToComplete(s: set<nat>, n: nat, p: nat)
    requires 1 <= p <= n && p in s
    ensures p in PositionsUpTo(s, n)
    decreases n
  {
    if p < n {
      PositionsUpToComplete(s, n - 1, p);
    }
  }

  /** The smallest element of a non-empty set of Main positions (`sorted(list(s))[0]`). */
  function LeastPosition(s: set<nat>): (p: nat)
    requires s != {} && ValidPositions(s)
    ensures p in s
    ensures forall q :: q in s ==> p <= q
  {
    var x :| x in s;
    PositionsUpToComplete(s, MainSlots, x);
    var r := PositionsUpTo(s, MainSlots);
    assert forall q :: q in s ==> q in r by {
      forall q | q in s ensures q in r {
        PositionsUpToComplete(s, MainSlots, q);
      }
    }
    r[0]
  }
}
