/** The order in which `record_click` writes the table out:
    `sorted(image_data.items(), key=elo, reverse=True)`. Python's sort is
    stable also when reversed, so entries with equal ratings keep the table's
    order. The sort is modelled as a stable insertion sort and characterised
    independently of it: descending ratings, and for every rating the same
    entries in the same order as the table. */
module Saving {
  import opened Tables

  /** `image_data.items()`: every key with its record, in table order. */
  function Items(t: Table): (s: seq<Entry>)
    requires t.Valid()
    ensures Ids(s) == t.ids
    ensures forall e :: e in s <==> e.0 in t.records && t.records[e.0] == e.1
  {
    seq(|t.ids|, i requires 0 <= i < |t.ids| => (t.ids[i], t.records[t.ids[i]]))
  }

  /** No id occurs twice. */
  ghost predicate DistinctIds(s: seq<Entry>)
  {
    forall i, j :: 0 <= i < j < |s| ==> s[i].0 != s[j].0
  }

  /** Ratings never increase along `s`. */
  ghost predicate EloDescending(s: seq<Entry>)
  {
    forall i, j :: 0 <= i < j < |s| ==> s[i].1.elo >= s[j].1.elo
  }

  /** The entries of `s` rated exactly `x`, in their order in `s`. */
  function RatedAt(s: seq<Entry>, x: real): (sel: seq<Entry>)
  {
    if s == [] then []
    else (if s[0].1.elo == x then [s[0]] else []) + RatedAt(s[1..], x)
  }

  lemma {:induction false} RatedAtAppend(a: seq<Entry>, b: seq<Entry>, x: real)
    ensures RatedAt(a + b, x) == RatedAt(a, x) + RatedAt(b, x)
  {
    if a == [] {
      assert a + b == b;
    } else {
      var ab := a + b;
      assert ab[0] == a[0];
      assert ab[1..] == a[1..] + b;
      RatedAtAppend(a[1..], b, x);
      assert RatedAt(ab, x) == (if a[0].1.elo == x then [a[0]] else []) + RatedAt(a[1..] + b, x);
      assert RatedAt(a, x) == (if a[0].1.elo == x then [a[0]] else []) + RatedAt(a[1..], x);
    }
  }

  /** No entry rated `x` means nothing is selected. */
  lemma {:induction false} RatedAtNone(s: seq<Entry>, x: real)
    requires forall i :: 0 <= i < |s| ==> s[i].1.elo != x
    ensures RatedAt(s, x) == []
  {
    if s != [] {
      RatedAtNone(s[1..], x);
    }
  }

  /** Insert `e` into a descending list after every entry rated at least as
      high. */
  function InsertByElo(e: Entry, s: seq<Entry>): (r: seq<Entry>)
    requires EloDescending(s)
    ensures EloDescending(r)
    ensures multiset(r) == multiset(s) + multiset{e}
  {
    if s == [] then [e]
    else if s[0].1.elo >= e.1.elo then
      var rest := InsertByElo(e, s[1..]);
      assert s == [s[0]] + s[1..];
      BoundedByMembers(rest, s[1..], e, s[0].1.elo);
      PrependDescending(s[0], rest);
      [s[0]] + rest
    else
      PrependDescending(e, s);
      [e] + s
  }

  /** Every entry of `rest`, which holds those of `s` and `e`, is rated at
      most `bound` when they all are. */
  lemma BoundedByMembers(rest: seq<Entry>, s: seq<Entry>, e: Entry, bound: real)
    requires multiset(rest) == multiset(s) + multiset{e}
    requires e.1.elo <= bound && forall i :: 0 <= i < |s| ==> s[i].1.elo <= bound
    ensures forall i :: 0 <= i < |rest| ==> rest[i].1.elo <= bound
  {
    forall i | 0 <= i < |rest|
      ensures rest[i].1.elo <= bound
    {
      assert rest[i] in multiset(rest);
      if rest[i] != e {
        assert rest[i] in multiset(s);
      }
    }
  }

  /** An entry rated at least as high as everything in a descending list can
      go in front of it. */
  lemma PrependDescending(h: Entry, rest: seq<Entry>)
    requires EloDescending(rest)
    requires forall i :: 0 <= i < |rest| ==> rest[i].1.elo <= h.1.elo
    ensures EloDescending([h] + rest)
  {
  }

  /** Among equal ratings, the entry inserted last goes last. */
  lemma {:induction false} InsertRatedAt(e: Entry, s: seq<Entry>, x: real)
    requires EloDescending(s)
    ensures RatedAt(InsertByElo(e, s), x) == RatedAt(s, x) + (if e.1.elo == x then [e] else [])
    decreases |s|, 1
  {
    if s == [] {
      assert InsertByElo(e, s) == [e];
      assert [e][1..] == [];
    } else if s[0].1.elo >= e.1.elo {
      InsertRatedAtBehind(e, s, x);
    } else {
      assert InsertByElo(e, s) == [e] + s;
      BelowHead(e, s);
      RatedAtCons(e, s, x);
    }
  }

  /** The case of `InsertRatedAt` where `e` goes behind the first entry. */
  lemma {:induction false} InsertRatedAtBehind(e: Entry, s: seq<Entry>, x: real)
    requires EloDescending(s) && s != [] && s[0].1.elo >= e.1.elo
    ensures RatedAt(InsertByElo(e, s), x) == RatedAt(s, x) + (if e.1.elo == x then [e] else [])
    decreases |s|, 0
  {
    assert EloDescending(s[1..]);
    var rest := InsertByElo(e, s[1..]);
    assert InsertByElo(e, s) == [s[0]] + rest;
    InsertRatedAt(e, s[1..], x);
    RatedAtCons(s[0], rest, x);
    RatedAtCons(s[0], s[1..], x);
    assert s == [s[0]] + s[1..];
  }

  /** `RatedAt` on a list with a given first entry. */
  lemma RatedAtCons(h: Entry, s: seq<Entry>, x: real)
    ensures RatedAt([h] + s, x) == (if h.1.elo == x then [h] else []) + RatedAt(s, x)
  {
    assert ([h] + s)[0] == h && ([h] + s)[1..] == s;
  }

  /** Nothing in a descending list headed by an entry rated below `e` is
      rated like `e`. */
  lemma BelowHead(e: Entry, s: seq<Entry>)
    requires EloDescending(s) && s != [] && s[0].1.elo < e.1.elo
    ensures RatedAt(s, e.1.elo) == []
  {
    assert forall i :: 0 <= i < |s| ==> s[i].1.elo <= s[0].1.elo;
    RatedAtNone(s, e.1.elo);
  }

  /** The saved order: entries by rating, highest first. */
  function SortByElo(s: seq<Entry>): (r: seq<Entry>)
    ensures EloDescending(r)
    ensures multiset(r) == multiset(s)
  {
    if s == [] then []
    else
      var n := |s| - 1;
      assert s == s[..n] + [s[n]];
      InsertByElo(s[n], SortByElo(s[..n]))
  }

  /** The sort is stable: the entries rated `x` come out in the order they
      had in `s`. */
  lemma {:induction false} SortRatedAt(s: seq<Entry>, x: real)
    ensures RatedAt(SortByElo(s), x) == RatedAt(s, x)
  {
    if s != [] {
      var n := |s| - 1;
      assert s == s[..n] + [s[n]];
      RatedAtAppend(s[..n], [s[n]], x);
      SortRatedAt(s[..n], x);
      InsertRatedAt(s[n], SortByElo(s[..n]), x);
    }
  }

  /** The snapshot `record_click` writes for table `t`: a permutation of the
      table's items, ratings descending, equal ratings in table order. */
  function Snapshot(t: Table): (saved: seq<Entry>)
    requires t.Valid()
    ensures EloDescending(saved)
    ensures multiset(saved) == multiset(Items(t))
    ensures forall x :: RatedAt(saved, x) == RatedAt(Items(t), x)
  {
    var items := Items(t);
    assert forall x :: RatedAt(SortByElo(items), x) == RatedAt(items, x) by {
      forall x { SortRatedAt(items, x); }
    }
    SortByElo(items)
  }

  /** Descending order together with per-rating order pins the result down:
      any list with both properties is the one `SortByElo` returns. */
  lemma {:induction false} SortedUnique(r: seq<Entry>, q: seq<Entry>)
    requires EloDescending(r) && EloDescending(q)
    requires forall x :: RatedAt(r, x) == RatedAt(q, x)
    ensures r == q
  {
    if r == [] && q != [] {
      HeadRated(q);
      assert false;
    } else if r != [] && q == [] {
      HeadRated(r);
      assert false;
    } else if r != [] {
      var x, y := r[0].1.elo, q[0].1.elo;
      HeadRated(r);
      HeadRated(q);
      HasRating(q, x);
      HasRating(r, y);
      assert x == y;
      assert RatedAt(r, x)[0] == r[0] && RatedAt(q, x)[0] == q[0];
      assert r[0] == q[0];
      forall z
        ensures RatedAt(r[1..], z) == RatedAt(q[1..], z)
      {
        var pre := if x == z then [r[0]] else [];
        assert RatedAt(r, z) == pre + RatedAt(r[1..], z);
        assert RatedAt(q, z) == pre + RatedAt(q[1..], z);
        assert RatedAt(r[1..], z) == RatedAt(r, z)[|pre|..];
        assert RatedAt(q[1..], z) == RatedAt(q, z)[|pre|..];
      }
      assert EloDescending(r[1..]) && EloDescending(q[1..]);
      SortedUnique(r[1..], q[1..]);
      assert r == [r[0]] + r[1..] && q == [q[0]] + q[1..];
    }
  }

  /** The first entry of a list is selected by its own rating. */
  lemma HeadRated(s: seq<Entry>)
    ensures s != [] ==> RatedAt(s, s[0].1.elo) != []
  {
  }

  /** If `s` has an entry rated `x`, its first entry is rated at least `x`. */
  lemma {:induction false} HasRating(s: seq<Entry>, x: real)
    requires EloDescending(s) && RatedAt(s, x) != []
    ensures s != [] && s[0].1.elo >= x
  {
    if s != [] && s[0].1.elo != x {
      if s[1..] == [] {
        assert false;
      }
      HasRating(s[1..], x);
      assert s[1..][0] == s[1];
    }
  }

  /** `SortByElo` is the stable descending sort characterised by
      `EloDescending` and `RatedAt`: a list sorted by descending rating whose
      equally rated entries keep their order is exactly the saved order. */
  lemma SortByEloIsStableSort(s: seq<Entry>, q: seq<Entry>)
    requires EloDescending(q) && forall x :: RatedAt(q, x) == RatedAt(s, x)
    ensures q == SortByElo(s)
  {
    forall x ensures RatedAt(q, x) == RatedAt(SortByElo(s), x) {
      SortRatedAt(s, x);
    }
    SortedUnique(q, SortByElo(s));
  }

  /** Inserting an entry whose id is new keeps the ids distinct. */
  lemma {:induction false} InsertDistinct(e: Entry, s: seq<Entry>)
    requires EloDescending(s) && DistinctIds(s)
    requires forall i :: 0 <= i < |s| ==> s[i].0 != e.0
    ensures DistinctIds(InsertByElo(e, s))
  {
    if s != [] && s[0].1.elo >= e.1.elo {
      InsertDistinct(e, s[1..]);
      var rest := InsertByElo(e, s[1..]);
      forall j | 0 <= j < |rest|
        ensures rest[j].0 != s[0].0
      {
        assert rest[j] in multiset(rest);
        if rest[j] != e {
          assert rest[j] in multiset(s[1..]);
          var k :| 0 <= k < |s[1..]| && s[1..][k] == rest[j];
          assert s[k + 1] == rest[j];
        }
      }
    }
  }

  /** Sorting keeps ids distinct. */
  lemma {:induction false} SortDistinct(s: seq<Entry>)
    requires DistinctIds(s)
    ensures DistinctIds(SortByElo(s))
  {
    if s != [] {
      var n := |s| - 1;
      var sorted := SortByElo(s[..n]);
      SortDistinct(s[..n]);
      forall i | 0 <= i < |sorted|
        ensures sorted[i].0 != s[n].0
      {
        assert sorted[i] in multiset(s[..n]);
        var k :| 0 <= k < n && s[..n][k] == sorted[i];
        assert s[k] == sorted[i];
      }
      InsertDistinct(s[n], sorted);
    }
  }

  /** The items of a table carry distinct ids. */
  lemma ItemsDistinct(t: Table)
    requires t.Valid()
    ensures DistinctIds(Items(t))
  {
    var items := Items(t);
    forall i, j | 0 <= i < j < |items| ensures items[i].0 != items[j].0 {
      assert items[i].0 == Ids(items)[i] && items[j].0 == Ids(items)[j];
    }
  }

  /** The snapshot holds exactly the table's items. */
  lemma SnapshotMembers(t: Table)
    requires t.Valid()
    ensures forall e :: e in Snapshot(t) <==> e in Items(t)
  {
    var saved, items := Snapshot(t), Items(t);
    forall e ensures e in saved <==> e in items {
      assert e in saved <==> e in multiset(saved);
      assert e in items <==> e in multiset(items);
    }
  }

  /** Every key of the table comes back from the snapshot with its record. */
  lemma ReloadKeepsRecord(t: Table, k: string)
    requires t.Valid() && k in t.records
    ensures k in Build(Snapshot(t)).records
    ensures Build(Snapshot(t)).records[k] == t.records[k]
  {
    var saved := Snapshot(t);
    ItemsDistinct(t);
    SortDistinct(Items(t));
    SnapshotMembers(t);
    assert (k, t.records[k]) in saved;
    var i :| 0 <= i < |saved| && saved[i] == (k, t.records[k]);
    BuildLastWins(saved, i);
  }

  /** Reloading a snapshot brings back no key the table did not have. */
  lemma ReloadAddsNoKey(t: Table, k: string)
    requires t.Valid() && k in Build(Snapshot(t)).records
    ensures k in t.records
  {
    var saved := Snapshot(t);
    BuildKeys(saved, k);
    SnapshotMembers(t);
    var i :| 0 <= i < |saved| && Ids(saved)[i] == k;
    assert saved[i] in saved;
  }

  /** Saving and then reloading restores every key with its clicks and
      rating; the reloaded table lists the keys in the saved order. */
  lemma ReloadAfterSave(t: Table)
    requires t.Valid()
    ensures Build(Snapshot(t)).records == t.records
    ensures Build(Snapshot(t)).ids == Ids(Snapshot(t))
  {
    ItemsDistinct(t);
    SortDistinct(Items(t));
    BuildDistinct(Snapshot(t));
    var b := Build(Snapshot(t));
    forall k | k in t.records
      ensures k in b.records && b.records[k] == t.records[k]
    {
      ReloadKeepsRecord(t, k);
    }
    forall k | k in b.records
      ensures k in t.records
    {
      ReloadAddsNoKey(t, k);
    }
  }
}
