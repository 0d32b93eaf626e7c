/** The in-memory table `image_data`: one record of clicks and rating per image
    id, kept in insertion order as a Python dict is. This module builds tables
    the way the two dict comprehensions of app.py do: from the directory
    listing at startup, and from a saved snapshot. */
module Tables {

  datatype Option<T> = None | Some(value: T)

  /** The record `{clicks, elo}` kept for one image. */
  datatype Record = Record(clicks: nat, elo: real)

  /** One `(id, record)` pair, as `image_data.items()` yields it and as a
      snapshot stores it. */
  type Entry = (string, Record)

  /** The rating every newly listed image starts with. */
  const InitialElo: real := 1200.0

  /** An insertion-ordered dictionary: `ids` lists the keys in the order a
      Python dict iterates them, `records` gives the value of each key. */
  datatype Table = Table(ids: seq<string>, records: map<string, Record>)
  {
    ghost predicate Valid()
    {
      && (forall i, j :: 0 <= i < j < |ids| ==> ids[i] != ids[j])
      && (forall k :: k in records <==> k in ids)
    }
  }

  /** `d[id] = rec` on a dict: an existing key keeps its place and takes the
      new value, a new key goes to the end. */
  function Put(t: Table, id: string, rec: Record): (r: Table)
  {
    if id in t.records then Table(t.ids, t.records[id := rec])
    else Table(t.ids + [id], t.records[id := rec])
  }

  /** One dict assignment keeps the table well formed, makes `id` a key with
      value `rec`, and leaves every other key and value where it was. */
  lemma PutValid(t: Table, id: string, rec: Record)
    requires t.Valid()
    ensures Put(t, id, rec).Valid()
    ensures Put(t, id, rec).records.Keys == t.records.Keys + {id}
    ensures Put(t, id, rec).records[id] == rec
    ensures forall k :: k in t.records && k != id ==> Put(t, id, rec).records[k] == t.records[k]
  {
    if id !in t.records {
      assert id !in t.ids;
    }
  }

  /** Changing values without adding or removing keys keeps a table well
      formed. */
  lemma SameKeysValid(t: Table, recs: map<string, Record>)
    requires t.Valid() && recs.Keys == t.records.Keys
    ensures Table(t.ids, recs).Valid()
  {
    assert forall k :: k in recs <==> k in t.records;
  }

  /** Entry `i` is the last one in `entries` that carries its id. */
  ghost predicate LastFor(entries: seq<Entry>, i: int)
    requires 0 <= i < |entries|
  {
    forall j :: i < j < |entries| ==> entries[j].0 != entries[i].0
  }

  /** The ids of `entries`, in order, repetitions included. */
  function Ids(entries: seq<Entry>): (r: seq<string>)
    ensures |r| == |entries|
    ensures forall i :: 0 <= i < |entries| ==> r[i] == entries[i].0
  {
    seq(|entries|, i requires 0 <= i < |entries| => entries[i].0)
  }

  /** The dict comprehension `{id: rec for id, rec in entries}`, as a
      sequence of dict assignments from the first entry to the last. */
  function Build(entries: seq<Entry>): (t: Table)
    decreases |entries|
  {
    if entries == [] then Table([], map[])
    else
      var n := |entries| - 1;
      Put(Build(entries[..n]), entries[n].0, entries[n].1)
  }

  /** The built table is well formed: no key twice, and the key list and the
      map agree. */
  lemma {:induction false} BuildValid(entries: seq<Entry>)
    ensures Build(entries).Valid()
  {
    if entries != [] {
      var n := |entries| - 1;
      BuildValid(entries[..n]);
      PutValid(Build(entries[..n]), entries[n].0, entries[n].1);
    }
  }

  /** The keys of a built table are exactly the ids in the list. */
  lemma {:induction false} BuildKeys(entries: seq<Entry>, k: string)
    ensures k in Build(entries).records <==> k in Ids(entries)
  {
    if entries != [] {
      var n := |entries| - 1;
      BuildKeys(entries[..n], k);
      assert Ids(entries) == Ids(entries[..n]) + [entries[n].0];
    }
  }

  /** When an id repeats, the later entry wins: each key carries the record
      of the last entry with that id. */
  lemma {:induction false} BuildLastWins(entries: seq<Entry>, i: nat)
    requires i < |entries| && LastFor(entries, i)
    ensures entries[i].0 in Build(entries).records
    ensures Build(entries).records[entries[i].0] == entries[i].1
  {
    var n := |entries| - 1;
    var prefix := entries[..n];
    assert Build(entries) == Put(Build(prefix), entries[n].0, entries[n].1);
    if i < n {
      assert prefix[i] == entries[i];
      assert entries[n].0 != entries[i].0;
      assert LastFor(prefix, i);
      BuildLastWins(prefix, i);
    }
  }

  /** A list whose ids are all different builds a table whose keys are those
      ids in the list's order. */
  lemma {:induction false} BuildDistinct(entries: seq<Entry>)
    requires forall i, j :: 0 <= i < j < |entries| ==> entries[i].0 != entries[j].0
    ensures Build(entries).ids == Ids(entries)
  {
    if entries != [] {
      var n := |entries| - 1;
      var prefix := entries[..n];
      var x := entries[n].0;
      assert Build(entries) == Put(Build(prefix), x, entries[n].1);
      BuildDistinct(prefix);
      assert Ids(entries) == Ids(prefix) + [x];
      assert x !in Ids(prefix);
      BuildKeys(prefix, x);
      assert x !in Build(prefix).records;
    }
  }

  /** With repeated ids each key still sits where the id first appears: when
      one key precedes another in the table, the first has already occurred
      in the list wherever the second occurs. */
  lemma {:induction false} BuildOrder(entries: seq<Entry>)
    ensures forall a, b, j ::
              (0 <= a < b < |Build(entries).ids| && 0 <= j < |entries| && entries[j].0 == Build(entries).ids[b])
              ==> Build(entries).ids[a] in Ids(entries[..j])
  {
    if entries != [] {
      var n := |entries| - 1;
      var prefix := entries[..n];
      var before := Build(prefix);
      var t := Build(entries);
      assert t == Put(before, entries[n].0, entries[n].1);
      BuildOrder(prefix);
      forall a, b, j | 0 <= a < b < |t.ids| && 0 <= j < |entries| && entries[j].0 == t.ids[b]
        ensures t.ids[a] in Ids(entries[..j])
      {
        assert t.ids[a] == before.ids[a];
        BuildValid(prefix);
        BuildKeys(prefix, t.ids[a]);
        if j < n {
          assert prefix[j] == entries[j] && prefix[..j] == entries[..j];
          assert b < |before.ids| by {
            assert Ids(prefix)[j] == entries[j].0;
            BuildKeys(prefix, entries[j].0);
          }
        } else {
          assert entries[..j] == prefix;
        }
      }
    }
  }

  /** The filter `fnmatch(name, "*.png")`, taken case-sensitively: the name
      ends in `.png`. */
  predicate IsPng(name: string)
  {
    |name| >= 4 && name[|name| - 4..] == ".png"
  }

  /** The listed names that pass the filter, in listing order. */
  function PngFiles(files: seq<string>): (r: seq<string>)
    ensures forall f :: f in r <==> f in files && IsPng(f)
  {
    if files == [] then []
    else (if IsPng(files[0]) then [files[0]] else []) + PngFiles(files[1..])
  }

  /** The filter works name by name: filtering two listings one after the
      other gives the two filtered lists one after the other, so the kept
      names keep their listing order. */
  lemma {:induction false} PngFilesAppend(a: seq<string>, b: seq<string>)
    ensures PngFiles(a + b) == PngFiles(a) + PngFiles(b)
  {
    if a != [] {
      assert (a + b)[0] == a[0] && (a + b)[1..] == a[1..] + b;
      PngFilesAppend(a[1..], b);
    } else {
      assert a + b == b;
    }
  }

  /** The startup table `{image: {clicks: 0, elo: 1200} for image in files if
      fnmatch(image, "*.png")}`: the keys are exactly the listed names that
      pass the filter, and each starts with no clicks and the initial rating. */
  function InitialTable(files: seq<string>): (t: Table)
    ensures t.Valid()
    ensures forall f :: f in t.records <==> f in files && IsPng(f)
    ensures forall f :: f in t.records ==> t.records[f] == Record(0, InitialElo)
  {
    var entries := PngEntries(files);
    var t := Build(entries);
    BuildValid(entries);
    assert forall f :: f in t.records <==> f in files && IsPng(f) by {
      forall f
        ensures f in t.records <==> f in files && IsPng(f)
      {
        BuildKeys(entries, f);
      }
    }
    assert forall f :: f in t.records ==> t.records[f] == Record(0, InitialElo) by {
      forall f | f in t.records
        ensures t.records[f] == Record(0, InitialElo)
      {
        BuildKeys(entries, f);
        BuildLastWins(entries, LastIndex(entries, f));
      }
    }
    t
  }

  /** The entries the startup comprehension assigns, one per listed name
      that passes the filter. */
  function PngEntries(files: seq<string>): (entries: seq<Entry>)
    ensures Ids(entries) == PngFiles(files)
    ensures forall i :: 0 <= i < |entries| ==> entries[i].1 == Record(0, InitialElo)
  {
    var png := PngFiles(files);
    seq(|png|, i requires 0 <= i < |png| => (png[i], Record(0, InitialElo)))
  }

  /** A directory listing names each file once; the startup table then keeps
      the listing order of the names that pass the filter. */
  lemma {:induction false} InitialOrder(files: seq<string>)
    requires forall i, j :: 0 <= i < j < |files| ==> files[i] != files[j]
    ensures InitialTable(files).ids == PngFiles(files)
  {
    PngFilesDistinct(files);
    BuildDistinct(PngEntries(files));
  }

  /** Filtering a list without repetitions leaves one without repetitions. */
  lemma {:induction false} PngFilesDistinct(files: seq<string>)
    requires forall i, j :: 0 <= i < j < |files| ==> files[i] != files[j]
    ensures forall i, j :: 0 <= i < j < |PngFiles(files)| ==> PngFiles(files)[i] != PngFiles(files)[j]
  {
    if files != [] {
      PngFilesDistinct(files[1..]);
      assert files[0] !in files[1..];
    }
  }

  /** The position of the last entry that carries id `k`. */
  function LastIndex(entries: seq<Entry>, k: string): (i: nat)
    requires k in Ids(entries)
    ensures i < |entries| && entries[i].0 == k && LastFor(entries, i)
  {
    var n := |entries| - 1;
    if entries[n].0 == k then n
    else
      assert Ids(entries) == Ids(entries[..n]) + [entries[n].0];
      LastIndex(entries[..n], k)
  }
}
