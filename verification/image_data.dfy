/** The module-level state of app.py, `image_data`, and the three code paths
    that change or read it: startup (the directory listing, then the snapshot
    file if one exists), `record_click`, and the pair drawing of `index`.
    Directory listing, file reading and writing, JSON text and the web routes
    stay outside: the listing and the snapshot arrive as sequences, the
    written snapshot is returned, and the random draws arrive as a sequence
    of index pairs. */
module App {
  import opened Tables
  import opened Elo
  import opened Votes
  import opened Saving

  /** What `record_click` answers: success, after writing `saved` to the
      snapshot file, or the `KeyError` it raised. */
  datatype Reply = Success(saved: seq<Entry>) | Failed(error: VoteError)

  /** What the drawing loop of `index` ends with: two different ids, the
      error `random.choices` raises on an empty table, or, when every draw
      supplied so far picked one id twice, the loop still drawing. */
  datatype Pick = Pair(first: string, second: string) | NoImages | Redrawing

  class ImageData {
    /** The keys of `image_data` in insertion order. */
    var ids: seq<string>
    /** The record of each key. */
    var records: map<string, Record>

    ghost predicate Valid()
      reads this
    {
      Table(ids, records).Valid()
    }

    /** The table as a value. */
    function Current(): Table
      reads this
    {
      Table(ids, records)
    }

    /** Startup: one record with no clicks and rating 1200 for every listed
        name that ends in `.png`. */
    constructor (files: seq<string>)
      ensures Valid()
      ensures Current() == InitialTable(files)
      ensures forall f :: f in records <==> f in files && IsPng(f)
      ensures forall f :: f in records ==> records[f] == Record(0, InitialElo)
    {
      var t := InitialTable(files);
      ids, records := t.ids, t.records;
    }

    /** Loading the snapshot file: the saved list replaces the whole table,
        whatever the directory listing put in it. */
    method Reload(snapshot: seq<Entry>)
      modifies this
      ensures Valid()
      ensures Current() == Build(snapshot)
    {
      var t := Build(snapshot);
      BuildValid(snapshot);
      ids, records := t.ids, t.records;
    }

    /** `record_click(winner, loser)`: count the winner's click, update both
        ratings, and on success return the snapshot written to the file. */
    method RecordClick(winner: string, loser: string, pow10: Pow10) returns (reply: Reply)
      requires Valid()
      modifies this
      ensures Valid() && ids == old(ids)
      ensures records == Vote(old(records), winner, loser, pow10).records
      ensures reply.Failed? <==> Vote(old(records), winner, loser, pow10).failure.Some?
      ensures reply.Failed? ==> Some(reply.error) == Vote(old(records), winner, loser, pow10).failure
      ensures reply.Success? ==> reply.saved == Snapshot(Current())
    {
      ghost var before := records;
      if winner !in records {
        return Failed(UnknownImage(winner));
      }
      records := records[winner := records[winner].(clicks := records[winner].clicks + 1)];
      if loser !in records {
        SameKeysValid(Table(ids, before), records);
        return Failed(UnknownImage(loser));
      }
      var winnerRating := records[winner].elo;
      var loserRating := records[loser].elo;
      var (newWinnerRating, newLoserRating) := Rated(winnerRating, loserRating, pow10);
      records := records[winner := records[winner].(elo := newWinnerRating)];
      records := records[loser := records[loser].(elo := newLoserRating)];
      VoteSteps(before, winner, loser, pow10);
      SameKeysValid(Table(ids, before), records);
      reply := Success(Snapshot(Current()));
    }

    /** The drawing loop of `index`: draw two ids, and draw again while both
        are the same. `draws` are the positions in the key list that
        successive calls of `random.choices` return. */
    method NextPair(draws: seq<(nat, nat)>) returns (pick: Pick)
      requires Valid()
      requires forall k :: 0 <= k < |draws| ==> draws[k].0 < |ids| && draws[k].1 < |ids|
      requires ids != [] ==> draws != []
      ensures pick.NoImages? <==> ids == []
      ensures pick.Pair? ==> pick.first != pick.second && pick.first in records && pick.second in records
      ensures pick.Pair? ==> exists k :: 0 <= k < |draws| && pick == Pair(ids[draws[k].0], ids[draws[k].1])
                                         && forall j :: 0 <= j < k ==> draws[j].0 == draws[j].1
      ensures pick.Redrawing? <==> ids != [] && forall k :: 0 <= k < |draws| ==> draws[k].0 == draws[k].1
      ensures |ids| == 1 ==> pick.Redrawing?
    {
      if ids == [] {
        return NoImages;
      }
      var images := draws[0];
      var attempt := 1;
      while ids[images.0] == ids[images.1] && attempt < |draws|
        invariant 1 <= attempt <= |draws|
        invariant images == draws[attempt - 1]
        invariant forall j :: 0 <= j < attempt - 1 ==> draws[j].0 == draws[j].1
      {
        images := draws[attempt];
        attempt := attempt + 1;
      }
      if ids[images.0] == ids[images.1] {
        return Redrawing;
      }
      return Pair(ids[images.0], ids[images.1]);
    }
  }

  /** The two paths of startup: the table the directory listing gives, then,
      when a snapshot file exists, the table it gives instead. */
  method Startup(files: seq<string>, snapshot: Option<seq<Entry>>) returns (data: ImageData)
    ensures fresh(data) && data.Valid()
    ensures snapshot.None? ==> data.Current() == InitialTable(files)
    ensures snapshot.Some? ==> data.Current() == Build(snapshot.value)
  {
    data := new ImageData(files);
    if snapshot.Some? {
      data.Reload(snapshot.value);
    }
  }
}
