/** What one call of `record_click(winner, loser)` does to the records, as a
    function of the records before it. The steps run in the order app.py
    runs them: the winner's click count is raised first, then both ratings are
    read, and the two new ratings are stored, the loser's last. A missing id
    raises `KeyError` at the step that reads it, so a missing loser is
    reported after the winner's click has already been counted. */
module Votes {
  import opened Tables
  import opened Elo

  /** The failure `record_click` raises: a `KeyError` for an id that is not a
      key of the table. */
  datatype VoteError = UnknownImage(id: string)

  /** The records after a vote, and the error it raised if any. */
  datatype Tally = Tally(records: map<string, Record>, failure: Option<VoteError>)

  /** `record_click(winner, loser)` on the records `recs`. */
  function Vote(recs: map<string, Record>, winner: string, loser: string, pow10: Pow10): (v: Tally)
    ensures v.records.Keys == recs.Keys
    ensures v.failure.Some? <==> winner !in recs || loser !in recs
    ensures winner !in recs ==> v == Tally(recs, Some(UnknownImage(winner)))
    ensures winner in recs && loser !in recs ==> v.failure == Some(UnknownImage(loser))
    ensures winner in recs ==> v.records[winner].clicks == recs[winner].clicks + 1
    ensures forall k :: k in recs && k != winner ==> v.records[k].clicks == recs[k].clicks
    ensures forall k :: k in recs && k != winner && k != loser ==> v.records[k] == recs[k]
    ensures winner in recs && loser !in recs ==> v.records[winner].elo == recs[winner].elo
    // two different known images: the winner's rating rises, the loser's
    // falls, by the same amount, less than K; from equal ratings by K / 2
    ensures v.failure.None? && winner != loser ==>
      && recs[winner].elo < v.records[winner].elo < recs[winner].elo + K
      && recs[loser].elo - K < v.records[loser].elo < recs[loser].elo
      && v.records[winner].elo - recs[winner].elo == recs[loser].elo - v.records[loser].elo
    // the new ratings are exactly the pairwise update of the two old ones
    ensures v.failure.None? ==> v.records[loser].elo == Rated(recs[winner].elo, recs[loser].elo, pow10).1
    ensures v.failure.None? && winner != loser ==>
      v.records[winner].elo == Rated(recs[winner].elo, recs[loser].elo, pow10).0
    ensures v.failure.None? && winner != loser && recs[winner].elo == recs[loser].elo ==>
      v.records[winner].elo == recs[winner].elo + 16.0 && v.records[loser].elo == recs[loser].elo - 16.0
    // nothing guards against an image voting for itself: the click is
    // counted and the loser's assignment, made last, leaves the rating 16 lower
    ensures v.failure.None? && winner == loser ==>
      v.records[winner] == Record(recs[winner].clicks + 1, recs[winner].elo - 16.0)
  {
    if winner !in recs then Tally(recs, Some(UnknownImage(winner)))
    else
      var counted := recs[winner := recs[winner].(clicks := recs[winner].clicks + 1)];
      if loser !in counted then Tally(counted, Some(UnknownImage(loser)))
      else
        var (newWinner, newLoser) := Rated(counted[winner].elo, counted[loser].elo, pow10);
        var rated := counted[winner := counted[winner].(elo := newWinner)];
        Tally(rated[loser := rated[loser].(elo := newLoser)], None)
  }

  /** The vote as the three dict updates `record_click` makes when both ids
      are known: count the click, store the winner's rating, then the
      loser's. */
  lemma VoteSteps(recs: map<string, Record>, winner: string, loser: string, pow10: Pow10)
    requires winner in recs && loser in recs
    ensures var counted := recs[winner := recs[winner].(clicks := recs[winner].clicks + 1)];
            var (newWinner, newLoser) := Rated(recs[winner].elo, recs[loser].elo, pow10);
            var rated := counted[winner := counted[winner].(elo := newWinner)];
            Vote(recs, winner, loser, pow10) == Tally(rated[loser := rated[loser].(elo := newLoser)], None)
  {
  }

  /** The sum of the ratings of the images listed in `ids`. */
  function EloTotal(ids: seq<string>, recs: map<string, Record>): (total: real)
    requires forall i :: 0 <= i < |ids| ==> ids[i] in recs
  {
    if ids == [] then 0.0 else recs[ids[0]].elo + EloTotal(ids[1..], recs)
  }

  /** Changing the rating of one image listed once changes the total by the
      same amount. */
  lemma {:induction false} EloTotalUpdate(ids: seq<string>, recs: map<string, Record>, k: string, r: Record)
    requires forall i :: 0 <= i < |ids| ==> ids[i] in recs
    requires forall i, j :: 0 <= i < j < |ids| ==> ids[i] != ids[j]
    requires k in recs
    ensures EloTotal(ids, recs[k := r]) == EloTotal(ids, recs) + (if k in ids then r.elo - recs[k].elo else 0.0)
  {
    if ids != [] {
      EloTotalUpdate(ids[1..], recs, k, r);
      if ids[0] == k {
        assert k !in ids[1..];
      }
    }
  }

  /** Raising one listed image's rating and lowering another's by the same
      amount leaves the total unchanged, whatever else the records change. */
  lemma TransferKeepsEloTotal(ids: seq<string>, recs: map<string, Record>, winner: string, loser: string,
                              counted: Record, newWinner: real, newLoser: real)
    requires forall i :: 0 <= i < |ids| ==> ids[i] in recs
    requires forall i, j :: 0 <= i < j < |ids| ==> ids[i] != ids[j]
    requires winner in ids && loser in ids && winner != loser
    requires counted.elo == recs[winner].elo
    requires newWinner - recs[winner].elo == recs[loser].elo - newLoser
    ensures EloTotal(ids, recs[winner := counted.(elo := newWinner)][loser := recs[loser].(elo := newLoser)])
            == EloTotal(ids, recs)
  {
    var rated := recs[winner := counted.(elo := newWinner)];
    EloTotalUpdate(ids, recs, winner, rated[winner]);
    EloTotalUpdate(ids, rated, loser, rated[loser].(elo := newLoser));
  }

  /** The update is zero-sum over the whole table: a vote between two
      different images leaves the total of all ratings unchanged. */
  lemma VoteKeepsEloTotal(t: Table, winner: string, loser: string, pow10: Pow10)
    requires t.Valid() && winner in t.records && loser in t.records && winner != loser
    ensures EloTotal(t.ids, Vote(t.records, winner, loser, pow10).records) == EloTotal(t.ids, t.records)
  {
    var recs := t.records;
    var counted := recs[winner := recs[winner].(clicks := recs[winner].clicks + 1)];
    var (newWinner, newLoser) := Rated(recs[winner].elo, recs[loser].elo, pow10);
    assert Vote(recs, winner, loser, pow10).records
        == recs[winner := counted[winner].(elo := newWinner)][loser := recs[loser].(elo := newLoser)];
    TransferKeepsEloTotal(t.ids, recs, winner, loser, counted[winner], newWinner, newLoser);
  }

  /** The records after a run of votes, each applied to the records the
      previous one left, whether or not it raised. */
  function Replay(recs: map<string, Record>, votes: seq<(string, string)>, pow10: Pow10): (after: map<string, Record>)
  {
    if votes == [] then recs
    else Replay(Vote(recs, votes[0].0, votes[0].1, pow10).records, votes[1..], pow10)
  }

  /** Over any run of votes no image is added or removed, and no click count
      ever goes down. */
  lemma {:induction false} ReplayMonotone(recs: map<string, Record>, votes: seq<(string, string)>, pow10: Pow10)
    ensures Replay(recs, votes, pow10).Keys == recs.Keys
    ensures forall k :: k in recs ==> Replay(recs, votes, pow10)[k].clicks >= recs[k].clicks
  {
    if votes != [] {
      ReplayMonotone(Vote(recs, votes[0].0, votes[0].1, pow10).records, votes[1..], pow10);
    }
  }
}
