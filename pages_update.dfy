/**
 * The first revision of the poll builder (`buildJson` of pages/api/update.js):
 * take the snapshot with the latest week overall, find the requested poll in
 * it, and shape its first 25 rows.
 */
module PagesUpdate {
  import opened Snapshots

  /** One row of the published document. */
  datatype Team = Team(rk: Option<int>, team: Option<string>, rec: string, conf: string)

  /** The published poll document; `lastUpdated` is the caller's clock reading. */
  datatype PollDocument = PollDocument(
    poll: string,
    season: Option<int>,
    week: Option<int>,
    lastUpdated: string,
    teams: seq<Team>)

  /** `{rk: r.rank, team: r.school, rec: r.record || '', conf: r.conference || ''}` */
  function ShapeRow(r: RankRow): (t: Team)
    ensures t.rk == r.rank && t.team == r.school
    ensures r.record.Some? ==> t.rec == r.record.value
    ensures r.record.None? ==> t.rec == ""
    ensures r.conference.Some? ==> t.conf == r.conference.value
    ensures r.conference.None? ==> t.conf == ""
  {
    Team(r.rank, r.school, r.record.GetOr(""), r.conference.GetOr(""))
  }

  /** `ranks.slice(0, 25).map(shape)`: the first rows, in order, one team per row. */
  function ShapeTeams(ranks: seq<RankRow>): (teams: seq<Team>)
    ensures |teams| == Min(MaxTeams, |ranks|)
    ensures forall i :: 0 <= i < |teams| ==>
      && teams[i].rk == ranks[i].rank
      && teams[i].team == ranks[i].school
      && teams[i].rec == (if ranks[i].record.Some? then ranks[i].record.value else "")
      && teams[i].conf == (if ranks[i].conference.Some? then ranks[i].conference.value else "")
  {
    var kept := FirstRows(ranks);
    seq(|kept|, i requires 0 <= i < |kept| => ShapeRow(kept[i]))
  }

  /**
   * `buildJson(arr, pollLabel)`; `arr` is `None` when the payload is not an
   * array. Returns `None` where the source returns null.
   */
  function BuildJson(arr: Option<seq<Snapshot>>, pollLabel: string, now: string): (r: Option<PollDocument>)
    ensures arr.None? || arr.value == [] ==> r.None?
    ensures r.Some? ==> r.value.poll == pollLabel && r.value.lastUpdated == now
    ensures r.Some? ==> |r.value.teams| <= MaxTeams
  {
    if arr.None? || |arr.value| == 0 then None
    else
      var latest := arr.value[LatestIndex(arr.value)];
      if latest.polls.None? then None
      else
        match FirstMatch(pollLabel, latest.polls.value)
        case None => None
        case Some(k) =>
          Some(PollDocument(pollLabel, latest.season, latest.week, now,
                            ShapeTeams(RanksOf(latest.polls.value[k]))))
  }

  /**
   * What `buildJson` returns, in terms of any latest snapshot `arr[i]`: a
   * document exactly when that snapshot has a poll matching the label, built
   * from the first such poll and carrying that snapshot's season and week.
   */
  lemma BuildJsonFromLatest(arr: seq<Snapshot>, i: nat, pollLabel: string, now: string)
    requires IsLatest(arr, i)
    ensures var r := BuildJson(Some(arr), pollLabel, now);
      && (r.Some? <==> arr[i].polls.Some? && HasMatch(pollLabel, arr[i].polls.value))
      && (r.Some? ==>
            && r.value.season == arr[i].season
            && r.value.week == arr[i].week
            && r.value.teams == ShapeTeams(RanksOf(arr[i].polls.value[FirstMatch(pollLabel, arr[i].polls.value).value])))
  {
    LatestUnique(arr, i, LatestIndex(arr));
  }

  /** Earlier weeks are never consulted: only the latest snapshot decides the result. */
  lemma OnlyLatestSnapshotMatters(arr: seq<Snapshot>, i: nat, pollLabel: string, now: string)
    requires IsLatest(arr, i)
    ensures BuildJson(Some(arr), pollLabel, now) == BuildJson(Some([arr[i]]), pollLabel, now)
  {
    LatestUnique(arr, i, LatestIndex(arr));
    assert LatestIndex([arr[i]]) == 0;
  }

  /** A latest snapshot without the poll yields no document, whatever earlier weeks hold. */
  lemma NullWhenLatestLacksPoll(arr: seq<Snapshot>, i: nat, pollLabel: string, now: string)
    requires IsLatest(arr, i)
    requires arr[i].polls.None? || !HasMatch(pollLabel, arr[i].polls.value)
    ensures BuildJson(Some(arr), pollLabel, now).None?
  {
    BuildJsonFromLatest(arr, i, pollLabel, now);
  }

  /** A matched poll without `ranks` gives a document with no teams. */
  lemma MissingRanksGiveNoTeams(arr: seq<Snapshot>, i: nat, pollLabel: string, now: string)
    requires IsLatest(arr, i) && arr[i].polls.Some? && HasMatch(pollLabel, arr[i].polls.value)
    requires arr[i].polls.value[FirstMatch(pollLabel, arr[i].polls.value).value].ranks.None?
    ensures BuildJson(Some(arr), pollLabel, now).Some?
    ensures BuildJson(Some(arr), pollLabel, now).value.teams == []
  {
    BuildJsonFromLatest(arr, i, pollLabel, now);
  }
}
