/**
 * How the two revisions of the poll builder relate. The first takes the
 * latest week overall and gives up if that week lacks the poll; the second
 * takes the latest week among those that have the poll, and adds colors.
 */
module Revisions {
  import opened Snapshots
  import PagesUpdate
  import ApiUpdate

  /** A colored row without its color. */
  function StripColor(t: ApiUpdate.ColoredTeam): PagesUpdate.Team {
    PagesUpdate.Team(t.rk, t.team, t.rec, t.conf)
  }

  function StripColors(ts: seq<ApiUpdate.ColoredTeam>): (r: seq<PagesUpdate.Team>)
    ensures |r| == |ts| && forall i :: 0 <= i < |ts| ==> r[i] == StripColor(ts[i])
  {
    seq(|ts|, i requires 0 <= i < |ts| => StripColor(ts[i]))
  }

  /** Both revisions shape the same rows the same way; the second only adds a color. */
  lemma SameRowShape(colorMap: map<string, string>, ranks: seq<RankRow>)
    ensures StripColors(ApiUpdate.ShapeColoredTeams(colorMap, ranks)) == PagesUpdate.ShapeTeams(ranks)
  {
  }

  /**
   * When the overall latest snapshot is itself a candidate, it is also the
   * latest candidate: in the candidate list it is followed only by snapshots
   * of strictly smaller weeks.
   */
  lemma LatestOverallIsLatestCandidate(pollLabel: string, s: seq<Snapshot>, i: nat)
    requires IsLatest(s, i) && ApiUpdate.IsCandidate(pollLabel, s[i])
    ensures var c := ApiUpdate.Candidates(pollLabel, Some(s));
      exists k: nat :: IsLatest(c, k) && c[k] == s[i]
  {
    var a := ApiUpdate.Filter(ApiUpdate.CandidateTest(pollLabel), s[..i]);
    var b := ApiUpdate.Filter(ApiUpdate.CandidateTest(pollLabel), s[i + 1..]);
    var c := ApiUpdate.Candidates(pollLabel, Some(s));
    CandidatesSplitAt(pollLabel, s, i);
    ApiUpdate.FilterMembers(ApiUpdate.CandidateTest(pollLabel), s);
    ApiUpdate.FilterMembers(ApiUpdate.CandidateTest(pollLabel), s[i + 1..]);
    WeeksBounded(c, s, i);
    forall j | |a| < j < |c| ensures WeekOf(c[j]) < WeekOf(s[i]) {
      assert c[j] == b[j - |a| - 1];
      assert c[j] in s[i + 1..];
    }
    assert IsLatest(c, |a|);
  }

  /** The candidate list around a candidate at position `i`. */
  lemma CandidatesSplitAt(pollLabel: string, s: seq<Snapshot>, i: nat)
    requires i < |s| && ApiUpdate.IsCandidate(pollLabel, s[i])
    ensures ApiUpdate.Candidates(pollLabel, Some(s))
      == ApiUpdate.Filter(ApiUpdate.CandidateTest(pollLabel), s[..i]) + [s[i]] + ApiUpdate.Filter(ApiUpdate.CandidateTest(pollLabel), s[i + 1..])
  {
    var keep := ApiUpdate.CandidateTest(pollLabel);
    assert keep(s[i]);
    FilterSplitAt(keep, s, i);
  }

  /** Any filter around a kept element at position `i`. */
  lemma FilterSplitAt<T>(keep: T -> bool, s: seq<T>, i: nat)
    requires i < |s| && keep(s[i])
    ensures ApiUpdate.Filter(keep, s) == ApiUpdate.Filter(keep, s[..i]) + [s[i]] + ApiUpdate.Filter(keep, s[i + 1..])
  {
    assert s == s[..i] + s[i..];
    ApiUpdate.FilterAppend(keep, s[..i], s[i..]);
    FilterKeptHead(keep, s[i..]);
    assert s[i..][1..] == s[i + 1..];
  }

  /** A filter over a list whose first element is kept. */
  lemma FilterKeptHead<T>(keep: T -> bool, t: seq<T>)
    requires t != [] && keep(t[0])
    ensures ApiUpdate.Filter(keep, t) == [t[0]] + ApiUpdate.Filter(keep, t[1..])
  {
  }

  /** Every element of a sub-list has a week no larger than the latest of the whole. */
  lemma WeeksBounded(c: seq<Snapshot>, s: seq<Snapshot>, i: nat)
    requires IsLatest(s, i)
    requires forall x :: x in c ==> x in s
    ensures forall j :: 0 <= j < |c| ==> WeekOf(c[j]) <= WeekOf(s[i])
  {
    forall j | 0 <= j < |c| ensures WeekOf(c[j]) <= WeekOf(s[i]) {
      assert c[j] in c;
    }
  }

  /**
   * Wherever the first revision publishes a non-empty document, the second
   * publishes the same poll, season, week, timestamp and rows, with colors added.
   */
  lemma RevisionsAgreeWhenLatestHasPoll(
    s: seq<Snapshot>, pollLabel: string, colorMap: map<string, string>, now: string)
    requires PagesUpdate.BuildJson(Some(s), pollLabel, now).Some?
    requires PagesUpdate.BuildJson(Some(s), pollLabel, now).value.teams != []
    ensures var d := PagesUpdate.BuildJson(Some(s), pollLabel, now).value;
      var r := ApiUpdate.BuildJson(Some(s), pollLabel, colorMap, now);
      && r.Ok? && r.value.Some?
      && r.value.value.poll == d.poll
      && r.value.value.season == d.season
      && r.value.value.week == d.week
      && r.value.value.lastUpdated == d.lastUpdated
      && StripColors(r.value.value.teams) == d.teams
  {
    var i := LatestIndex(s);
    PagesUpdate.BuildJsonFromLatest(s, i, pollLabel, now);
    LatestOverallIsLatestCandidate(pollLabel, s, i);
    var c := ApiUpdate.Candidates(pollLabel, Some(s));
    var k: nat :| IsLatest(c, k) && c[k] == s[i];
    ApiUpdate.GetLatestFromCandidates(pollLabel, Some(s), k);
    var ranks := RanksOf(s[i].polls.value[FirstMatch(pollLabel, s[i].polls.value).value]);
    SameRowShape(colorMap, ranks);
  }

  /**
   * The difference: when the latest week lacks the poll, the first revision
   * publishes nothing, while the second publishes the season and week of the
   * latest snapshot that has the poll (`c[k]`), as long as its poll has rows.
   */
  lemma SecondRevisionLooksBack(
    s: seq<Snapshot>, i: nat, k: nat, pollLabel: string, colorMap: map<string, string>, now: string)
    requires IsLatest(s, i) && !ApiUpdate.IsCandidate(pollLabel, s[i])
    requires IsLatest(ApiUpdate.Candidates(pollLabel, Some(s)), k)
    ensures PagesUpdate.BuildJson(Some(s), pollLabel, now).None?
    ensures var c := ApiUpdate.Candidates(pollLabel, Some(s));
      && ApiUpdate.IsCandidate(pollLabel, c[k])
      && (RanksOf(c[k].polls.value[FirstMatch(pollLabel, c[k].polls.value).value]) != [] ==>
            var r := ApiUpdate.BuildJson(Some(s), pollLabel, colorMap, now);
            && r.Ok? && r.value.Some?
            && r.value.value.season == c[k].season
            && r.value.value.week == c[k].week)
  {
    PagesUpdate.NullWhenLatestLacksPoll(s, i, pollLabel, now);
    ApiUpdate.BuildJsonFromLatestCandidate(Some(s), k, pollLabel, colorMap, now);
  }

  // ---------------------------------------------------------------------
  // Concrete payloads
  // ---------------------------------------------------------------------

  const GeorgiaRow := RankRow(Some(1), Some("Georgia"), Some("10-2"), Some("SEC"))

  const ApTop25 := Poll(Some("AP Top 25"), Some([GeorgiaRow]))

  lemma ApTop25Matches()
    ensures Matches("AP", ApTop25)
  {
    PrefixMatches("AP", "AP Top 25", Some([GeorgiaRow]));
  }

  /** Weeks 5 and 7 both with an AP poll: both revisions choose week 7. */
  lemma Week7BeatsWeek5(colorMap: map<string, string>, now: string)
    ensures var s := [Snapshot(Some(2024), Some(5), Some([ApTop25])), Snapshot(Some(2024), Some(7), Some([ApTop25]))];
      && PagesUpdate.BuildJson(Some(s), "AP", now).Some?
      && PagesUpdate.BuildJson(Some(s), "AP", now).value.week == Some(7)
      && ApiUpdate.BuildJson(Some(s), "AP", colorMap, now).Ok?
      && ApiUpdate.BuildJson(Some(s), "AP", colorMap, now).value.Some?
      && ApiUpdate.BuildJson(Some(s), "AP", colorMap, now).value.value.week == Some(7)
  {
    var s := [Snapshot(Some(2024), Some(5), Some([ApTop25])), Snapshot(Some(2024), Some(7), Some([ApTop25]))];
    ApTop25Matches();
    assert IsLatest(s, 1);
    PagesUpdate.BuildJsonFromLatest(s, 1, "AP", now);
    assert Matches("AP", s[1].polls.value[0]);
    RevisionsAgreeWhenLatestHasPoll(s, "AP", colorMap, now);
  }

  /** Week 1 has the AP poll, week 2 has no polls yet: only the second revision publishes week 1. */
  lemma EarlierWeekExample(colorMap: map<string, string>, now: string)
    ensures var s := [Snapshot(Some(2024), Some(1), Some([ApTop25])), Snapshot(Some(2024), Some(2), None)];
      && PagesUpdate.BuildJson(Some(s), "AP", now).None?
      && ApiUpdate.BuildJson(Some(s), "AP", colorMap, now).Ok?
      && ApiUpdate.BuildJson(Some(s), "AP", colorMap, now).value.Some?
      && ApiUpdate.BuildJson(Some(s), "AP", colorMap, now).value.value.week == Some(1)
  {
    var week1, week2 := Snapshot(Some(2024), Some(1), Some([ApTop25])), Snapshot(Some(2024), Some(2), None);
    var s := [week1, week2];
    ApTop25Matches();
    assert ApiUpdate.IsCandidate("AP", week1) by {
      assert Matches("AP", week1.polls.value[0]);
    }
    assert IsLatest(s, 1);
    PagesUpdate.NullWhenLatestLacksPoll(s, 1, "AP", now);
    var keep := ApiUpdate.CandidateTest("AP");
    assert s == [week1] + [week2];
    ApiUpdate.FilterAppend(keep, [week1], [week2]);
    ApiUpdate.FilterSingle(keep, week1);
    ApiUpdate.FilterSingle(keep, week2);
    assert ApiUpdate.Candidates("AP", Some(s)) == [week1];
    ApiUpdate.GetLatestFromCandidates("AP", Some(s), 0);
    assert FirstMatch("AP", [ApTop25]) == Some(0);
  }
}
