/**
 * The second revision of the poll builder (api/update.js): keep only the
 * snapshots that contain the requested poll, take the latest of those, shape
 * its first 25 rows and join each with a team color looked up by a
 * normalised school name.
 */
module ApiUpdate {
  import opened Snapshots

  // ---------------------------------------------------------------------
  // `norm`: the join key of a school name
  // ---------------------------------------------------------------------

  predicate IsKeyChar(c: char) {
    'a' <= c <= 'z' || '0' <= c <= '9'
  }

  /** `.replace(/[^a-z0-9]/g, "")` */
  function KeepKeyChars(s: string): (r: string)
    ensures |r| <= |s|
    ensures forall i :: 0 <= i < |r| ==> IsKeyChar(r[i])
  {
    if s == [] then []
    else (if IsKeyChar(s[0]) then [s[0]] else []) + KeepKeyChars(s[1..])
  }

  /** `(s || "").toLowerCase().replace(/[^a-z0-9]/g, "")` */
  function Norm(s: Option<string>): (key: string)
    ensures forall i :: 0 <= i < |key| ==> IsKeyChar(key[i])
    ensures s.None? || s == Some("") ==> key == ""
  {
    KeepKeyChars(Lower(s.GetOr("")))
  }

  lemma {:induction false} KeepKeyCharsAppend(a: string, b: string)
    ensures KeepKeyChars(a + b) == KeepKeyChars(a) + KeepKeyChars(b)
  {
    if a == [] {
      assert a + b == b;
    } else {
      assert (a + b)[1..] == a[1..] + b;
      KeepKeyCharsAppend(a[1..], b);
    }
  }

  /** A key is its own normal form. */
  lemma {:induction false} KeepKeyCharsOfKey(s: string)
    requires forall i :: 0 <= i < |s| ==> IsKeyChar(s[i])
    ensures KeepKeyChars(s) == s
    ensures Lower(s) == s
  {
    if s != [] {
      KeepKeyCharsOfKey(s[1..]);
    }
  }

  /** `norm(norm(s)) == norm(s)` */
  lemma NormIdempotent(s: Option<string>)
    ensures Norm(Some(Norm(s))) == Norm(s)
  {
    KeepKeyCharsOfKey(Norm(s));
  }

  /** Names that differ only in letter case give the same key. */
  lemma NormIgnoresCase(s: string, t: string)
    requires |s| == |t|
    requires forall i :: 0 <= i < |s| ==> LowerChar(s[i]) == LowerChar(t[i])
    ensures Norm(Some(s)) == Norm(Some(t))
  {
    assert Lower(s) == Lower(t);
  }

  /** Removing a character that is neither a letter nor a digit does not change the key. */
  lemma NormIgnoresPunctuation(a: string, c: char, b: string)
    requires !IsKeyChar(LowerChar(c))
    ensures Norm(Some(a + [c] + b)) == Norm(Some(a + b))
  {
    LowerAppend(a + [c], b);
    LowerAppend(a, [c]);
    LowerAppend(a, b);
    KeepKeyCharsAppend(Lower(a) + Lower([c]), Lower(b));
    KeepKeyCharsAppend(Lower(a), Lower([c]));
    KeepKeyCharsAppend(Lower(a), Lower(b));
  }

  lemma OhioStateKey()
    ensures Norm(Some("ohiostate")) == "ohiostate"
  {
    KeepKeyCharsOfKey("ohiostate");
  }

  lemma HyphenatedOhioStateKey()
    ensures Norm(Some("ohio-state")) == "ohiostate"
  {
    assert "ohio" + ['-'] + "state" == "ohio-state";
    assert "ohio" + "state" == "ohiostate";
    NormIgnoresPunctuation("ohio", '-', "state");
    OhioStateKey();
  }

  lemma SpacedOhioStateKey(name: string)
    requires name == "Ohio State" || name == "OHIO STATE"
    ensures Norm(Some(name)) == "ohiostate"
  {
    var joined := name[..4] + name[5..];
    assert name == name[..4] + [' '] + name[5..];
    NormIgnoresPunctuation(name[..4], ' ', name[5..]);
    NormIgnoresCase(joined, "ohiostate");
    OhioStateKey();
  }

  /** "Ohio State", "ohio-state" and "OHIO STATE" share one join key. */
  lemma OhioStateSpellingsShareKey()
    ensures Norm(Some("Ohio State")) == Norm(Some("ohio-state")) == Norm(Some("OHIO STATE")) == "ohiostate"
  {
    HyphenatedOhioStateKey();
    SpacedOhioStateKey("Ohio State");
    SpacedOhioStateKey("OHIO STATE");
  }

  // ---------------------------------------------------------------------
  // `getLatestPollRanksFor`
  // ---------------------------------------------------------------------

  /** `Array.isArray(wk.polls) && wk.polls.some(matches)` */
  predicate IsCandidate(pollLabel: string, wk: Snapshot): (c: bool)
    ensures c ==> wk.polls.Some? && |wk.polls.value| > 0
  {
    wk.polls.Some? && HasMatch(pollLabel, wk.polls.value)
  }

  /** For a candidate, the later `find` of the poll (api/update.js:18) always finds one. */
  lemma CandidateFindsPoll(pollLabel: string, wk: Snapshot)
    ensures IsCandidate(pollLabel, wk) <==> wk.polls.Some? && FirstMatch(pollLabel, wk.polls.value).Some?
  {
  }

  /** The callback given to `filter`. */
  function CandidateTest(pollLabel: string): Snapshot -> bool {
    wk => IsCandidate(pollLabel, wk)
  }

  /** `s.filter(keep)` */
  function Filter<T>(keep: T -> bool, s: seq<T>): (c: seq<T>)
    ensures |c| <= |s|
  {
    if s == [] then []
    else (if keep(s[0]) then [s[0]] else []) + Filter(keep, s[1..])
  }

  /** `(rankings || []).filter(...)`; `None` stands for a missing payload. */
  function Candidates(pollLabel: string, rankings: Option<seq<Snapshot>>): (c: seq<Snapshot>)
    ensures rankings.None? ==> c == []
    ensures |c| <= |rankings.GetOr([])|
  {
    Filter(CandidateTest(pollLabel), rankings.GetOr([]))
  }

  /** The filter keeps exactly the elements that pass the test. */
  lemma {:induction false} FilterMembers<T>(keep: T -> bool, s: seq<T>)
    ensures forall x :: x in Filter(keep, s) <==> x in s && keep(x)
  {
    if s != [] {
      FilterMembers(keep, s[1..]);
      assert s == [s[0]] + s[1..];
    }
  }

  /** Filtering keeps the original order: it distributes over concatenation. */
  lemma {:induction false} FilterAppend<T>(keep: T -> bool, a: seq<T>, b: seq<T>)
    ensures Filter(keep, a + b) == Filter(keep, a) + Filter(keep, b)
  {
    if a == [] {
      assert a + b == b;
    } else {
      var head := if keep(a[0]) then [a[0]] else [];
      assert (a + b)[0] == a[0] && (a + b)[1..] == a[1..] + b;
      calc {
        Filter(keep, a + b);
        head + Filter(keep, a[1..] + b);
        { FilterAppend(keep, a[1..], b); }
        head + (Filter(keep, a[1..]) + Filter(keep, b));
        (head + Filter(keep, a[1..])) + Filter(keep, b);
        Filter(keep, a) + Filter(keep, b);
      }
    }
  }

  /** ... and on one element it keeps it exactly when it passes the test. */
  lemma FilterSingle<T>(keep: T -> bool, x: T)
    ensures Filter(keep, [x]) == if keep(x) then [x] else []
  {
    assert [x][1..] == [];
  }

  datatype Meta = Meta(season: Option<int>, week: Option<int>)

  /** The two shapes of the source's return value: `[]`, or `{meta, ranks}`. */
  datatype LatestRanks = NoCandidates | Found(meta: Meta, ranks: seq<RankRow>)

  /**
   * `getLatestPollRanksFor(label, rankings)`: the snapshot chosen among the
   * candidates is one of them, has the largest week among them, and supplies
   * the season, week and ranks.
   */
  function GetLatestPollRanksFor(pollLabel: string, rankings: Option<seq<Snapshot>>): (r: LatestRanks)
    ensures r.NoCandidates? <==> Candidates(pollLabel, rankings) == []
    ensures r.Found? ==> exists x :: x in Candidates(pollLabel, rankings) && r.meta == Meta(x.season, x.week)
    ensures r.Found? ==> forall x :: x in Candidates(pollLabel, rankings) ==> WeekOf(x) <= r.meta.week.GetOr(0)
  {
    var candidates := Candidates(pollLabel, rankings);
    FilterMembers(CandidateTest(pollLabel), rankings.GetOr([]));
    if |candidates| == 0 then NoCandidates
    else
      var latest := candidates[LatestIndex(candidates)];
      assert latest in candidates;
      var ranks := match FirstMatch(pollLabel, latest.polls.value)
        case Some(k) => RanksOf(latest.polls.value[k])
        case None => [];
      Found(Meta(latest.season, latest.week), ranks)
  }

  /** Candidates are exactly the snapshots whose `polls` hold a matching poll. */
  lemma CandidatesAreMatchingSnapshots(pollLabel: string, rankings: Option<seq<Snapshot>>)
    ensures forall x :: x in Candidates(pollLabel, rankings) <==>
      rankings.Some? && x in rankings.value && IsCandidate(pollLabel, x)
    ensures Candidates(pollLabel, rankings) == [] <==>
      rankings.None? || forall j :: 0 <= j < |rankings.value| ==> !IsCandidate(pollLabel, rankings.value[j])
  {
    var c := Candidates(pollLabel, rankings);
    FilterMembers(CandidateTest(pollLabel), rankings.GetOr([]));
    if c != [] {
      assert c[0] in c;
    }
    if rankings.Some? {
      assert forall j :: 0 <= j < |rankings.value| ==> rankings.value[j] in rankings.value;
    }
  }

  /**
   * In terms of the whole payload: the chosen snapshot contains the poll and
   * no snapshot containing the poll has a later week.
   */
  lemma LatestAmongAllSnapshots(pollLabel: string, rankings: seq<Snapshot>)
    requires GetLatestPollRanksFor(pollLabel, Some(rankings)).Found?
    ensures var meta := GetLatestPollRanksFor(pollLabel, Some(rankings)).meta;
      && (exists j :: 0 <= j < |rankings| && IsCandidate(pollLabel, rankings[j]) &&
            meta == Meta(rankings[j].season, rankings[j].week))
      && (forall j :: 0 <= j < |rankings| && IsCandidate(pollLabel, rankings[j]) ==>
            WeekOf(rankings[j]) <= meta.week.GetOr(0))
  {
    CandidatesAreMatchingSnapshots(pollLabel, Some(rankings));
    var c := Candidates(pollLabel, Some(rankings));
    var x :| x in c && GetLatestPollRanksFor(pollLabel, Some(rankings)).meta == Meta(x.season, x.week);
    var j :| 0 <= j < |rankings| && rankings[j] == x;
    forall k | 0 <= k < |rankings| && IsCandidate(pollLabel, rankings[k])
      ensures WeekOf(rankings[k]) <= GetLatestPollRanksFor(pollLabel, Some(rankings)).meta.week.GetOr(0)
    {
      assert rankings[k] in c;
    }
  }

  /**
   * Selection in terms of the candidate list: the chosen snapshot is a latest
   * candidate (ties go to the later candidate) and the ranks are those of its
   * first matching poll.
   */
  lemma GetLatestFromCandidates(pollLabel: string, rankings: Option<seq<Snapshot>>, k: nat)
    requires IsLatest(Candidates(pollLabel, rankings), k)
    ensures var c := Candidates(pollLabel, rankings);
      && IsCandidate(pollLabel, c[k])
      && GetLatestPollRanksFor(pollLabel, rankings)
         == Found(Meta(c[k].season, c[k].week),
                  RanksOf(c[k].polls.value[FirstMatch(pollLabel, c[k].polls.value).value]))
  {
    var c := Candidates(pollLabel, rankings);
    FilterMembers(CandidateTest(pollLabel), rankings.GetOr([]));
    assert c[k] in c;
    LatestUnique(c, k, LatestIndex(c));
  }

  // ---------------------------------------------------------------------
  // `buildJson`
  // ---------------------------------------------------------------------

  /** `colorMap.get(norm(school)) || null`: an absent or empty color is null. */
  function ColorFor(colorMap: map<string, string>, school: Option<string>): (color: Option<string>)
    ensures color.Some? <==> Norm(school) in colorMap && colorMap[Norm(school)] != ""
    ensures color.Some? ==> color.value == colorMap[Norm(school)]
  {
    var key := Norm(school);
    if key in colorMap && colorMap[key] != "" then Some(colorMap[key]) else None
  }

  /** Spellings with the same join key get the same color. */
  lemma ColorIgnoresSpelling(colorMap: map<string, string>, a: string, b: string)
    requires Norm(Some(a)) == Norm(Some(b))
    ensures ColorFor(colorMap, Some(a)) == ColorFor(colorMap, Some(b))
  {
  }

  datatype ColoredTeam = ColoredTeam(
    rk: Option<int>,
    team: Option<string>,
    rec: string,
    conf: string,
    color: Option<string>)

  datatype ColoredDocument = ColoredDocument(
    poll: string,
    season: Option<int>,
    week: Option<int>,
    lastUpdated: string,
    teams: seq<ColoredTeam>)

  /** The `map` callback: the row's fields with `""` defaults, and its color. */
  function ShapeColoredRow(colorMap: map<string, string>, r: RankRow): (t: ColoredTeam)
    ensures t.rk == r.rank && t.team == r.school
    ensures r.record.Some? ==> t.rec == r.record.value
    ensures r.record.None? ==> t.rec == ""
    ensures r.conference.Some? ==> t.conf == r.conference.value
    ensures r.conference.None? ==> t.conf == ""
    ensures t.color == ColorFor(colorMap, r.school)
  {
    ColoredTeam(r.rank, r.school, r.record.GetOr(""), r.conference.GetOr(""), ColorFor(colorMap, r.school))
  }

  /** `ranks.slice(0, 25).map(...)` with the color join. */
  function ShapeColoredTeams(colorMap: map<string, string>, ranks: seq<RankRow>): (teams: seq<ColoredTeam>)
    ensures |teams| == Min(MaxTeams, |ranks|)
    ensures forall i :: 0 <= i < |teams| ==>
      && teams[i].rk == ranks[i].rank
      && teams[i].team == ranks[i].school
      && teams[i].rec == (if ranks[i].record.Some? then ranks[i].record.value else "")
      && teams[i].conf == (if ranks[i].conference.Some? then ranks[i].conference.value else "")
      && (teams[i].color.Some? <==> Norm(ranks[i].school) in colorMap && colorMap[Norm(ranks[i].school)] != "")
      && (teams[i].color.Some? ==> teams[i].color.value == colorMap[Norm(ranks[i].school)])
  {
    var kept := FirstRows(ranks);
    seq(|kept|, i requires 0 <= i < |kept| => ShapeColoredRow(colorMap, kept[i]))
  }

  /** What `buildJson` does: it returns a value (`Ok`) or throws. */
  datatype Outcome<T> = Ok(value: T) | Throws(error: string)

  const UndefinedLengthError := "TypeError: Cannot read properties of undefined (reading 'length')"

  /**
   * `buildJson(rankings, label, colorMap)` as written. With no candidate the
   * helper returns `[]`, whose `ranks` is undefined, so `ranks.length` throws.
   */
  function BuildJson(rankings: Option<seq<Snapshot>>, pollLabel: string, colorMap: map<string, string>, now: string)
    : (r: Outcome<Option<ColoredDocument>>)
    ensures r.Throws? <==> GetLatestPollRanksFor(pollLabel, rankings).NoCandidates?
    ensures r.Ok? ==> (r.value.None? <==> GetLatestPollRanksFor(pollLabel, rankings).ranks == [])
    ensures r.Ok? && r.value.Some? ==>
      && r.value.value.poll == pollLabel
      && r.value.value.lastUpdated == now
      && 0 < |r.value.value.teams| <= MaxTeams
    ensures r.Ok? && r.value.Some? ==>
      var f := GetLatestPollRanksFor(pollLabel, rankings);
      && f.Found?
      && r.value.value.season == f.meta.season
      && r.value.value.week == f.meta.week
      && r.value.value.teams == ShapeColoredTeams(colorMap, f.ranks)
  {
    match GetLatestPollRanksFor(pollLabel, rankings)
    case NoCandidates => Throws(UndefinedLengthError)
    case Found(meta, ranks) =>
      if |ranks| == 0 then Ok(None)
      else Ok(Some(ColoredDocument(pollLabel, meta.season, meta.week, now, ShapeColoredTeams(colorMap, ranks))))
  }

  /**
   * What `buildJson` publishes, in terms of a latest candidate `c[k]`: a
   * document exactly when the first matching poll of that snapshot has rows,
   * carrying its season and week and its first 25 rows, colored.
   */
  lemma BuildJsonFromLatestCandidate(
    rankings: Option<seq<Snapshot>>, k: nat, pollLabel: string, colorMap: map<string, string>, now: string)
    requires IsLatest(Candidates(pollLabel, rankings), k)
    ensures var c := Candidates(pollLabel, rankings);
      var r := BuildJson(rankings, pollLabel, colorMap, now);
      && IsCandidate(pollLabel, c[k])
      && var ranks := RanksOf(c[k].polls.value[FirstMatch(pollLabel, c[k].polls.value).value]);
      && r.Ok?
      && (r.value.Some? <==> ranks != [])
      && (r.value.Some? ==>
            && r.value.value.season == c[k].season
            && r.value.value.week == c[k].week
            && r.value.value.teams == ShapeColoredTeams(colorMap, ranks))
  {
    GetLatestFromCandidates(pollLabel, rankings, k);
  }

  /** As written, a payload without the requested poll makes `buildJson` throw. */
  lemma NoCandidatesThrows(rankings: Option<seq<Snapshot>>, pollLabel: string, colorMap: map<string, string>, now: string)
    requires rankings.None? || forall j :: 0 <= j < |rankings.value| ==> !IsCandidate(pollLabel, rankings.value[j])
    ensures BuildJson(rankings, pollLabel, colorMap, now).Throws?
  {
    CandidatesAreMatchingSnapshots(pollLabel, rankings);
  }

  /** The smallest such input: an empty list of snapshots. */
  lemma EmptyPayloadThrows(pollLabel: string, colorMap: map<string, string>, now: string)
    ensures BuildJson(Some([]), pollLabel, colorMap, now) == Throws(UndefinedLengthError)
  {
  }

  /** `buildJson` with the missing guard: no candidate means no document. */
  function BuildJsonFixed(rankings: Option<seq<Snapshot>>, pollLabel: string, colorMap: map<string, string>, now: string)
    : (r: Option<ColoredDocument>)
    ensures rankings.None? || (forall j :: 0 <= j < |rankings.value| ==> !IsCandidate(pollLabel, rankings.value[j]))
      ==> r.None?
    ensures r.Some? ==> r.value.poll == pollLabel && r.value.lastUpdated == now
    ensures r.Some? ==> 0 < |r.value.teams| <= MaxTeams
    ensures r.Some? ==>
      var f := GetLatestPollRanksFor(pollLabel, rankings);
      && f.Found?
      && r.value.season == f.meta.season
      && r.value.week == f.meta.week
      && r.value.teams == ShapeColoredTeams(colorMap, f.ranks)
  {
    CandidatesAreMatchingSnapshots(pollLabel, rankings);
    match GetLatestPollRanksFor(pollLabel, rankings)
    case NoCandidates => None
    case Found(meta, ranks) =>
      if |ranks| == 0 then None
      else Some(ColoredDocument(pollLabel, meta.season, meta.week, now, ShapeColoredTeams(colorMap, ranks)))
  }

  /** The corrected builder agrees with the original wherever the original returns. */
  lemma FixedAgreesWhenNoThrow(rankings: Option<seq<Snapshot>>, pollLabel: string, colorMap: map<string, string>, now: string)
    ensures BuildJson(rankings, pollLabel, colorMap, now).Ok? ==>
      BuildJson(rankings, pollLabel, colorMap, now).value == BuildJsonFixed(rankings, pollLabel, colorMap, now)
    ensures BuildJson(rankings, pollLabel, colorMap, now).Throws? ==>
      BuildJsonFixed(rankings, pollLabel, colorMap, now).None?
  {
  }
}
