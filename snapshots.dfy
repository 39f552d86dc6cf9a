/**
 * The ranking payload of the sports-data service, as both revisions of the
 * poll builder read it, and the selection steps they share: the loose
 * case-insensitive poll-name match, the `find` of the first matching poll,
 * the `reduce` that picks the latest week and the 25-row cap.
 *
 * Every field of the JSON may be absent; an absent field is `None`.
 */
module Snapshots {

  datatype Option<+T> = None | Some(value: T) {
    /** `x || default` for a field whose only falsy value is the default itself. */
    function GetOr(default: T): T {
      match this
      case Some(v) => v
      case None => default
    }
  }

  /** One ranked team of a poll. */
  datatype RankRow = RankRow(
    rank: Option<int>,
    school: Option<string>,
    record: Option<string>,
    conference: Option<string>)

  /** One named poll ("AP Top 25", "Coaches Poll", ...) with its rows in rank order. */
  datatype Poll = Poll(name: Option<string>, ranks: Option<seq<RankRow>>)

  /** One season/week of the upstream ranking list. */
  datatype Snapshot = Snapshot(season: Option<int>, week: Option<int>, polls: Option<seq<Poll>>)

  /** Number of rows kept by `.slice(0, 25)`. */
  const MaxTeams := 25

  function Min(a: int, b: int): int { if a <= b then a else b }

  /** `wk.week || 0`: a missing week compares as week 0. */
  function WeekOf(s: Snapshot): (w: int)
    ensures s.week.Some? ==> w == s.week.value
    ensures s.week.None? ==> w == 0
  {
    s.week.GetOr(0)
  }

  /** `poll.ranks || []`: a poll without rows has none. */
  function RanksOf(p: Poll): (rows: seq<RankRow>)
    ensures p.ranks.Some? ==> rows == p.ranks.value
    ensures p.ranks.None? ==> rows == []
  {
    p.ranks.GetOr([])
  }

  // ---------------------------------------------------------------------
  // Case-insensitive substring test (`/AP/i.test(name)`, `/Coach/i.test(name)`)
  // ---------------------------------------------------------------------

  /** ASCII case folding. */
  function LowerChar(c: char): char {
    if 'A' <= c <= 'Z' then (c as int + 32) as char else c
  }

  function Lower(s: string): (r: string)
    ensures |r| == |s|
    ensures forall i :: 0 <= i < |s| ==> r[i] == LowerChar(s[i])
  {
    if s == [] then [] else [LowerChar(s[0])] + Lower(s[1..])
  }

  /** `needle` (written in lower case) occurs in `text` at position `i`, ignoring case. */
  predicate OccursAt(text: string, needle: string, i: nat) {
    i + |needle| <= |text| && Lower(text[i..i + |needle|]) == needle
  }

  /** What a case-insensitive regular expression made of the letters of `needle` accepts. */
  predicate ContainsIgnoringCase(text: string, needle: string): (found: bool)
    ensures found ==> |needle| <= |text|
    ensures OccursAt(text, needle, 0) ==> found
  {
    exists i: nat :: i <= |text| && OccursAt(text, needle, i)
  }

  /** A regular-expression test converts a missing poll name to the text "undefined". */
  function NameText(name: Option<string>): (text: string)
    ensures name.Some? ==> text == name.value
    ensures name.None? ==> text == "undefined"
  {
    name.GetOr("undefined")
  }

  /** Label "AP" looks for "ap"; every other label looks for "coach". */
  function Needle(pollLabel: string): (needle: string)
    ensures needle == "ap" <==> pollLabel == "AP"
    ensures needle != "ap" ==> needle == "coach"
  {
    if pollLabel == "AP" then "ap" else "coach"
  }

  predicate Matches(pollLabel: string, p: Poll): (m: bool)
    ensures m ==> p.name.Some?
  {
    UndefinedHoldsNoNeedle(pollLabel);
    ContainsIgnoringCase(NameText(p.name), Needle(pollLabel))
  }

  /** `polls.some(matches)` */
  predicate HasMatch(pollLabel: string, polls: seq<Poll>) {
    exists j :: 0 <= j < |polls| && Matches(pollLabel, polls[j])
  }

  /** `polls.find(matches)`, as the index of the poll found. */
  function FirstMatch(pollLabel: string, polls: seq<Poll>): (r: Option<nat>)
    ensures r.Some? ==> r.value < |polls| && Matches(pollLabel, polls[r.value])
    ensures r.Some? ==> forall j :: 0 <= j < r.value ==> !Matches(pollLabel, polls[j])
    ensures r.None? <==> !HasMatch(pollLabel, polls)
  {
    if polls == [] then None
    else if Matches(pollLabel, polls[0]) then Some(0)
    else
      match FirstMatch(pollLabel, polls[1..])
      case None => None
      case Some(k) =>
        assert polls[1..][k] == polls[k + 1];
        Some(k + 1)
  }

  // ---------------------------------------------------------------------
  // `arr.reduce((a, b) => (a.week || 0) > (b.week || 0) ? a : b)`
  // ---------------------------------------------------------------------

  /**
   * Index `i` holds a latest snapshot: no week is larger, and every later
   * snapshot has a strictly smaller week (on a tie the later one is kept).
   */
  predicate IsLatest(s: seq<Snapshot>, i: nat) {
    && i < |s|
    && (forall j :: 0 <= j < |s| ==> WeekOf(s[j]) <= WeekOf(s[i]))
    && (forall j :: i < j < |s| ==> WeekOf(s[j]) < WeekOf(s[i]))
  }

  /**
   * The `reduce` without a seed: the accumulator starts at the first element
   * and is replaced by each next element unless its week is strictly larger.
   */
  function LatestIndex(s: seq<Snapshot>): (i: nat)
    requires |s| > 0
    ensures IsLatest(s, i)
    decreases |s|
  {
    if |s| == 1 then 0
    else
      var i := LatestIndex(s[..|s| - 1]);
      if WeekOf(s[i]) > WeekOf(s[|s| - 1]) then i else |s| - 1
  }

  /** The latest index is determined by the weeks alone. */
  lemma LatestUnique(s: seq<Snapshot>, i: nat, k: nat)
    requires IsLatest(s, i) && IsLatest(s, k)
    ensures i == k
  {
    assert WeekOf(s[i]) == WeekOf(s[k]);
  }

  /** Two snapshots of the same week: the later element of the list wins. */
  lemma TieGoesToLater(a: Snapshot, b: Snapshot)
    requires WeekOf(a) == WeekOf(b)
    ensures LatestIndex([a, b]) == 1
  {
  }

  // ---------------------------------------------------------------------
  // `.slice(0, 25)`
  // ---------------------------------------------------------------------

  function FirstRows(ranks: seq<RankRow>): (kept: seq<RankRow>)
    ensures |kept| == Min(MaxTeams, |ranks|)
    ensures kept == ranks[..|kept|]
  {
    if |ranks| <= MaxTeams then ranks else ranks[..MaxTeams]
  }

  // ---------------------------------------------------------------------
  // Facts about the name match
  // ---------------------------------------------------------------------

  lemma LowerAppend(a: string, b: string)
    ensures Lower(a + b) == Lower(a) + Lower(b)
  {
  }

  /** "undefined" holds neither "ap" nor "coach", in any letter case. */
  lemma UndefinedHoldsNoNeedle(pollLabel: string)
    ensures !ContainsIgnoringCase("undefined", Needle(pollLabel))
  {
    var text := "undefined";
    var needle := Needle(pollLabel);
    forall i: nat | i <= |text| ensures !OccursAt(text, needle, i) {
      if i + |needle| <= |text| {
        // neither needle's first letter, 'a' or 'c', occurs in "undefined"
        assert Lower(text[i..i + |needle|])[0] == LowerChar(text[i]) != needle[0];
      }
    }
  }

  /** A poll without a name matches no label. */
  lemma UnnamedPollNeverMatches(pollLabel: string, ranks: Option<seq<RankRow>>)
    ensures !Matches(pollLabel, Poll(None, ranks))
  {
    UndefinedHoldsNoNeedle(pollLabel);
  }

  /** A name whose first letters spell the needle in any case matches. */
  lemma PrefixMatches(pollLabel: string, name: string, ranks: Option<seq<RankRow>>)
    requires |Needle(pollLabel)| <= |name| && Lower(name[..|Needle(pollLabel)|]) == Needle(pollLabel)
    ensures Matches(pollLabel, Poll(Some(name), ranks))
  {
    assert OccursAt(name, Needle(pollLabel), 0);
  }
}
