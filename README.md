# College-football poll builder: selection and row shaping

This project models how a season's weekly ranking snapshots become a compact
poll document. The snapshots come from the sports-data service, and the
document is published as `tcd-ap.json` or `tcd-coaches.json`. The repository
holds two revisions of this logic:

- `pages/api/update.js` (`buildJson`) takes the snapshot with the highest
  week overall. It finds the first poll in it whose name matches the label
  (`/AP/i` for label `"AP"`, `/Coach/i` for any other label). It then shapes
  the first 25 rank rows into `{rk, team, rec, conf}`. It returns null at any
  failed step.
- `api/update.js` first keeps only the snapshots that contain a matching poll
  (`getLatestPollRanksFor`), then takes the highest week among those. Its
  `buildJson` shapes up to 25 rows the same way and joins each row with a
  color. The color comes from a lookup keyed by `norm(school)`, the school
  name lower-cased with everything outside `[a-z0-9]` removed.

Modules:

- `Snapshots` (`snapshots.dfy`) is the shared JSON data model. Every field is
  optional, and an absent field is `None`. It also holds the steps both
  revisions share:
  - the ASCII case-insensitive substring test that stands for the regular
    expressions;
  - `find` of the first matching poll (`FirstMatch`);
  - the seedless `reduce` that keeps the later element on equal weeks
    (`LatestIndex`, specified by `IsLatest`);
  - the 25-row cap.
- `PagesUpdate` (`pages_update.dfy`) is the first revision.
- `ApiUpdate` (`api_update.dfy`) is the second revision: `norm`, the
  candidate filter, `getLatestPollRanksFor`, the color join and `buildJson`.
- `Revisions` (`revisions.dfy`) holds the lemmas that compare the two
  revisions.

`api/update.js` holds only the pure functions `norm`,
`getLatestPollRanksFor` and `buildJson`. `pages/api/update.js` adds a
`handler` that does the I/O around its pure `buildJson`. The model is
therefore written as datatypes, functions and lemmas. The wall-clock
timestamp (`new Date().toISOString()`, pages/api/update.js:16 and
api/update.js:45) is the parameter `now`. The color
lookup is the parameter `colorMap: map<string, string>`.

Behaviour worth noting:

- Tie-break on equal weeks: both revisions use `>`, so the later snapshot
  in list order wins.
- Labels: any label other than exactly `"AP"` selects the `Coach` match.
  This includes `"ap"` in lower case.
- Empty rows: when the matched poll has no rows, the first revision still
  returns a document, with an empty `teams` list.
- No candidate: when no snapshot has the poll, the second revision throws
  instead of returning nothing. See Findings.
- Records: a missing record becomes `""`. Neither file derives one from
  season win/loss totals.
- Colors: a missing color becomes null. Neither file tries a second color.
  The color map is built outside the files shown.

## Model

| member | source | states |
|---|---|---|
| `Snapshots.FirstMatch` | pages/api/update.js:11 | `find` returns the first poll matching the label: the found poll matches, no earlier poll matches, and nothing is found exactly when no poll matches |
| `Snapshots.NameText` | pages/api/update.js:11 | the text a regular-expression test sees: the poll name, or "undefined" when the name is missing |
| `Snapshots.Needle` | pages/api/update.js:11 | label `"AP"` (exactly) selects the `/AP/i` test, and every other label the `/Coach/i` test |
| `Snapshots.ContainsIgnoringCase` | pages/api/update.js:11 | a case-insensitive occurrence needs the needle to fit in the text, and an occurrence at the start is found |
| `Snapshots.Matches` | pages/api/update.js:11 | `/AP/i.test(p.poll)` or `/Coach/i.test(p.poll)`: only a poll with a name can match |
| `Snapshots.UndefinedHoldsNoNeedle` | pages/api/update.js:11 | the text "undefined" contains neither "ap" nor "coach" in any letter case |
| `Snapshots.UnnamedPollNeverMatches` | pages/api/update.js:11 | a poll whose name is missing is tested as the text "undefined" and matches neither label |
| `Snapshots.PrefixMatches` | pages/api/update.js:11 | a name that begins with the needle in any letter case ("AP Top 25" for "AP") matches |
| `Snapshots.Lower` | api/update.js:2 | ASCII lower-casing keeps the length and folds each character on its own |
| `Snapshots.LowerAppend` | api/update.js:2 | lower-casing distributes over concatenation |
| `Snapshots.LatestIndex` | pages/api/update.js:9 | the seedless `reduce` selects a snapshot whose week (missing counts as 0) is at least every week in the list and strictly greater than every later element's week |
| `Snapshots.LatestUnique` | pages/api/update.js:9 | that characterisation determines the chosen index uniquely |
| `Snapshots.TieGoesToLater` | pages/api/update.js:9 | with two snapshots of equal week, the second one is chosen |
| `Snapshots.WeekOf` | pages/api/update.js:9 | `week` with a default: the week, or 0 when it is missing |
| `Snapshots.RanksOf` | pages/api/update.js:13 | `ranks` with a default: the rows, or none when they are missing |
| `Snapshots.FirstRows` | pages/api/update.js:13 | `slice(0, 25)` is the prefix of length `min(25, len(ranks))` |
| `PagesUpdate.ShapeTeams` | pages/api/update.js:13-15 | `teams` has `min(25, len(ranks))` rows, and row `i` comes from `ranks[i]`: same rank and school, record or `""`, conference or `""` |
| `PagesUpdate.ShapeRow` | pages/api/update.js:13-14 | the `map` callback keeps rank and school, and replaces a missing record or conference with `""` |
| `PagesUpdate.BuildJson` | pages/api/update.js:7-17 | a non-array or empty payload gives null; a document carries the label, the timestamp and at most 25 teams |
| `PagesUpdate.BuildJsonFromLatest` | pages/api/update.js:9-16 | for the latest snapshot, a document exists iff that snapshot has `polls` containing a matching poll; it then carries that snapshot's season and week and the shaped rows of the first matching poll (missing `ranks` gives none) |
| `PagesUpdate.OnlyLatestSnapshotMatters` | pages/api/update.js:9-12 | the result equals the result for the one-element list holding only the latest snapshot: earlier weeks are never consulted |
| `PagesUpdate.NullWhenLatestLacksPoll` | pages/api/update.js:10-12 | if the latest snapshot has no `polls` or no matching poll, the result is null whatever earlier snapshots hold |
| `PagesUpdate.MissingRanksGiveNoTeams` | pages/api/update.js:13 | when the first matching poll of the latest snapshot has no `ranks` (whatever the other polls hold), the result is a document with an empty `teams` |
| `ApiUpdate.KeepKeyChars` | api/update.js:2 | the `/[^a-z0-9]/g` removal leaves only `[a-z0-9]` characters and never lengthens the text |
| `ApiUpdate.Norm` | api/update.js:2 | the key holds only `[a-z0-9]`, and a missing or empty name gives `""` |
| `ApiUpdate.KeepKeyCharsAppend` | api/update.js:2 | the character removal distributes over concatenation |
| `ApiUpdate.KeepKeyCharsOfKey` | api/update.js:2 | a text made only of key characters is unchanged by lower-casing and by the removal |
| `ApiUpdate.NormIdempotent` | api/update.js:2 | `norm(norm(s)) == norm(s)` |
| `ApiUpdate.NormIgnoresCase` | api/update.js:2 | names that differ only in letter case give the same key |
| `ApiUpdate.NormIgnoresPunctuation` | api/update.js:2 | inserting a character that is not a letter or digit anywhere leaves the key unchanged |
| `ApiUpdate.OhioStateKey` | api/update.js:2 | the key of "ohiostate" is itself |
| `ApiUpdate.HyphenatedOhioStateKey` | api/update.js:2 | the key of "ohio-state" is "ohiostate" |
| `ApiUpdate.SpacedOhioStateKey` | api/update.js:2 | the keys of "Ohio State" and "OHIO STATE" are "ohiostate" |
| `ApiUpdate.OhioStateSpellingsShareKey` | api/update.js:2 | "Ohio State", "ohio-state" and "OHIO STATE" share one join key |
| `ApiUpdate.Filter` | api/update.js:7 | `filter` never lengthens the list |
| `ApiUpdate.FilterMembers` | api/update.js:7-11 | the filtered list holds exactly the elements that pass the test |
| `ApiUpdate.FilterAppend` | api/update.js:7-11 | filtering distributes over concatenation, so the original order is kept |
| `ApiUpdate.FilterSingle` | api/update.js:7-11 | on one element, the filter keeps it exactly when it passes the test |
| `ApiUpdate.IsCandidate` | api/update.js:8-10 | the filter test: a candidate has a non-empty `polls` list |
| `ApiUpdate.CandidateFindsPoll` | api/update.js:7-18 | a snapshot passes the filter exactly when it has `polls` and the later `find` finds a matching poll in it |
| `ApiUpdate.Candidates` | api/update.js:7-11 | the filtered payload: a missing payload gives no candidates, and the list is never longer than the payload |
| `ApiUpdate.CandidatesAreMatchingSnapshots` | api/update.js:7-12 | the candidates are exactly the snapshots whose `polls` is present and contains a matching poll; there are none iff the payload is missing or no snapshot qualifies |
| `ApiUpdate.GetLatestPollRanksFor` | api/update.js:5-23 | no candidates gives the `[]` result; otherwise `meta` is some candidate's season and week, and no candidate has a later week |
| `ApiUpdate.LatestAmongAllSnapshots` | api/update.js:7-21 | over the whole payload, `meta` comes from a snapshot containing the poll, and no snapshot containing the poll has a later week |
| `ApiUpdate.GetLatestFromCandidates` | api/update.js:15-22 | for the latest candidate (ties go to the later candidate): it is a candidate, `meta` is its season and week, and `ranks` is the `ranks` of its first matching poll, or empty when missing |
| `ApiUpdate.ColorFor` | api/update.js:30-31 | the color is `colorMap[norm(school)]` when that entry is present and non-empty, else null |
| `ApiUpdate.ColorIgnoresSpelling` | api/update.js:30-31 | school spellings with the same key get the same color |
| `ApiUpdate.ShapeColoredRow` | api/update.js:29-38 | the `map` callback keeps rank and school, replaces a missing record or conference with `""`, and attaches the color looked up for the school |
| `ApiUpdate.ShapeColoredTeams` | api/update.js:29-39 | `min(25, len(ranks))` rows; row `i` comes from `ranks[i]` with rank, school, record or `""`, conference or `""`, and the color rule above |
| `ApiUpdate.BuildJson` | api/update.js:25-48 | as written: it throws exactly when there is no candidate; otherwise it returns null exactly when `ranks` is empty, and a document carries the label, the timestamp, the chosen `meta`'s season and week, and the 1 to 25 colored rows shaped from `ranks` |
| `ApiUpdate.BuildJsonFromLatestCandidate` | api/update.js:15-48 | for the latest candidate: the result is a document exactly when the first matching poll of that snapshot has rows, and the document carries that snapshot's season and week and its first 25 rows, colored |
| `ApiUpdate.NoCandidatesThrows` | api/update.js:26-27 | a payload in which no snapshot contains the poll makes it throw |
| `ApiUpdate.EmptyPayloadThrows` | api/update.js:26-27 | an empty list of snapshots makes it throw the `TypeError` of reading `length` of undefined |
| `ApiUpdate.BuildJsonFixed` | api/update.js:25-48 | with the guard added: no candidate gives null and never an error; a document carries the label, the timestamp, the chosen `meta`'s season and week, and the 1 to 25 colored rows shaped from `ranks` |
| `ApiUpdate.FixedAgreesWhenNoThrow` | api/update.js:26-27 | the corrected builder returns what the original returns whenever the original does not throw, and null where it throws |
| `Revisions.SameRowShape` | api/update.js:29-39 | without its color, each row of the second revision is the row of the first revision |
| `Revisions.WeeksBounded` | pages/api/update.js:9 | every element taken from the list has a week no larger than the latest one |
| `Revisions.CandidatesSplitAt` | api/update.js:7-11 | the candidate list around a candidate at position `i` is the candidates before it, then it, then the candidates after it |
| `Revisions.LatestOverallIsLatestCandidate` | api/update.js:15 | if the overall latest snapshot contains the poll, it is also the latest candidate |
| `Revisions.RevisionsAgreeWhenLatestHasPoll` | api/update.js:25-48 | when the first revision publishes a non-empty document, the second publishes the same poll, season, week, timestamp and rows, with colors added |
| `Revisions.SecondRevisionLooksBack` | api/update.js:7-15 | when the latest week lacks the poll, the first revision returns null; the second publishes the season and week of the latest snapshot that has the poll, provided that poll has rows |
| `Revisions.ApTop25Matches` | pages/api/update.js:11 | a poll named "AP Top 25" matches the label "AP" |
| `Revisions.Week7BeatsWeek5` | pages/api/update.js:9 | with AP polls in weeks 5 and 7, both revisions publish week 7 |
| `Revisions.EarlierWeekExample` | api/update.js:7-22 | week 1 has the AP poll and week 2 has no `polls`: the first revision returns null, the second publishes week 1 |

## Findings

| source | as written | input that shows it | evidently intended | confidence | as-written member | corrected member |
|---|---|---|---|---|---|---|
| api/update.js:26-27 | with no candidate, `getLatestPollRanksFor` returns `[]`; destructuring gives `ranks === undefined`, and `ranks.length` throws a `TypeError` | an empty snapshot list, or any list in which no snapshot contains the requested poll | return null, so there is nothing to publish for that poll, as the `!ranks.length` guard does for an empty poll | high (not executed) | `ApiUpdate.NoCandidatesThrows` | `ApiUpdate.BuildJsonFixed` |

## Left out

- `handler` of pages/api/update.js (api/update.js has none): the upstream `fetch` with the bearer token from the environment, the blob-store `put` calls, and building the `Response`. These are I/O and foreign calls with no logic of their own.
- The wall clock: `new Date().toISOString()` is the parameter `now`, and `getFullYear()` is not modelled.
- `JSON.stringify` and the JSON wire format. Documents are datatype values.
- The regular-expression engine. `/AP/i` and `/Coach/i` are modelled as ASCII case-insensitive substring tests.
- Unicode case mapping in `toLowerCase` (for example the Kelvin sign folding to `k`). `Norm` folds ASCII letters only.
- How `colorMap` is built. It is not part of the files shown and is taken as a `map<string, string>`.
- Record fallback from season win/loss totals. It is not in either file.
- JSON values of the wrong type. The model covers present and missing fields only. It leaves out:
  - a `null` element in the snapshot array (the `?.` and `!latest` guards at pages/api/update.js:9-10; a `TypeError` at api/update.js:8);
  - a non-array truthy `polls`, payload or `ranks`;
  - a non-number `week`.
- Weeks are unbounded integers. JavaScript numbers (doubles, `NaN`) are not modelled.
