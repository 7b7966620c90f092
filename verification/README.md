# T20 World Cup scraper: the text-decoding kernel in Dafny

This project models the pure decoding logic of `src/lib/scraper.ts`. That logic turns strings already
pulled out of the Cricbuzz HTML into the typed records of `src/lib/mockData.ts`:

- **Team names** (`teams.dfy`, module `TeamNames`): `expandTeamName`, the fixed table from a
  code to a full name. Unknown codes come back unchanged.
- **Status** (`status.dfy`, `StatusClassifier`): `parseStatus`. The text is lower-cased, then
  searched for the completed keywords, then the live keywords; anything else is upcoming.
  The only rule that is not a substring test is the word-bounded "match over".
- **Standings** (`standings.dfy`, `Standings`): the row loop of `scrapeStandings`.
  - Each row is a header, a skip row, a team row matching the fixed team-row pattern, or other.
  - The left fold flushes a group only when it holds a team.
  - The result keeps only the groups whose name starts with "Group".
- **Title split** (`title.dfy`, `TitleSplit`): the pattern `^(.+?)\s+vs\s+(.+?),\s*(.+?)\s*-\s*(.+)$`.
  It is written as an explicit backtracking search over the eight cut points of a match. The search
  is proved to find a split exactly when one exists, and then the one the regular-expression engine
  prefers.
- **Scores** (`scores.dfy`, `Scores`): the two score patterns of `scrapeMatchScore`.
  - The bare pattern is `^(\d+)[-/](\d+)\s*\((\d+\.?\d*)\)$`.
  - The prefixed pattern is `^([A-Z]{2,4})(\d+)[-/](\d+)\((\d+\.?\d*)\)`.
  - Both are hand-written recognizers, each proved sound and complete against a rendering function.
  - The normal form is `R/W (O)`.
- **Score extraction** (`extract.dfy`, `ScoreExtraction`): the two passes of `scrapeMatchScore`
  over the page's divs, filling two positional slots. The loop version is proved equal to a
  reference definition.
- **Match list** (`matches.dfy`, `MatchList`): the anchor loop of `scrapeMatches` and the score
  fan-out.
  - The loop does href dedup, the series filter, the title split, status and result, the id
    `match-<index>`, and bucketing into `today` (completed and live, at most 5) and `upcoming`
    (at most 6).
  - The fan-out applies the queued score fetches one after another.
- `text.dfy` (`Text`) holds the string helpers:
  - JavaScript's `\s` set, `trim`, ASCII lower-casing and substring search;
  - decimal rendering of the id, with its round trip.
- `records.dfy` holds the record types. `wrappers.dfy` holds `Option`.

Inputs are strings already extracted from the DOM:
- a sequence of row texts for the standings;
- a sequence of `(title, href)` anchors for matches, where the anchor index is its position;
- for each div, its own text and its full text, for scores;
- for the fan-out, a map from href to the divs of that page. A missing key stands for a failed fetch.

In several places the repository's tests and its later API route expect behaviour that
`scraper.ts` does not have. The model follows `scraper.ts` as written:
- the match list is `{today, upcoming}` with caps 5 and 6, not `{live, recent, upcoming}` with caps 3, 5 and 6;
- there is no seed-placeholder filter and no stripping of seeding notes from the venue;
- "won the toss" phrases classify as completed, because "won" is a completed keyword (`TossReportIsCompleted`);
- scores are attributed by position (first found is `team1Score`), not by team name;
- Super 8 groups are decoded but filtered out of the standings result.

Team names in matches are the trimmed title text. Only the standings rows expand team codes to full names.

## Model

| member | source | states |
|---|---|---|
| TeamNames.Expand | src/lib/scraper.ts:205-235 | a code in the table gives its listed name; any other string, the empty one included, comes back unchanged |
| TeamNames.ExpandExamples | src/lib/scraper.ts:211-225 | SA and RSA both give "South Africa", USA and UAE map to themselves, "" and "XYZ" are unchanged |
| TeamNames.ExpandIdempotent | src/lib/scraper.ts:205-235 | expanding an already expanded name changes nothing, since no full name is itself a different code |
| TeamNames.OnlySouthAfricaHasSynonyms | src/lib/scraper.ts:206-233 | two distinct codes with the same name are exactly SA and RSA |
| TeamNames.NameDeterminesCode | src/lib/scraper.ts:206-233 | apart from South Africa, the full name determines its code through an inverse table |
| StatusClassifier.CompletedKeywordWins | src/lib/scraper.ts:187-196 | a completed keyword anywhere, in any letter case, gives completed even when live keywords are present too |
| StatusClassifier.LiveKeywordIsNeverUpcoming | src/lib/scraper.ts:197-201 | a live keyword anywhere, in any letter case, means the status is not upcoming |
| StatusClassifier.LiveKeywordGivesLive | src/lib/scraper.ts:187-201 | a live keyword anywhere, in any letter case, makes the status live whenever no completed keyword and no word-bounded "match over" occurs |
| StatusClassifier.KeywordSliceIffContains | src/lib/scraper.ts:188-200 | `lower.includes(k)` for a keyword holds exactly when some stretch of the original text lower-cases to that keyword |
| StatusClassifier.CompletedIffSignal | src/lib/scraper.ts:187-196 | completed exactly when some stretch of the text, in any letter case, is a completed keyword, or the lower-cased text has a word-bounded "match over"; both directions |
| StatusClassifier.UpcomingIsTheDefault | src/lib/scraper.ts:187-202 | upcoming exactly when no stretch of the text, in any letter case, is a completed or live keyword and the lower-cased text has no word-bounded "match over"; both directions |
| StatusClassifier.MatchOverviewIsUpcoming | src/lib/scraper.ts:194 | "match overview" is upcoming: the word boundary after "over" is missing |
| StatusClassifier.MatchOverIsCompleted | src/lib/scraper.ts:194 | "Match over" is completed through the word-bounded rule |
| StatusClassifier.ChasePhraseIsLive | src/lib/scraper.ts:197-200 | "need 45 in 3 overs" is live through "need", and "overs" does not trigger "match over" |
| StatusClassifier.TossReportIsCompleted | src/lib/scraper.ts:189-198 | "India won the toss and elected to bat" is completed: "won" is tested before "elected to" |
| Standings.HeaderName | src/lib/scraper.ts:29 | a recognised header is "Group A" to "Group D" or "SUPER 8 G" plus a digit, and it is a prefix of the row |
| Standings.HeaderRecognized | src/lib/scraper.ts:29-34 | every row starting with a group name opens that group, whatever follows |
| Standings.HeaderBeatsSkipMarker | src/lib/scraper.ts:29-42 | a header row is a header even when it also carries a skip marker, as in "SUPER 8 G1 Pre-Seeding" |
| Standings.KindOf | src/lib/scraper.ts:29-46 | a row with a group-name prefix is that header; otherwise a row with a skip marker is skipped; otherwise a row that decodes is that team row; only a row none of the three accepts is other. A header row starts with its group name |
| Standings.ParseRowSound | src/lib/scraper.ts:45 | whatever the team-row recognizer accepts has the pattern's shape and spells the row back |
| Standings.ParseRowComplete | src/lib/scraper.ts:45 | every row of the pattern's shape is accepted, with exactly its pieces |
| Standings.ToStanding | src/lib/scraper.ts:47-55 | position is the decimal value of the rank; played, won, lost and points are the first, second, third and fifth column digits (each 0 to 9); nrr is verbatim; the team is the expanded code |
| Standings.FourthDigitIgnored | src/lib/scraper.ts:45-55 | replacing the fourth column digit by any digit keeps the row well formed and leaves the decoded record unchanged |
| Standings.TagDoesNotShiftColumns | src/lib/scraper.ts:44-55 | adding a "(Q)"-style tag does not change the decoded record |
| Standings.PlainRowExample | src/lib/scraper.ts:44-55 | "1IND 32102+1.200" gives India with 3 played, 2 won, 1 lost, "+1.200", 2 points |
| Standings.TaggedRowExample | src/lib/scraper.ts:44-55 | "1IND (Q)44008+2.500" gives India with 4, 4, 0, "+2.500", 8: the fourth digit is dropped |
| Standings.RunMatchesSections | src/lib/scraper.ts:25-62 | from any reachable state, the fold closes the open group extended by the rows before the next header, then one group per later header |
| Standings.FoldMatchesSections | src/lib/scraper.ts:21-62 | the fold equals the reference: one group per header whose section holds a team, in page order, with team rows before any header dropped |
| Standings.SectionsAreNamedAndNonEmpty | src/lib/scraper.ts:31-32 | every flushed group is named by a header and holds at least one team |
| Standings.LetterFilterAgrees | src/lib/scraper.ts:65 | for a header name, starting with "Group" is the same as being one of Group A to Group D |
| Standings.KeepLetterGroupsIsLetterNames | src/lib/scraper.ts:65 | the startsWith filter keeps exactly the lettered groups, in order |
| Standings.OnlyLetterNamedKeepsLetterNames | src/lib/scraper.ts:65 | what the filter keeps came from its input and is lettered |
| Standings.DecodeStandings | src/lib/scraper.ts:59-67 | the result is the lettered sections, each non-empty, and None exactly when there are none |
| TitleSplit.SplitTitle | src/lib/scraper.ts:99 | a reported split is a match of the title pattern |
| TitleSplit.SplitTitleIsFirstMatch | src/lib/scraper.ts:99-100 | a split is found exactly when the pattern matches, and it is the one the backtracking engine prefers |
| TitleSplit.MatchTitle | src/lib/scraper.ts:99-102 | groups are produced exactly when the title splits |
| TitleSplit.GroupsSpellTitle | src/lib/scraper.ts:99-102 | team1, "vs", team2, ",", info, "-" and status, with the separators in between, spell the title back |
| TitleSplit.SeparatorsAreSpaces | src/lib/scraper.ts:99 | everything the pattern consumes between the groups, other than "vs", "," and "-", is whitespace |
| Scores.ScoreAtSound | src/lib/scraper.ts:159-169 | an accepted score has the pattern's shape and spells the text it covers |
| Scores.ScoreAtComplete | src/lib/scraper.ts:159-169 | a score of the shape laid out in the text is recognised there, ending right after its ")" |
| Scores.BareScoreSound | src/lib/scraper.ts:159 | an accepted own text is one whole score of the bare shape |
| Scores.BareScoreComplete | src/lib/scraper.ts:159 | every score of the bare shape is accepted as exactly itself |
| Scores.BareScoreRoundTrip | src/lib/scraper.ts:159 | the bare pattern accepts a text as a score exactly when the score is well formed and spells the text |
| Scores.TaggedScoreMatches | src/lib/scraper.ts:169 | a 2 to 4 letter code, a score without a gap, then anything, yields that score |
| Scores.TaggedScoreSound | src/lib/scraper.ts:169 | an accepted full text starts with 2 to 4 capitals followed by a well-formed score |
| Scores.NormalFormIgnoresSeparator | src/lib/scraper.ts:159-171 | "R-W(O)" and "R/W (O)" both normalise to "R/W (O)" |
| Scores.NormalisedIsFixedPoint | src/lib/scraper.ts:161 | a normalised score is accepted again and normalises to itself |
| ScoreExtraction.StripSpaces | src/lib/scraper.ts:167 | removing whitespace leaves no whitespace and never lengthens the text |
| ScoreExtraction.StripSpacesConcat | src/lib/scraper.ts:167 | removing whitespace distributes over concatenation |
| ScoreExtraction.StripIgnoresTrim | src/lib/scraper.ts:167 | trimming before removing all whitespace changes nothing |
| ScoreExtraction.ReportedScoresAreNormal | src/lib/scraper.ts:157-171 | every score a div yields is in the `R/W (O)` form and non-empty |
| ScoreExtraction.OfferOwn | src/lib/scraper.ts:160-162 | the first pass fills team1Score only while it is empty and never touches team2Score |
| ScoreExtraction.OfferFull | src/lib/scraper.ts:172-176 | the second pass never overwrites a set slot, and sets team2Score only to a score different from team1Score |
| ScoreExtraction.Finish | src/lib/scraper.ts:180 | the result is None exactly when no team1Score was found |
| ScoreExtraction.FirstOther | src/lib/scraper.ts:174 | the chosen score is the first candidate that differs from team1Score (every earlier one equals it); none is chosen only when all equal it |
| ScoreExtraction.PassOneTakesFirst | src/lib/scraper.ts:156-163 | the first pass leaves team1Score as the first bare score, if any |
| ScoreExtraction.PassTwoFills | src/lib/scraper.ts:166-178 | the second pass fills team1Score from the first prefixed score if still empty, and team2Score with the first prefixed score that differs |
| ScoreExtraction.PassesMatchReference | src/lib/scraper.ts:153-180 | the two folds agree with the reference: first bare score, else first prefixed score, then the first different prefixed score |
| ScoreExtraction.ExtractScores | src/lib/scraper.ts:153-180 | the loops compute the reference; None exactly when no div yields a score; team2Score differs from team1Score; team1Score is the first bare score when there is one |
| Text.LowerChar | src/lib/scraper.ts:188 | an upper-case ASCII letter becomes the lower-case letter at the same place in the alphabet; every other character is unchanged |
| Text.LowerSlice | src/lib/scraper.ts:188 | lower-casing commutes with taking a slice |
| Text.TrimBounds | src/lib/scraper.ts:103-112 | trim removes exactly the leading and trailing JavaScript whitespace |
| Text.DecimalRoundTrip | src/lib/scraper.ts:106 | the decimal text of the anchor index reads back as the index |
| Text.NatToDecimalInjective | src/lib/scraper.ts:106 | different indices give different decimal texts |
| MatchList.MatchIdInjective | src/lib/scraper.ts:106 | two ids are equal exactly when the anchor indices are |
| MatchList.DecodedMatch | src/lib/scraper.ts:93-113 | an anchor decodes exactly when it is in the series and its title splits; fields are the trimmed groups; result is the trimmed status text exactly when the status is completed |
| MatchList.KeptIffFirstAndDecodes | src/lib/scraper.ts:89-100 | an anchor is kept exactly when no earlier anchor has its href and it passes the series filter and the title split |
| MatchList.DuplicateNeverKept | src/lib/scraper.ts:89-96 | a later anchor with an href already seen is never kept, even when the earlier one was rejected by the filters |
| MatchList.KeptEntries | src/lib/scraper.ts:85-113 | each kept entry is its anchor's href and decoded match, in page order |
| MatchList.KeptAreDistinct | src/lib/scraper.ts:89-106 | kept matches have distinct hrefs and distinct ids |
| MatchList.TodaysFilter | src/lib/scraper.ts:115-124 | the today candidates are exactly the kept completed and live matches, the upcoming candidates exactly the kept upcoming ones |
| MatchList.BucketsArePrefixes | src/lib/scraper.ts:115-124 | today is the page-order prefix of at most 5 completed or live matches, upcoming the prefix of at most 6 upcoming ones |
| MatchList.LiveFetchesExactly | src/lib/scraper.ts:115-120 | a fetch is queued exactly for each live match placed in today, with its slot and href |
| MatchList.LiveFetchSlotsIncrease | src/lib/scraper.ts:116-120 | queued fetches are in slot order, so no two target the same match |
| MatchList.RunReflects | src/lib/scraper.ts:85-125 | the loop state after any prefix of anchors holds the seen hrefs, the capped buckets and the queued fetches of the reference |
| MatchList.Visit | src/lib/scraper.ts:88-124 | the imperative loop body performs one step of the fold, recording the href before any filter |
| MatchList.DecodeMatches | src/lib/scraper.ts:80-125 | the anchor loop returns the capped buckets and live fetches of the reference |
| MatchList.ApplyScoresTouchesOnlyTargets | src/lib/scraper.ts:128-134 | the fan-out changes only the two score fields, and only of matches some fetch targets |
| MatchList.ApplyScoresAttaches | src/lib/scraper.ts:128-134 | with distinct slots, each fetched page's scores end up on its match |
| MatchList.LiveMatchesGetScores | src/lib/scraper.ts:115-134 | every live match in today whose page was fetched carries that page's scores |
| MatchList.FetchScores | src/lib/scraper.ts:127-138 | the fetch loop applies the queued fetches in order |
| MatchList.ScrapeMatches | src/lib/scraper.ts:74-140 | today is the decoded today bucket with the fetched scores applied, upcoming the decoded upcoming bucket |
| MatchList.ScoresOnlyOnLiveMatches | src/lib/scraper.ts:105-134 | after the fan-out only live matches carry scores, and all other fields are as decoded |

## Left out

- HTTP: the axios requests, URLs, headers and timeouts are network I/O. Fetched pages are inputs.
- DOM: the cheerio selection is a foreign library. Its results are inputs:
  - the row texts, trimmed, with whitespace runs collapsed to one space;
  - the anchors' titles and hrefs;
  - each div's own text and full text.
- Concurrency: `Promise.all` runs the score fetches concurrently. The model applies them in queue order. Each fetch writes a distinct match, so the order does not matter, as `LiveFetchSlotsIncrease` and `ApplyScoresAttaches` show.
- Errors and logging: the try/catch blocks and `console.error` stand for transport failures. A missing page in the fan-out map is the only failure modelled. A failed page or standings fetch returning null is not modelled.
- `toLowerCase` is modelled for ASCII letters only. Non-ASCII case mappings are not modelled.
- `parseInt` on the rank is modelled as the decimal value of a digit run. The `|| 0` fallbacks are no-ops for single digits.
- Standings.ToStanding: `position` is the exact decimal value of the rank. JavaScript's `parseInt` returns a double, so a rank above 2^53 would be rounded and one of about 309 digits or more would give `Infinity`. Double rounding is floating point, which this model does not have; real ranks are one or two digits.
- NRR stays an opaque string. Nothing is parsed as a number.
- `expandTeamName` on `Object.prototype` names such as "toString" returns a non-string in JavaScript. This is not modelled. Team codes come from `[A-Z]+`, so such names never reach it from the row decoder.
- Behaviour that only the tests and the later API route expect is not modelled, because `scraper.ts` does not have it:
  - the `{live, recent, upcoming}` shape;
  - the placeholder filter and venue stripping;
  - the toss special case;
  - name-based score attribution;
  - including Super 8 groups.
- The rest of the application is not part of this model: the route merging with fallback data, the page, and the fixture data in `mockData.ts`.
