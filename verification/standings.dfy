/**
 * The standings decoder: the row loop of `scrapeStandings`. Rows arrive as
 * already-extracted, whitespace-collapsed texts of the points-table grid, in
 * page order. A left fold keeps one open group; header rows are recognized
 * first, then column-header and pre-seeding rows are skipped, then a row of
 * the fixed team-row shape is decoded. Only lettered groups are returned.
 */
module Standings {
  import opened Wrappers
  import opened Text
  import opened Records
  import TeamNames

  // ---------------------------------------------------------------------------
  // Group headers: the prefix `^(Group [A-D]|SUPER 8 G\d)`.

  const LetterGroupNames: set<string> := {"Group A", "Group B", "Group C", "Group D"}

  predicate IsSuperEightName(h: string)
  {
    |h| == 10 && h[..9] == "SUPER 8 G" && IsDigit(h[9])
  }

  predicate IsGroupName(h: string)
  {
    h in LetterGroupNames || IsSuperEightName(h)
  }

  /** The group name a header row opens: the matched prefix only, not the whole row. */
  function HeaderName(row: string): (h: Option<string>)
    ensures h.Some? ==> IsGroupName(h.value) && StartsWith(row, h.value)
  {
    if |row| >= 7 && row[..6] == "Group " && 'A' <= row[6] <= 'D' then
      assert row[..7] == "Group " + [row[6]];
      LetterName(row[6]);
      Some(row[..7])
    else if |row| >= 10 && row[..9] == "SUPER 8 G" && IsDigit(row[9]) then
      Some(row[..10])
    else
      None
  }

  lemma LetterName(c: char)
    requires 'A' <= c <= 'D'
    ensures "Group " + [c] in LetterGroupNames
  {
    if c == 'A' {
      assert "Group " + [c] == "Group A";
    } else if c == 'B' {
      assert "Group " + [c] == "Group B";
    } else if c == 'C' {
      assert "Group " + [c] == "Group C";
    } else {
      assert "Group " + [c] == "Group D";
    }
  }

  /** Every group name opens a group, whatever follows it on the row. */
  lemma HeaderRecognized(h: string, rest: string)
    requires IsGroupName(h)
    ensures HeaderName(h + rest) == Some(h)
  {
    var row := h + rest;
    assert row[..|h|] == h;
    if h in LetterGroupNames {
      assert row[..6] == h[..6] == "Group ";
    } else {
      assert row[..9] == h[..9];
    }
  }

  /** Column-header and legacy pre-seeding rows. */
  predicate IsSkipRow(row: string)
  {
    Contains(row, "PWL") || Contains(row, "NRPts") || Contains(row, "Pre-Seeding")
  }

  // ---------------------------------------------------------------------------
  // Team rows: `^(\d+)([A-Z]+)\s+(?:\([A-Z]\))?(\d)(\d)(\d)(\d)(\d)([-+]?\d+\.\d+)$`.

  /** The pieces of a team row, in the order the pattern lays them out. */
  datatype RowShape = RowShape(
    rank: string,
    code: string,
    gap: string,
    tag: Option<char>,
    columns: string,
    nrr: string)

  /** The text after an optional leading sign. */
  function Unsigned(s: string): string
  {
    if |s| > 0 && (s[0] == '-' || s[0] == '+') then s[1..] else s
  }

  /** `b` is digits, a point at `p`, digits, with both digit runs non-empty. */
  predicate PointAt(b: string, p: nat)
  {
    0 < p < |b| - 1 && AllDigits(b[..p]) && b[p] == '.' && AllDigits(b[p + 1..])
  }

  /** `[-+]?\d+\.\d+`: an optional sign, digits, a point, digits. */
  predicate IsNrr(s: string)
  {
    exists p :: 0 <= p < |Unsigned(s)| && PointAt(Unsigned(s), p)
  }

  predicate WellFormed(r: RowShape)
  {
    && |r.rank| > 0 && AllDigits(r.rank)
    && |r.code| > 0 && All(r.code, 0, |r.code|, Capitals)
    && |r.gap| > 0 && All(r.gap, 0, |r.gap|, Spaces)
    && (r.tag.Some? ==> IsUpper(r.tag.value))
    && |r.columns| == 5 && AllDigits(r.columns)
    && IsNrr(r.nrr)
  }

  function TagText(tag: Option<char>): string
  {
    if tag.Some? then ['(', tag.value, ')'] else []
  }

  /** The row text a shape stands for. */
  function Render(r: RowShape): string
  {
    r.rank + r.code + r.gap + TagText(r.tag) + r.columns + r.nrr
  }

  /** The hand-written recognizer for the team-row pattern: three maximal runs, then the rest at fixed offsets. */
  function ParseRow(row: string): (r: Option<RowShape>)
  {
    var i := Span(row, 0, Digits);
    var j := Span(row, i, Capitals);
    var k := Span(row, j, Spaces);
    ParseAfterRuns(row, i, j, k)
  }

  /** The recognizer once the digit, letter and space runs end at `i`, `j` and `k`. */
  function ParseAfterRuns(row: string, i: nat, j: nat, k: nat): Option<RowShape>
    requires i <= j <= k <= |row|
  {
    if i == 0 || j == i || k == j then None
    else if k < |row| && row[k] == '(' then
      if k + 3 <= |row| && IsUpper(row[k + 1]) && row[k + 2] == ')' then
        Columns(row, i, j, k, Some(row[k + 1]), k + 3)
      else
        None
    else
      Columns(row, i, j, k, None, k)
  }

  function Columns(row: string, i: nat, j: nat, k: nat, tag: Option<char>, m: nat): Option<RowShape>
    requires i <= j <= k <= m <= |row|
  {
    if m + 5 <= |row| && AllDigits(row[m..m + 5]) && IsNrr(row[m + 5..]) then
      Some(RowShape(row[..i], row[i..j], row[j..k], tag, row[m..m + 5], row[m + 5..]))
    else
      None
  }

  /** Soundness: whatever the recognizer accepts has the pattern's shape and spells the row. */
  lemma ParseRowSound(row: string)
    requires ParseRow(row).Some?
    ensures WellFormed(ParseRow(row).value) && Render(ParseRow(row).value) == row
  {
    var i := Span(row, 0, Digits);
    var j := Span(row, i, Capitals);
    var k := Span(row, j, Spaces);
    AllSlice(row, 0, i, Digits);
    assert row[..i] == row[0..i];
    AllSlice(row, i, j, Capitals);
    AllSlice(row, j, k, Spaces);
    ParseAfterRunsSound(row, i, j, k);
  }

  lemma ParseAfterRunsSound(row: string, i: nat, j: nat, k: nat)
    requires i <= j <= k <= |row|
    requires AllDigits(row[..i]) && All(row[i..j], 0, j - i, Capitals) && All(row[j..k], 0, k - j, Spaces)
    requires ParseAfterRuns(row, i, j, k).Some?
    ensures WellFormed(ParseAfterRuns(row, i, j, k).value) && Render(ParseAfterRuns(row, i, j, k).value) == row
  {
    if k < |row| && row[k] == '(' {
      assert TagText(Some(row[k + 1])) == row[k..k + 3];
      ColumnsSound(row, i, j, k, Some(row[k + 1]), k + 3);
    } else {
      ColumnsSound(row, i, j, k, None, k);
    }
  }

  lemma ColumnsSound(row: string, i: nat, j: nat, k: nat, tag: Option<char>, m: nat)
    requires 0 < i < j < k <= m <= |row|
    requires AllDigits(row[..i]) && All(row[i..j], 0, j - i, Capitals) && All(row[j..k], 0, k - j, Spaces)
    requires tag.Some? ==> IsUpper(tag.value)
    requires TagText(tag) == row[k..m]
    requires Columns(row, i, j, k, tag, m).Some?
    ensures WellFormed(Columns(row, i, j, k, tag, m).value)
    ensures Render(Columns(row, i, j, k, tag, m).value) == row
  {
    SlicesConcat(row, i, j, k, m, m + 5);
  }

  /** Completeness: every row of the pattern's shape is recognized, with exactly its pieces. */
  lemma ParseRowComplete(r: RowShape)
    requires WellFormed(r)
    ensures ParseRow(Render(r)) == Some(r)
  {
    RenderCuts(r);
    var i := |r.rank|;
    var j := i + |r.code|;
    var k := j + |r.gap|;
    var m := k + |TagText(r.tag)|;
    RenderSlices(r, i, j, k, m);
    ParseFromCuts(Render(r), r, i, j, k, m);
  }

  lemma ParseFromCuts(row: string, r: RowShape, i: nat, j: nat, k: nat, m: nat)
    requires WellFormed(r)
    requires i == |r.rank| && j == i + |r.code| && k == j + |r.gap| && m == k + |TagText(r.tag)|
    requires m + 5 + |r.nrr| == |row|
    requires Span(row, 0, Digits) == i && Span(row, i, Capitals) == j && Span(row, j, Spaces) == k
    requires row[..i] == r.rank && row[i..j] == r.code && row[j..k] == r.gap
    requires row[k..m] == TagText(r.tag) && row[m..m + 5] == r.columns && row[m + 5..] == r.nrr
    ensures ParseRow(row) == Some(r)
  {
    AllAt(r.columns, 0, 5, Digits, 0);
    ColumnsComplete(row, r, i, j, k, m);
    TagComplete(row, r.tag, r.columns, k, m);
    ParseAfterRunsComplete(row, r, i, j, k, m);
  }

  /** The rendered row cut back at the pieces' boundaries. */
  lemma RenderSlices(r: RowShape, i: nat, j: nat, k: nat, m: nat)
    requires i == |r.rank| && j == i + |r.code| && k == j + |r.gap| && m == k + |TagText(r.tag)|
    ensures m + |r.columns| + |r.nrr| == |Render(r)|
    ensures Render(r)[k..m] == TagText(r.tag)
    ensures Render(r)[m..m + |r.columns|] == r.columns
    ensures Render(r)[m + |r.columns|..] == r.nrr
  {
    var w := r.rank + r.code + r.gap;
    assert Render(r) == w + TagText(r.tag) + r.columns + r.nrr;
    assert |w| == k;
  }

  lemma ParseAfterRunsComplete(row: string, r: RowShape, i: nat, j: nat, k: nat, m: nat)
    requires 0 < i < j < k <= m <= |row| && m == k + |TagText(r.tag)|
    requires Columns(row, i, j, k, r.tag, m) == Some(r)
    requires k < |row| && row[k] == '(' <==> r.tag.Some?
    requires r.tag.Some? ==> k + 3 <= |row| && IsUpper(row[k + 1]) && row[k + 1] == r.tag.value && row[k + 2] == ')'
    ensures ParseAfterRuns(row, i, j, k) == Some(r)
  {
    if r.tag.Some? {
      assert m == k + 3 && r.tag == Some(row[k + 1]);
    } else {
      assert m == k;
    }
  }

  /** The fixed-offset tail: five column digits and the run rate. */
  lemma ColumnsComplete(row: string, r: RowShape, i: nat, j: nat, k: nat, m: nat)
    requires |r.columns| == 5 && AllDigits(r.columns) && IsNrr(r.nrr)
    requires i <= j <= k <= m && m + 5 + |r.nrr| == |row|
    requires row[..i] == r.rank && row[i..j] == r.code && row[j..k] == r.gap
    requires row[m..m + 5] == r.columns && row[m + 5..] == r.nrr
    ensures Columns(row, i, j, k, r.tag, m) == Some(r)
  {
  }

  /** The optional "(X)" is taken exactly when the shape has one. */
  lemma TagComplete(row: string, tag: Option<char>, columns: string, k: nat, m: nat)
    requires tag.Some? ==> IsUpper(tag.value)
    requires |columns| == 5 && IsDigit(columns[0])
    requires m == k + |TagText(tag)| && m + 5 <= |row|
    requires row[k..m] == TagText(tag) && row[m..m + 5] == columns
    ensures k < |row| && row[k] == '(' <==> tag.Some?
    ensures tag.Some? ==> k + 3 <= |row| && IsUpper(row[k + 1]) && row[k + 1] == tag.value && row[k + 2] == ')'
  {
    if tag.Some? {
      assert row[k] == row[k..m][0] == '(';
      assert row[k + 1] == row[k..m][1];
      assert row[k + 2] == row[k..m][2] == ')';
    } else {
      assert row[k] == row[m..m + 5][0];
    }
  }

  /** The three runs the recognizer scans end exactly where the shape's pieces end. */
  lemma RenderCuts(r: RowShape)
    requires WellFormed(r)
    ensures Span(Render(r), 0, Digits) == |r.rank|
    ensures Span(Render(r), |r.rank|, Capitals) == |r.rank| + |r.code|
    ensures Span(Render(r), |r.rank| + |r.code|, Spaces) == |r.rank| + |r.code| + |r.gap|
    ensures Render(r)[..|r.rank|] == r.rank
    ensures Render(r)[|r.rank|..|r.rank| + |r.code|] == r.code
    ensures Render(r)[|r.rank| + |r.code|..|r.rank| + |r.code| + |r.gap|] == r.gap
  {
    var tail3 := TagText(r.tag) + r.columns + r.nrr;
    assert tail3[0] == (if r.tag.Some? then '(' else r.columns[0]);
    AllAt(r.code, 0, |r.code|, Capitals, 0);
    AllAt(r.gap, 0, |r.gap|, Spaces, 0);
    AllAt(r.columns, 0, 5, Digits, 0);
    CutRank(r, tail3);
    CutCode(r, tail3);
    CutGap(r, tail3);
  }

  lemma CutRank(r: RowShape, tail3: string)
    requires All(r.rank, 0, |r.rank|, Digits) && |r.code| > 0 && IsUpper(r.code[0])
    requires Render(r) == r.rank + r.code + r.gap + tail3
    ensures Span(Render(r), 0, Digits) == |r.rank|
    ensures Render(r)[..|r.rank|] == r.rank
  {
    var tail1 := r.code + r.gap + tail3;
    assert Render(r) == [] + r.rank + tail1;
    SpanAfter([], r.rank, tail1, Digits);
  }

  lemma CutCode(r: RowShape, tail3: string)
    requires All(r.code, 0, |r.code|, Capitals) && |r.gap| > 0 && IsSpace(r.gap[0])
    requires Render(r) == r.rank + r.code + r.gap + tail3
    ensures Span(Render(r), |r.rank|, Capitals) == |r.rank| + |r.code|
    ensures Render(r)[|r.rank|..|r.rank| + |r.code|] == r.code
  {
    var tail2 := r.gap + tail3;
    assert Render(r) == r.rank + r.code + tail2;
    SpanAfter(r.rank, r.code, tail2, Capitals);
  }

  lemma CutGap(r: RowShape, tail3: string)
    requires All(r.gap, 0, |r.gap|, Spaces) && |tail3| > 0 && !IsSpace(tail3[0])
    requires Render(r) == r.rank + r.code + r.gap + tail3
    ensures Span(Render(r), |r.rank| + |r.code|, Spaces) == |r.rank| + |r.code| + |r.gap|
    ensures Render(r)[|r.rank| + |r.code|..|r.rank| + |r.code| + |r.gap|] == r.gap
  {
    assert Render(r) == (r.rank + r.code) + r.gap + tail3;
    SpanAfter(r.rank + r.code, r.gap, tail3, Spaces);
  }

  /** The record a well-formed row decodes to: the fourth column digit is dropped. */
  function ToStanding(r: RowShape): (t: TeamStanding)
    requires WellFormed(r)
    ensures t.position == DecimalValue(r.rank)
    ensures IsDigit(r.columns[0]) && t.played == DigitValue(r.columns[0])
    ensures IsDigit(r.columns[1]) && t.won == DigitValue(r.columns[1])
    ensures IsDigit(r.columns[2]) && t.lost == DigitValue(r.columns[2])
    ensures IsDigit(r.columns[4]) && t.points == DigitValue(r.columns[4])
    ensures t.played <= 9 && t.won <= 9 && t.lost <= 9 && t.points <= 9
    ensures t.nrr == r.nrr && t.team == TeamNames.Expand(r.code)
  {
    ColumnDigits(r.columns);
    TeamStanding(
      position := DecimalValue(r.rank),
      team := TeamNames.Expand(r.code),
      played := DigitValue(r.columns[0]),
      won := DigitValue(r.columns[1]),
      lost := DigitValue(r.columns[2]),
      nrr := r.nrr,
      points := DigitValue(r.columns[4]))
  }

  lemma ColumnDigits(columns: string)
    requires |columns| == 5 && AllDigits(columns)
    ensures IsDigit(columns[0]) && IsDigit(columns[1]) && IsDigit(columns[2]) && IsDigit(columns[4])
  {
    AllAt(columns, 0, 5, Digits, 0);
    AllAt(columns, 0, 5, Digits, 1);
    AllAt(columns, 0, 5, Digits, 2);
    AllAt(columns, 0, 5, Digits, 4);
  }

  /** The fourth column digit, whatever it is, leaves the decoded record unchanged. */
  lemma FourthDigitIgnored(r: RowShape, c: char)
    requires WellFormed(r) && IsDigit(c)
    ensures WellFormed(r.(columns := r.columns[3 := c]))
    ensures ToStanding(r.(columns := r.columns[3 := c])) == ToStanding(r)
  {
    var columns := r.columns[3 := c];
    forall k | 0 <= k < 5 ensures In(Digits, columns[k]) {
      if k != 3 {
        AllAt(r.columns, 0, 5, Digits, k);
      }
    }
  }

  function DecodeRow(row: string): Option<TeamStanding>
  {
    var shape := ParseRow(row);
    if shape.Some? then
      ParseRowSound(row);
      Some(ToStanding(shape.value))
    else
      None
  }

  /** A qualification tag between the gap and the columns does not shift the columns. */
  lemma TagDoesNotShiftColumns(r: RowShape, c: char)
    requires WellFormed(r) && r.tag.None? && IsUpper(c)
    ensures DecodeRow(Render(r.(tag := Some(c)))) == DecodeRow(Render(r)) == Some(ToStanding(r))
  {
    ParseRowComplete(r);
    ParseRowComplete(r.(tag := Some(c)));
  }

  /** The published example row: columns 3, 2, 1, 0, 2 give played 3, won 2, lost 1, points 2. */
  lemma PlainRowExample()
    ensures DecodeRow("1IND 32102+1.200") == Some(TeamStanding(1, "India", 3, 2, 1, "+1.200", 2))
  {
    var r := RowShape("1", "IND", " ", None, "32102", "+1.200");
    ExampleShape(r);
    ExampleRender(r, "1IND 32102+1.200");
    ParseRowComplete(r);
  }

  /** A "(Q)" tag does not shift the columns: 4, 4, 0, 0, 8 give played 4, won 4, lost 0, points 8. */
  lemma TaggedRowExample()
    ensures DecodeRow("1IND (Q)44008+2.500") == Some(TeamStanding(1, "India", 4, 4, 0, "+2.500", 8))
  {
    var r := RowShape("1", "IND", " ", Some('Q'), "44008", "+2.500");
    ExampleShape(r);
    ExampleRender(r, "1IND (Q)44008+2.500");
    ParseRowComplete(r);
  }

  lemma ExampleRender(r: RowShape, row: string)
    requires r.rank == "1" && r.code == "IND" && r.gap == " "
    requires (r.tag == None && r.columns == "32102" && r.nrr == "+1.200" && row == "1IND 32102+1.200")
          || (r.tag == Some('Q') && r.columns == "44008" && r.nrr == "+2.500" && row == "1IND (Q)44008+2.500")
    ensures Render(r) == row
  {
  }

  lemma ExampleShape(r: RowShape)
    requires r.rank == "1" && r.code == "IND" && r.gap == " "
    requires r.tag == None || r.tag == Some('Q')
    requires r.columns == "32102" || r.columns == "44008"
    requires r.nrr == "+1.200" || r.nrr == "+2.500"
    ensures WellFormed(r)
    ensures ToStanding(r).position == 1 && ToStanding(r).team == "India"
  {
    ExampleWellFormed(r);
    assert DecimalValue("1") == 1 by {
      assert "1"[..0] == [];
    }
    assert TeamNames.Expand("IND") == "India" by {
      assert "IND" in TeamNames.Table;
    }
  }

  lemma ExampleWellFormed(r: RowShape)
    requires r.rank == "1" && r.code == "IND" && r.gap == " "
    requires r.tag == None || r.tag == Some('Q')
    requires r.columns == "32102" || r.columns == "44008"
    requires r.nrr == "+1.200" || r.nrr == "+2.500"
    ensures WellFormed(r)
  {
    assert PointAt(Unsigned(r.nrr), 1);
  }

  // ---------------------------------------------------------------------------
  // The fold over rows.

  /** What the three recognizers, tried in order, make of one row. */
  datatype RowKind = HeaderRow(name: string) | SkipRow | TeamRow(team: TeamStanding) | OtherRow

  /** Headers are tested before the skip markers, and the skip markers before the team-row shape. */
  function KindOf(row: string): (k: RowKind)
    ensures k.HeaderRow? ==> IsGroupName(k.name) && StartsWith(row, k.name)
    ensures k.TeamRow? ==> HeaderName(row).None? && !IsSkipRow(row) && DecodeRow(row) == Some(k.team)
    ensures HeaderName(row).Some? ==> k == HeaderRow(HeaderName(row).value)
    ensures HeaderName(row).None? && IsSkipRow(row) ==> k == SkipRow
    ensures HeaderName(row).None? && !IsSkipRow(row) && DecodeRow(row).Some? ==> k == TeamRow(DecodeRow(row).value)
    ensures k == OtherRow <==> HeaderName(row).None? && !IsSkipRow(row) && DecodeRow(row).None?
  {
    var header := HeaderName(row);
    if header.Some? then HeaderRow(header.value)
    else if IsSkipRow(row) then SkipRow
    else
      var team := DecodeRow(row);
      if team.Some? then TeamRow(team.value) else OtherRow
  }

  /** A header is recognised even when the row also carries a skip marker, as in "SUPER 8 G1 Pre-Seeding". */
  lemma HeaderBeatsSkipMarker(h: string, rest: string)
    requires IsGroupName(h)
    ensures KindOf(h + rest) == HeaderRow(h)
  {
    HeaderRecognized(h, rest);
  }

  function Kinds(rows: seq<string>): (ks: seq<RowKind>)
    ensures |ks| == |rows|
  {
    seq(|rows|, i requires 0 <= i < |rows| => KindOf(rows[i]))
  }

  /** The loop state: groups already closed, the open group's name ("" before any header) and its teams. */
  datatype Acc = Acc(closed: seq<GroupStandings>, name: string, teams: seq<TeamStanding>)

  const Start := Acc([], "", [])

  /** Closing the open group, which is kept only when it is named and holds a team. */
  function Flush(acc: Acc): seq<GroupStandings>
  {
    if acc.name != "" && |acc.teams| > 0 then acc.closed + [GroupStandings(acc.name, acc.teams)] else acc.closed
  }

  /** One iteration of the row loop; a team row before any header has nowhere to go. */
  function Step(acc: Acc, kind: RowKind): Acc
  {
    match kind
    case HeaderRow(name) => Acc(Flush(acc), name, [])
    case TeamRow(t) => if acc.name != "" then acc.(teams := acc.teams + [t]) else acc
    case _ => acc
  }

  function Run(acc: Acc, kinds: seq<RowKind>): Acc
    decreases |kinds|
  {
    if |kinds| == 0 then acc else Run(Step(acc, kinds[0]), kinds[1..])
  }

  /** Every group the fold closes, Super 8 groups included, in closing order. */
  function AllGroups(rows: seq<string>): seq<GroupStandings>
  {
    Flush(Run(Start, Kinds(rows)))
  }

  predicate IsLetterGroup(g: GroupStandings)
  {
    StartsWith(g.group, "Group")
  }

  function KeepLetterGroups(gs: seq<GroupStandings>): seq<GroupStandings>
  {
    if |gs| == 0 then []
    else (if IsLetterGroup(gs[0]) then [gs[0]] else []) + KeepLetterGroups(gs[1..])
  }

  /** `scrapeStandings` after the fetch: the lettered groups, or nothing when there are none. */
  function DecodeStandings(rows: seq<string>): (r: Option<seq<GroupStandings>>)
    ensures r.Some? ==> |r.value| > 0
    ensures r.Some? ==> forall g :: g in r.value ==> |g.teams| > 0 && g.group in LetterGroupNames
    ensures r == (if |LetterSections(rows)| > 0 then Some(LetterSections(rows)) else None)
  {
    var kinds := Kinds(rows);
    FoldMatchesSections(kinds);
    SectionsAreNamedAndNonEmpty(kinds);
    KeepLetterGroupsIsLetterNames(Sections(kinds));
    OnlyLetterNamedKeepsLetterNames(Sections(kinds));
    var groups := KeepLetterGroups(AllGroups(rows));
    if |groups| > 0 then Some(groups) else None
  }

  // ---------------------------------------------------------------------------
  // The reference: the rows cut into sections at header rows.

  /** The team records before the first header. */
  function LeadTeams(kinds: seq<RowKind>): seq<TeamStanding>
    decreases |kinds|
  {
    if |kinds| == 0 || kinds[0].HeaderRow? then []
    else (if kinds[0].TeamRow? then [kinds[0].team] else []) + LeadTeams(kinds[1..])
  }

  /** One group per header whose section holds a team, in page order. */
  function Sections(kinds: seq<RowKind>): seq<GroupStandings>
    decreases |kinds|
  {
    if |kinds| == 0 then []
    else
      var teams := LeadTeams(kinds[1..]);
      (if kinds[0].HeaderRow? && |teams| > 0 then [GroupStandings(kinds[0].name, teams)] else [])
      + Sections(kinds[1..])
  }

  /** The sections opened by a lettered header. */
  function LetterSections(rows: seq<string>): seq<GroupStandings>
  {
    OnlyLetterNamed(Sections(Kinds(rows)))
  }

  function OnlyLetterNamed(gs: seq<GroupStandings>): seq<GroupStandings>
  {
    if |gs| == 0 then []
    else (if gs[0].group in LetterGroupNames then [gs[0]] else []) + OnlyLetterNamed(gs[1..])
  }

  predicate Open(acc: Acc)
  {
    acc.name == "" ==> acc.teams == []
  }

  predicate NamedHeaders(kinds: seq<RowKind>)
  {
    forall i :: 0 <= i < |kinds| && kinds[i].HeaderRow? ==> kinds[i].name != ""
  }

  /** The fold, from any reachable state, closes the open group extended by the lead teams, then the sections. */
  lemma {:induction false} RunMatchesSections(acc: Acc, kinds: seq<RowKind>)
    requires Open(acc) && NamedHeaders(kinds)
    ensures Open(Run(acc, kinds))
    ensures Flush(Run(acc, kinds)) == Flush(acc.(teams := acc.teams + LeadTeams(kinds))) + Sections(kinds)
    decreases |kinds|
  {
    if |kinds| == 0 {
      assert acc.teams + [] == acc.teams;
    } else {
      var k, rest := kinds[0], kinds[1..];
      RunMatchesSections(Step(acc, k), rest);
      assert kinds == [k] + rest;
      StepMatchesSections(acc, k, rest);
    }
  }

  /** One step of the fold moves the first row from the reference's side to the state. */
  lemma StepMatchesSections(acc: Acc, k: RowKind, rest: seq<RowKind>)
    requires Open(acc)
    requires k.HeaderRow? ==> k.name != ""
    ensures Open(Step(acc, k))
    ensures Flush(Step(acc, k).(teams := Step(acc, k).teams + LeadTeams(rest))) + Sections(rest)
         == Flush(acc.(teams := acc.teams + LeadTeams([k] + rest))) + Sections([k] + rest)
  {
    var kinds := [k] + rest;
    assert kinds[0] == k && kinds[1..] == rest;
    if k.HeaderRow? {
      var lead := LeadTeams(rest);
      var started := if |lead| > 0 then [GroupStandings(k.name, lead)] else [];
      assert LeadTeams(kinds) == [];
      assert acc.(teams := acc.teams + []) == acc;
      assert Step(acc, k).(teams := Step(acc, k).teams + lead) == Acc(Flush(acc), k.name, lead);
      assert Flush(Acc(Flush(acc), k.name, lead)) == Flush(acc) + started;
      assert Sections(kinds) == started + Sections(rest);
    } else if k.TeamRow? {
      assert LeadTeams(kinds) == [k.team] + LeadTeams(rest);
      assert acc.teams + [k.team] + LeadTeams(rest) == acc.teams + LeadTeams(kinds);
    } else {
      assert LeadTeams(kinds) == LeadTeams(rest);
    }
  }

  lemma FoldMatchesSections(kinds: seq<RowKind>)
    requires forall i :: 0 <= i < |kinds| && kinds[i].HeaderRow? ==> IsGroupName(kinds[i].name)
    ensures Flush(Run(Start, kinds)) == Sections(kinds)
  {
    forall i | 0 <= i < |kinds| && kinds[i].HeaderRow?
      ensures kinds[i].name != ""
    {
      GroupNameNonEmpty(kinds[i].name);
    }
    RunMatchesSections(Start, kinds);
  }

  lemma GroupNameNonEmpty(h: string)
    requires IsGroupName(h)
    ensures |h| == 7 || |h| == 10
  {
  }

  lemma {:induction false} SectionsAreNamedAndNonEmpty(kinds: seq<RowKind>)
    requires forall i :: 0 <= i < |kinds| && kinds[i].HeaderRow? ==> IsGroupName(kinds[i].name)
    ensures forall g :: g in Sections(kinds) ==> |g.teams| > 0 && IsGroupName(g.group)
    decreases |kinds|
  {
    if |kinds| > 0 {
      SectionsAreNamedAndNonEmpty(kinds[1..]);
    }
  }

  /** For names a header can open, the `startsWith('Group')` filter keeps exactly the lettered groups. */
  lemma {:induction false} KeepLetterGroupsIsLetterNames(gs: seq<GroupStandings>)
    requires forall g :: g in gs ==> IsGroupName(g.group)
    ensures KeepLetterGroups(gs) == OnlyLetterNamed(gs)
    decreases |gs|
  {
    if |gs| > 0 {
      LetterFilterAgrees(gs[0].group);
      KeepLetterGroupsIsLetterNames(gs[1..]);
    }
  }

  lemma LetterFilterAgrees(h: string)
    requires IsGroupName(h)
    ensures StartsWith(h, "Group") <==> h in LetterGroupNames
  {
    if IsSuperEightName(h) {
      assert h[0] == 'S';
    } else {
      assert h[..5] == "Group";
    }
  }

  lemma {:induction false} OnlyLetterNamedKeepsLetterNames(gs: seq<GroupStandings>)
    ensures forall g :: g in OnlyLetterNamed(gs) ==> g in gs && g.group in LetterGroupNames
    decreases |gs|
  {
    if |gs| > 0 {
      OnlyLetterNamedKeepsLetterNames(gs[1..]);
    }
  }
}
