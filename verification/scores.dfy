/**
 * The score extractor `scrapeMatchScore`, once a match page has been reduced
 * to its `div` texts. Two passes run over the same divs in page order:
 *
 *   1. each div's own text, trimmed, against `^(\d+)[-/](\d+)\s*\((\d+\.?\d*)\)$`,
 *      which only ever fills the first slot;
 *   2. each div's full text with all whitespace removed, against the
 *      prefix-anchored `^([A-Z]{2,4})(\d+)[-/](\d+)\((\d+\.?\d*)\)`, which fills
 *      the first slot if it is still empty and otherwise the second, provided
 *      the score differs from the first.
 *
 * Every score found is normalised to "R/W (O)" and the team code is dropped.
 */
module Scores {
  import opened Wrappers
  import opened Text

  // ---------------------------------------------------------------------------
  // The score shape shared by both patterns.

  /** The pieces of a score `R-W(O)`: runs, separator, wickets, the spaces before `(`, overs. */
  datatype Score = Score(runs: string, sep: char, wickets: string, gap: string, overs: string)

  predicate IsSep(c: char) { c == '-' || c == '/' }

  /** Where `\d+\.?\d*` starting at `i` ends, given that `s[i]` is a digit. */
  function OversEnd(s: string, i: nat): (j: nat)
    requires i <= |s|
    ensures i <= j <= |s|
  {
    var d := Span(s, i, Digits);
    if d < |s| && s[d] == '.' then Span(s, d + 1, Digits) else d
  }

  /** `\d+\.?\d*`: digits, then optionally a point and more digits. */
  predicate IsOvers(o: string)
  {
    Span(o, 0, Digits) > 0 && OversEnd(o, 0) == |o|
  }

  /** A score of the pattern's shape; the prefixed pattern allows no spaces before `(`. */
  predicate WellFormed(x: Score, gapAllowed: bool)
  {
    && |x.runs| > 0 && AllDigits(x.runs)
    && IsSep(x.sep)
    && |x.wickets| > 0 && AllDigits(x.wickets)
    && All(x.gap, 0, |x.gap|, Spaces) && (gapAllowed || x.gap == [])
    && IsOvers(x.overs)
  }

  /** The text a score stands for. */
  function Render(x: Score): string
  {
    x.runs + [x.sep] + x.wickets + x.gap + "(" + x.overs + ")"
  }

  /** The length of the text a score stands for. */
  function Width(x: Score): nat
  {
    |x.runs| + |x.wickets| + |x.gap| + |x.overs| + 3
  }

  /** The form the scraper reports: `${runs}/${wickets} (${overs})`. */
  function Normalised(x: Score): string
  {
    x.runs + "/" + x.wickets + " (" + x.overs + ")"
  }

  // ---------------------------------------------------------------------------
  // The recognizer. Every quantifier in both patterns is followed by a
  // character it cannot match, so the only match is the one with maximal runs.
  // It runs in three stages, each handed the cut points found so far.

  /** The outcome of looking for a score at some index: its pieces and the index past its `)`. */
  datatype Scan = Miss | Hit(score: Score, end: nat)

  /** A score starting at `i`: runs, then a separator. */
  function ScoreAt(s: string, i: nat, gapAllowed: bool): Scan
    requires i <= |s|
  {
    var r := Span(s, i, Digits);
    if r == i || r == |s| || !IsSep(s[r]) then Miss else WicketsAt(s, i, r, gapAllowed)
  }

  /** Wickets after the separator at `r`, the spaces if allowed, then `(` and a digit. */
  function WicketsAt(s: string, i: nat, r: nat, gapAllowed: bool): Scan
    requires i < r < |s|
  {
    var v := Span(s, r + 1, Digits);
    var g := if gapAllowed then Span(s, v, Spaces) else v;
    if v == r + 1 || g + 1 >= |s| || s[g] != '(' || !In(Digits, s[g + 1]) then Miss else CloseAt(s, i, r, v, g)
  }

  /** The overs after the `(` at `g`, then `)`. */
  function CloseAt(s: string, i: nat, r: nat, v: nat, g: nat): Scan
    requires i < r < v <= g && g + 1 < |s|
  {
    var o := OversEnd(s, g + 1);
    if o < |s| && s[o] == ')' then Hit(Score(s[i..r], s[r], s[r + 1..v], s[v..g], s[g + 1..o]), o + 1) else Miss
  }

  /** Pass 1's pattern on a trimmed own text: the whole text is one score. */
  function BareScore(text: string): Option<Score>
  {
    var p := ScoreAt(text, 0, true);
    if p.Hit? && p.end == |text| then Some(p.score) else None
  }

  /** Pass 2's pattern on a whitespace-free full text: a 2-4 letter code, then a score, then anything. */
  function TaggedScore(text: string): Option<Score>
  {
    var c := Span(text, 0, Capitals);
    if 2 <= c <= 4 then
      var p := ScoreAt(text, c, false);
      if p.Hit? then Some(p.score) else None
    else
      None
  }

  // ---------------------------------------------------------------------------
  // Soundness: what the recognizer accepts has the shape and spells the text.

  lemma ScoreAtSound(s: string, i: nat, gapAllowed: bool)
    requires i <= |s| && ScoreAt(s, i, gapAllowed).Hit?
    ensures var h := ScoreAt(s, i, gapAllowed);
      WellFormed(h.score, gapAllowed) && i < h.end <= |s| && s[i..h.end] == Render(h.score)
  {
    var r := Span(s, i, Digits);
    AllSlice(s, i, r, Digits);
    WicketsSound(s, i, r, gapAllowed);
  }

  lemma WicketsSound(s: string, i: nat, r: nat, gapAllowed: bool)
    requires i < r < |s| && IsSep(s[r]) && All(s[i..r], 0, r - i, Digits) && WicketsAt(s, i, r, gapAllowed).Hit?
    ensures var h := WicketsAt(s, i, r, gapAllowed);
      WellFormed(h.score, gapAllowed) && i < h.end <= |s| && s[i..h.end] == Render(h.score)
  {
    var v := Span(s, r + 1, Digits);
    var g := if gapAllowed then Span(s, v, Spaces) else v;
    AllSlice(s, r + 1, v, Digits);
    if gapAllowed {
      AllSlice(s, v, g, Spaces);
    }
    CloseSound(s, i, r, v, g, gapAllowed);
  }

  lemma CloseSound(s: string, i: nat, r: nat, v: nat, g: nat, gapAllowed: bool)
    requires i < r && r + 1 < v <= g && g + 1 < |s| && s[g] == '(' && In(Digits, s[g + 1])
    requires IsSep(s[r]) && All(s[i..r], 0, r - i, Digits) && All(s[r + 1..v], 0, v - (r + 1), Digits)
    requires All(s[v..g], 0, g - v, Spaces) && (gapAllowed || g == v)
    requires CloseAt(s, i, r, v, g).Hit?
    ensures var h := CloseAt(s, i, r, v, g);
      WellFormed(h.score, gapAllowed) && i < h.end <= |s| && s[i..h.end] == Render(h.score)
  {
    var o := OversEnd(s, g + 1);
    var x := Score(s[i..r], s[r], s[r + 1..v], s[v..g], s[g + 1..o]);
    assert CloseAt(s, i, r, v, g) == Hit(x, o + 1);
    ClosedScore(s, i, r, v, g, o, x, gapAllowed);
  }

  /** The pieces cut out of `s` form a score of the shape that spells `s[i..o + 1]`. */
  lemma ClosedScore(s: string, i: nat, r: nat, v: nat, g: nat, o: nat, x: Score, gapAllowed: bool)
    requires i < r && r + 1 < v <= g && g + 1 < o < |s| && s[g] == '(' && s[o] == ')' && In(Digits, s[g + 1])
    requires IsSep(s[r]) && All(s[i..r], 0, r - i, Digits) && All(s[r + 1..v], 0, v - (r + 1), Digits)
    requires All(s[v..g], 0, g - v, Spaces) && (gapAllowed || g == v) && o == OversEnd(s, g + 1)
    requires x == Score(s[i..r], s[r], s[r + 1..v], s[v..g], s[g + 1..o])
    ensures WellFormed(x, gapAllowed) && s[i..o + 1] == Render(x)
  {
    OversSound(s, g + 1);
    assert gapAllowed || x.gap == [];
    ScoreSlices(s, i, r, v, g, o);
  }

  /** The overs a recognizer run accepted are of the overs shape. */
  lemma OversSound(s: string, i: nat)
    requires i < |s| && In(Digits, s[i])
    ensures IsOvers(s[i..OversEnd(s, i)])
  {
    var d := Span(s, i, Digits);
    var o := OversEnd(s, i);
    var v := s[i..o];
    SpanShift(s, i, i, o, Digits);
    if d < |s| && s[d] == '.' {
      assert v[d - i] == '.';
      SpanShift(s, i, d + 1, o, Digits);
    }
  }

  lemma ScoreSlices(s: string, i: nat, r: nat, w: nat, g: nat, o: nat)
    requires i < r < w <= g < o < |s| && s[g] == '(' && s[o] == ')'
    ensures s[i..o + 1] == s[i..r] + [s[r]] + s[r + 1..w] + s[w..g] + "(" + s[g + 1..o] + ")"
  {
    SliceSplit(s, i, r, r + 1);
    SliceSplit(s, i, r + 1, w);
    SliceSplit(s, i, w, g);
    SliceSplit(s, i, g, g + 1);
    SliceSplit(s, i, g + 1, o);
    SliceSplit(s, i, o, o + 1);
  }

  // ---------------------------------------------------------------------------
  // Completeness: every score of the shape is recognized, whatever surrounds it.

  /** The pieces of `x` lie in `s` one after another from `i` on. */
  predicate LaidAt(s: string, i: nat, x: Score)
  {
    var r := i + |x.runs|;
    var v := r + 1 + |x.wickets|;
    var g := v + |x.gap|;
    var o := g + 1 + |x.overs|;
    && o < |s|
    && s[i..r] == x.runs && s[r] == x.sep && s[r + 1..v] == x.wickets
    && s[v..g] == x.gap && s[g] == '(' && s[g + 1..o] == x.overs && s[o] == ')'
  }

  lemma ScoreAtComplete(s: string, i: nat, x: Score, gapAllowed: bool)
    requires LaidAt(s, i, x) && WellFormed(x, gapAllowed)
    ensures ScoreAt(s, i, gapAllowed) == Hit(x, i + Width(x))
  {
    var r := i + |x.runs|;
    RunEndsAt(s, i, r, x.runs, Digits);
    WicketsComplete(s, i, x, gapAllowed);
  }

  lemma WicketsComplete(s: string, i: nat, x: Score, gapAllowed: bool)
    requires LaidAt(s, i, x) && WellFormed(x, gapAllowed)
    ensures WicketsAt(s, i, i + |x.runs|, gapAllowed) == Hit(x, i + Width(x))
  {
    var r := i + |x.runs|;
    var v := r + 1 + |x.wickets|;
    var g := v + |x.gap|;
    GapStart(s, v, g, x.gap);
    RunEndsAt(s, r + 1, v, x.wickets, Digits);
    if gapAllowed {
      RunEndsAt(s, v, g, x.gap, Spaces);
    }
    CloseComplete(s, i, x);
    WicketsFromCuts(s, i, r, v, g, gapAllowed, Hit(x, i + Width(x)));
  }

  lemma WicketsFromCuts(s: string, i: nat, r: nat, v: nat, g: nat, gapAllowed: bool, h: Scan)
    requires i < r && r + 1 < v <= g && g + 1 < |s| && Span(s, r + 1, Digits) == v
    requires if gapAllowed then Span(s, v, Spaces) == g else g == v
    requires s[g] == '(' && In(Digits, s[g + 1]) && CloseAt(s, i, r, v, g) == h
    ensures WicketsAt(s, i, r, gapAllowed) == h
  {
  }

  lemma CloseComplete(s: string, i: nat, x: Score)
    requires LaidAt(s, i, x) && |x.runs| > 0 && |x.wickets| > 0 && IsOvers(x.overs)
    ensures var r := i + |x.runs|;
      var v := r + 1 + |x.wickets|;
      var g := v + |x.gap|;
      In(Digits, s[g + 1]) && CloseAt(s, i, r, v, g) == Hit(x, i + Width(x))
  {
    var g := i + |x.runs| + 1 + |x.wickets| + |x.gap|;
    OversAt(s, g + 1, g + 1 + |x.overs|, x.overs);
  }

  /** A run of class `p` laid at `a` and followed by a character outside `p` is the maximal run there. */
  lemma RunEndsAt(s: string, a: nat, b: nat, u: string, p: CharClass)
    requires a <= b < |s| && s[a..b] == u && All(u, 0, |u|, p) && !In(p, s[b])
    ensures Span(s, a, p) == b
  {
    AllUnslice(s, a, b, 0, |u|, p);
    SpanExact(s, a, b, p);
  }

  /** Spaces before `(` do not extend the wickets. */
  lemma GapStart(s: string, v: nat, g: nat, gap: string)
    requires v <= g < |s| && s[v..g] == gap && All(gap, 0, |gap|, Spaces) && s[g] == '('
    ensures !In(Digits, s[v])
  {
    if v < g {
      AllAt(gap, 0, |gap|, Spaces, 0);
      assert s[v] == gap[0];
    }
  }

  /** Overs laid out before a `)` end exactly at the `)`. */
  lemma OversAt(s: string, a: nat, b: nat, u: string)
    requires a < b < |s| && s[a..b] == u && IsOvers(u) && s[b] == ')'
    ensures In(Digits, s[a]) && OversEnd(s, a) == b
  {
    var d := Span(u, 0, Digits);
    AllUnslice(s, a, b, 0, d, Digits);
    AllAt(s, a, a + d, Digits, a);
    if d < |u| {
      assert s[a + d] == u[d];
    }
    SpanExact(s, a, a + d, Digits);
    if d < |u| && u[d] == '.' {
      AllUnslice(s, a, b, d + 1, |u|, Digits);
      SpanExact(s, a + d + 1, b, Digits);
    }
  }

  /** A rendered score lies at the end of whatever precedes it. */
  lemma RenderLaid(w: string, x: Score, z: string)
    ensures LaidAt(w + Render(x) + z, |w|, x)
  {
    var s := w + Render(x) + z;
    assert s == w + x.runs + [x.sep] + x.wickets + x.gap + ['('] + x.overs + [')'] + z;
  }

  // ---------------------------------------------------------------------------
  // The two patterns.

  /** What pass 1's pattern accepts is a score of the shape, spelling the whole text. */
  lemma BareScoreSound(text: string)
    requires BareScore(text).Some?
    ensures WellFormed(BareScore(text).value, true) && Render(BareScore(text).value) == text
  {
    ScoreAtSound(text, 0, true);
    assert text[0..|text|] == text;
  }

  /** Every rendered score of the shape is accepted by pass 1's pattern, with its own pieces. */
  lemma BareScoreComplete(x: Score)
    requires WellFormed(x, true)
    ensures BareScore(Render(x)) == Some(x)
  {
    var text := Render(x);
    assert LaidAt(text, 0, x) by {
      RenderLaid([], x, []);
      assert [] + text + [] == text;
    }
    assert ScoreAt(text, 0, true) == Hit(x, |text|) by {
      ScoreAtComplete(text, 0, x, true);
      assert |text| == Width(x);
    }
  }

  /** Pass 1's pattern matches exactly the rendered scores, and yields their pieces. */
  lemma BareScoreRoundTrip(x: Score, text: string)
    ensures BareScore(text) == Some(x) <==> WellFormed(x, true) && Render(x) == text
  {
    if BareScore(text) == Some(x) {
      BareScoreSound(text);
    }
    if WellFormed(x, true) && Render(x) == text {
      BareScoreComplete(x);
    }
  }

  /** Pass 2's pattern matches a 2-4 letter code, a score with nothing before `(`, and anything after. */
  lemma TaggedScoreMatches(code: string, x: Score, rest: string)
    requires 2 <= |code| <= 4 && All(code, 0, |code|, Capitals) && WellFormed(x, false)
    ensures TaggedScore(code + Render(x) + rest) == Some(x)
  {
    var s := code + Render(x) + rest;
    CodeEnds(code, x, rest);
    RenderLaid(code, x, rest);
    ScoreAtComplete(s, |code|, x, false);
  }

  /** The capitals run of a tagged score stops where the runs begin. */
  lemma CodeEnds(code: string, x: Score, rest: string)
    requires All(code, 0, |code|, Capitals) && WellFormed(x, false)
    ensures Span(code + Render(x) + rest, 0, Capitals) == |code|
  {
    var s := code + Render(x) + rest;
    AllAt(x.runs, 0, |x.runs|, Digits, 0);
    assert (Render(x) + rest)[0] == x.runs[0];
    assert s == [] + code + (Render(x) + rest);
    SpanAfter([], code, Render(x) + rest, Capitals);
  }

  /** Whatever pass 2's pattern accepts is a code, a score of the shape, and the rest of the text. */
  lemma TaggedScoreSound(text: string)
    requires TaggedScore(text).Some?
    ensures var c := Span(text, 0, Capitals);
      var x := TaggedScore(text).value;
      && 2 <= c <= 4 && All(text, 0, c, Capitals)
      && WellFormed(x, false) && c + |Render(x)| <= |text| && text[c..c + |Render(x)|] == Render(x)
  {
    var c := Span(text, 0, Capitals);
    ScoreAtSound(text, c, false);
  }

  /** Both separators and any spacing before `(` give the same normalised score. */
  lemma NormalFormIgnoresSeparator(runs: string, wickets: string, overs: string)
    requires |runs| > 0 && AllDigits(runs) && |wickets| > 0 && AllDigits(wickets) && IsOvers(overs)
    ensures var dash := BareScore(runs + "-" + wickets + "(" + overs + ")");
      var slash := BareScore(runs + "/" + wickets + " (" + overs + ")");
      && dash.Some? && slash.Some?
      && Normalised(dash.value) == Normalised(slash.value) == runs + "/" + wickets + " (" + overs + ")"
  {
    var dash := Score(runs, '-', wickets, [], overs);
    var slash := Score(runs, '/', wickets, " ", overs);
    assert All(" ", 0, 1, Spaces) by {
      assert In(Spaces, " "[0]);
    }
    var dashText := runs + "-" + wickets + "(" + overs + ")";
    var slashText := runs + "/" + wickets + " (" + overs + ")";
    assert runs + "-" + wickets + [] == runs + "-" + wickets;
    assert Render(dash) == dashText;
    assert Render(slash) == slashText;
    BareScoreRoundTrip(dash, dashText);
    BareScoreRoundTrip(slash, slashText);
    assert BareScore(dashText) == Some(dash);
    assert BareScore(slashText) == Some(slash);
  }

  /** A normalised score is itself a bare score, with the same normal form. */
  lemma NormalisedIsFixedPoint(x: Score)
    requires WellFormed(x, true)
    ensures BareScore(Normalised(x)).Some? && Normalised(BareScore(Normalised(x)).value) == Normalised(x)
  {
    var y := x.(sep := '/', gap := " ");
    assert All(" ", 0, 1, Spaces) by {
      assert In(Spaces, " "[0]);
    }
    assert Render(y) == Normalised(x);
    BareScoreRoundTrip(y, Normalised(x));
  }
}
