/**
 * The fixture-title pattern `^(.+?)\s+vs\s+(.+?),\s*(.+?)\s*-\s*(.+)$` of
 * `scrapeMatches`, with the backtracking of a JavaScript regular expression
 * written out. A match is a `Split` of the title at eight indices:
 *
 *   t[..a]     group 1, lazy `.+?`        t[a..b]    `\s+`, then "vs" at b
 *   t[b+2..c]  `\s+`                      t[c..d]    group 2, lazy `.+?`, then ',' at d
 *   t[d+1..e]  `\s*`                      t[e..f]    group 3, lazy `.+?`
 *   t[f..g]    `\s*`, then '-' at g       t[g+1..h]  `\s*`
 *   t[h..]     group 4, greedy `.+` up to the end
 *
 * The engine tries lazy quantifiers shortest first and greedy ones longest
 * first, so the match it reports is the first split in the order `Precedes`.
 * `SplitTitle` searches in exactly that order, and `SplitTitleIsFirstMatch`
 * proves it finds that first split whenever any split exists.
 */
module TitleSplit {
  import opened Wrappers
  import opened Text

  datatype Split = Split(a: nat, b: nat, c: nat, d: nat, e: nat, f: nat, g: nat, h: nat)

  // ---------------------------------------------------------------------------
  // The language of the pattern, one condition per stage, each about the
  // indices it places.

  /** Group 1: `.` excludes line terminators. */
  predicate StageA(t: string, s: Split)
  {
    0 < s.a <= |t| && All(t, 0, s.a, LineChars)
  }

  /** `\s+vs` after group 1. */
  predicate StageB(t: string, s: Split)
  {
    s.a < s.b && s.b + 2 <= |t| && All(t, s.a, s.b, Spaces) && t[s.b] == 'v' && t[s.b + 1] == 's'
  }

  /** `\s+` after "vs". */
  predicate StageC(t: string, s: Split)
  {
    s.b + 2 < s.c <= |t| && All(t, s.b + 2, s.c, Spaces)
  }

  /** Group 2 and the comma. */
  predicate StageD(t: string, s: Split)
  {
    s.c < s.d < |t| && All(t, s.c, s.d, LineChars) && t[s.d] == ','
  }

  /** `\s*` after the comma. */
  predicate StageE(t: string, s: Split)
  {
    s.d + 1 <= s.e <= |t| && All(t, s.d + 1, s.e, Spaces)
  }

  /** Group 3. */
  predicate StageF(t: string, s: Split)
  {
    s.e < s.f <= |t| && All(t, s.e, s.f, LineChars)
  }

  /** `\s*-` after group 3. */
  predicate StageG(t: string, s: Split)
  {
    s.f <= s.g < |t| && All(t, s.f, s.g, Spaces) && t[s.g] == '-'
  }

  /** `\s*(.+)$` after the dash. */
  predicate StageH(t: string, s: Split)
  {
    s.g + 1 <= s.h < |t| && All(t, s.g + 1, s.h, Spaces) && All(t, s.h, |t|, LineChars)
  }

  predicate Stage(t: string, s: Split, k: nat)
  {
    match k
    case 0 => StageA(t, s)
    case 1 => StageB(t, s)
    case 2 => StageC(t, s)
    case 3 => StageD(t, s)
    case 4 => StageE(t, s)
    case 5 => StageF(t, s)
    case 6 => StageG(t, s)
    case _ => StageH(t, s)
  }

  /** The stages from `k` on all hold: the rest of the pattern matches as `s` places it. */
  predicate From(t: string, s: Split, k: nat)
    decreases 8 - k
  {
    k >= 8 || (Stage(t, s, k) && From(t, s, k + 1))
  }

  /** `s` is a way for the whole pattern to match `t`. */
  predicate IsSplit(t: string, s: Split)
  {
    From(t, s, 0)
  }

  // ---------------------------------------------------------------------------
  // The engine's preference: lazy positions ascending, greedy ones descending.

  predicate FirstFromH(x: Split, y: Split)
  {
    x.h >= y.h
  }

  predicate FirstFromG(x: Split, y: Split)
  {
    x.g > y.g || (x.g == y.g && FirstFromH(x, y))
  }

  predicate FirstFromF(x: Split, y: Split)
  {
    x.f < y.f || (x.f == y.f && FirstFromG(x, y))
  }

  predicate FirstFromE(x: Split, y: Split)
  {
    x.e > y.e || (x.e == y.e && FirstFromF(x, y))
  }

  predicate FirstFromD(x: Split, y: Split)
  {
    x.d < y.d || (x.d == y.d && FirstFromE(x, y))
  }

  predicate FirstFromC(x: Split, y: Split)
  {
    x.c > y.c || (x.c == y.c && FirstFromD(x, y))
  }

  predicate FirstFromB(x: Split, y: Split)
  {
    x.b > y.b || (x.b == y.b && FirstFromC(x, y))
  }

  /** `x` is tried no later than `y`. */
  predicate Precedes(x: Split, y: Split)
  {
    x.a < y.a || (x.a == y.a && FirstFromB(x, y))
  }

  // ---------------------------------------------------------------------------
  // The search: one backtracking function over the pattern's steps.

  /** The pattern's steps in order; at each, `x` is the position the step tries next. */
  datatype Step = Group1 | BeforeVs | AfterVs | Group2 | AfterComma | Group3 | BeforeDash | AfterDash

  function Rank(k: Step): nat
  {
    match k
    case Group1 => 0
    case BeforeVs => 1
    case AfterVs => 2
    case Group2 => 3
    case AfterComma => 4
    case Group3 => 5
    case BeforeDash => 6
    case AfterDash => 7
  }

  /** What a step needs of the indices already placed and of its candidate `x`. */
  predicate Ready(t: string, s: Split, k: Step, x: nat)
  {
    match k
    case Group1 | Group2 | Group3 => 0 < x
    case BeforeVs => s.a <= |t|
    case AfterVs => s.b + 3 <= x
    case AfterComma => s.d + 1 <= x
    case BeforeDash => s.f <= |t|
    case AfterDash => s.g < |t|
  }

  /** Lazy steps count up towards the end of the title, greedy ones down towards their floor. */
  function Left(t: string, k: Step, x: nat): nat
  {
    match k
    case Group1 | Group2 | Group3 => if x <= |t| + 1 then |t| + 1 - x else 0
    case AfterVs | AfterComma => x
    case _ => 0
  }

  /**
   * The engine's backtracking from step `k` on: the first way to place the
   * remaining indices, trying `x` first, or `None` when every choice fails.
   * The spaces before "vs" and before the dash are forced, since neither 'v'
   * nor '-' is a space; group 4 must reach the end, so only the longest
   * spaces before it that leave it non-empty can be chosen.
   */
  function Search(t: string, s: Split, k: Step, x: nat): Option<Split>
    requires Ready(t, s, k, x)
    decreases 8 - Rank(k), Left(t, k, x)
  {
    match k
    case Group1 =>
      if x > |t| || !In(LineChars, t[x - 1]) then None
      else
        var r := Search(t, s.(a := x), BeforeVs, 0);
        if r.Some? then r else Search(t, s, Group1, x + 1)
    case BeforeVs =>
      var b := Span(t, s.a, Spaces);
      if s.a < b && b + 2 <= |t| && t[b] == 'v' && t[b + 1] == 's' && b + 2 < Span(t, b + 2, Spaces) then
        Search(t, s.(b := b), AfterVs, Span(t, b + 2, Spaces))
      else
        None
    case AfterVs =>
      var r := Search(t, s.(c := x), Group2, x + 1);
      if r.Some? then r else if x == s.b + 3 then None else Search(t, s, AfterVs, x - 1)
    case Group2 =>
      if x >= |t| || !In(LineChars, t[x - 1]) then None
      else
        var r := if t[x] == ',' then Search(t, s.(d := x), AfterComma, Span(t, x + 1, Spaces)) else None;
        if r.Some? then r else Search(t, s, Group2, x + 1)
    case AfterComma =>
      var r := Search(t, s.(e := x), Group3, x + 1);
      if r.Some? then r else if x == s.d + 1 then None else Search(t, s, AfterComma, x - 1)
    case Group3 =>
      if x > |t| || !In(LineChars, t[x - 1]) then None
      else
        var r := Search(t, s.(f := x), BeforeDash, 0);
        if r.Some? then r else Search(t, s, Group3, x + 1)
    case BeforeDash =>
      var g := Span(t, s.f, Spaces);
      if g < |t| && t[g] == '-' then Search(t, s.(g := g), AfterDash, 0) else None
    case AfterDash =>
      var top := Span(t, s.g + 1, Spaces);
      var h := if top < |t| then top else |t| - 1;
      if s.g + 1 <= h && All(t, h, |t|, LineChars) then Some(s.(h := h)) else None
  }

  // ---------------------------------------------------------------------------
  // Each step finds the first completion of the indices placed before it.

  // Each lemma takes the search's result as `r`, so that its own goal does
  // not unfold the search.

  lemma AfterDashFinds(t: string, s: Split, r: Option<Split>)
    requires s.g < |t| && r == Search(t, s, AfterDash, 0)
    ensures r.Some? ==> r.value == s.(h := r.value.h) && From(t, r.value, 7)
    ensures forall y :: From(t, y, 7) && y.g == s.g ==> r.Some? && FirstFromH(r.value, y)
  {
    forall y | From(t, y, 7) && y.g == s.g
      ensures r.Some? && FirstFromH(r.value, y)
    {
      SpanBounds(t, s.g + 1, y.h, Spaces);
    }
  }

  lemma BeforeDashFinds(t: string, s: Split, r: Option<Split>)
    requires s.f <= |t| && r == Search(t, s, BeforeDash, 0)
    ensures r.Some? ==> r.value == s.(g := r.value.g, h := r.value.h) && From(t, r.value, 6)
    ensures forall y :: From(t, y, 6) && y.f == s.f ==> r.Some? && FirstFromG(r.value, y)
  {
    var g := Span(t, s.f, Spaces);
    if g < |t| && t[g] == '-' {
      AfterDashFinds(t, s.(g := g), r);
    }
    forall y | From(t, y, 6) && y.f == s.f
      ensures y.g == g
    {
      SpanExact(t, s.f, y.g, Spaces);
    }
  }

  lemma {:induction false} Group3Finds(t: string, s: Split, x: nat, r: Option<Split>)
    requires s.e < x <= |t| + 1 && All(t, s.e, x - 1, LineChars) && r == Search(t, s, Group3, x)
    ensures r.Some? ==> r.value == s.(f := r.value.f, g := r.value.g, h := r.value.h) && From(t, r.value, 5) && x <= r.value.f
    ensures forall y :: From(t, y, 5) && y.e == s.e && x <= y.f ==> r.Some? && FirstFromF(r.value, y)
    decreases |t| + 1 - x
  {
    if x > |t| {
    } else if !In(LineChars, t[x - 1]) {
      forall y | From(t, y, 5) && y.e == s.e && x <= y.f
        ensures false
      {
      }
    } else {
      AllExtend(t, s.e, x - 1, LineChars);
      var here := Search(t, s.(f := x), BeforeDash, 0);
      BeforeDashFinds(t, s.(f := x), here);
      if here.None? {
        Group3Finds(t, s, x + 1, r);
      }
    }
  }

  lemma {:induction false} AfterCommaFinds(t: string, s: Split, x: nat, r: Option<Split>)
    requires s.d + 1 <= x && s.d + 1 <= |t| && x <= Span(t, s.d + 1, Spaces) && r == Search(t, s, AfterComma, x)
    ensures r.Some? ==> r.value == s.(e := r.value.e, f := r.value.f, g := r.value.g, h := r.value.h)
    ensures r.Some? ==> From(t, r.value, 4) && r.value.e <= x
    ensures forall y :: From(t, y, 4) && y.d == s.d && y.e <= x ==> r.Some? && FirstFromE(r.value, y)
    decreases x
  {
    SpanBounds(t, s.d + 1, x, Spaces);
    var here := Search(t, s.(e := x), Group3, x + 1);
    Group3Finds(t, s.(e := x), x + 1, here);
    if here.None? && x > s.d + 1 {
      AfterCommaFinds(t, s, x - 1, r);
    }
  }

  /** Group 2 ending at a comma at `x`: the spaces after the comma are tried longest first. */
  lemma CommaFinds(t: string, s: Split, x: nat, r: Option<Split>)
    requires s.c < x < |t| && All(t, s.c, x, LineChars) && t[x] == ','
    requires r == Search(t, s.(d := x), AfterComma, Span(t, x + 1, Spaces))
    ensures r.Some? ==> r.value.a == s.a && r.value.b == s.b && r.value.c == s.c && r.value.d == x && From(t, r.value, 3)
    ensures forall y :: From(t, y, 3) && y.c == s.c && y.d == x ==> r.Some? && FirstFromE(r.value, y)
  {
    var top := Span(t, x + 1, Spaces);
    AfterCommaFinds(t, s.(d := x), top, r);
    forall y | From(t, y, 3) && y.c == s.c && y.d == x
      ensures y.e <= top
    {
      SpanBounds(t, x + 1, y.e, Spaces);
    }
  }

  lemma {:induction false} Group2Finds(t: string, s: Split, x: nat, r: Option<Split>)
    requires s.c < x <= |t| + 1 && All(t, s.c, x - 1, LineChars) && r == Search(t, s, Group2, x)
    ensures r.Some? ==> r.value.a == s.a && r.value.b == s.b && r.value.c == s.c && From(t, r.value, 3) && x <= r.value.d
    ensures forall y :: From(t, y, 3) && y.c == s.c && x <= y.d ==> r.Some? && FirstFromD(r.value, y)
    decreases |t| + 1 - x
  {
    if x >= |t| {
    } else if !In(LineChars, t[x - 1]) {
      forall y | From(t, y, 3) && y.c == s.c && x <= y.d
        ensures false
      {
      }
    } else {
      AllExtend(t, s.c, x - 1, LineChars);
      var here := if t[x] == ',' then Search(t, s.(d := x), AfterComma, Span(t, x + 1, Spaces)) else None;
      if t[x] == ',' {
        CommaFinds(t, s, x, here);
      }
      if here.None? {
        Group2Finds(t, s, x + 1, r);
      }
    }
  }

  lemma {:induction false} AfterVsFinds(t: string, s: Split, x: nat, r: Option<Split>)
    requires s.b + 2 < x && s.b + 2 <= |t| && x <= Span(t, s.b + 2, Spaces) && r == Search(t, s, AfterVs, x)
    ensures r.Some? ==> r.value.a == s.a && r.value.b == s.b && From(t, r.value, 2) && r.value.c <= x
    ensures forall y :: From(t, y, 2) && y.b == s.b && y.c <= x ==> r.Some? && FirstFromC(r.value, y)
    decreases x
  {
    var here := Search(t, s.(c := x), Group2, x + 1);
    Group2Finds(t, s.(c := x), x + 1, here);
    if here.None? && x > s.b + 3 {
      AfterVsFinds(t, s, x - 1, r);
    }
  }

  lemma BeforeVsFinds(t: string, s: Split, r: Option<Split>)
    requires s.a <= |t| && r == Search(t, s, BeforeVs, 0)
    ensures r.Some? ==> r.value.a == s.a && From(t, r.value, 1)
    ensures forall y :: From(t, y, 1) && y.a == s.a ==> r.Some? && FirstFromB(r.value, y)
  {
    var b := Span(t, s.a, Spaces);
    if s.a < b && b + 2 <= |t| && t[b] == 'v' && t[b + 1] == 's' && b + 2 < Span(t, b + 2, Spaces) {
      AfterVsAtTop(t, s.(b := b), r);
    } else {
      forall y | From(t, y, 1) && y.a == s.a
        ensures false
      {
        StageBForced(t, y);
      }
    }
  }

  /** After a forced "vs", the search from the longest run of spaces finds the first completion. */
  lemma AfterVsAtTop(t: string, s: Split, r: Option<Split>)
    requires s.a <= |t| && s.b == Span(t, s.a, Spaces) && s.a < s.b && s.b + 2 <= |t| && t[s.b] == 'v' && t[s.b + 1] == 's'
    requires s.b + 2 < Span(t, s.b + 2, Spaces) && r == Search(t, s, AfterVs, Span(t, s.b + 2, Spaces))
    ensures r.Some? ==> r.value.a == s.a && From(t, r.value, 1)
    ensures forall y :: From(t, y, 1) && y.a == s.a ==> r.Some? && FirstFromB(r.value, y)
  {
    var top := Span(t, s.b + 2, Spaces);
    AfterVsFinds(t, s, top, r);
    if r.Some? {
      StageBFound(t, r.value);
    }
    forall y | From(t, y, 1) && y.a == s.a
      ensures r.Some? && FirstFromB(r.value, y)
    {
      StageBForced(t, y);
    }
  }

  /** Only the longest run of spaces can precede "vs", and "vs" needs a space after it. */
  lemma StageBForced(t: string, y: Split)
    requires From(t, y, 1)
    ensures From(t, y, 2)
    ensures y.b == Span(t, y.a, Spaces) && y.b + 2 <= |t| && t[y.b] == 'v' && t[y.b + 1] == 's'
    ensures y.b + 2 < y.c <= Span(t, y.b + 2, Spaces)
  {
    SpanExact(t, y.a, y.b, Spaces);
    SpanBounds(t, y.b + 2, y.c, Spaces);
  }

  lemma StageBFound(t: string, x: Split)
    requires x.a <= |t| && x.b == Span(t, x.a, Spaces) && x.a < x.b && x.b + 2 <= |t| && t[x.b] == 'v' && t[x.b + 1] == 's'
    requires From(t, x, 2)
    ensures From(t, x, 1)
  {
  }

  lemma {:induction false} Group1Finds(t: string, s: Split, x: nat, r: Option<Split>)
    requires 0 < x <= |t| + 1 && All(t, 0, x - 1, LineChars) && r == Search(t, s, Group1, x)
    ensures r.Some? ==> IsSplit(t, r.value) && x <= r.value.a
    ensures forall y :: IsSplit(t, y) && x <= y.a ==> r.Some? && Precedes(r.value, y)
    decreases |t| + 1 - x
  {
    if x > |t| {
    } else if !In(LineChars, t[x - 1]) {
      forall y | IsSplit(t, y) && x <= y.a
        ensures false
      {
      }
    } else {
      AllExtend(t, 0, x - 1, LineChars);
      var here := Search(t, s.(a := x), BeforeVs, 0);
      BeforeVsFinds(t, s.(a := x), here);
      if here.None? {
        Group1Finds(t, s, x + 1, r);
      }
    }
  }

  const Unplaced := Split(0, 0, 0, 0, 0, 0, 0, 0)

  /** The split the engine reports for `title.match(...)`, or `None` for `null`. */
  function SplitTitle(t: string): (r: Option<Split>)
    ensures r.Some? ==> IsSplit(t, r.value)
  {
    Group1Finds(t, Unplaced, 1, Search(t, Unplaced, Group1, 1));
    Search(t, Unplaced, Group1, 1)
  }

  /** The search finds a split exactly when the pattern matches, and then the one the engine prefers. */
  lemma SplitTitleIsFirstMatch(t: string)
    ensures SplitTitle(t).Some? <==> exists s :: IsSplit(t, s)
    ensures SplitTitle(t).Some? ==> forall s :: IsSplit(t, s) ==> Precedes(SplitTitle(t).value, s)
  {
    Group1Finds(t, Unplaced, 1, SplitTitle(t));
  }

  // ---------------------------------------------------------------------------
  // The captured groups.

  /** The four capture groups, untrimmed: teams, match info, status text. */
  datatype Groups = Groups(team1: string, team2: string, info: string, statusText: string)

  function GroupsOf(t: string, s: Split): Groups
    requires IsSplit(t, s)
  {
    Groups(t[..s.a], t[s.c..s.d], t[s.e..s.f], t[s.h..])
  }

  function MatchTitle(t: string): (r: Option<Groups>)
    ensures r.Some? <==> SplitTitle(t).Some?
  {
    var s := SplitTitle(t);
    if s.Some? then Some(GroupsOf(t, s.value)) else None
  }

  /** The groups, joined by the separators the pattern consumed around them, spell the title back. */
  lemma GroupsSpellTitle(t: string, s: Split)
    requires IsSplit(t, s)
    ensures t == GroupsOf(t, s).team1 + t[s.a..s.b] + "vs" + t[s.b + 2..s.c] + GroupsOf(t, s).team2 + ","
               + t[s.d + 1..s.e] + GroupsOf(t, s).info + t[s.f..s.g] + "-" + t[s.g + 1..s.h]
               + GroupsOf(t, s).statusText
  {
    SpellAt(t, s);
  }

  lemma SpellAt(t: string, s: Split)
    requires s.a <= s.b && s.b + 2 <= s.c <= s.d && s.d + 1 <= s.e <= s.f <= s.g && s.g + 1 <= s.h <= |t|
    requires t[s.b] == 'v' && t[s.b + 1] == 's' && t[s.d] == ',' && t[s.g] == '-'
    ensures t == t[..s.a] + t[s.a..s.b] + "vs" + t[s.b + 2..s.c] + t[s.c..s.d] + ","
               + t[s.d + 1..s.e] + t[s.e..s.f] + t[s.f..s.g] + "-" + t[s.g + 1..s.h] + t[s.h..]
  {
    assert t[s.b..s.b + 2] == "vs";
    assert t[s.d..s.d + 1] == ",";
    assert t[s.g..s.g + 1] == "-";
    PrefixGrows(t, s.a, s.b);
    PrefixGrows(t, s.b, s.b + 2);
    var p := t[..s.a] + t[s.a..s.b] + "vs";
    assert p == t[..s.b + 2];
    PrefixGrows(t, s.b + 2, s.c);
    PrefixGrows(t, s.c, s.d);
    PrefixGrows(t, s.d, s.d + 1);
    p := p + t[s.b + 2..s.c] + t[s.c..s.d] + ",";
    assert p == t[..s.d + 1];
    PrefixGrows(t, s.d + 1, s.e);
    PrefixGrows(t, s.e, s.f);
    PrefixGrows(t, s.f, s.g);
    PrefixGrows(t, s.g, s.g + 1);
    p := p + t[s.d + 1..s.e] + t[s.e..s.f] + t[s.f..s.g] + "-";
    assert p == t[..s.g + 1];
    PrefixGrows(t, s.g + 1, s.h);
    PrefixGrows(t, s.h, |t|);
    assert t == p + t[s.g + 1..s.h] + t[s.h..];
  }

  /** The separators between the groups are whitespace only. */
  lemma SeparatorsAreSpaces(t: string, s: Split)
    requires IsSplit(t, s)
    ensures All(t, s.a, s.b, Spaces) && All(t, s.b + 2, s.c, Spaces) && All(t, s.d + 1, s.e, Spaces)
    ensures All(t, s.f, s.g, Spaces) && All(t, s.g + 1, s.h, Spaces)
  {
  }
}
