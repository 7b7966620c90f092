/**
 * `scrapeMatchScore` after the page has been reduced to its `div`s: two passes
 * in page order fill a first and a second score slot, and the result exists
 * exactly when the first slot was filled.
 *
 * The loops of `ExtractScores` are proved equal to `ScoresOf`, a definition
 * that says which score lands in which slot without any running state.
 */
module ScoreExtraction {
  import opened Wrappers
  import opened Text
  import opened Scores

  // ---------------------------------------------------------------------------
  // What a div contributes.

  /** A `div` of a match page: its own text (children removed) and its full text. */
  datatype Div = Div(ownText: string, fullText: string)

  /** `replace(/\s+/g, '')`: the text with every whitespace character dropped. */
  function StripSpaces(s: string): (r: string)
    ensures |r| <= |s|
    ensures forall k :: 0 <= k < |r| ==> !In(Spaces, r[k])
  {
    if |s| == 0 then []
    else if In(Spaces, s[0]) then StripSpaces(s[1..])
    else [s[0]] + StripSpaces(s[1..])
  }

  lemma {:induction false} StripSpacesConcat(a: string, b: string)
    ensures StripSpaces(a + b) == StripSpaces(a) + StripSpaces(b)
  {
    if |a| == 0 {
      assert a + b == b;
    } else {
      assert (a + b)[0] == a[0];
      assert (a + b)[1..] == a[1..] + b;
      StripSpacesConcat(a[1..], b);
    }
  }

  /** A text of whitespace only strips to nothing. */
  lemma {:induction false} StripAllSpaces(s: string)
    requires All(s, 0, |s|, Spaces)
    ensures StripSpaces(s) == []
  {
    if |s| > 0 {
      AllAt(s, 0, |s|, Spaces, 0);
      forall k | 0 <= k < |s| - 1 ensures In(Spaces, s[1..][k]) {
        AllAt(s, 0, |s|, Spaces, k + 1);
      }
      StripAllSpaces(s[1..]);
    }
  }

  /** A text without whitespace is left as it is. */
  lemma {:induction false} StripKeepsSpaceless(s: string)
    requires forall k :: 0 <= k < |s| ==> !In(Spaces, s[k])
    ensures StripSpaces(s) == s
  {
    if |s| > 0 {
      assert s[0] !in [] && !In(Spaces, s[0]);
      StripKeepsSpaceless(s[1..]);
      assert [s[0]] + s[1..] == s;
    }
  }

  /** The `trim()` before the whitespace removal in pass 2 changes nothing. */
  lemma StripIgnoresTrim(s: string)
    ensures StripSpaces(Trim(s)) == StripSpaces(s)
  {
    var pre, post := TrimSurround(s);
    var mid := Trim(s);
    StripAllSpaces(pre);
    StripAllSpaces(post);
    StripSpacesConcat(pre + mid, post);
    StripSpacesConcat(pre, mid);
    assert [] + StripSpaces(mid) + [] == StripSpaces(mid);
  }

  /** `trim()` drops whitespace only. */
  lemma TrimSurround(s: string) returns (pre: string, post: string)
    ensures s == pre + Trim(s) + post
    ensures All(pre, 0, |pre|, Spaces) && All(post, 0, |post|, Spaces)
  {
    var b := TrimBounds(s);
    pre, post := s[..b.0], s[b.1..];
    assert s == pre + s[b.0..b.1] + post;
    AllSlice(s, 0, b.0, Spaces);
    assert s[0..b.0] == pre;
    AllSlice(s, b.1, |s|, Spaces);
  }

  /** Pass 1 on one div: the trimmed own text as a whole bare score, normalised. */
  function OwnScore(d: Div): Option<string>
  {
    match BareScore(Trim(d.ownText))
    case None => None
    case Some(x) => Some(Normalised(x))
  }

  /** Pass 2 on one div: a tagged score at the start of the whitespace-free full text, normalised. */
  function FullScore(d: Div): Option<string>
  {
    match TaggedScore(StripSpaces(Trim(d.fullText)))
    case None => None
    case Some(x) => Some(Normalised(x))
  }

  /** A score in the reported form: one the bare pattern reads back to itself. */
  predicate IsReported(n: string)
  {
    BareScore(n).Some? && Normalised(BareScore(n).value) == n
  }

  /** Every score either pass reports is non-empty and in the normal form `R/W (O)`. */
  lemma ReportedScoresAreNormal(d: Div)
    ensures OwnScore(d).Some? ==> IsReported(OwnScore(d).value) && OwnScore(d).value != []
    ensures FullScore(d).Some? ==> IsReported(FullScore(d).value) && FullScore(d).value != []
  {
    var own := BareScore(Trim(d.ownText));
    if own.Some? {
      BareScoreSound(Trim(d.ownText));
      NormalisedIsFixedPoint(own.value);
    }
    var full := TaggedScore(StripSpaces(Trim(d.fullText)));
    if full.Some? {
      TaggedScoreSound(StripSpaces(Trim(d.fullText)));
      assert WellFormed(full.value, true);
      NormalisedIsFixedPoint(full.value);
    }
  }

  // ---------------------------------------------------------------------------
  // The two slots and the passes over them.

  /** The `scores` object: `team1Score` and `team2Score`, each possibly unset. */
  datatype Slots = Slots(team1: Option<string>, team2: Option<string>)

  /** What `scrapeMatchScore` returns when it finds a first score. */
  datatype MatchScores = MatchScores(team1Score: string, team2Score: Option<string>)

  /** The second slot only ever holds a score different from the first. */
  predicate Consistent(sl: Slots)
  {
    sl.team2.Some? ==> sl.team1.Some? && sl.team2.value != sl.team1.value
  }

  /** Pass 1 on one div: a score fills the first slot if it is still empty. */
  function OfferOwn(sl: Slots, score: Option<string>): (r: Slots)
    ensures sl.team1.Some? ==> r == sl
    ensures sl.team1.None? ==> r.team1 == score && r.team2 == sl.team2
  {
    if score.Some? && sl.team1.None? then sl.(team1 := score) else sl
  }

  /** Pass 2 on one div: a score fills the first slot if empty, else the second if empty and different. */
  function OfferFull(sl: Slots, score: Option<string>): (r: Slots)
    ensures sl.team1.Some? ==> r.team1 == sl.team1
    ensures sl.team2.Some? ==> r.team2 == sl.team2
    ensures Consistent(sl) ==> Consistent(r)
    ensures r.team2 != sl.team2 ==> sl.team1.Some? && r.team2 == score && score != sl.team1
  {
    if score.None? then sl
    else if sl.team1.None? then sl.(team1 := score)
    else if sl.team2.None? && score.value != sl.team1.value then sl.(team2 := score)
    else sl
  }

  /** Pass 1 over the divs in page order. */
  function PassOne(divs: seq<Div>): Slots
  {
    if |divs| == 0 then Slots(None, None)
    else OfferOwn(PassOne(divs[..|divs| - 1]), OwnScore(divs[|divs| - 1]))
  }

  /** Pass 2 over the divs in page order, from the slots pass 1 left. */
  function PassTwo(start: Slots, divs: seq<Div>): Slots
  {
    if |divs| == 0 then start
    else OfferFull(PassTwo(start, divs[..|divs| - 1]), FullScore(divs[|divs| - 1]))
  }

  /** `return scores.team1Score ? scores : null`. */
  function Finish(sl: Slots): (r: Option<MatchScores>)
    ensures r.Some? <==> sl.team1.Some?
  {
    if sl.team1.Some? then Some(MatchScores(sl.team1.value, sl.team2)) else None
  }

  // ---------------------------------------------------------------------------
  // The reference: which score lands where, without running state.

  /** The scores a pass finds, in page order. */
  function OwnScores(divs: seq<Div>): seq<string>
  {
    if |divs| == 0 then []
    else
      var d := divs[|divs| - 1];
      OwnScores(divs[..|divs| - 1]) + (if OwnScore(d).Some? then [OwnScore(d).value] else [])
  }

  function FullScores(divs: seq<Div>): seq<string>
  {
    if |divs| == 0 then []
    else
      var d := divs[|divs| - 1];
      FullScores(divs[..|divs| - 1]) + (if FullScore(d).Some? then [FullScore(d).value] else [])
  }

  /** The first element of `xs` that differs from `t`. */
  function FirstOther(xs: seq<string>, t: string): (r: Option<string>)
    ensures r.Some? ==> r.value in xs && r.value != t
    ensures r.None? ==> forall k :: 0 <= k < |xs| ==> xs[k] == t
    ensures r.Some? ==> exists k :: 0 <= k < |xs| && xs[k] == r.value && forall j :: 0 <= j < k ==> xs[j] == t
  {
    if |xs| == 0 then None
    else if xs[0] != t then Some(xs[0])
    else FirstOther(xs[1..], t)
  }

  /**
   * The first score is the first pass 1 score, or failing that the first
   * pass 2 score; the second is the first pass 2 score different from it.
   */
  function ScoresOf(divs: seq<Div>): Option<MatchScores>
  {
    var own := OwnScores(divs);
    var full := FullScores(divs);
    if |own| > 0 then Some(MatchScores(own[0], FirstOther(full, own[0])))
    else if |full| > 0 then Some(MatchScores(full[0], FirstOther(full, full[0])))
    else None
  }

  lemma {:induction false} FirstOtherAppend(xs: seq<string>, y: string, t: string)
    ensures FirstOther(xs + [y], t) == if FirstOther(xs, t).Some? then FirstOther(xs, t) else if y != t then Some(y) else None
  {
    if |xs| == 0 {
      assert (xs + [y])[1..] == [];
    } else {
      assert (xs + [y])[0] == xs[0];
      assert (xs + [y])[1..] == xs[1..] + [y];
      FirstOtherAppend(xs[1..], y, t);
    }
  }

  /** Pass 1 fills the first slot with the first score it finds, and nothing else. */
  lemma {:induction false} PassOneTakesFirst(divs: seq<Div>)
    ensures var own := OwnScores(divs);
      PassOne(divs) == Slots(if |own| > 0 then Some(own[0]) else None, None)
  {
    if |divs| > 0 {
      PassOneTakesFirst(divs[..|divs| - 1]);
    }
  }

  /** Pass 2 keeps a filled first slot, fills an empty one with its first score, and puts the first different score second. */
  lemma {:induction false} PassTwoFills(start: Slots, divs: seq<Div>)
    requires start.team2.None?
    ensures var full := FullScores(divs);
      var t1 := if start.team1.Some? then start.team1 else if |full| > 0 then Some(full[0]) else None;
      PassTwo(start, divs) == Slots(t1, if t1.Some? then FirstOther(full, t1.value) else None)
  {
    if |divs| > 0 {
      var before := divs[..|divs| - 1];
      var d := divs[|divs| - 1];
      PassTwoFills(start, before);
      var prev := FullScores(before);
      var full := FullScores(divs);
      var t1 := if start.team1.Some? then start.team1 else if |prev| > 0 then Some(prev[0]) else None;
      if FullScore(d).Some? {
        var y := FullScore(d).value;
        assert full == prev + [y];
        if t1.None? {
          assert full == [y];
          assert FirstOther(full[1..], y) == None;
        } else {
          assert |prev| > 0 ==> full[0] == prev[0];
          FirstOtherAppend(prev, y, t1.value);
        }
      } else {
        assert full == prev;
      }
    }
  }

  /** Running both passes and finishing gives the reference outcome. */
  lemma PassesMatchReference(divs: seq<Div>)
    ensures Finish(PassTwo(PassOne(divs), divs)) == ScoresOf(divs)
  {
    PassOneTakesFirst(divs);
    PassTwoFills(PassOne(divs), divs);
  }

  // ---------------------------------------------------------------------------
  // The extractor.

  method ExtractScores(divs: seq<Div>) returns (r: Option<MatchScores>)
    ensures r == ScoresOf(divs)
    ensures r.None? <==> OwnScores(divs) == [] && FullScores(divs) == []
    ensures r.Some? && r.value.team2Score.Some? ==> r.value.team2Score.value != r.value.team1Score
    ensures r.Some? && |OwnScores(divs)| > 0 ==> r.value.team1Score == OwnScores(divs)[0]
  {
    var slots := Slots(None, None);
    var k := 0;
    while k < |divs|
      invariant k <= |divs|
      invariant slots == PassOne(divs[..k])
    {
      assert divs[..k + 1][..k] == divs[..k];
      slots := OfferOwn(slots, OwnScore(divs[k]));
      k := k + 1;
    }
    assert divs[..k] == divs;
    var first := slots;
    assert first.team2.None? by {
      PassOneTakesFirst(divs);
    }
    k := 0;
    while k < |divs|
      invariant k <= |divs|
      invariant slots == PassTwo(first, divs[..k])
      invariant Consistent(slots)
    {
      assert divs[..k + 1][..k] == divs[..k];
      slots := OfferFull(slots, FullScore(divs[k]));
      k := k + 1;
    }
    assert divs[..k] == divs;
    r := Finish(slots);
    PassesMatchReference(divs);
  }
}
