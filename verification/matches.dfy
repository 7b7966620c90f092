/**
 * The anchor loop of `scrapeMatches`: every `a[href*="/live-cricket-scores/"]`
 * of the matches page, in page order, with its `title` and `href` attributes.
 *
 * An anchor is handled only the first time its href appears, and the href is
 * remembered before any filter runs. A handled anchor must belong to the series
 * and have a title of the form "A vs B, info - status". The match it yields goes
 * to `today` (completed or live, at most 5) or `upcoming` (at most 6), and a live
 * match placed in `today` queues a score fetch for its href.
 *
 * `DecodeMatches` is proved equal to what `Kept`, `Todays`, `Upcomings`, `Cap` and
 * `LiveFetches` describe: which match lands where, without any running state.
 */
module MatchList {
  import opened Wrappers
  import opened Text
  import opened Records
  import opened StatusClassifier
  import opened TitleSplit
  import opened ScoreExtraction

  // ---------------------------------------------------------------------------
  // One anchor.

  /** An anchor's `title` and `href` attributes, each "" when absent. */
  datatype Anchor = Anchor(title: string, href: string)

  const SeriesSlug := "icc-mens-t20-world-cup-2026"
  const SeriesTitle := "t20 world cup 2026"

  /** The series filter: the href names the series, or the lower-cased title does. */
  predicate InSeries(a: Anchor)
  {
    Contains(a.href, SeriesSlug) || Contains(Lower(a.title), SeriesTitle)
  }

  /** `match-${index}`, where `index` counts every anchor on the page. */
  function MatchId(index: nat): string
  {
    "match-" + NatToDecimal(index)
  }

  /** The match for the title groups of the anchor at `index`. */
  function BuildMatch(index: nat, g: Groups): Match
  {
    var statusText := Trim(g.statusText);
    var status := Classify(statusText);
    Match(MatchId(index), Trim(g.team1), Trim(g.team2), None, None,
          if status == Completed then Some(statusText) else None,
          Trim(g.info), "", status)
  }

  /** The series filter, then the title split. */
  function Decode(index: nat, a: Anchor): Option<Match>
  {
    if !InSeries(a) then None
    else
      match MatchTitle(a.title)
      case None => None
      case Some(g) => Some(BuildMatch(index, g))
  }

  /** Ids name the anchor index, and different indices give different ids. */
  lemma MatchIdInjective(i: nat, j: nat)
    ensures MatchId(i) == MatchId(j) <==> i == j
  {
    if MatchId(i) == MatchId(j) {
      assert NatToDecimal(i) == MatchId(i)[6..];
      assert NatToDecimal(j) == MatchId(j)[6..];
      NatToDecimalInjective(i, j);
    }
  }

  /** What a decoded match holds: `result` is the trimmed status text exactly when the match is completed. */
  lemma DecodedMatch(index: nat, a: Anchor)
    ensures Decode(index, a).Some? <==> InSeries(a) && MatchTitle(a.title).Some?
    ensures Decode(index, a).Some? ==>
      var m := Decode(index, a).value;
      var g := MatchTitle(a.title).value;
      && m.id == MatchId(index)
      && m.team1 == Trim(g.team1) && m.team2 == Trim(g.team2) && m.venue == Trim(g.info)
      && m.status == Classify(Trim(g.statusText))
      && (m.result.Some? <==> m.status == Completed)
      && (m.result.Some? ==> m.result.value == Trim(g.statusText))
      && m.team1Score.None? && m.team2Score.None? && m.time == ""
  {
  }

  // ---------------------------------------------------------------------------
  // The loop state and one step of it.

  /** A queued score fetch: the position of the live match in `today` and the href to fetch. */
  datatype Fetch = Fetch(slot: nat, href: string)

  /** `seenHrefs`, `today`, `upcoming` and `liveMatchUrls`. */
  datatype State = State(seen: set<string>, today: seq<Match>, upcoming: seq<Match>, fetches: seq<Fetch>)

  const TodayCap := 5
  const UpcomingCap := 6

  predicate IsToday(s: Status) { s == Completed || s == Live }

  /** Bucketing of one decoded match. */
  function Place(st: State, m: Match, href: string): State
  {
    if IsToday(m.status) then
      if |st.today| < TodayCap then
        st.(today := st.today + [m],
            fetches := st.fetches + if m.status == Live then [Fetch(|st.today|, href)] else [])
      else st
    else if |st.upcoming| < UpcomingCap then st.(upcoming := st.upcoming + [m])
    else st
  }

  /**
   * The loop body for anchor `a`, given `d`, what decoding it would give. The
   * href is recorded before the decoding is looked at.
   */
  function Step(st: State, a: Anchor, d: Option<Match>): State
  {
    if a.href in st.seen then st
    else
      var st' := st.(seen := st.seen + {a.href});
      match d
      case None => st'
      case Some(m) => Place(st', m, a.href)
  }

  /** What decoding each anchor of the page gives. */
  function Decodes(anchors: seq<Anchor>): (ds: seq<Option<Match>>)
    ensures |ds| == |anchors|
    ensures forall k :: 0 <= k < |anchors| ==> ds[k] == Decode(k, anchors[k])
  {
    seq(|anchors|, k requires 0 <= k < |anchors| => Decode(k, anchors[k]))
  }

  /** The loop over a page's anchors, given what each decodes to. */
  function Run(anchors: seq<Anchor>, ds: seq<Option<Match>>): State
    requires |ds| == |anchors|
  {
    if |anchors| == 0 then State({}, [], [], [])
    else
      var k := |anchors| - 1;
      Step(Run(anchors[..k], ds[..k]), anchors[k], ds[k])
  }

  // ---------------------------------------------------------------------------
  // The reference: which anchors are kept and where they land.

  /** A kept anchor: its index, its href and its match. */
  datatype Entry = Entry(index: nat, href: string, m: Match)

  function Hrefs(anchors: seq<Anchor>): set<string>
  {
    if |anchors| == 0 then {} else Hrefs(anchors[..|anchors| - 1]) + {anchors[|anchors| - 1].href}
  }

  /** No earlier anchor has the same href. */
  predicate IsFirst(anchors: seq<Anchor>, k: nat)
    requires k < |anchors|
  {
    forall j :: 0 <= j < k ==> anchors[j].href != anchors[k].href
  }

  /** The first occurrences of hrefs that decode, in page order. */
  function Kept(anchors: seq<Anchor>, ds: seq<Option<Match>>): seq<Entry>
    requires |ds| == |anchors|
  {
    if |anchors| == 0 then []
    else
      var k := |anchors| - 1;
      var a := anchors[k];
      Kept(anchors[..k], ds[..k]) + if a.href !in Hrefs(anchors[..k]) && ds[k].Some? then [Entry(k, a.href, ds[k].value)] else []
  }

  function Todays(es: seq<Entry>): (r: seq<Entry>)
  {
    if |es| == 0 then []
    else Todays(es[..|es| - 1]) + if IsToday(es[|es| - 1].m.status) then [es[|es| - 1]] else []
  }

  function Upcomings(es: seq<Entry>): (r: seq<Entry>)
  {
    if |es| == 0 then []
    else Upcomings(es[..|es| - 1]) + if es[|es| - 1].m.status == Upcoming then [es[|es| - 1]] else []
  }

  /** The first `n` elements, or all of them when there are fewer. */
  function Cap<T>(xs: seq<T>, n: nat): (r: seq<T>)
    ensures r <= xs && |r| == if |xs| < n then |xs| else n
  {
    if |xs| <= n then xs else xs[..n]
  }

  function Matches(es: seq<Entry>): (r: seq<Match>)
    ensures |r| == |es|
    ensures forall i :: 0 <= i < |es| ==> r[i] == es[i].m
  {
    if |es| == 0 then [] else Matches(es[..|es| - 1]) + [es[|es| - 1].m]
  }

  /** A fetch for each live entry, naming its position. */
  function LiveFetches(es: seq<Entry>): seq<Fetch>
  {
    if |es| == 0 then []
    else
      var k := |es| - 1;
      LiveFetches(es[..k]) + if es[k].m.status == Live then [Fetch(k, es[k].href)] else []
  }

  // ---------------------------------------------------------------------------
  // The loop computes the reference.

  lemma {:induction false} HrefsMember(anchors: seq<Anchor>, h: string)
    ensures h in Hrefs(anchors) <==> exists j :: 0 <= j < |anchors| && anchors[j].href == h
  {
    if |anchors| > 0 {
      var k := |anchors| - 1;
      HrefsMember(anchors[..k], h);
      if h in Hrefs(anchors[..k]) {
        var j :| 0 <= j < k && anchors[..k][j].href == h;
        assert anchors[j].href == h;
      }
      if exists j :: 0 <= j < |anchors| && anchors[j].href == h {
        var j :| 0 <= j < |anchors| && anchors[j].href == h;
        if j < k {
          assert anchors[..k][j].href == h;
        }
      }
    }
  }

  lemma {:induction false} CapAppend<T>(xs: seq<T>, y: T, n: nat)
    ensures Cap(xs + [y], n) == if |xs| < n then xs + [y] else Cap(xs, n)
  {
    if |xs| >= n {
      assert (xs + [y])[..n] == (if |xs| <= n then xs else xs[..n]);
    }
  }

  lemma AppendLast<T>(xs: seq<T>, y: T)
    ensures (xs + [y])[..|xs|] == xs && (xs + [y])[|xs|] == y
  {
  }

  /** The state after one more anchor, in terms of the reference. */
  predicate Reflects(anchors: seq<Anchor>, ds: seq<Option<Match>>, st: State)
    requires |ds| == |anchors|
  {
    var kept := Kept(anchors, ds);
    var todays := Cap(Todays(kept), TodayCap);
    && st.seen == Hrefs(anchors)
    && st.today == Matches(todays)
    && st.upcoming == Matches(Cap(Upcomings(kept), UpcomingCap))
    && st.fetches == LiveFetches(todays)
  }

  lemma {:induction false} RunReflects(anchors: seq<Anchor>, ds: seq<Option<Match>>)
    requires |ds| == |anchors|
    ensures Reflects(anchors, ds, Run(anchors, ds))
  {
    if |anchors| > 0 {
      var k := |anchors| - 1;
      RunReflects(anchors[..k], ds[..k]);
      StepReflects(anchors, ds, Run(anchors[..k], ds[..k]));
    }
  }

  lemma StepReflects(anchors: seq<Anchor>, ds: seq<Option<Match>>, st: State)
    requires |ds| == |anchors| > 0
    requires Reflects(anchors[..|anchors| - 1], ds[..|anchors| - 1], st)
    ensures Reflects(anchors, ds, Step(st, anchors[|anchors| - 1], ds[|anchors| - 1]))
  {
    var k := |anchors| - 1;
    var before := anchors[..k];
    var a := anchors[k];
    var next := Step(st, a, ds[k]);
    assert Hrefs(anchors) == Hrefs(before) + {a.href};
    var kept := Kept(before, ds[..k]);
    if a.href in Hrefs(before) {
      assert Kept(anchors, ds) == kept;
      assert next == st;
    } else if ds[k].None? {
      assert Kept(anchors, ds) == kept;
      assert next == st.(seen := Hrefs(anchors));
    } else {
      var e := Entry(k, a.href, ds[k].value);
      assert Kept(anchors, ds) == kept + [e];
      assert next == Place(st.(seen := Hrefs(anchors)), e.m, e.href);
      PlaceReflects(kept, e, st.(seen := Hrefs(anchors)));
    }
  }

  /** Placing one more kept entry extends the reference buckets by it. */
  lemma PlaceReflects(kept: seq<Entry>, e: Entry, st: State)
    requires
      var todays := Cap(Todays(kept), TodayCap);
      && st.today == Matches(todays)
      && st.upcoming == Matches(Cap(Upcomings(kept), UpcomingCap))
      && st.fetches == LiveFetches(todays)
    ensures
      var todays := Cap(Todays(kept + [e]), TodayCap);
      var r := Place(st, e.m, e.href);
      && r.seen == st.seen
      && r.today == Matches(todays)
      && r.upcoming == Matches(Cap(Upcomings(kept + [e]), UpcomingCap))
      && r.fetches == LiveFetches(todays)
  {
    BucketsAppend(kept, e);
    var ts := Todays(kept);
    var us := Upcomings(kept);
    if IsToday(e.m.status) {
      assert Upcomings(kept + [e]) == us;
      TodayAppend(ts, e, st);
    } else {
      assert Todays(kept + [e]) == ts;
      UpcomingAppend(us, e, st);
    }
  }

  lemma BucketsAppend(kept: seq<Entry>, e: Entry)
    ensures Todays(kept + [e]) == Todays(kept) + if IsToday(e.m.status) then [e] else []
    ensures Upcomings(kept + [e]) == Upcomings(kept) + if e.m.status == Upcoming then [e] else []
  {
    AppendLast(kept, e);
  }

  lemma TodayAppend(ts: seq<Entry>, e: Entry, st: State)
    requires IsToday(e.m.status)
    requires st.today == Matches(Cap(ts, TodayCap)) && st.fetches == LiveFetches(Cap(ts, TodayCap))
    ensures var r := Place(st, e.m, e.href);
      && r.seen == st.seen && r.upcoming == st.upcoming
      && r.today == Matches(Cap(ts + [e], TodayCap))
      && r.fetches == LiveFetches(Cap(ts + [e], TodayCap))
  {
    CapAppend(ts, e, TodayCap);
    if |ts| < TodayCap {
      AppendLast(ts, e);
      assert Matches(ts + [e]) == Matches(ts) + [e.m];
      assert LiveFetches(ts + [e]) == LiveFetches(ts) + if e.m.status == Live then [Fetch(|ts|, e.href)] else [];
    }
  }

  lemma UpcomingAppend(us: seq<Entry>, e: Entry, st: State)
    requires !IsToday(e.m.status)
    requires st.upcoming == Matches(Cap(us, UpcomingCap))
    ensures var r := Place(st, e.m, e.href);
      && r.seen == st.seen && r.today == st.today && r.fetches == st.fetches
      && r.upcoming == Matches(Cap(us + [e], UpcomingCap))
  {
    CapAppend(us, e, UpcomingCap);
    if |us| < UpcomingCap {
      AppendLast(us, e);
      assert Matches(us + [e]) == Matches(us) + [e.m];
    }
  }

  // ---------------------------------------------------------------------------
  // What the reference promises.

  /** An href not among the earlier ones is exactly a first occurrence. */
  lemma UnseenIsFirst(anchors: seq<Anchor>, k: nat)
    requires k < |anchors|
    ensures anchors[k].href !in Hrefs(anchors[..k]) <==> IsFirst(anchors, k)
  {
    HrefsMember(anchors[..k], anchors[k].href);
    if !IsFirst(anchors, k) {
      var j :| 0 <= j < k && anchors[j].href == anchors[k].href;
      assert anchors[..k][j] == anchors[j];
    }
  }

  /** Some kept entry comes from the anchor at `k`. */
  predicate IsKept(kept: seq<Entry>, k: nat)
  {
    exists i :: 0 <= i < |kept| && kept[i].index == k
  }

  /** `e` is the anchor at its index, with the match that anchor decodes to. */
  predicate EntryOf(anchors: seq<Anchor>, ds: seq<Option<Match>>, e: Entry)
  {
    e.index < |anchors| && e.index < |ds| && e.href == anchors[e.index].href && ds[e.index] == Some(e.m)
  }

  /** Each kept entry is its anchor's href and decoded match, and the entries follow page order. */
  lemma {:induction false} KeptEntries(anchors: seq<Anchor>, ds: seq<Option<Match>>)
    requires |ds| == |anchors|
    ensures forall i :: 0 <= i < |Kept(anchors, ds)| ==> EntryOf(anchors, ds, Kept(anchors, ds)[i])
    ensures forall i, j :: 0 <= i < j < |Kept(anchors, ds)| ==> Kept(anchors, ds)[i].index < Kept(anchors, ds)[j].index
  {
    if |anchors| > 0 {
      var k := |anchors| - 1;
      var pre := Kept(anchors[..k], ds[..k]);
      var kept := Kept(anchors, ds);
      KeptEntries(anchors[..k], ds[..k]);
      forall i | 0 <= i < |kept| ensures EntryOf(anchors, ds, kept[i]) {
        if i < |pre| {
          assert kept[i] == pre[i];
          assert EntryOf(anchors[..k], ds[..k], pre[i]);
        }
      }
      forall i, j | 0 <= i < j < |kept| ensures kept[i].index < kept[j].index {
        assert kept[i] == pre[i];
        if j < |pre| {
          assert kept[j] == pre[j];
        }
      }
    }
  }

  /** The anchor at `k` is kept exactly when its href appears there first and it decodes. */
  lemma {:induction false} KeptIffFirstAndDecodes(anchors: seq<Anchor>, ds: seq<Option<Match>>, k: nat)
    requires |ds| == |anchors| && k < |anchors|
    ensures IsKept(Kept(anchors, ds), k) <==> IsFirst(anchors, k) && ds[k].Some?
  {
    var n := |anchors| - 1;
    if k < n {
      KeptIffFirstAndDecodes(anchors[..n], ds[..n], k);
      assert ds[..n][k] == ds[k];
      KeptIffEarlier(anchors, ds, k);
    } else {
      KeptIffLast(anchors, ds);
    }
  }

  /** An anchor before the last is kept by the whole list exactly when it is kept by the list without the last. */
  lemma {:induction false} KeptIffEarlier(anchors: seq<Anchor>, ds: seq<Option<Match>>, k: nat)
    requires |ds| == |anchors| && k + 1 < |anchors|
    requires IsKept(Kept(anchors[..|anchors| - 1], ds[..|anchors| - 1]), k)
             <==> IsFirst(anchors[..|anchors| - 1], k) && ds[k].Some?
    ensures IsKept(Kept(anchors, ds), k) <==> IsFirst(anchors, k) && ds[k].Some?
  {
    var n := |anchors| - 1;
    KeptGrowsByLast(anchors, ds);
    IsKeptExtend(Kept(anchors[..n], ds[..n]), Kept(anchors, ds), k, n);
    assert IsFirst(anchors[..n], k) <==> IsFirst(anchors, k);
  }

  /** Appending the last anchor adds at most its own entry. */
  lemma KeptGrowsByLast(anchors: seq<Anchor>, ds: seq<Option<Match>>)
    requires |ds| == |anchors| && 0 < |anchors|
    ensures Kept(anchors[..|anchors| - 1], ds[..|anchors| - 1]) <= Kept(anchors, ds)
    ensures forall i :: |Kept(anchors[..|anchors| - 1], ds[..|anchors| - 1])| <= i < |Kept(anchors, ds)| ==>
      Kept(anchors, ds)[i].index == |anchors| - 1
  { }

  /** Entries appended for another index do not change whether `k` is kept. */
  lemma IsKeptExtend(before: seq<Entry>, kept: seq<Entry>, k: nat, n: nat)
    requires before <= kept && k != n
    requires forall i :: |before| <= i < |kept| ==> kept[i].index == n
    ensures IsKept(kept, k) <==> IsKept(before, k)
  {
    if IsKept(kept, k) {
      var i :| 0 <= i < |kept| && kept[i].index == k;
      assert before[i] == kept[i];
    }
    if IsKept(before, k) {
      var i :| 0 <= i < |before| && before[i].index == k;
      assert kept[i] == before[i];
    }
  }

  /** The last anchor is kept exactly when its href is new and it decodes. */
  lemma {:induction false} KeptIffLast(anchors: seq<Anchor>, ds: seq<Option<Match>>)
    requires |ds| == |anchors| && 0 < |anchors|
    ensures IsKept(Kept(anchors, ds), |anchors| - 1) <==> IsFirst(anchors, |anchors| - 1) && ds[|anchors| - 1].Some?
  {
    var n := |anchors| - 1;
    var before := Kept(anchors[..n], ds[..n]);
    var kept := Kept(anchors, ds);
    KeptEntries(anchors[..n], ds[..n]);
    assert forall i :: 0 <= i < |before| ==> kept[i] == before[i];
    UnseenIsFirst(anchors, n);
    if IsKept(kept, n) {
      var i :| 0 <= i < |kept| && kept[i].index == n;
      assert i >= |before|;
    }
    if |kept| > |before| {
      assert kept[|before|].index == n;
    }
  }

  /** A later duplicate is never kept, even when the first anchor with that href was rejected. */
  lemma DuplicateNeverKept(anchors: seq<Anchor>, ds: seq<Option<Match>>, j: nat, k: nat)
    requires |ds| == |anchors| && j < k < |anchors| && anchors[j].href == anchors[k].href
    ensures !IsKept(Kept(anchors, ds), k)
  {
    KeptIffFirstAndDecodes(anchors, ds, k);
  }

  /** Kept entries have distinct hrefs and distinct ids. */
  lemma KeptAreDistinct(anchors: seq<Anchor>)
    ensures var kept := Kept(anchors, Decodes(anchors));
      forall i, j :: 0 <= i < j < |kept| ==> kept[i].href != kept[j].href && kept[i].m.id != kept[j].m.id
  {
    var ds := Decodes(anchors);
    var kept := Kept(anchors, ds);
    KeptEntries(anchors, ds);
    forall i, j | 0 <= i < j < |kept| ensures kept[i].href != kept[j].href && kept[i].m.id != kept[j].m.id {
      var x, y := kept[i], kept[j];
      assert IsKept(kept, y.index);
      KeptIffFirstAndDecodes(anchors, ds, y.index);
      DecodedMatch(x.index, anchors[x.index]);
      DecodedMatch(y.index, anchors[y.index]);
      MatchIdInjective(x.index, y.index);
    }
  }

  lemma {:induction false} TodaysFilter(es: seq<Entry>, e: Entry)
    ensures e in Todays(es) <==> e in es && IsToday(e.m.status)
    ensures e in Upcomings(es) <==> e in es && e.m.status == Upcoming
  {
    if |es| > 0 {
      var k := |es| - 1;
      TodaysFilter(es[..k], e);
      assert es == es[..k] + [es[k]];
    }
  }

  lemma {:induction false} MatchesPrefix(xs: seq<Entry>, ys: seq<Entry>)
    requires xs <= ys
    ensures Matches(xs) <= Matches(ys)
  {
  }

  /**
   * `today` is the longest prefix, of at most 5, of the completed and live
   * matches in page order; `upcoming` likewise of at most 6 upcoming ones.
   */
  lemma BucketsArePrefixes(kept: seq<Entry>)
    ensures var today := Matches(Cap(Todays(kept), TodayCap));
      && today <= Matches(Todays(kept))
      && |today| == (if |Todays(kept)| < TodayCap then |Todays(kept)| else TodayCap)
      && forall i :: 0 <= i < |today| ==> IsToday(today[i].status)
    ensures var upcoming := Matches(Cap(Upcomings(kept), UpcomingCap));
      && upcoming <= Matches(Upcomings(kept))
      && |upcoming| == (if |Upcomings(kept)| < UpcomingCap then |Upcomings(kept)| else UpcomingCap)
      && forall i :: 0 <= i < |upcoming| ==> upcoming[i].status == Upcoming
  {
    var ts, us := Todays(kept), Upcomings(kept);
    MatchesPrefix(Cap(ts, TodayCap), ts);
    MatchesPrefix(Cap(us, UpcomingCap), us);
    forall i | 0 <= i < |Cap(ts, TodayCap)| ensures IsToday(Cap(ts, TodayCap)[i].m.status) {
      TodaysFilter(kept, ts[i]);
    }
    forall i | 0 <= i < |Cap(us, UpcomingCap)| ensures Cap(us, UpcomingCap)[i].m.status == Upcoming {
      TodaysFilter(kept, us[i]);
    }
  }

  /** A fetch is queued exactly for each live entry, naming its position and its href. */
  lemma {:induction false} LiveFetchesExactly(es: seq<Entry>, f: Fetch)
    ensures f in LiveFetches(es) <==> f.slot < |es| && es[f.slot].m.status == Live && f.href == es[f.slot].href
  {
    if |es| > 0 {
      var k := |es| - 1;
      LiveFetchesExactly(es[..k], f);
      LiveFetchSlots(es[..k]);
    }
  }

  lemma {:induction false} LiveFetchSlots(es: seq<Entry>)
    ensures forall f :: f in LiveFetches(es) ==> f.slot < |es|
  {
    if |es| > 0 {
      LiveFetchSlots(es[..|es| - 1]);
    }
  }

  // ---------------------------------------------------------------------------
  // The decoder.

  /** The anchor loop. */
  method DecodeMatches(anchors: seq<Anchor>) returns (today: seq<Match>, upcoming: seq<Match>, fetches: seq<Fetch>)
    ensures var kept := Kept(anchors, Decodes(anchors));
      && today == Matches(Cap(Todays(kept), TodayCap))
      && upcoming == Matches(Cap(Upcomings(kept), UpcomingCap))
      && fetches == LiveFetches(Cap(Todays(kept), TodayCap))
  {
    ghost var ds := Decodes(anchors);
    var st := State({}, [], [], []);
    var k := 0;
    while k < |anchors|
      invariant k <= |anchors|
      invariant st == Run(anchors[..k], ds[..k])
    {
      RunExtend(anchors, ds, k);
      st := Visit(st, k, anchors[k]);
      k := k + 1;
    }
    assert anchors[..k] == anchors && ds[..k] == ds;
    RunGivesBuckets(anchors, st);
    today, upcoming, fetches := st.today, st.upcoming, st.fetches;
  }

  lemma RunExtend(anchors: seq<Anchor>, ds: seq<Option<Match>>, k: nat)
    requires |ds| == |anchors| && k < |anchors|
    ensures Run(anchors[..k + 1], ds[..k + 1]) == Step(Run(anchors[..k], ds[..k]), anchors[k], ds[k])
  {
    assert anchors[..k + 1][..k] == anchors[..k];
    assert ds[..k + 1][..k] == ds[..k];
  }

  lemma RunGivesBuckets(anchors: seq<Anchor>, st: State)
    requires st == Run(anchors, Decodes(anchors))
    ensures var kept := Kept(anchors, Decodes(anchors));
      && st.today == Matches(Cap(Todays(kept), TodayCap))
      && st.upcoming == Matches(Cap(Upcomings(kept), UpcomingCap))
      && st.fetches == LiveFetches(Cap(Todays(kept), TodayCap))
  {
    RunReflects(anchors, Decodes(anchors));
  }

  /** One iteration of the anchor loop, for the anchor at `index`. */
  method Visit(st: State, index: nat, a: Anchor) returns (r: State)
    ensures r == Step(st, a, Decode(index, a))
  {
    r := st;
    if a.href in r.seen {
      return;
    }
    r := r.(seen := r.seen + {a.href});
    var d := Decode(index, a);
    if d.None? {
      return;
    }
    var m := d.value;
    if m.status == Completed || m.status == Live {
      if |r.today| < TodayCap {
        if m.status == Live {
          r := r.(fetches := r.fetches + [Fetch(|r.today|, a.href)]);
        }
        r := r.(today := r.today + [m]);
      }
    } else if |r.upcoming| < UpcomingCap {
      r := r.(upcoming := r.upcoming + [m]);
    }
  }

  // ---------------------------------------------------------------------------
  // The score fan-out, one queued fetch after another.

  /** `match.team1Score = scores.team1Score; match.team2Score = scores.team2Score` when scores were found. */
  function Attach(m: Match, s: Option<MatchScores>): Match
  {
    match s
    case None => m
    case Some(x) => m.(team1Score := Some(x.team1Score), team2Score := x.team2Score)
  }

  /**
   * The queued fetches applied in order. `pages` holds the divs of each page that
   * could be fetched; an href missing from it stands for a failed fetch.
   */
  function ApplyScores(today: seq<Match>, fetches: seq<Fetch>, pages: map<string, seq<Div>>): (r: seq<Match>)
    ensures |r| == |today|
  {
    if |fetches| == 0 then today
    else ApplyFetch(ApplyScores(today, fetches[..|fetches| - 1], pages), fetches[|fetches| - 1], pages)
  }

  /** One queued fetch: a missing page or a page without scores leaves the list as it was. */
  function ApplyFetch(today: seq<Match>, f: Fetch, pages: map<string, seq<Div>>): (r: seq<Match>)
    ensures |r| == |today|
  {
    if f.slot < |today| && f.href in pages then today[f.slot := Attach(today[f.slot], ScoresOf(pages[f.href]))] else today
  }

  /** Some fetch in `fetches` targets slot `i`. */
  predicate Targets(fetches: seq<Fetch>, i: nat)
  {
    exists f :: f in fetches && f.slot == i
  }

  /** The fan-out changes only the two score fields, and only of matches a fetch targets. */
  lemma {:induction false} ApplyScoresTouchesOnlyTargets(today: seq<Match>, fetches: seq<Fetch>, pages: map<string, seq<Div>>, i: nat)
    requires i < |today|
    ensures var r := ApplyScores(today, fetches, pages);
      && r[i].(team1Score := today[i].team1Score, team2Score := today[i].team2Score) == today[i]
      && (!Targets(fetches, i) ==> r[i] == today[i])
  {
    if |fetches| > 0 {
      var n := |fetches| - 1;
      ApplyScoresTouchesOnlyTargets(today, fetches[..n], pages, i);
      if Targets(fetches[..n], i) {
        var f :| f in fetches[..n] && f.slot == i;
        assert f in fetches;
      }
    }
  }

  /** A fetch whose page yields scores puts them on its match, when no two fetches share a slot. */
  lemma {:induction false} ApplyScoresAttaches(today: seq<Match>, fetches: seq<Fetch>, pages: map<string, seq<Div>>, k: nat)
    requires k < |fetches| && fetches[k].slot < |today| && fetches[k].href in pages
    requires forall i, j :: 0 <= i < j < |fetches| ==> fetches[i].slot != fetches[j].slot
    ensures ApplyScores(today, fetches, pages)[fetches[k].slot]
         == Attach(today[fetches[k].slot], ScoresOf(pages[fetches[k].href]))
  {
    var n := |fetches| - 1;
    var before := fetches[..n];
    if k < n {
      ApplyScoresAttaches(today, before, pages, k);
      LastFetchElsewhere(today, fetches, pages, fetches[k].slot);
    } else {
      forall f | f in before
        ensures f.slot != fetches[k].slot
      {
        var j :| 0 <= j < n && before[j] == f;
        assert fetches[j] == f;
      }
      LastFetchAttaches(today, fetches, pages);
    }
  }

  /** The last fetch puts its scores on a slot no earlier fetch targets. */
  lemma LastFetchAttaches(today: seq<Match>, fetches: seq<Fetch>, pages: map<string, seq<Div>>)
    requires |fetches| > 0 && fetches[|fetches| - 1].slot < |today| && fetches[|fetches| - 1].href in pages
    requires !Targets(fetches[..|fetches| - 1], fetches[|fetches| - 1].slot)
    ensures ApplyScores(today, fetches, pages)[fetches[|fetches| - 1].slot]
         == Attach(today[fetches[|fetches| - 1].slot], ScoresOf(pages[fetches[|fetches| - 1].href]))
  {
    ApplyScoresTouchesOnlyTargets(today, fetches[..|fetches| - 1], pages, fetches[|fetches| - 1].slot);
  }

  /** The last fetch leaves every other slot as the earlier fetches left it. */
  lemma LastFetchElsewhere(today: seq<Match>, fetches: seq<Fetch>, pages: map<string, seq<Div>>, i: nat)
    requires |fetches| > 0 && i < |today| && fetches[|fetches| - 1].slot != i
    ensures ApplyScores(today, fetches, pages)[i] == ApplyScores(today, fetches[..|fetches| - 1], pages)[i]
  { }

  /** Fetches are queued in slot order, so no two of them share a slot. */
  lemma {:induction false} LiveFetchSlotsIncrease(es: seq<Entry>)
    ensures forall i, j :: 0 <= i < j < |LiveFetches(es)| ==> LiveFetches(es)[i].slot < LiveFetches(es)[j].slot
  {
    if |es| > 0 {
      var k := |es| - 1;
      var pre := LiveFetches(es[..k]);
      LiveFetchSlotsIncrease(es[..k]);
      LiveFetchSlots(es[..k]);
      forall i, j | 0 <= i < j < |LiveFetches(es)| ensures LiveFetches(es)[i].slot < LiveFetches(es)[j].slot {
        assert LiveFetches(es)[i] == pre[i];
        if j < |pre| {
          assert LiveFetches(es)[j] == pre[j];
        } else {
          assert pre[i] in pre;
        }
      }
    }
  }

  /** Every live match in the today bucket whose page could be fetched carries that page's scores. */
  lemma LiveMatchesGetScores(es: seq<Entry>, pages: map<string, seq<Div>>, i: nat)
    requires i < |es| && es[i].m.status == Live && es[i].href in pages
    ensures ApplyScores(Matches(es), LiveFetches(es), pages)[i] == Attach(es[i].m, ScoresOf(pages[es[i].href]))
  {
    var fs := LiveFetches(es);
    var f := Fetch(i, es[i].href);
    LiveFetchesExactly(es, f);
    var k :| 0 <= k < |fs| && fs[k] == f;
    LiveFetchSlotsIncrease(es);
    ApplyScoresAttaches(Matches(es), fs, pages, k);
  }

  /** The fetch loop of `scrapeMatches`: each queued fetch whose page is available gets its scores. */
  method FetchScores(today: seq<Match>, fetches: seq<Fetch>, pages: map<string, seq<Div>>) returns (r: seq<Match>)
    ensures r == ApplyScores(today, fetches, pages)
  {
    r := today;
    var k := 0;
    while k < |fetches|
      invariant k <= |fetches|
      invariant r == ApplyScores(today, fetches[..k], pages)
    {
      assert fetches[..k + 1][..k] == fetches[..k];
      var f := fetches[k];
      ghost var before := r;
      if f.slot < |r| && f.href in pages {
        var scores := ExtractScores(pages[f.href]);
        r := r[f.slot := Attach(r[f.slot], scores)];
      }
      assert r == ApplyFetch(before, f, pages);
      k := k + 1;
    }
    assert fetches[..k] == fetches;
  }

  /** `scrapeMatches`: the anchor loop, then the score fetches for the queued live matches. */
  method ScrapeMatches(anchors: seq<Anchor>, pages: map<string, seq<Div>>) returns (today: seq<Match>, upcoming: seq<Match>)
    ensures today == ApplyScores(Matches(Cap(Todays(Kept(anchors, Decodes(anchors))), TodayCap)),
                                 LiveFetches(Cap(Todays(Kept(anchors, Decodes(anchors))), TodayCap)), pages)
    ensures upcoming == Matches(Cap(Upcomings(Kept(anchors, Decodes(anchors))), UpcomingCap))
  {
    var decoded, fetches;
    decoded, upcoming, fetches := DecodeMatches(anchors);
    today := FetchScores(decoded, fetches, pages);
  }

  /** After the fan-out only live matches carry scores, and every other field is as decoded. */
  lemma ScoresOnlyOnLiveMatches(anchors: seq<Anchor>, pages: map<string, seq<Div>>)
    ensures var kept := Kept(anchors, Decodes(anchors));
      var placed := Cap(Todays(kept), TodayCap);
      var today := ApplyScores(Matches(placed), LiveFetches(placed), pages);
      forall i :: 0 <= i < |today| ==>
        && today[i].(team1Score := None, team2Score := None) == placed[i].m
        && (today[i].team1Score.Some? || today[i].team2Score.Some? ==> today[i].status == Live)
  {
    var ds := Decodes(anchors);
    var kept := Kept(anchors, ds);
    var placed := Cap(Todays(kept), TodayCap);
    var today := ApplyScores(Matches(placed), LiveFetches(placed), pages);
    KeptEntries(anchors, ds);
    forall i | 0 <= i < |today|
      ensures today[i].(team1Score := None, team2Score := None) == placed[i].m
      ensures today[i].team1Score.Some? || today[i].team2Score.Some? ==> today[i].status == Live
    {
      var e := placed[i];
      assert e in kept by {
        TodaysFilter(kept, e);
      }
      var j :| 0 <= j < |kept| && kept[j] == e;
      assert EntryOf(anchors, ds, kept[j]);
      DecodedMatch(e.index, anchors[e.index]);
      ApplyScoresTouchesOnlyTargets(Matches(placed), LiveFetches(placed), pages, i);
      if Targets(LiveFetches(placed), i) {
        var f :| f in LiveFetches(placed) && f.slot == i;
        LiveFetchesExactly(placed, f);
      }
    }
  }
}
