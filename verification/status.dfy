/**
 * The status classifier: a free-text status phrase becomes one of the three
 * lifecycle states. The phrase is lower-cased first; the completed keywords are
 * tried before the live keywords, and a phrase matching neither is upcoming.
 */
module StatusClassifier {
  import opened Text
  import opened Records

  const CompletedKeywords: seq<string> := [
    "won", "tied", "complete", "drawn", "no result", "abandoned", "cancelled",
    "beat", "defeated", "washed out", "washout", "forfeit", "awarded", "dls", "d/l"
  ]

  const LiveKeywords: seq<string> := [
    "live", "innings", "break", "opt to", "elected to", "batting", "bowling",
    "target", "need"
  ]

  const MatchOver := "match over"

  predicate ContainsAny(s: string, keywords: seq<string>)
  {
    exists k :: k in keywords && Contains(s, k)
  }

  /** `/\bmatch over\b/`: an occurrence with a non-word character (or an end) on both sides. */
  predicate MatchOverAt(s: string, i: nat)
  {
    && OccursAt(s, MatchOver, i)
    && (i == 0 || !IsWordChar(s[i - 1]))
    && (i + |MatchOver| == |s| || !IsWordChar(s[i + |MatchOver|]))
  }

  predicate HasMatchOverWord(s: string)
  {
    exists i :: 0 <= i <= |s| && MatchOverAt(s, i)
  }

  predicate SignalsCompleted(lower: string)
  {
    ContainsAny(lower, CompletedKeywords) || HasMatchOverWord(lower)
  }

  function Classify(text: string): Status
  {
    var lower := Lower(text);
    if SignalsCompleted(lower) then Completed
    else if ContainsAny(lower, LiveKeywords) then Live
    else Upcoming
  }

  /**
   * A completed keyword, in any letter case and anywhere in the phrase, makes the
   * phrase completed, whatever live keywords surround it.
   */
  lemma CompletedKeywordWins(before: string, word: string, after: string)
    requires Lower(word) in CompletedKeywords
    ensures Classify(before + word + after) == Completed
  {
    LowerConcat(before + word, after);
    LowerConcat(before, word);
    assert Contains(Lower(word), Lower(word)) by {
      assert OccursAt(Lower(word), Lower(word), 0);
    }
    ContainsInfix(Lower(before), Lower(word), Lower(after), Lower(word));
  }

  /** A live keyword anywhere in the phrase rules out upcoming. */
  lemma LiveKeywordIsNeverUpcoming(before: string, word: string, after: string)
    requires Lower(word) in LiveKeywords
    ensures Classify(before + word + after) != Upcoming
  {
    LowerConcat(before + word, after);
    LowerConcat(before, word);
    assert Contains(Lower(word), Lower(word)) by {
      assert OccursAt(Lower(word), Lower(word), 0);
    }
    ContainsInfix(Lower(before), Lower(word), Lower(after), Lower(word));
  }

  /** A live keyword makes the phrase live unless a completed signal occurs somewhere in it. */
  lemma LiveKeywordGivesLive(before: string, word: string, after: string)
    requires Lower(word) in LiveKeywords
    requires !SignalsCompleted(Lower(before + word + after))
    ensures Classify(before + word + after) == Live
  {
    LiveKeywordIsNeverUpcoming(before, word, after);
  }

  /** Some stretch of the original text lower-cases to one of `keywords`. */
  predicate HasKeywordSlice(text: string, keywords: seq<string>)
  {
    exists i, j :: 0 <= i <= j <= |text| && Lower(text[i..j]) in keywords
  }

  /** `lower.includes(k)` for some keyword is the same as a stretch of the original text lowering to it. */
  lemma KeywordSliceIffContains(text: string, keywords: seq<string>)
    ensures HasKeywordSlice(text, keywords) <==> ContainsAny(Lower(text), keywords)
  {
    if HasKeywordSlice(text, keywords) {
      var i, j :| 0 <= i <= j <= |text| && Lower(text[i..j]) in keywords;
      LowerSlice(text, i, j);
      assert OccursAt(Lower(text), Lower(text[i..j]), i);
    }
    if ContainsAny(Lower(text), keywords) {
      var k :| k in keywords && Contains(Lower(text), k);
      var i :| 0 <= i <= |Lower(text)| - |k| && OccursAt(Lower(text), k, i);
      LowerSlice(text, i, i + |k|);
      assert Lower(text[i..i + |k|]) in keywords;
    }
  }

  /**
   * A phrase is completed exactly when some stretch of it, in any letter case,
   * is a completed keyword, or its lower-cased form has a word-bounded "match over".
   */
  lemma CompletedIffSignal(text: string)
    ensures Classify(text) == Completed <==>
      HasKeywordSlice(text, CompletedKeywords) || HasMatchOverWord(Lower(text))
  {
    KeywordSliceIffContains(text, CompletedKeywords);
  }

  /**
   * A phrase is upcoming exactly when no stretch of it, in any letter case, is a
   * keyword of either tier, and its lower-cased form has no word-bounded "match over".
   */
  lemma UpcomingIsTheDefault(text: string)
    ensures Classify(text) == Upcoming <==>
      !HasKeywordSlice(text, CompletedKeywords + LiveKeywords) && !HasMatchOverWord(Lower(text))
  {
    KeywordSliceIffContains(text, CompletedKeywords);
    KeywordSliceIffContains(text, LiveKeywords);
    KeywordSliceIffContains(text, CompletedKeywords + LiveKeywords);
    if ContainsAny(Lower(text), CompletedKeywords + LiveKeywords) {
      var k :| k in CompletedKeywords + LiveKeywords && Contains(Lower(text), k);
      assert k in CompletedKeywords || k in LiveKeywords;
    }
  }

  // ---------------------------------------------------------------------------
  // Worked phrases.

  /** A keyword cannot occur where one of its characters is missing. */
  lemma MissingCharacter(s: string, k: string, c: char)
    requires c in k && c !in s
    ensures !Contains(s, k)
  {
  }

  /** A non-capital character is absent from the lower-cased text when neither it nor its capital occurs. */
  lemma MissingAfterLowering(s: string, c: char)
    requires !IsUpper(c) && c !in s
    requires 'a' <= c <= 'z' ==> (c as int - 32) as char !in s
    ensures c !in Lower(s)
  {
    forall i | 0 <= i < |s| ensures Lower(s)[i] != c {
      assert s[i] != c;
    }
  }

  /** The word boundary keeps "match over" from firing inside "match overview", which is upcoming. */
  lemma MatchOverviewIsUpcoming()
    ensures Classify("match overview") == Upcoming
  {
    assert Lower("match overview") == "match overview";
    OverviewHasNoCompletedKeyword("match overview");
    OverviewHasNoLiveKeyword("match overview");
  }

  lemma OverviewHasNoCompletedKeyword(l: string)
    requires l == "match overview"
    ensures !SignalsCompleted(l)
  {
    OverviewHasNoCompletedSubstring(l);
    forall i | 0 <= i <= |l| ensures !MatchOverAt(l, i) {
      if OccursAt(l, MatchOver, i) {
        assert l[i] == l[i..i + 10][0] == 'm';
        assert i == 0;
        assert IsWordChar(l[10]);
      }
    }
  }

  lemma OverviewHasNoCompletedSubstring(l: string)
    requires l == "match overview"
    ensures !ContainsAny(l, CompletedKeywords)
  {
    OverviewHasNoEarlyKeyword(l);
    OverviewHasNoLateKeyword(l);
    NoCompletedSubstring(l);
  }

  lemma OverviewHasNoEarlyKeyword(l: string)
    requires l == "match overview"
    ensures !Contains(l, "won") && !Contains(l, "tied") && !Contains(l, "complete") && !Contains(l, "drawn") && !Contains(l, "no result") && !Contains(l, "abandoned") && !Contains(l, "cancelled") && !Contains(l, "beat")
  {
    MissingCharacter(l, "won", 'n');
    MissingCharacter(l, "tied", 'd');
    MissingCharacter(l, "complete", 'p');
    MissingCharacter(l, "drawn", 'd');
    MissingCharacter(l, "no result", 'n');
    MissingCharacter(l, "abandoned", 'n');
    MissingCharacter(l, "cancelled", 'n');
    MissingCharacter(l, "beat", 'b');
  }

  lemma OverviewHasNoLateKeyword(l: string)
    requires l == "match overview"
    ensures !Contains(l, "defeated") && !Contains(l, "washed out") && !Contains(l, "washout") && !Contains(l, "forfeit") && !Contains(l, "awarded") && !Contains(l, "dls") && !Contains(l, "d/l")
  {
    MissingCharacter(l, "defeated", 'd');
    MissingCharacter(l, "washed out", 'd');
    MissingCharacter(l, "washout", 'u');
    MissingCharacter(l, "forfeit", 'f');
    MissingCharacter(l, "awarded", 'd');
    MissingCharacter(l, "dls", 'd');
    MissingCharacter(l, "d/l", 'd');
  }

  lemma OverviewHasNoLiveKeyword(l: string)
    requires l == "match overview"
    ensures !ContainsAny(l, LiveKeywords)
  {
    OverviewHasNoEarlyLiveKeyword(l);
    OverviewHasNoLateLiveKeyword(l);
  }

  lemma OverviewHasNoEarlyLiveKeyword(l: string)
    requires l == "match overview"
    ensures !Contains(l, "live") && !Contains(l, "innings") && !Contains(l, "break")
    ensures !Contains(l, "opt to") && !Contains(l, "elected to")
  {
    MissingCharacter(l, "live", 'l');
    MissingCharacter(l, "innings", 'n');
    MissingCharacter(l, "break", 'b');
    MissingCharacter(l, "opt to", 'p');
    MissingCharacter(l, "elected to", 'l');
  }

  lemma OverviewHasNoLateLiveKeyword(l: string)
    requires l == "match overview"
    ensures !Contains(l, "batting") && !Contains(l, "bowling") && !Contains(l, "target") && !Contains(l, "need")
  {
    MissingCharacter(l, "batting", 'b');
    MissingCharacter(l, "bowling", 'b');
    MissingCharacter(l, "target", 'g');
    MissingCharacter(l, "need", 'n');
  }

  /** "overs" does not trigger the word-bounded rule; "need" makes this phrase live. */
  lemma ChasePhraseIsLive()
    ensures Classify("need 45 in 3 overs") == Live
  {
    var l := Lower("need 45 in 3 overs");
    assert l == "need 45 in 3 overs" by {
      LowerConcat("need 45 ", "in 3 overs");
    }
    ChaseHasNoCompletedKeyword(l);
    assert OccursAt(l, "need", 0);
    assert "need" in LiveKeywords;
  }

  lemma ChaseHasNoCompletedKeyword(l: string)
    requires l == "need 45 in 3 overs"
    ensures !SignalsCompleted(l)
  {
    ChaseAlphabet(l);
    ChaseHasNoCompletedSubstring(l);
    MissingCharacter(l, MatchOver, 'm');
    MatchOverWordIsSubstring(l);
  }

  lemma ChaseHasNoCompletedSubstring(l: string)
    requires l == "need 45 in 3 overs"
    ensures !ContainsAny(l, CompletedKeywords)
  {
    ChaseHasNoEarlyKeyword(l);
    ChaseHasNoLateKeyword(l);
    NoCompletedSubstring(l);
  }

  /** The letters the chase phrase lacks. */
  lemma ChaseAlphabet(l: string)
    requires l == "need 45 in 3 overs"
    ensures 'w' !in l && 't' !in l && 'c' !in l && 'u' !in l && 'a' !in l
    ensures 'b' !in l && 'f' !in l && 'l' !in l && '/' !in l && 'm' !in l
  {
    ChaseAlphabetFirst(l);
    ChaseAlphabetSecond(l);
  }

  lemma ChaseAlphabetFirst(l: string)
    requires l == "need 45 in 3 overs"
    ensures 'w' !in l && 't' !in l && 'c' !in l && 'u' !in l && 'a' !in l
  {
  }

  lemma ChaseAlphabetSecond(l: string)
    requires l == "need 45 in 3 overs"
    ensures 'b' !in l && 'f' !in l && 'l' !in l && '/' !in l && 'm' !in l
  {
  }

  lemma ChaseHasNoEarlyKeyword(l: string)
    requires l == "need 45 in 3 overs"
    ensures !Contains(l, "won") && !Contains(l, "tied") && !Contains(l, "complete") && !Contains(l, "drawn") && !Contains(l, "no result") && !Contains(l, "abandoned") && !Contains(l, "cancelled") && !Contains(l, "beat")
  {
    ChaseAlphabet(l);
    MissingCharacter(l, "won", 'w');
    MissingCharacter(l, "tied", 't');
    MissingCharacter(l, "complete", 'c');
    MissingCharacter(l, "drawn", 'w');
    MissingCharacter(l, "no result", 'u');
    MissingCharacter(l, "abandoned", 'a');
    MissingCharacter(l, "cancelled", 'c');
    MissingCharacter(l, "beat", 'b');
  }

  lemma ChaseHasNoLateKeyword(l: string)
    requires l == "need 45 in 3 overs"
    ensures !Contains(l, "defeated") && !Contains(l, "washed out") && !Contains(l, "washout") && !Contains(l, "forfeit") && !Contains(l, "awarded") && !Contains(l, "dls") && !Contains(l, "d/l")
  {
    ChaseAlphabet(l);
    MissingCharacter(l, "defeated", 'f');
    MissingCharacter(l, "washed out", 'w');
    MissingCharacter(l, "washout", 'w');
    MissingCharacter(l, "forfeit", 'f');
    MissingCharacter(l, "awarded", 'a');
    MissingCharacter(l, "dls", 'l');
    MissingCharacter(l, "d/l", '/');
  }

  /** Ruling the completed keywords out one by one rules out the whole tier. */
  lemma NoCompletedSubstring(l: string)
    requires !Contains(l, "won") && !Contains(l, "tied") && !Contains(l, "complete") && !Contains(l, "drawn") && !Contains(l, "no result") && !Contains(l, "abandoned") && !Contains(l, "cancelled") && !Contains(l, "beat") && !Contains(l, "defeated") && !Contains(l, "washed out") && !Contains(l, "washout") && !Contains(l, "forfeit") && !Contains(l, "awarded") && !Contains(l, "dls") && !Contains(l, "d/l")
    ensures !ContainsAny(l, CompletedKeywords)
  {
  }

  lemma MatchOverWordIsSubstring(s: string)
    ensures HasMatchOverWord(s) ==> Contains(s, MatchOver)
  {
  }

  /** As written, a toss report is completed: "won" fires before the live keywords are consulted. */
  lemma TossReportIsCompleted()
    ensures Classify("India won the toss and elected to bat") == Completed
  {
    assert "India won the toss and elected to bat" == "India " + "won" + " the toss and elected to bat";
    assert Lower("won") == "won";
    CompletedKeywordWins("India ", "won", " the toss and elected to bat");
  }

  /** "Match over" standing alone is completed through the word-bounded rule. */
  lemma MatchOverIsCompleted()
    ensures Classify("Match over") == Completed
  {
    assert Lower("Match over") == MatchOver;
    assert MatchOverAt(MatchOver, 0);
  }
}
