/**
 * Character classes and string helpers shared by the recognizers.
 *
 * The character classes follow the ECMAScript regular-expression classes the
 * scraper's patterns use: `\d` is ASCII 0-9, `[A-Z]` is ASCII upper case,
 * `\s` (and `String.prototype.trim`) is WhiteSpace plus LineTerminator, `.`
 * is every character except a LineTerminator, and `\b` sits between a word
 * character `[A-Za-z0-9_]` and a non-word character.
 */
module Text {

  predicate IsDigit(c: char) { '0' <= c <= '9' }

  predicate IsUpper(c: char) { 'A' <= c <= 'Z' }

  predicate IsWordChar(c: char) { IsDigit(c) || IsUpper(c) || ('a' <= c <= 'z') || c == '_' }

  /** The ECMAScript LineTerminator characters: the ones `.` does not match. */
  predicate IsLineBreak(c: char)
  {
    c == '\n' || c == '\r' || c == '\U{2028}' || c == '\U{2029}'
  }

  /** The ECMAScript `\s` class; `trim` strips exactly these characters. */
  predicate IsSpace(c: char)
  {
    || IsLineBreak(c)
    || c == '\t' || c == '\U{000B}' || c == '\U{000C}' || c == ' '
    || c == '\U{00A0}' || c == '\U{1680}' || ('\U{2000}' <= c <= '\U{200A}')
    || c == '\U{202F}' || c == '\U{205F}' || c == '\U{3000}' || c == '\U{FEFF}'
  }

  predicate NotLineBreak(c: char) { !IsLineBreak(c) }

  /** The character classes the patterns use: `\d`, `[A-Z]`, `\s` and `.`. */
  datatype CharClass = Digits | Capitals | Spaces | LineChars

  predicate In(p: CharClass, c: char)
  {
    match p
    case Digits => IsDigit(c)
    case Capitals => IsUpper(c)
    case Spaces => IsSpace(c)
    case LineChars => NotLineBreak(c)
  }

  /** Every character of `s[i..j]` satisfies `p`. */
  predicate All(s: string, i: nat, j: nat, p: CharClass)
    requires i <= j <= |s|
  {
    forall k {:trigger In(p, s[k])} :: i <= k < j ==> In(p, s[k])
  }

  predicate AllDigits(s: string)
  {
    All(s, 0, |s|, Digits)
  }

  /** A property of every character in a range is a property of every character of the slice. */
  lemma AllSlice(s: string, i: nat, j: nat, p: CharClass)
    requires i <= j <= |s| && All(s, i, j, p)
    ensures All(s[i..j], 0, j - i, p)
  {
    forall x | 0 <= x < j - i ensures In(p, s[i..j][x]) {
      assert s[i..j][x] == s[i + x];
    }
  }

  /** The end of the longest run of `p`-characters starting at `i`. */
  function Span(s: string, i: nat, p: CharClass): (j: nat)
    requires i <= |s|
    ensures i <= j <= |s|
    ensures forall k {:trigger In(p, s[k])} :: i <= k < j ==> In(p, s[k])
    ensures j == |s| || !In(p, s[j])
    decreases |s| - i
  {
    if i < |s| && In(p, s[i]) then Span(s, i + 1, p) else i
  }

  lemma AllAt(s: string, i: nat, j: nat, p: CharClass, k: nat)
    requires i <= k < j <= |s| && All(s, i, j, p)
    ensures In(p, s[k])
  {
  }

  lemma AllExtend(s: string, i: nat, j: nat, p: CharClass)
    requires i <= j < |s| && All(s, i, j, p) && In(p, s[j])
    ensures All(s, i, j + 1, p)
  {
  }

  /** A run of `p`-characters from `i` never reaches past `Span(s, i, p)`. */
  lemma SpanBounds(s: string, i: nat, j: nat, p: CharClass)
    requires i <= j <= |s|
    requires All(s, i, j, p)
    ensures j <= Span(s, i, p)
  {
  }

  /** A maximal run is exactly what `Span` finds. */
  lemma SpanExact(s: string, i: nat, j: nat, p: CharClass)
    requires i <= j <= |s|
    requires All(s, i, j, p)
    requires j == |s| || !In(p, s[j])
    ensures Span(s, i, p) == j
    decreases j - i
  {
    if i < j {
      SpanExact(s, i + 1, j, p);
    }
  }

  /** A run of `p`-characters followed by a character outside `p` is found exactly. */
  lemma SpanAfter(w: string, x: string, y: string, p: CharClass)
    requires All(x, 0, |x|, p) && |y| > 0 && !In(p, y[0])
    ensures Span(w + x + y, |w|, p) == |w| + |x|
  {
    var s := w + x + y;
    forall k | |w| <= k < |w| + |x| ensures In(p, s[k]) {
      assert s[k] == x[k - |w|];
    }
    assert s[|w| + |x|] == y[0];
    SpanExact(s, |w|, |w| + |x|, p);
  }

  /** A run found inside `s[a..b]` is the run found in `s`, shifted by `a`. */
  lemma SpanShift(s: string, a: nat, j: nat, b: nat, p: CharClass)
    requires a <= j <= b <= |s| && Span(s, j, p) <= b
    ensures Span(s[a..b], j - a, p) == Span(s, j, p) - a
  {
    var v := s[a..b];
    var e := Span(s, j, p);
    forall k | j - a <= k < e - a ensures In(p, v[k]) {
      assert v[k] == s[k + a];
    }
    if e < b {
      assert v[e - a] == s[e];
    }
    SpanExact(v, j - a, e - a, p);
  }

  /** A property of a range of a slice is a property of the matching range of the string. */
  lemma AllUnslice(s: string, a: nat, b: nat, i: nat, j: nat, p: CharClass)
    requires a <= b <= |s| && i <= j <= b - a && All(s[a..b], i, j, p)
    ensures All(s, a + i, a + j, p)
  {
    forall k | a + i <= k < a + j ensures In(p, s[k]) {
      assert s[k] == s[a..b][k - a];
    }
  }

  /** A string is the concatenation of its consecutive slices. */
  lemma PrefixGrows(s: string, i: nat, j: nat)
    requires i <= j <= |s|
    ensures s[..j] == s[..i] + s[i..j]
  {
  }

  lemma SliceSplit(s: string, a: nat, b: nat, c: nat)
    requires a <= b <= c <= |s|
    ensures s[a..c] == s[a..b] + s[b..c] && (c == b + 1 ==> s[b..c] == [s[b]])
  {
  }

  lemma SlicesConcat(s: string, a: nat, b: nat, c: nat, d: nat, e: nat)
    requires a <= b <= c <= d <= e <= |s|
    ensures s == s[..a] + s[a..b] + s[b..c] + s[c..d] + s[d..e] + s[e..]
  {
    assert s[..b] == s[..a] + s[a..b];
    assert s[..c] == s[..b] + s[b..c];
    assert s[..d] == s[..c] + s[c..d];
    assert s[..e] == s[..d] + s[d..e];
    assert s == s[..e] + s[e..];
  }

  predicate OccursAt(s: string, k: string, i: nat)
  {
    i + |k| <= |s| && s[i..i + |k|] == k
  }

  /** ECMAScript `s.includes(k)`. */
  predicate Contains(s: string, k: string)
  {
    exists i :: 0 <= i <= |s| - |k| && OccursAt(s, k, i)
  }

  predicate StartsWith(s: string, p: string)
  {
    |p| <= |s| && s[..|p|] == p
  }

  lemma ContainsInfix(a: string, b: string, c: string, k: string)
    requires Contains(b, k)
    ensures Contains(a + b + c, k)
  {
    var i :| 0 <= i <= |b| - |k| && OccursAt(b, k, i);
    var s := a + b + c;
    assert s[|a| + i..|a| + i + |k|] == b[i..i + |k|];
    assert OccursAt(s, k, |a| + i);
  }

  /** ECMAScript `toLowerCase` restricted to the ASCII letters. */
  function LowerChar(c: char): (r: char)
    ensures IsUpper(c) ==> 'a' <= r <= 'z' && r as int - 'a' as int == c as int - 'A' as int
    ensures !IsUpper(c) ==> r == c
  {
    if IsUpper(c) then (c as int + 32) as char else c
  }

  function Lower(s: string): (r: string)
    ensures |r| == |s|
  {
    seq(|s|, i requires 0 <= i < |s| => LowerChar(s[i]))
  }

  /** Lower-casing works character by character, so it commutes with slicing. */
  lemma LowerSlice(s: string, i: nat, j: nat)
    requires i <= j <= |s|
    ensures Lower(s[i..j]) == Lower(s)[i..j]
  {
    var l, r := Lower(s[i..j]), Lower(s)[i..j];
    forall k | 0 <= k < |l| ensures l[k] == r[k] {
      assert s[i..j][k] == s[i + k];
    }
  }

  /** Lower-casing works character by character, so it distributes over `+`. */
  lemma LowerConcat(a: string, b: string)
    ensures Lower(a + b) == Lower(a) + Lower(b)
  {
    var l, r := Lower(a + b), Lower(a) + Lower(b);
    assert |l| == |r|;
    forall k | 0 <= k < |l| ensures l[k] == r[k] {
      if k < |a| {
        assert (a + b)[k] == a[k];
      } else {
        assert (a + b)[k] == b[k - |a|];
      }
    }
  }

  /** The bounds `trim` keeps: the first and one past the last non-space character. */
  function TrimBounds(s: string): (b: (nat, nat))
    ensures b.0 <= b.1 <= |s|
    ensures All(s, 0, b.0, Spaces) && All(s, b.1, |s|, Spaces)
    ensures b.0 < b.1 ==> !IsSpace(s[b.0]) && !IsSpace(s[b.1 - 1])
    ensures b.0 == b.1 ==> All(s, 0, |s|, Spaces)
  {
    var i := Span(s, 0, Spaces);
    (i, TrimEndFrom(s, i, |s|))
  }

  function TrimEndFrom(s: string, lo: nat, j: nat): (e: nat)
    requires lo <= j <= |s|
    requires All(s, j, |s|, Spaces)
    ensures lo <= e <= j
    ensures All(s, e, |s|, Spaces)
    ensures lo < e ==> !IsSpace(s[e - 1])
    decreases j
  {
    if lo < j && IsSpace(s[j - 1]) then TrimEndFrom(s, lo, j - 1) else j
  }

  /** ECMAScript `s.trim()`. */
  function Trim(s: string): string
  {
    var b := TrimBounds(s);
    s[b.0..b.1]
  }

  // ---------------------------------------------------------------------------
  // Decimal numerals: `parseInt` of a digit string and the `${n}` rendering.

  function DigitValue(c: char): (d: nat)
    requires IsDigit(c)
    ensures d < 10
  {
    c as int - '0' as int
  }

  function DigitChar(d: nat): (c: char)
    requires d < 10
    ensures IsDigit(c) && DigitValue(c) == d
  {
    ('0' as int + d) as char
  }

  /** The value of a decimal numeral, read most significant digit first. */
  function DecimalValue(s: string): nat
    requires AllDigits(s)
  {
    if |s| == 0 then 0
    else
      assert In(Digits, s[|s| - 1]);
      10 * DecimalValue(s[..|s| - 1]) + DigitValue(s[|s| - 1])
  }

  /** The canonical decimal rendering of `n`, as a template literal writes it. */
  function NatToDecimal(n: nat): (r: string)
    ensures |r| > 0 && AllDigits(r)
    ensures |r| > 1 ==> r[0] != '0'
  {
    if n < 10 then [DigitChar(n)] else NatToDecimal(n / 10) + [DigitChar(n % 10)]
  }

  lemma {:induction false} DecimalRoundTrip(n: nat)
    ensures DecimalValue(NatToDecimal(n)) == n
  {
    if n >= 10 {
      var r := NatToDecimal(n);
      assert r[..|r| - 1] == NatToDecimal(n / 10);
      DecimalRoundTrip(n / 10);
    }
  }

  lemma NatToDecimalInjective(m: nat, n: nat)
    requires NatToDecimal(m) == NatToDecimal(n)
    ensures m == n
  {
    DecimalRoundTrip(m);
    DecimalRoundTrip(n);
  }
}
