/**
 * The JavaScript string operations the core relies on: `trim`, `toLowerCase`
 * (ASCII letters only) and `length` (UTF-16 code units), over strings of
 * Unicode scalar values.
 */
module JsText {

  /** LineTerminator code points of ECMAScript (LF, CR, LINE SEPARATOR, PARAGRAPH SEPARATOR). */
  predicate IsLineTerminator(c: char)
  {
    c == '\n' || c == '\r' || c == '\U{2028}' || c == '\U{2029}'
  }

  /** WhiteSpace code points of ECMAScript: TAB, VT, FF, ZWNBSP and the Space_Separator category. */
  predicate IsWhiteSpace(c: char)
  {
    c == '\t' || c == '\U{000B}' || c == '\U{000C}' || c == ' ' || c == '\U{00A0}' || c == '\U{FEFF}'
    || c == '\U{1680}' || ('\U{2000}' <= c <= '\U{200A}') || c == '\U{202F}' || c == '\U{205F}'
    || c == '\U{3000}'
  }

  /** What `String.prototype.trim` strips from both ends. */
  predicate IsTrimmable(c: char)
  {
    IsWhiteSpace(c) || IsLineTerminator(c)
  }

  predicate AllTrimmable(s: string)
  {
    forall i :: 0 <= i < |s| ==> IsTrimmable(s[i])
  }

  predicate IsAsciiDigit(c: char) { '0' <= c <= '9' }
  predicate IsAsciiLower(c: char) { 'a' <= c <= 'z' }
  predicate IsAsciiUpper(c: char) { 'A' <= c <= 'Z' }

  /** The index of the first character at or after i that trim keeps (|s| if none). */
  function SkipLeading(s: string, i: nat): (k: nat)
    requires i <= |s|
    ensures i <= k <= |s|
    ensures forall j :: i <= j < k ==> IsTrimmable(s[j])
    ensures k < |s| ==> !IsTrimmable(s[k])
    decreases |s| - i
  {
    if i < |s| && IsTrimmable(s[i]) then SkipLeading(s, i + 1) else i
  }

  /** One past the last character before e, and not before lo, that trim keeps (lo if none). */
  function SkipTrailing(s: string, lo: nat, e: nat): (k: nat)
    requires lo <= e <= |s|
    ensures lo <= k <= e
    ensures forall j :: k <= j < e ==> IsTrimmable(s[j])
    ensures lo < k ==> !IsTrimmable(s[k - 1])
    decreases e
  {
    if lo < e && IsTrimmable(s[e - 1]) then SkipTrailing(s, lo, e - 1) else e
  }

  /** `s.trim()`: what is left once trimmable characters are dropped from both ends. */
  function Trim(s: string): (r: string)
    ensures |r| <= |s|
    ensures r == [] || (!IsTrimmable(r[0]) && !IsTrimmable(r[|r| - 1]))
  {
    var start := SkipLeading(s, 0);
    s[start..SkipTrailing(s, start, |s|)]
  }

  /** A string already free of surrounding whitespace: empty, or with kept characters at both ends. */
  predicate Clean(r: string)
  {
    r == [] || (!IsTrimmable(r[0]) && !IsTrimmable(r[|r| - 1]))
  }

  lemma {:induction false} SkipLeadingStops(s: string, i: nat, k: nat)
    requires i <= k <= |s|
    requires forall j :: i <= j < k ==> IsTrimmable(s[j])
    requires k < |s| ==> !IsTrimmable(s[k])
    ensures SkipLeading(s, i) == k
    decreases k - i
  {
    if i < k {
      SkipLeadingStops(s, i + 1, k);
    }
  }

  lemma {:induction false} SkipTrailingStops(s: string, lo: nat, e: nat, k: nat)
    requires lo <= k <= e <= |s|
    requires forall j :: k <= j < e ==> IsTrimmable(s[j])
    requires lo < k ==> !IsTrimmable(s[k - 1])
    ensures SkipTrailing(s, lo, e) == k
    decreases e
  {
    if k < e {
      SkipTrailingStops(s, lo, e - 1, k);
    }
  }

  /** Every string is its trim surrounded by whitespace. */
  lemma TrimSplits(s: string)
    ensures var start := SkipLeading(s, 0); var r := Trim(s);
      start + |r| <= |s| && r == s[start..start + |r|] && s == s[..start] + r + s[start + |r|..]
      && AllTrimmable(s[..start]) && AllTrimmable(s[start + |r|..])
  {
    var start := SkipLeading(s, 0);
    var stop := SkipTrailing(s, start, |s|);
    assert s == s[..start] + s[start..stop] + s[stop..];
  }

  /**
   * Trim is determined by its result: whatever whitespace surrounds a string
   * with no whitespace at its ends, trim returns exactly that string.
   */
  lemma TrimUnique(w1: string, r: string, w2: string)
    requires AllTrimmable(w1) && AllTrimmable(w2) && Clean(r)
    ensures Trim(w1 + r + w2) == r
  {
    var s := w1 + r + w2;
    if r == [] {
      assert forall j :: 0 <= j < |s| ==> s[j] == if j < |w1| then w1[j] else w2[j - |w1|];
      SkipLeadingStops(s, 0, |s|);
    } else {
      var stop := |w1| + |r|;
      assert forall j :: |w1| <= j < stop ==> s[j] == r[j - |w1|];
      assert forall j :: 0 <= j < |w1| ==> s[j] == w1[j];
      assert forall j :: stop <= j < |s| ==> s[j] == w2[j - stop];
      SkipLeadingStops(s, 0, |w1|);
      SkipTrailingStops(s, |w1|, |s|, stop);
      assert s[|w1|..stop] == r;
    }
  }

  /** Trimming twice changes nothing more than trimming once. */
  lemma TrimIdempotent(s: string)
    ensures Trim(Trim(s)) == Trim(s)
  {
    var r := Trim(s);
    assert [] + r + [] == r;
    TrimUnique([], r, []);
  }

  lemma AllTrimmableConcat(a: string, b: string)
    requires AllTrimmable(a) && AllTrimmable(b)
    ensures AllTrimmable(a + b)
  {
    assert forall j :: 0 <= j < |a + b| ==> (a + b)[j] == if j < |a| then a[j] else b[j - |a|];
  }

  lemma Regroup(a: string, b: string, c: string, d: string, e: string)
    ensures a + (b + c + d) + e == (a + b) + c + (d + e)
  {
  }

  /** Inputs that differ only in surrounding whitespace trim to the same string. */
  lemma TrimIgnoresPadding(w1: string, s: string, w2: string)
    requires AllTrimmable(w1) && AllTrimmable(w2)
    ensures Trim(w1 + s + w2) == Trim(s)
  {
    var start := SkipLeading(s, 0);
    var r := Trim(s);
    TrimSplits(s);
    var v1 := s[..start];
    var v2 := s[start + |r|..];
    Regroup(w1, v1, r, v2, w2);
    AllTrimmableConcat(w1, v1);
    AllTrimmableConcat(v2, w2);
    TrimUnique(w1 + v1, r, v2 + w2);
  }

  /** A string trims to nothing exactly when every character of it is whitespace or a line terminator. */
  lemma TrimEmptyIffBlank(s: string)
    ensures Trim(s) == [] <==> AllTrimmable(s)
  {
    if AllTrimmable(s) {
      assert s + [] + [] == s;
      TrimUnique(s, [], []);
    } else {
      TrimSplits(s);
    }
  }

  /** ASCII case mapping of one character. */
  function LowerChar(c: char): (d: char)
    ensures !IsAsciiUpper(d)
    ensures IsTrimmable(d) <==> IsTrimmable(c)
  {
    if IsAsciiUpper(c) then (c as int + 32) as char else c
  }

  predicate NoAsciiUpper(s: string)
  {
    forall i :: 0 <= i < |s| ==> !IsAsciiUpper(s[i])
  }

  /** `s.toLowerCase()` restricted to ASCII letters. */
  function Lower(s: string): (r: string)
    ensures |r| == |s| && NoAsciiUpper(r)
    ensures forall i :: 0 <= i < |s| ==> r[i] == LowerChar(s[i])
  {
    seq(|s|, i requires 0 <= i < |s| => LowerChar(s[i]))
  }

  lemma LowerOfLower(s: string)
    requires NoAsciiUpper(s)
    ensures Lower(s) == s
  {
  }

  /** Trimming keeps a string free of ASCII capitals: the trim is a slice of it. */
  lemma TrimKeepsNoAsciiUpper(s: string)
    requires NoAsciiUpper(s)
    ensures NoAsciiUpper(Trim(s))
  {
    var t := Trim(s);
    var k := SkipLeading(s, 0);
    TrimSplits(s);
    forall j | 0 <= j < |t| ensures !IsAsciiUpper(t[j]) {
      assert t[j] == s[k + j];
    }
  }

  /** Number of UTF-16 code units: scalar values above U+FFFF take a surrogate pair. */
  function Utf16Length(s: string): (n: nat)
    ensures |s| <= n <= 2 * |s|
  {
    if s == [] then 0 else (if s[0] as int > 0xFFFF then 2 else 1) + Utf16Length(s[1..])
  }
}
