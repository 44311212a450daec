/** Character classes and string helpers shared by the browser-side models:
    JavaScript's `\s` and `\w` regular-expression classes, `String.prototype.trim`,
    code-point string comparison (`<` on Python strings) and
    decimal rendering of integers. */
module Text {
  import opened Wrappers

  /** JavaScript's `\s`: the WhiteSpace and LineTerminator code points of
      ECMAScript, which are also the ones `trim()` removes. */
  predicate IsSpace(c: char) {
    c == ' ' || c == '\t' || c == '\n' || c == '\r' || c == '\U{000B}' || c == '\U{000C}'
    || c == '\U{00A0}' || c == '\U{1680}' || ('\U{2000}' <= c <= '\U{200A}')
    || c == '\U{2028}' || c == '\U{2029}' || c == '\U{202F}' || c == '\U{205F}'
    || c == '\U{3000}' || c == '\U{FEFF}'
  }

  /** The code points JavaScript's `.` does not match. */
  predicate IsLineTerminator(c: char) {
    c == '\n' || c == '\r' || c == '\U{2028}' || c == '\U{2029}'
  }

  /** JavaScript's `\w`: ASCII letters, digits and underscore. */
  predicate IsWordChar(c: char) {
    ('a' <= c <= 'z') || ('A' <= c <= 'Z') || ('0' <= c <= '9') || c == '_'
  }

  predicate AllSpace(s: string) {
    forall i :: 0 <= i < |s| ==> IsSpace(s[i])
  }

  /** A non-empty run of `\w` characters: what `(\w+)` captures and what a
      field name of a plain object literal looks like. */
  predicate IsWord(s: string) {
    |s| > 0 && forall i :: 0 <= i < |s| ==> IsWordChar(s[i])
  }

  function TrimStart(s: string): (r: string)
    ensures |r| <= |s| && r == s[|s| - |r|..]
    ensures |r| > 0 ==> !IsSpace(r[0])
    ensures AllSpace(s[..|s| - |r|])
  {
    if |s| > 0 && IsSpace(s[0]) then TrimStart(s[1..]) else s
  }

  function TrimEnd(s: string): (r: string)
    ensures |r| <= |s| && r == s[..|r|]
    ensures |r| > 0 ==> !IsSpace(r[|r| - 1])
    ensures AllSpace(s[|r|..])
  {
    if |s| > 0 && IsSpace(s[|s| - 1]) then TrimEnd(s[..|s| - 1]) else s
  }

  /** `String.prototype.trim`. */
  function Trim(s: string): string {
    TrimEnd(TrimStart(s))
  }

  /** `!s.trim()` holds exactly for the strings made only of white space. */
  lemma TrimEmptyIffAllSpace(s: string)
    ensures Trim(s) == "" <==> AllSpace(s)
  {

  }

  /** Strict code-point order of strings (`a < b` on Python strings; on
      JavaScript strings too when every character lies in the Basic
      Multilingual Plane, as in ISO date texts). */
  predicate Less(a: string, b: string) {
    if |a| == 0 then |b| > 0
    else if |b| == 0 then false
    else if a[0] != b[0] then a[0] < b[0]
    else Less(a[1..], b[1..])
  }

  lemma {:induction false} LessIrreflexive(a: string)
    ensures !Less(a, a)
  {
    if |a| > 0 {
      LessIrreflexive(a[1..]);
    }
  }

  lemma {:induction false} LessTransitive(a: string, b: string, c: string)
    requires Less(a, b) && Less(b, c)
    ensures Less(a, c)
  {
    if |a| > 0 && |b| > 0 && |c| > 0 && a[0] == b[0] && b[0] == c[0] {
      LessTransitive(a[1..], b[1..], c[1..]);
    }
  }

  lemma {:induction false} LessTotal(a: string, b: string)
    ensures a == b || Less(a, b) || Less(b, a)
  {
    if |a| > 0 && |b| > 0 && a[0] == b[0] {
      LessTotal(a[1..], b[1..]);
      if a[1..] == b[1..] {
        assert a == [a[0]] + a[1..] && b == [b[0]] + b[1..];
      }
    }
  }

  lemma {:induction false} LessAsymmetric(a: string, b: string)
    requires Less(a, b)
    ensures !Less(b, a)
  {
    if |a| > 0 && |b| > 0 && a[0] == b[0] {
      LessAsymmetric(a[1..], b[1..]);
    }
  }

  /** Comparing strings that share a prefix is comparing what follows it. */
  lemma {:induction false} LessCommonPrefix(p: string, a: string, b: string)
    ensures Less(p + a, p + b) <==> Less(a, b)
  {
    if |p| == 0 {
      assert p + a == a && p + b == b;
    } else {
      assert (p + a)[0] == p[0] == (p + b)[0];
      assert (p + a)[1..] == p[1..] + a;
      assert (p + b)[1..] == p[1..] + b;
      LessCommonPrefix(p[1..], a, b);
    }
  }

  /** For strings of one length, the first difference decides. */
  lemma {:induction false} LessFirstDifference(a: string, b: string, a': string, b': string)
    requires |a| == |b| && a != b
    ensures Less(a + a', b + b') <==> Less(a, b)
  {
    if a[0] == b[0] {
      assert a[1..] != b[1..];
      assert (a + a')[1..] == a[1..] + a';
      assert (b + b')[1..] == b[1..] + b';
      LessFirstDifference(a[1..], b[1..], a', b');
    }
  }

  function DigitChar(d: nat): (c: char)
    requires d < 10
    ensures '0' <= c <= '9'
  {
    ('0' as int + d) as char
  }

  function DigitValue(c: char): (d: nat)
    requires '0' <= c <= '9'
    ensures d < 10 && DigitChar(d) == c
  {
    (c as int - '0' as int) as nat
  }

  /** Decimal text of a natural number, without leading zeros. */
  function NatText(n: nat): (r: string)
    ensures |r| > 0
    ensures forall i :: 0 <= i < |r| ==> '0' <= r[i] <= '9'
  {
    if n < 10 then [DigitChar(n)] else NatText(n / 10) + [DigitChar(n % 10)]
  }

  /** Decimal text of an integer, with a leading '-' when negative. */
  function IntText(n: int): string {
    if n < 0 then "-" + NatText(-n) else NatText(n)
  }

  /** Value of a string of decimal digits. */
  function DigitsValue(s: string): nat
    requires forall i :: 0 <= i < |s| ==> '0' <= s[i] <= '9'
  {
    if |s| == 0 then 0 else 10 * DigitsValue(s[..|s| - 1]) + DigitValue(s[|s| - 1])
  }

  /** `n` in exactly `width` decimal digits, zero-padded on the left. */
  function Padded(n: nat, width: nat): (r: string)
    requires n < Pow10(width)
    ensures |r| == width
    ensures forall i :: 0 <= i < |r| ==> '0' <= r[i] <= '9'
    ensures DigitsValue(r) == n
  {
    if width == 0 then ""
    else
      var r := Padded(n / 10, width - 1) + [DigitChar(n % 10)];
      assert r[..|r| - 1] == Padded(n / 10, width - 1);
      r
  }

  predicate AllDigits(s: string) {
    forall i :: 0 <= i < |s| ==> '0' <= s[i] <= '9'
  }

  lemma {:induction false} DigitsBound(s: string)
    requires AllDigits(s)
    ensures DigitsValue(s) < Pow10(|s|)
  {
    if |s| > 0 {
      DigitsBound(s[..|s| - 1]);
    }
  }

  /** Reading `k` digits gives a number below 10^k, and writing that number
      back in `k` digits gives the same text. */
  lemma {:induction false} PaddedOfDigits(s: string)
    requires AllDigits(s)
    ensures DigitsValue(s) < Pow10(|s|)
    ensures Padded(DigitsValue(s), |s|) == s
  {
    if |s| > 0 {
      var init := s[..|s| - 1];
      PaddedOfDigits(init);
      var n := DigitsValue(s);
      assert n / 10 == DigitsValue(init) && n % 10 == DigitValue(s[|s| - 1]);
      assert s == init + [s[|s| - 1]];
    }
  }

  function Pow10(k: nat): (p: nat)
    ensures p >= 1
  {
    if k == 0 then 1 else 10 * Pow10(k - 1)
  }

  /** Zero-padded numbers of one width compare as text exactly as they
      compare as numbers. */
  lemma PaddedInjective(x: nat, y: nat, w: nat)
    requires x < Pow10(w) && y < Pow10(w) && Padded(x, w) == Padded(y, w)
    ensures x == y
  {
    assert DigitsValue(Padded(x, w)) == DigitsValue(Padded(y, w));
  }

  lemma LessSingle(c: char, d: char)
    ensures Less([c], [d]) <==> c < d
  {
    if c == d {
      assert [c][1..] == [] && [d][1..] == [];
    }
  }

  /** Zero-padded numbers of one width compare as text exactly as they
      compare as numbers. */
  lemma {:induction false} PaddedLess(x: nat, y: nat, w: nat)
    requires x < Pow10(w) && y < Pow10(w)
    ensures Less(Padded(x, w), Padded(y, w)) <==> x < y
    decreases w, 1
  {
    if w > 0 {
      var px, py := Padded(x / 10, w - 1), Padded(y / 10, w - 1);
      var dx, dy := [DigitChar(x % 10)], [DigitChar(y % 10)];
      assert Padded(x, w) == px + dx && Padded(y, w) == py + dy;
      if x / 10 != y / 10 {
        PaddedLessHigh(x, y, w);
      } else {
        LessCommonPrefix(px, dx, dy);
        LessSingle(DigitChar(x % 10), DigitChar(y % 10));
      }
    }
  }

  lemma {:induction false} PaddedLessHigh(x: nat, y: nat, w: nat)
    requires w > 0 && x < Pow10(w) && y < Pow10(w) && x / 10 != y / 10
    ensures Less(Padded(x, w), Padded(y, w)) <==> x < y
    decreases w, 0
  {
    var px, py := Padded(x / 10, w - 1), Padded(y / 10, w - 1);
    var dx, dy := [DigitChar(x % 10)], [DigitChar(y % 10)];
    assert Padded(x, w) == px + dx && Padded(y, w) == py + dy;
    assert px != py;
    LessFirstDifference(px, py, dx, dy);
    PaddedLess(x / 10, y / 10, w - 1);
  }

  lemma {:induction false} NatTextValue(n: nat)
    ensures DigitsValue(NatText(n)) == n
  {
    if n >= 10 {
      var r := NatText(n / 10) + [DigitChar(n % 10)];
      assert r[..|r| - 1] == NatText(n / 10);
      NatTextValue(n / 10);
    }
  }

  // ---- literal prefixes ----

  predicate StartsWith(s: string, p: string) {
    |p| <= |s| && s[..|p|] == p
  }

  /** `t` without the prefix `p`, if `t` starts with it. */
  function Expect(t: string, p: string): (r: Option<string>)
    ensures r.Some? <==> StartsWith(t, p)
    ensures r.Some? ==> |r.value| == |t| - |p| && r.value == t[|p|..]
  {
    if StartsWith(t, p) then Some(t[|p|..]) else None
  }

  lemma ExpectPrefix(p: string, x: string)
    ensures Expect(p + x, p) == Some(x)
  {
    assert (p + x)[..|p|] == p;
  }

  lemma AppendAssoc(a: string, b: string, c: string)
    ensures (a + b) + c == a + (b + c)
  {
  }
}
