/** Text helpers shared by the view and the results parser: JavaScript's notion of white space
    (used by String.prototype.trim and by `\s` in a regular expression), decimal numerals as the
    template literals and parseInt produce and read them, ASCII case-insensitive literal matching as
    in a regular expression with the `i` flag, and a leftmost-position scanner. */
module Strings {

  datatype Option<+T> = None | Some(value: T)

  /** The characters JavaScript counts as WhiteSpace or LineTerminator. */
  predicate IsSpace(c: char) {
    ('\t' <= c <= '\r') || c == ' ' || c == '\U{00A0}' || c == '\U{1680}' || ('\U{2000}' <= c <= '\U{200A}')
    || ('\U{2028}' <= c <= '\U{2029}') || c == '\U{202F}' || c == '\U{205F}' || c == '\U{3000}'
    || c == '\U{FEFF}'
  }

  predicate IsDigit(c: char) { '0' <= c <= '9' }

  /** A character of the class `\w`. */
  predicate IsWordChar(c: char) {
    ('a' <= c <= 'z') || ('A' <= c <= 'Z') || IsDigit(c) || c == '_'
  }

  predicate AllSpace(s: string) { forall k :: 0 <= k < |s| ==> IsSpace(s[k]) }

  /** No white space at either end. */
  predicate IsTrimmed(s: string) { s == [] || (!IsSpace(s[0]) && !IsSpace(s[|s| - 1])) }

  predicate AllDigits(s: string) { forall k :: 0 <= k < |s| ==> IsDigit(s[k]) }

  /** Drops the leading white space. */
  function TrimStart(s: string): (r: string)
    ensures |r| <= |s| && r == s[|s| - |r|..]
    ensures AllSpace(s[..|s| - |r|])
    ensures r != [] ==> !IsSpace(r[0])
  {
    if s != [] && IsSpace(s[0]) then
      var r := TrimStart(s[1..]);
      SpaceThenRest(s, r);
      r
    else s
  }

  /** A leading space followed by white space and then `r` is white space followed by `r`. */
  lemma SpaceThenRest(s: string, r: string)
    requires s != [] && IsSpace(s[0]) && |r| <= |s| - 1
    requires r == s[1..][|s| - 1 - |r|..] && AllSpace(s[1..][..|s| - 1 - |r|])
    ensures r == s[|s| - |r|..] && AllSpace(s[..|s| - |r|])
  {
    assert forall k :: 1 <= k < |s| - |r| ==> s[k] == s[1..][..|s| - 1 - |r|][k - 1];
  }

  /** Drops the trailing white space. */
  function TrimEnd(s: string): (r: string)
    ensures |r| <= |s| && r == s[..|r|]
    ensures AllSpace(s[|r|..])
    ensures r != [] ==> !IsSpace(r[|r| - 1])
  {
    if s != [] && IsSpace(s[|s| - 1]) then
      var r := TrimEnd(s[..|s| - 1]);
      assert s[|r|..] == s[..|s| - 1][|r|..] + [s[|s| - 1]];
      r
    else s
  }

  /** String.prototype.trim: the input without its leading and trailing white space. */
  function Trim(s: string): (r: string)
    ensures r == [] <==> AllSpace(s)
    ensures IsTrimmed(r)
    ensures exists i, j :: 0 <= i <= j <= |s| && r == s[i..j] && AllSpace(s[..i]) && AllSpace(s[j..])
  {
    TrimBlank(s, TrimStart(s), TrimEnd(TrimStart(s)));
    TrimEnds(s);
    TrimSlice(s, TrimStart(s), TrimEnd(TrimStart(s)));
    TrimEnd(TrimStart(s))
  }

  /** The cuts leave nothing exactly when `s` is all white space. */
  lemma TrimBlank(s: string, t: string, r: string)
    requires |t| <= |s| && t == s[|s| - |t|..] && AllSpace(s[..|s| - |t|]) && (t != [] ==> !IsSpace(t[0]))
    requires |r| <= |t| && r == t[..|r|] && AllSpace(t[|r|..])
    ensures r == [] <==> AllSpace(s)
  {
    var i := |s| - |t|;
    if r == [] {
      assert t[|r|..] == t;
      assert t == [];
      assert s[..i] == s;
    } else {
      assert r[0] == t[0] == s[i];
    }
  }

  lemma TrimEnds(s: string)
    ensures IsTrimmed(TrimEnd(TrimStart(s)))
  {
    var t := TrimStart(s);
    var r := TrimEnd(t);
    if r != [] {
      assert r[0] == t[0];
    }
  }

  /** A prefix cut off `s`, then a suffix cut off the rest, leaves a slice of `s`. */
  lemma TrimSlice(s: string, t: string, r: string)
    requires |t| <= |s| && t == s[|s| - |t|..] && AllSpace(s[..|s| - |t|])
    requires |r| <= |t| && r == t[..|r|] && AllSpace(t[|r|..])
    ensures exists i, j :: 0 <= i <= j <= |s| && r == s[i..j] && AllSpace(s[..i]) && AllSpace(s[j..])
  {
    var i := |s| - |t|;
    var j := i + |r|;
    assert r == s[i..j];
    assert s[j..] == t[|r|..];
  }

  lemma {:induction false} TrimOfTrimmed(s: string)
    requires IsTrimmed(s)
    ensures Trim(s) == s
  {
    assert TrimStart(s) == s;
  }

  /** The length of the run of white space starting at position `i`. */
  function SpaceRun(s: string, i: nat): (n: nat)
    decreases |s| - i
    ensures i <= |s| ==> i + n <= |s|
    ensures i > |s| ==> n == 0
    ensures forall k :: i <= k < i + n ==> IsSpace(s[k])
    ensures i + n < |s| ==> !IsSpace(s[i + n])
  {
    if i < |s| && IsSpace(s[i]) then 1 + SpaceRun(s, i + 1) else 0
  }

  /** The length of the run of decimal digits starting at position `i`. */
  function DigitRun(s: string, i: nat): (n: nat)
    decreases |s| - i
    ensures i <= |s| ==> i + n <= |s|
    ensures i > |s| ==> n == 0
    ensures forall k :: i <= k < i + n ==> IsDigit(s[k])
    ensures i + n < |s| ==> !IsDigit(s[i + n])
  {
    if i < |s| && IsDigit(s[i]) then 1 + DigitRun(s, i + 1) else 0
  }

  /** The length of the run of `\w` characters starting at position `i`. */
  function WordRun(s: string, i: nat): (n: nat)
    decreases |s| - i
    ensures i <= |s| ==> i + n <= |s|
    ensures i > |s| ==> n == 0
    ensures forall k :: i <= k < i + n ==> IsWordChar(s[k])
    ensures i + n < |s| ==> !IsWordChar(s[i + n])
  {
    if i < |s| && IsWordChar(s[i]) then 1 + WordRun(s, i + 1) else 0
  }

  function DigitChar(d: nat): (c: char)
    requires d < 10
    ensures IsDigit(c) && c as int - '0' as int == d
  {
    ('0' as int + d) as char
  }

  /** The value parseInt gives a run of decimal digits. */
  function DigitsValue(s: string): nat
    requires AllDigits(s)
  {
    if s == [] then 0 else 10 * DigitsValue(s[..|s| - 1]) + (s[|s| - 1] as int - '0' as int)
  }

  /** The decimal numeral a template literal writes for a non-negative integer. */
  function Decimal(n: nat): (r: string)
    ensures |r| >= 1 && AllDigits(r)
    ensures DigitsValue(r) == n
    ensures |r| > 1 ==> r[0] != '0'
    ensures n < 10 ==> |r| == 1
    ensures 10 <= n < 100 ==> |r| == 2
  {
    if n < 10 then [DigitChar(n)]
    else
      var p := Decimal(n / 10);
      var r := p + [DigitChar(n % 10)];
      assert r[..|r| - 1] == p;
      r
  }

  /** ASCII lower-casing; a regular expression with the `i` flag (and no `u` flag) never equates a
      non-ASCII character with an ASCII letter, so this is exact for the ASCII patterns used here. */
  function LowerAscii(c: char): char {
    if 'A' <= c <= 'Z' then (c as int + 32) as char else c
  }

  /** The literal `lit` occurs at position `i` of `s`, ignoring ASCII case. */
  predicate MatchesAt(s: string, i: nat, lit: string) {
    i + |lit| <= |s| && forall k :: 0 <= k < |lit| ==> LowerAscii(s[i + k]) == LowerAscii(lit[k])
  }

  /** Case-sensitive substring test (String.prototype.includes). */
  predicate Contains(s: string, part: string)
    decreases |s|
  {
    |part| <= |s| && (s[..|part|] == part || Contains(s[1..], part))
  }

  /** White space in front of a text that does not start with white space is what TrimStart
      removes. */
  lemma {:induction false} TrimSpaceLead(lead: string, t: string)
    requires AllSpace(lead) && (t == [] || !IsSpace(t[0]))
    ensures TrimStart(lead + t) == t
    decreases |lead|
  {
    if lead == [] {
      assert lead + t == t;
    } else {
      var s := lead + t;
      assert s[0] == lead[0];
      assert s[1..] == lead[1..] + t;
      assert AllSpace(lead[1..]) by {
        forall k | 0 <= k < |lead[1..]| ensures IsSpace(lead[1..][k]) { assert lead[1..][k] == lead[k + 1]; }
      }
      TrimSpaceLead(lead[1..], t);
    }
  }

  /** A non-space character at `k` ends any all-white-space prefix before it. */
  lemma SpacePrefixBefore(s: string, i: nat, k: nat)
    requires i <= |s| && AllSpace(s[..i]) && k < |s| && !IsSpace(s[k])
    ensures i <= k
  {
    forall m | 0 <= m < i ensures IsSpace(s[m]) { assert s[..i][m] == s[m]; }
  }

  /** A non-space character at `k` starts before any all-white-space suffix. */
  lemma SpaceSuffixAfter(s: string, j: nat, k: nat)
    requires j <= |s| && AllSpace(s[j..]) && k < |s| && !IsSpace(s[k])
    ensures k < j
  {
    forall m | j <= m < |s| ensures IsSpace(s[m]) { assert s[j..][m - j] == s[m]; }
  }

  /** Trimming a trimmed text followed by white space gives the text back. */
  lemma TrimTrailingSpace(x: string, w: string)
    requires x != [] && IsTrimmed(x) && AllSpace(w)
    ensures Trim(x + w) == x
  {
    var s := x + w;
    assert s[0] == x[0] && s[|x| - 1] == x[|x| - 1];
    assert !AllSpace(s);
    assert forall k :: |x| <= k < |s| ==> IsSpace(s[k]) by {
      forall k | |x| <= k < |s| ensures IsSpace(s[k]) { assert s[k] == w[k - |x|]; }
    }
    assert s[..|x|] == x;
    TrimOfPadded(s, |x|, Trim(s));
  }

  /** A text whose first `n` characters are trimmed and not empty, followed by white space only,
      trims to those `n` characters. */
  lemma TrimOfPadded(s: string, n: nat, r: string)
    requires 0 < n <= |s| && !IsSpace(s[0]) && !IsSpace(s[n - 1])
    requires forall k :: n <= k < |s| ==> IsSpace(s[k])
    requires r != [] && IsTrimmed(r)
    requires exists i: nat, j: nat :: i <= j <= |s| && r == s[i..j] && AllSpace(s[..i]) && AllSpace(s[j..])
    ensures r == s[..n]
  {
    var i: nat, j: nat :| i <= j <= |s| && r == s[i..j] && AllSpace(s[..i]) && AllSpace(s[j..]);
    SpacePrefixBefore(s, i, 0);
    SpaceSuffixAfter(s, j, n - 1);
    assert !IsSpace(s[j - 1]) by { assert r[|r| - 1] == s[j - 1]; }
  }

  /** `part` sits in `s` at position `k`. */
  predicate OccursAt(s: string, part: string, k: nat) {
    k + |part| <= |s| && s[k..k + |part|] == part
  }

  /** `part` occurs in `s` exactly when it sits at some position of `s`. */
  lemma {:induction false} ContainsIff(s: string, part: string)
    ensures Contains(s, part) <==> exists k: nat :: OccursAt(s, part, k)
    decreases |s|
  {
    if |part| <= |s| && s[..|part|] != part && s != [] {
      ContainsIff(s[1..], part);
      if Contains(s, part) {
        var k: nat :| OccursAt(s[1..], part, k);
        assert s[k + 1..k + 1 + |part|] == s[1..][k..k + |part|];
        assert OccursAt(s, part, k + 1);
      } else {
        forall k: nat | 0 < k && OccursAt(s, part, k) ensures OccursAt(s[1..], part, k - 1) {
          assert s[k..k + |part|] == s[1..][k - 1..k - 1 + |part|];
        }
        assert !OccursAt(s, part, 0);
      }
    } else if |part| <= |s| && s[..|part|] == part {
      assert OccursAt(s, part, 0);
    }
  }

  /** A leading zero does not change the value parseInt reads. */
  lemma {:induction false} LeadingZero(d: string)
    requires AllDigits(d)
    ensures AllDigits("0" + d) && DigitsValue("0" + d) == DigitsValue(d)
    decreases |d|
  {
    if d != [] {
      assert ("0" + d)[..|"0" + d| - 1] == "0" + d[..|d| - 1];
      LeadingZero(d[..|d| - 1]);
    }
  }

  /** The leftmost position `i >= from` (up to and including |s|, where an empty match could sit) at
      which the matcher `at` succeeds, with what it produced: how a regular expression without the
      `g` flag picks its match. */
  function FirstMatch<T>(s: string, at: (string, nat) -> Option<T>, from: nat): (r: Option<(nat, T)>)
    decreases |s| + 1 - from
    ensures r.Some? ==> from <= r.value.0 <= |s| && at(s, r.value.0) == Some(r.value.1)
    ensures r.Some? ==> forall k :: from <= k < r.value.0 ==> at(s, k).None?
    ensures r.None? ==> forall k :: from <= k <= |s| ==> at(s, k).None?
  {
    if from > |s| then None
    else match at(s, from)
      case Some(v) => Some((from, v))
      case None => FirstMatch(s, at, from + 1)
  }

  /** `at` succeeds at `i` and nowhere before it. */
  predicate IsLeftmost<T>(s: string, at: (string, nat) -> Option<T>, i: nat) {
    i <= |s| && at(s, i).Some? && forall k :: 0 <= k < i ==> at(s, k).None?
  }

  /** `at` succeeds nowhere in `s`. */
  predicate NoMatch<T>(s: string, at: (string, nat) -> Option<T>) {
    forall k :: 0 <= k <= |s| ==> at(s, k).None?
  }

  /** The scan from 0 finds exactly the leftmost match. */
  lemma {:induction false} FirstMatchLeftmost<T>(s: string, at: (string, nat) -> Option<T>, i: nat)
    requires IsLeftmost(s, at, i)
    ensures FirstMatch(s, at, 0) == Some((i, at(s, i).value))
  {
  }

  /** The leftmost position at or after `from` where `lit` occurs, ignoring ASCII case. */
  function FindLiteral(s: string, lit: string, from: nat): (r: Option<nat>)
    decreases |s| + 1 - from
    ensures r.Some? ==> from <= r.value && MatchesAt(s, r.value, lit)
    ensures r.Some? ==> forall k :: from <= k < r.value ==> !MatchesAt(s, k, lit)
    ensures r.None? ==> forall k :: from <= k ==> !MatchesAt(s, k, lit)
  {
    if from + |lit| > |s| then None
    else if MatchesAt(s, from, lit) then Some(from)
    else FindLiteral(s, lit, from + 1)
  }

  /** The search from `from` finds `i` when `lit` occurs at `i` and nowhere between. */
  lemma FindLiteralAt(s: string, lit: string, from: nat, i: nat)
    requires from <= i && MatchesAt(s, i, lit)
    requires forall k :: from <= k < i ==> !MatchesAt(s, k, lit)
    ensures FindLiteral(s, lit, from) == Some(i)
  {
  }

  /** With no occurrence before the end, the search finds nothing, or the end itself. */
  lemma FindLiteralEnd(s: string, lit: string, from: nat)
    requires forall k :: from <= k < |s| ==> !MatchesAt(s, k, lit)
    ensures FindLiteral(s, lit, from).None? || FindLiteral(s, lit, from) == Some(|s|)
  {
  }

  /** The first occurrence of the character `c`. */
  function IndexOf(s: string, c: char): (r: Option<nat>)
    ensures r.Some? ==> r.value < |s| && s[r.value] == c && c !in s[..r.value]
    ensures r.None? <==> c !in s
  {
    if s == [] then None
    else if s[0] == c then Some(0)
    else match IndexOf(s[1..], c)
      case None => None
      case Some(i) =>
        assert s[..i + 1] == [s[0]] + s[1..][..i];
        Some(i + 1)
  }

  /** The length of the run of the character `c` starting at position `i`. */
  function CharRun(s: string, i: nat, c: char): (n: nat)
    decreases |s| - i
    ensures i <= |s| ==> i + n <= |s|
    ensures i > |s| ==> n == 0
    ensures forall k :: i <= k < i + n ==> s[k] == c
    ensures i + n < |s| ==> s[i + n] != c
  {
    if i < |s| && s[i] == c then 1 + CharRun(s, i + 1, c) else 0
  }
}
