/** The results view (src/components/Results.jsx): reading the score, the PASS/FAIL decision and
    the two bullet lists out of the free-text assessment with fixed patterns, and the display rules
    built on them. Each regular expression of the source is written out as a scanner for that one
    pattern; the scanners are applied at the leftmost position where they succeed, as a regular
    expression without the `g` flag is. */
module Results {
  import opened Strings
  import InterviewContext

  datatype Verdict = Pass | Fail

  /** Two patterns tried in turn: what the leftmost match of the first pattern yields, else what
      the leftmost match of the second yields. */
  function FirstPattern<T>(s: string, primary: (string, nat) -> Option<T>, fallback: (string, nat) -> Option<T>): Option<T> {
    match FirstMatch(s, primary, 0)
    case Some(m) => Some(m.1)
    case None =>
      match FirstMatch(s, fallback, 0)
      case Some(m) => Some(m.1)
      case None => None
  }

  lemma LeftmostOfFirstPattern<T>(s: string, primary: (string, nat) -> Option<T>, fallback: (string, nat) -> Option<T>)
    ensures forall i :: IsLeftmost(s, primary, i) ==> FirstPattern(s, primary, fallback) == primary(s, i)
    ensures NoMatch(s, primary) ==>
      forall i :: IsLeftmost(s, fallback, i) ==> FirstPattern(s, primary, fallback) == fallback(s, i)
    ensures FirstPattern(s, primary, fallback).None? <==> NoMatch(s, primary) && NoMatch(s, fallback)
  {
    forall i | IsLeftmost(s, primary, i) ensures FirstPattern(s, primary, fallback) == primary(s, i) {
      FirstMatchLeftmost(s, primary, i);
    }
    if NoMatch(s, primary) {
      forall i | IsLeftmost(s, fallback, i) ensures FirstPattern(s, primary, fallback) == fallback(s, i) {
        FirstMatchLeftmost(s, fallback, i);
      }
    }
  }

  // ---------------------------------------------------------------------------------------------
  // Score

  /** `(\d+)\/100` at position `i`: a digit run (taken whole, since a shorter run would leave a
      digit where `/` is needed) followed by "/100"; yields parseInt of the digits. */
  function BareScoreAt(s: string, i: nat): Option<nat> {
    var n := DigitRun(s, i);
    if n > 0 && MatchesAt(s, i + n, "/100") then Some(DigitsValue(s[i..i + n])) else None
  }

  /** `Score:?\s*(\d+)\/100` at position `i`, case-insensitively. Taking the colon and the white
      space greedily is the only way this pattern can match, because a colon or a space cannot start
      `\s*\d`. */
  function LabelledScoreAt(s: string, i: nat): Option<nat> {
    if !MatchesAt(s, i, "score") then None else BareScoreAt(s, AfterColonSpace(s, i + 5))
  }

  /** `:?\s*` read greedily from position `p`: where the text after it starts. */
  function AfterColonSpace(s: string, p: nat): nat {
    var j := if p < |s| && s[p] == ':' then p + 1 else p;
    j + SpaceRun(s, j)
  }

  /** The labelled pattern wins wherever it occurs; the bare pattern is the fallback; None when
      neither occurs anywhere (shown as '?'). */
  function ExtractScore(s: string): (r: Option<nat>)
    ensures forall i :: IsLeftmost(s, LabelledScoreAt, i) ==> r == LabelledScoreAt(s, i)
    ensures NoMatch(s, LabelledScoreAt) ==>
      forall i :: IsLeftmost(s, BareScoreAt, i) ==> r == BareScoreAt(s, i)
    ensures r.None? <==> NoMatch(s, LabelledScoreAt) && NoMatch(s, BareScoreAt)
  {
    var r := FirstPattern(s, LabelledScoreAt, BareScoreAt);
    LeftmostOfFirstPattern(s, LabelledScoreAt, BareScoreAt);
    r
  }

  lemma {:induction false} DigitRunOf(s: string, i: nat, d: string)
    requires i + |d| <= |s| && s[i..i + |d|] == d && AllDigits(d)
    requires i + |d| < |s| ==> !IsDigit(s[i + |d|])
    ensures DigitRun(s, i) == |d|
    decreases |d|
  {
    if d != [] {
      assert s[i] == d[0];
      assert s[i + 1..i + 1 + |d[1..]|] == d[1..];
      DigitRunOf(s, i + 1, d[1..]);
    }
  }

  lemma {:induction false} SpaceRunOf(s: string, i: nat, w: string)
    requires i + |w| <= |s| && s[i..i + |w|] == w && AllSpace(w)
    requires i + |w| < |s| ==> !IsSpace(s[i + |w|])
    ensures SpaceRun(s, i) == |w|
    decreases |w|
  {
    if w != [] {
      assert s[i] == w[0];
      assert s[i + 1..i + 1 + |w[1..]|] == w[1..];
      SpaceRunOf(s, i + 1, w[1..]);
    }
  }

  /** The bare pattern matches a numeral followed by "/100". */
  lemma {:induction false} BareScoreOfNumeral(s: string, i: nat, n: nat)
    requires i + |Decimal(n)| + 4 <= |s| && s[i..i + |Decimal(n)|] == Decimal(n)
    requires s[i + |Decimal(n)|..i + |Decimal(n)| + 4] == "/100"
    ensures BareScoreAt(s, i) == Some(n)
  {
    var d := Decimal(n);
    assert s[i + |d|] == '/';
    DigitRunOf(s, i, d);
    assert MatchesAt(s, i + |d|, "/100") by {
      forall k | 0 <= k < 4 ensures s[i + |d| + k] == "/100"[k] {
        assert s[i + |d|..i + |d| + 4][k] == s[i + |d| + k];
      }
    }
  }

  /** "Score: " followed by a bare score is a labelled score. */
  lemma {:induction false} LabelledScoreOf(s: string, n: nat)
    requires |s| >= 7 && s[..7] == "Score: " && BareScoreAt(s, 7) == Some(n)
    ensures LabelledScoreAt(s, 0) == Some(n)
  {
    assert s[5] == s[..7][5] && s[6] == s[..7][6];
    assert MatchesAt(s, 0, "score") by {
      forall k | 0 <= k < 5 ensures LowerAscii(s[k]) == LowerAscii("score"[k]) {
        assert s[k] == s[..7][k];
      }
    }
    assert IsDigit(s[7]);
    assert SpaceRun(s, 6) == 1;
  }

  /** An optional colon at `p` followed by white space, where the next character is neither
      white space nor a colon, can only be read one way: the colon when there is one, then the
      whole run of white space. */
  lemma GreedyColonSpace(s: string, p: nat, j: nat, k: nat)
    requires j == p || (j == p + 1 && p < |s| && s[p] == ':')
    requires j <= k < |s| && AllSpace(s[j..k]) && !IsSpace(s[k]) && s[k] != ':'
    ensures AfterColonSpace(s, p) == k
  {
    assert k > j ==> IsSpace(s[j]) by {
      if k > j {
        assert s[j..k][0] == s[j];
      }
    }
    SpaceRunOf(s, j, s[j..k]);
  }

  /** Every way `(\d+)\/100` can match at `i` gives the scanner's value: the digit run must be
      taken whole, since the character after a shorter run is a digit, not '/'. */
  lemma BareScoreAnySplit(s: string, i: nat, d: nat)
    requires 0 < d && i + d <= |s| && AllDigits(s[i..i + d]) && MatchesAt(s, i + d, "/100")
    ensures BareScoreAt(s, i) == Some(DigitsValue(s[i..i + d]))
  {
    assert LowerAscii(s[i + d]) == LowerAscii("/100"[0]);
    DigitRunOf(s, i, s[i..i + d]);
  }

  /** Every way `Score:?\s*(\d+)\/100` can match at `i` (with or without the colon, with any
      split of the white space) gives the scanner's value: the colon and the white space can only
      be taken greedily, because neither can start `\s*\d`. */
  lemma LabelledScoreAnySplit(s: string, i: nat, j: nat, k: nat, d: nat)
    requires MatchesAt(s, i, "score")
    requires j == i + 5 || (j == i + 6 && i + 5 < |s| && s[i + 5] == ':')
    requires j <= k <= |s| && AllSpace(s[j..k])
    requires 0 < d && k + d <= |s| && AllDigits(s[k..k + d]) && MatchesAt(s, k + d, "/100")
    ensures LabelledScoreAt(s, i) == Some(DigitsValue(s[k..k + d]))
  {
    assert IsDigit(s[k]) by { assert s[k..k + d][0] == s[k]; }
    GreedyColonSpace(s, i + 5, j, k);
    BareScoreAnySplit(s, k, d);
  }

  /** A text that starts with "Score: <n>/100" yields n, whatever follows. */
  lemma {:induction false} ScoreRoundTrip(n: nat, rest: string)
    ensures ExtractScore("Score: " + Decimal(n) + "/100" + rest) == Some(n)
  {
    var d := Decimal(n);
    var s := "Score: " + d + "/100" + rest;
    assert s[..7] == "Score: ";
    assert s[7..7 + |d|] == d;
    assert s[7 + |d|..7 + |d| + 4] == "/100";
    BareScoreOfNumeral(s, 7, n);
    LabelledScoreOf(s, n);
    FirstMatchLeftmost(s, LabelledScoreAt, 0);
  }

  // ---------------------------------------------------------------------------------------------
  // Decision

  /** `Decision:?\s*(\w+)` at position `i`, case-insensitively; yields the whole matched text. */
  function DecisionAt(s: string, i: nat): Option<string> {
    if !MatchesAt(s, i, "decision") then None
    else
      var k := AfterColonSpace(s, i + 8);
      var w := WordRun(s, k);
      if w > 0 then Some(s[i..k + w]) else None
  }

  /** `PASS|FAIL` at position `i`, case-insensitively; yields the matched text. */
  function PassFailAt(s: string, i: nat): Option<string> {
    if MatchesAt(s, i, "pass") || MatchesAt(s, i, "fail") then Some(s[i..i + 4]) else None
  }

  /** The text matched by the decision patterns: the labelled one first, the bare word second. */
  function DecisionText(s: string): (r: Option<string>)
    ensures forall i :: IsLeftmost(s, DecisionAt, i) ==> r == DecisionAt(s, i)
    ensures NoMatch(s, DecisionAt) ==>
      forall i :: IsLeftmost(s, PassFailAt, i) ==> r == PassFailAt(s, i)
    ensures r.None? <==> NoMatch(s, DecisionAt) && NoMatch(s, PassFailAt)
  {
    var r := FirstPattern(s, DecisionAt, PassFailAt);
    LeftmostOfFirstPattern(s, DecisionAt, PassFailAt);
    r
  }

  /** PASS exactly when the matched text contains upper-case "PASS"; FAIL for any other match;
      None (shown as 'Not Available') when nothing matches. */
  function ExtractDecision(s: string): (r: Option<Verdict>)
    ensures r.None? <==> NoMatch(s, DecisionAt) && NoMatch(s, PassFailAt)
    ensures r == Some(Pass) <==> DecisionText(s).Some? && Contains(DecisionText(s).value, "PASS")
    ensures r == Some(Fail) <==> DecisionText(s).Some? && !Contains(DecisionText(s).value, "PASS")
  {
    match DecisionText(s)
    case None => None
    case Some(t) => Some(if Contains(t, "PASS") then Pass else Fail)
  }

  /** A prefix without a 'P' cannot contribute to an occurrence of "PASS". */
  lemma {:induction false} ContainsPassAfter(p: string, w: string)
    requires 'P' !in p
    ensures Contains(p + w, "PASS") == Contains(w, "PASS")
    decreases |p|
  {
    if p == [] {
      assert p + w == w;
    } else {
      assert (p + w)[1..] == p[1..] + w;
      if |p + w| >= 4 {
        assert (p + w)[..4][0] == p[0];
      }
      ContainsPassAfter(p[1..], w);
    }
  }

  lemma {:induction false} WordRunOf(s: string, i: nat, d: string)
    requires i + |d| <= |s| && s[i..i + |d|] == d && forall k :: 0 <= k < |d| ==> IsWordChar(d[k])
    requires i + |d| < |s| ==> !IsWordChar(s[i + |d|])
    ensures WordRun(s, i) == |d|
    decreases |d|
  {
    if d != [] {
      assert s[i] == d[0];
      assert s[i + 1..i + 1 + |d[1..]|] == d[1..];
      WordRunOf(s, i + 1, d[1..]);
    }
  }

  /** The labelled decision pattern matches "Decision: " and the whole following word. */
  lemma {:induction false} DecisionAtLabel(w: string, rest: string)
    requires w != [] && forall k :: 0 <= k < |w| ==> IsWordChar(w[k])
    requires rest != [] ==> !IsWordChar(rest[0])
    ensures DecisionAt("Decision: " + w + rest, 0) == Some("Decision: " + w)
  {
    var s := "Decision: " + w + rest;
    assert s[10..10 + |w|] == w;
    assert s[..10 + |w|] == "Decision: " + w;
    assert MatchesAt(s, 0, "decision");
    assert s[8] == ':' && s[9] == ' ';
    assert SpaceRun(s, 9) == 1 by {
      assert s[10] == w[0];
      assert !IsSpace(w[0]);
    }
    if 10 + |w| < |s| {
      assert s[10 + |w|] == rest[0];
    }
    WordRunOf(s, 10, w);
  }

  /** Whenever `Decision:?\s*(\w+)` can match at `i` (with or without the colon, any split of
      the white space, any word length), the scanner matches there, and its text ends where the
      word run ends, which is the match the engine returns since `\w+` is greedy and nothing
      follows it in the pattern. */
  lemma DecisionAnySplit(s: string, i: nat, j: nat, k: nat, w: nat)
    requires MatchesAt(s, i, "decision")
    requires j == i + 8 || (j == i + 9 && i + 8 < |s| && s[i + 8] == ':')
    requires j <= k <= |s| && AllSpace(s[j..k])
    requires 0 < w && k + w <= |s| && forall m :: k <= m < k + w ==> IsWordChar(s[m])
    ensures DecisionAt(s, i) == Some(s[i..k + WordRun(s, k)]) && WordRun(s, k) >= w
  {
    assert IsWordChar(s[k]);
    GreedyColonSpace(s, i + 8, j, k);
    WordRunAtLeast(s, k, w);
  }

  /** A run of `w` word characters at `k` is part of the maximal run there. */
  lemma WordRunAtLeast(s: string, k: nat, w: nat)
    requires k + w <= |s| && forall m :: k <= m < k + w ==> IsWordChar(s[m])
    ensures WordRun(s, k) >= w
  {
  }

  /** After "Decision: " the whole following word decides, and only an upper-case "PASS" inside it
      gives PASS: "Decision: pass" is FAIL, "Decision: PASSED" is PASS. */
  lemma {:induction false} DecisionWordDecides(w: string, rest: string)
    requires w != [] && forall k :: 0 <= k < |w| ==> IsWordChar(w[k])
    requires rest != [] ==> !IsWordChar(rest[0])
    ensures ExtractDecision("Decision: " + w + rest) == Some(if Contains(w, "PASS") then Pass else Fail)
  {
    var s := "Decision: " + w + rest;
    DecisionAtLabel(w, rest);
    FirstMatchLeftmost(s, DecisionAt, 0);
    ContainsPassAfter("Decision: ", w);
  }

  lemma {:induction false} NoPassWithoutP(w: string)
    requires 'P' !in w
    ensures !Contains(w, "PASS")
    decreases |w|
  {
    if |w| >= 4 {
      assert w[..4][0] == w[0];
      NoPassWithoutP(w[1..]);
    }
  }

  /** A decision word without an upper-case 'P' (such as "pass" or "Pass") reads as FAIL. */
  lemma {:induction false} DecisionWithoutUpperPIsFail(w: string, rest: string)
    requires w != [] && forall k :: 0 <= k < |w| ==> IsWordChar(w[k])
    requires rest != [] ==> !IsWordChar(rest[0])
    requires 'P' !in w
    ensures ExtractDecision("Decision: " + w + rest) == Some(Fail)
  {
    NoPassWithoutP(w);
    DecisionWordDecides(w, rest);
  }

  // ---------------------------------------------------------------------------------------------
  // Sections and bullet lists

  const StrengthsHeader := "Key Strengths:"
  const ImprovementsHeader := "Areas for Improvement:"
  const TipsHeader := "Specific Tips:"

  /** `s[i..j]` is the section under `header`: `i` is the first occurrence of the header, and `j`
      is the first occurrence of the terminator after the header, or the end of the text when the
      terminator does not occur there. */
  predicate IsSection(s: string, header: string, terminator: string, i: nat, j: nat) {
    i + |header| <= j <= |s| && MatchesAt(s, i, header)
    && (forall k :: 0 <= k < i ==> !MatchesAt(s, k, header))
    && (j == |s| || MatchesAt(s, j, terminator))
    && (forall k :: i + |header| <= k < j ==> !MatchesAt(s, k, terminator))
  }

  /** `<header>[\s\S]*?(?=<terminator>|$)`, case-insensitively: from the first occurrence of the
      header to the first occurrence of the terminator after it, or to the end. */
  function Section(s: string, header: string, terminator: string): (r: Option<string>)
    requires header != []
    ensures r.None? <==> forall k :: !MatchesAt(s, k, header)
    ensures r.Some? ==> |header| <= |r.value| && MatchesAt(r.value, 0, header)
    ensures r.Some? ==> exists i: nat, j: nat :: IsSection(s, header, terminator, i, j) && r.value == s[i..j]
  {
    match FindLiteral(s, header, 0)
    case None => None
    case Some(i) =>
      var j := match FindLiteral(s, terminator, i + |header|) case Some(j) => j case None => |s|;
      assert MatchesAt(s[i..j], 0, header) by {
        forall k | 0 <= k < |header| ensures s[i..j][k] == s[i + k] { }
      }
      assert IsSection(s, header, terminator, i, j);
      Some(s[i..j])
  }

  /** Conversely, the section found is exactly the one `IsSection` describes. */
  lemma SectionAt(s: string, header: string, terminator: string, i: nat, j: nat)
    requires header != [] && IsSection(s, header, terminator, i, j)
    ensures Section(s, header, terminator) == Some(s[i..j])
  {
    FindLiteralAt(s, header, 0, i);
    var end := match FindLiteral(s, terminator, i + |header|) case Some(e) => e case None => |s|;
    assert end == j by {
      if j < |s| {
        FindLiteralAt(s, terminator, i + |header|, j);
      } else {
        FindLiteralEnd(s, terminator, i + |header|);
      }
    }
  }

  /** Splitting on runs of newlines: the pieces between maximal runs of newline characters. */
  function Lines(s: string): (r: seq<string>)
    ensures |r| >= 1
    ensures forall k :: 0 <= k < |r| ==> '\n' !in r[k]
    decreases |s|
  {
    match IndexOf(s, '\n')
    case None => [s]
    case Some(i) => [s[..i]] + Lines(s[i + CharRun(s, i, '\n')..])
  }

  /** A run of `n` newline characters. */
  function Newlines(n: nat): (r: string)
    ensures |r| == n && forall k :: 0 <= k < n ==> r[k] == '\n'
  {
    if n == 0 then "" else "\n" + Newlines(n - 1)
  }

  /** A text without a newline is one piece. */
  lemma LinesNoNewline(a: string)
    requires '\n' !in a
    ensures Lines(a) == [a]
  {
  }

  /** A newline-free piece, a run of newlines and a rest that does not start with a newline
      split into the piece followed by the pieces of the rest. With `LinesNoNewline` this
      determines `Lines` on every text; a run at the very end leaves a last, empty piece. */
  lemma LinesSplit(a: string, n: nat, b: string)
    requires '\n' !in a && n >= 1 && (b == [] || b[0] != '\n')
    ensures Lines(a + Newlines(n) + b) == [a] + Lines(b)
  {
    var s := a + Newlines(n) + b;
    assert s[..|a|] == a && s[|a|] == '\n';
    assert IndexOf(s, '\n') == Some(|a|) by {
      var r := IndexOf(s, '\n');
      assert r.Some? && r.value <= |a| by { assert s[..|a| + 1][|a|] == '\n'; }
      assert r.value >= |a| by { assert forall k :: 0 <= k < |a| ==> s[k] == a[k]; }
    }
    assert s[|a| + n..] == b;
    assert |a| + n < |s| ==> s[|a| + n] == b[0];
    assert CharRun(s, |a|, '\n') == n;
  }

  /** The empty last piece a final run of newlines leaves. */
  function EndPiece(n: nat): seq<string> {
    if n == 0 then [] else [""]
  }

  /** Newline-free pieces joined by runs of newlines. */
  function JoinSpaced(lines: seq<string>, gaps: seq<nat>): string
    requires |lines| == |gaps| + 1
    decreases |gaps|
  {
    if gaps == [] then lines[0] else lines[0] + Newlines(gaps[0]) + JoinSpaced(lines[1..], gaps[1..])
  }

  /** Every run between two lines has at least one newline: a longer run is blank lines. */
  predicate Gaps(gaps: seq<nat>) {
    forall k :: 0 <= k < |gaps| ==> gaps[k] >= 1
  }

  lemma {:induction false} JoinSpacedStarts(lines: seq<string>, gaps: seq<nat>)
    requires |lines| == |gaps| + 1 && lines[0] != []
    ensures JoinSpaced(lines, gaps) != [] && JoinSpaced(lines, gaps)[0] == lines[0][0]
  {
  }

  /** Non-empty newline-free lines joined by runs of newlines, and followed by `n` more newlines,
      split back into the lines, plus one empty piece when `n > 0`. */
  lemma {:induction false} LinesOfSpaced(lines: seq<string>, gaps: seq<nat>, n: nat)
    requires |lines| == |gaps| + 1 && Gaps(gaps)
    requires forall k :: 0 <= k < |lines| ==> lines[k] != [] && '\n' !in lines[k]
    ensures Lines(JoinSpaced(lines, gaps) + Newlines(n)) == lines + EndPiece(n)
    decreases |gaps|
  {
    var x := lines[0];
    assert '\n' !in x;
    if gaps == [] {
      LinesOfLast(x, n);
      assert lines == [x];
    } else {
      var rest := JoinSpaced(lines[1..], gaps[1..]);
      assert lines[1..][0] == lines[1];
      JoinSpacedStarts(lines[1..], gaps[1..]);
      LinesOfSpaced(lines[1..], gaps[1..], n);
      LinesOfNext(x, gaps[0], rest, n, lines[1..] + EndPiece(n));
      ConsSplit(lines, EndPiece(n));
    }
  }

  /** The last line, followed by `n` newlines. */
  lemma LinesOfLast(x: string, n: nat)
    requires '\n' !in x
    ensures Lines(x + Newlines(n)) == [x] + EndPiece(n)
  {
    if n == 0 {
      assert x + Newlines(n) == x;
      LinesNoNewline(x);
    } else {
      assert x + Newlines(n) == x + Newlines(n) + "";
      LinesSplit(x, n, "");
      assert Lines("") == [""];
    }
  }

  /** A line and its run of newlines put in front of the rest. */
  lemma LinesOfNext(x: string, g: nat, rest: string, n: nat, tail: seq<string>)
    requires '\n' !in x && g >= 1 && rest != [] && rest[0] != '\n'
    requires Lines(rest + Newlines(n)) == tail
    ensures Lines(x + Newlines(g) + rest + Newlines(n)) == [x] + tail
  {
    var t := rest + Newlines(n);
    assert t[0] == rest[0];
    assert x + Newlines(g) + rest + Newlines(n) == x + Newlines(g) + t;
    LinesSplit(x, g, t);
  }

  /** A bullet line: once trimmed, it is not empty and begins with an asterisk or a hyphen. */
  predicate IsBulletLine(line: string) {
    var t := Trim(line);
    t != [] && (t[0] == '*' || t[0] == '-')
  }

  /** The item text of a line: a leading asterisk or hyphen and the white space after it are
      removed, then the rest is trimmed. The bullet goes only when it is the very first
      character of the line; an indented bullet stays in the text. */
  function StripBullet(line: string): (r: string)
    ensures IsTrimmed(r)
    ensures line != [] && line[0] != '*' && line[0] != '-' ==> r == Trim(line)
  {
    var rest := if line != [] && (line[0] == '*' || line[0] == '-') then line[1 + SpaceRun(line, 1)..] else line;
    Trim(rest)
  }

  /** What one line contributes: its stripped text when it is a bullet line and that text is not
      empty. */
  function ItemOf(line: string): (r: Option<string>)
    ensures r.Some? ==> r.value != [] && IsTrimmed(r.value)
    ensures !IsBulletLine(line) ==> r.None?
    ensures IsBulletLine(line) ==> r == if StripBullet(line) == [] then None else Some(StripBullet(line))
  {
    var item := StripBullet(line);
    if IsBulletLine(line) && item != [] then Some(item) else None
  }

  /** A bullet in first position goes together with all the white space after it, and the rest
      is trimmed: for any text `x` that does not start with white space. */
  lemma StripBulletLine(c: char, ws: string, x: string)
    requires c == '*' || c == '-'
    requires AllSpace(ws) && (x == [] || !IsSpace(x[0]))
    ensures StripBullet([c] + ws + x) == Trim(x)
  {
    var line := [c] + ws + x;
    assert line[1..1 + |ws|] == ws;
    assert line[1 + |ws|..] == x;
    StripBulletAt(line, |ws|);
  }

  /** The same for a text that is already trimmed: it comes back unchanged. */
  lemma StripBulletOf(c: char, ws: string, x: string)
    requires c == '*' || c == '-'
    requires AllSpace(ws) && IsTrimmed(x)
    ensures StripBullet([c] + ws + x) == x
  {
    StripBulletLine(c, ws, x);
    TrimOfTrimmed(x);
  }

  /** A bullet followed by a maximal run of `n` white-space characters: stripping removes exactly
      those `n + 1` characters and trims the rest. */
  lemma StripBulletAt(line: string, n: nat)
    requires 1 + n <= |line| && (line[0] == '*' || line[0] == '-') && AllSpace(line[1..1 + n])
    requires 1 + n == |line| || !IsSpace(line[1 + n])
    ensures StripBullet(line) == Trim(line[1 + n..])
  {
    SpaceRunOf(line, 1, line[1..1 + n]);
  }

  /** Trailing white space after the item, such as the carriage return of a CRLF line ending, is
      trimmed away. */
  lemma StripBulletTrailing(c: char, ws: string, x: string, w: string)
    requires c == '*' || c == '-'
    requires AllSpace(ws) && x != [] && IsTrimmed(x) && AllSpace(w)
    ensures StripBullet([c] + ws + (x + w)) == x
  {
    StripBulletLine(c, ws, x + w);
    TrimTrailingSpace(x, w);
  }

  /** A line made of a bullet, any white space and a non-empty trimmed text contributes that
      text. */
  lemma BulletLineItem(c: char, ws: string, x: string)
    requires c == '*' || c == '-'
    requires AllSpace(ws) && x != [] && IsTrimmed(x)
    ensures ItemOf([c] + ws + x) == Some(x)
  {
    var line := [c] + ws + x;
    assert line[0] == c && line[|line| - 1] == x[|x| - 1];
    TrimOfTrimmed(line);
    StripBulletOf(c, ws, x);
  }

  /** The bullet lines, stripped, empty results dropped, in source order. */
  function BulletItems(lines: seq<string>): (items: seq<string>)
    ensures |items| <= |lines|
    ensures forall x :: x in items ==> x != [] && IsTrimmed(x)
  {
    if lines == [] then []
    else
      var rest := BulletItems(lines[1..]);
      match ItemOf(lines[0])
      case Some(x) => ConsKeepsItems(x, rest); [x] + rest
      case None => rest
  }

  lemma ConsKeepsItems(x: string, rest: seq<string>)
    requires x != [] && IsTrimmed(x)
    requires forall y :: y in rest ==> y != [] && IsTrimmed(y)
    ensures forall y :: y in [x] + rest ==> y != [] && IsTrimmed(y)
  {
    assert forall y :: y in [x] + rest ==> y == x || y in rest;
  }

  /** The list under `header`: empty when the header is missing. Removing the first occurrence of
      the header and its trailing white space always removes the one the section starts with. */
  function ExtractList(s: string, header: string, terminator: string): (r: seq<string>)
    requires header != []
    ensures (forall k :: !MatchesAt(s, k, header)) ==> r == []
    ensures forall i: nat, j: nat :: IsSection(s, header, terminator, i, j) ==>
      r == BulletItems(Lines(TrimStart(s[i + |header|..j])))
  {
    forall i: nat, j: nat | IsSection(s, header, terminator, i, j)
      ensures Section(s, header, terminator) == Some(s[i..j]) && s[i..j][|header|..] == s[i + |header|..j]
    {
      SectionAt(s, header, terminator, i, j);
    }
    match Section(s, header, terminator)
    case None => []
    case Some(sec) => BulletItems(Lines(TrimStart(sec[|header|..])))
  }

  function Strengths(s: string): seq<string> {
    ExtractList(s, StrengthsHeader, ImprovementsHeader)
  }

  function Improvements(s: string): seq<string> {
    ExtractList(s, ImprovementsHeader, TipsHeader)
  }

  /** Items as the lines "- item". */
  function BulletLines(items: seq<string>): (lines: seq<string>)
    ensures |lines| == |items|
  {
    if items == [] then [] else ["- " + items[0]] + BulletLines(items[1..])
  }

  /** Lines joined with single newlines. */
  function JoinLines(lines: seq<string>): string
    requires lines != []
  {
    if |lines| == 1 then lines[0] else lines[0] + "\n" + JoinLines(lines[1..])
  }

  /** An item that can be listed on a line of its own and read back unchanged. */
  predicate WellFormedItem(x: string) {
    x != [] && IsTrimmed(x) && '\n' !in x
  }

  /** Splitting single-newline-joined non-empty lines gives the lines back. */
  lemma {:induction false} LinesOfJoin(lines: seq<string>)
    requires lines != [] && forall x :: x in lines ==> x != [] && '\n' !in x
    ensures Lines(JoinLines(lines)) == lines
    decreases |lines|
  {
    var x := lines[0];
    assert x in lines;
    if |lines| == 1 {
      assert IndexOf(x, '\n') == None;
    } else {
      var rest := JoinLines(lines[1..]);
      var s := x + "\n" + rest;
      assert s[|x|] == '\n' && s[..|x|] == x;
      assert IndexOf(s, '\n') == Some(|x|);
      assert lines[1] in lines;
      assert rest != [] && rest[0] != '\n' by { JoinStarts(lines[1..]); }
      assert CharRun(s, |x|, '\n') == 1 by {
        assert s[|x| + 1] == rest[0];
      }
      assert s[|x| + 1..] == rest;
      assert forall y :: y in lines[1..] ==> y in lines;
      LinesOfJoin(lines[1..]);
    }
  }

  lemma {:induction false} JoinStarts(lines: seq<string>)
    requires lines != [] && lines[0] != []
    ensures JoinLines(lines) != [] && JoinLines(lines)[0] == lines[0][0]
  {
  }

  /** "- x" is a bullet line. */
  lemma {:induction false} DashIsBullet(x: string)
    requires WellFormedItem(x)
    ensures IsBulletLine("- " + x)
  {
    var line := "- " + x;
    assert line[0] == '-' && line[|line| - 1] == x[|x| - 1];
    TrimOfTrimmed(line);
  }

  /** Stripping "- x" leaves x. */
  lemma {:induction false} StripDash(x: string)
    requires WellFormedItem(x)
    ensures StripBullet("- " + x) == x
  {
    var line := "- " + x;
    assert line[1] == ' ' && line[2] == x[0];
    assert SpaceRun(line, 2) == 0;
    assert SpaceRun(line, 1) == 1;
    assert line[2..] == x;
    TrimOfTrimmed(x);
  }

  lemma {:induction false} StripRendered(x: string)
    requires WellFormedItem(x)
    ensures ItemOf("- " + x) == Some(x)
  {
    DashIsBullet(x);
    StripDash(x);
  }

  lemma BulletItemsCons(line: string, rest: seq<string>)
    ensures BulletItems([line] + rest)
      == match ItemOf(line) case Some(x) => [x] + BulletItems(rest) case None => BulletItems(rest)
  {
    assert ([line] + rest)[0] == line && ([line] + rest)[1..] == rest;
  }

  lemma ConsSplit<T>(s: seq<T>, e: seq<T>)
    requires s != []
    ensures s + e == [s[0]] + (s[1..] + e)
  {
    assert s == [s[0]] + s[1..];
  }

  lemma ConsAssoc<T>(x: T, p: seq<T>, q: seq<T>)
    ensures [x] + (p + q) == ([x] + p) + q
  {
  }

  /** The items of joined runs of lines are the items of each run, in order. */
  lemma {:induction false} BulletItemsAppend(a: seq<string>, b: seq<string>)
    ensures BulletItems(a + b) == BulletItems(a) + BulletItems(b)
    decreases |a|
  {
    if a == [] {
      assert a + b == b;
    } else {
      var rest := a[1..];
      assert a + b == [a[0]] + (rest + b);
      assert a == [a[0]] + rest;
      BulletItemsCons(a[0], rest + b);
      BulletItemsCons(a[0], rest);
      BulletItemsAppend(rest, b);
      var p := BulletItems(rest);
      var q := BulletItems(b);
      match ItemOf(a[0])
      case Some(x) =>
        assert BulletItems(a + b) == [x] + (p + q);
        assert BulletItems(a) == [x] + p;
        ConsAssoc(x, p, q);
      case None =>
    }
  }

  /** Lines none of which is a bullet line contribute nothing. */
  lemma {:induction false} NoBulletsNoItems(lines: seq<string>)
    requires forall k :: 0 <= k < |lines| ==> !IsBulletLine(lines[k])
    ensures BulletItems(lines) == []
    decreases |lines|
  {
    if lines != [] {
      assert !IsBulletLine(lines[0]);
      NoBulletsNoItems(lines[1..]);
    }
  }

  lemma {:induction false} BulletItemsOfLines(items: seq<string>)
    requires forall x :: x in items ==> WellFormedItem(x)
    ensures BulletItems(BulletLines(items)) == items
    decreases |items|
  {
    if items != [] {
      var x := items[0];
      assert items == [x] + items[1..];
      assert BulletLines(items) == ["- " + x] + BulletLines(items[1..]);
      assert WellFormedItem(x) by { assert x in items; }
      StripRendered(x);
      assert forall y :: y in items[1..] ==> WellFormedItem(y) by {
        forall y | y in items[1..] ensures WellFormedItem(y) { assert y in items; }
      }
      BulletItemsOfLines(items[1..]);
      BulletItemsCons("- " + x, BulletLines(items[1..]));
    }
  }

  lemma {:induction false} BulletLinesShape(items: seq<string>)
    requires forall x :: x in items ==> WellFormedItem(x)
    ensures forall y :: y in BulletLines(items) ==> y != [] && '\n' !in y && y[0] == '-'
    decreases |items|
  {
    if items != [] {
      assert items[0] in items;
      assert forall y :: y in items[1..] ==> y in items;
      BulletLinesShape(items[1..]);
      var x := "- " + items[0];
      assert '\n' !in x;
    }
  }

  /** Listing items one per line as "- item" and reading them back gives the same items. */
  lemma {:induction false} ItemsRoundTrip(items: seq<string>)
    requires items != [] && forall x :: x in items ==> WellFormedItem(x)
    ensures BulletItems(Lines(JoinLines(BulletLines(items)))) == items
  {
    BulletLinesShape(items);
    LinesOfJoin(BulletLines(items));
    BulletItemsOfLines(items);
  }

  /** A body that starts with the header, preceded by text in which the header does not start
      and followed by the terminator or by nothing, is the section. */
  lemma SectionOfBody(pre: string, header: string, terminator: string, body: string, tail: string)
    requires header != [] && |header| <= |body| && body[..|header|] == header
    requires forall k :: 0 <= k < |pre| ==> !MatchesAt(pre + body + tail, k, header)
    requires forall k :: |pre| + |header| <= k < |pre| + |body| ==> !MatchesAt(pre + body + tail, k, terminator)
    requires tail == [] || MatchesAt(pre + body + tail, |pre| + |body|, terminator)
    ensures Section(pre + body + tail, header, terminator) == Some(body)
  {
    var s := pre + body + tail;
    assert MatchesAt(s, |pre|, header) by {
      forall k | 0 <= k < |header| ensures s[|pre| + k] == header[k] {
        assert body[..|header|][k] == body[k];
      }
    }
    assert IsSection(s, header, terminator, |pre|, |pre| + |body|);
    SectionAt(s, header, terminator, |pre|, |pre| + |body|);
    assert s[|pre|..|pre| + |body|] == body;
  }

  /** Items listed as "- item" lines with runs of newlines between them (so blank lines may
      separate items), followed by any number of newlines, read back unchanged. */
  lemma ItemsRoundTripSpaced(items: seq<string>, gaps: seq<nat>, n: nat)
    requires |items| == |gaps| + 1 && Gaps(gaps) && forall x :: x in items ==> WellFormedItem(x)
    ensures BulletItems(Lines(JoinSpaced(BulletLines(items), gaps) + Newlines(n))) == items
  {
    var lines := BulletLines(items);
    BulletLinesPlain(items);
    LinesOfSpaced(lines, gaps, n);
    BulletItemsAppend(lines, EndPiece(n));
    BulletItemsOfLines(items);
    NoItemsAtEnd(n);
  }

  lemma BulletLinesPlain(items: seq<string>)
    requires forall x :: x in items ==> WellFormedItem(x)
    ensures forall k :: 0 <= k < |BulletLines(items)| ==> BulletLines(items)[k] != [] && '\n' !in BulletLines(items)[k]
  {
    var lines := BulletLines(items);
    BulletLinesShape(items);
    forall k | 0 <= k < |lines| ensures lines[k] != [] && '\n' !in lines[k] { assert lines[k] in lines; }
  }

  /** The empty last piece is not an item. */
  lemma NoItemsAtEnd(n: nat)
    ensures BulletItems(EndPiece(n)) == []
  {
    if n > 0 {
      assert !IsBulletLine("");
      BulletItemsCons("", []);
    }
  }

  /** How a section is written out: the white space after the header, the number of newlines
      between consecutive items (more than one is blank lines), and the newlines after the last
      item. */
  datatype Layout = Layout(lead: string, gaps: seq<nat>, trailing: nat)

  /** A layout for `items`: white space after the header, one run per pair of neighbours, each
      with at least one newline. */
  predicate Fits(items: seq<string>, layout: Layout) {
    |items| == |layout.gaps| + 1 && Gaps(layout.gaps) && AllSpace(layout.lead)
    && forall x :: x in items ==> WellFormedItem(x)
  }

  /** A section as written: the header, white space, and the items as "- item" lines laid out
      as `layout` says. */
  function RenderedSection(header: string, items: seq<string>, layout: Layout): string
    requires |items| == |layout.gaps| + 1
  {
    header + layout.lead + JoinSpaced(BulletLines(items), layout.gaps) + Newlines(layout.trailing)
  }

  /** The bullet lines after the header and its white space read back as the items. */
  lemma ItemsAfterHeader(header: string, items: seq<string>, layout: Layout)
    requires Fits(items, layout)
    ensures BulletItems(Lines(TrimStart(RenderedSection(header, items, layout)[|header|..]))) == items
  {
    var lines := BulletLines(items);
    var body := JoinSpaced(lines, layout.gaps) + Newlines(layout.trailing);
    assert RenderedSection(header, items, layout)[|header|..] == layout.lead + body;
    BulletLinesShape(items);
    assert lines[0] in lines;
    JoinSpacedStarts(lines, layout.gaps);
    assert body[0] == lines[0][0];
    TrimSpaceLead(layout.lead, body);
    ItemsRoundTripSpaced(items, layout.gaps, layout.trailing);
  }

  /** An assessment: any text before the section, the section written out, and the rest. */
  function Assessment(pre: string, header: string, items: seq<string>, layout: Layout, tail: string): string
    requires |items| == |layout.gaps| + 1
  {
    pre + RenderedSection(header, items, layout) + tail
  }

  /** A section written out after text in which its header does not start, and ended by the
      terminator or by the end of the text, yields the items, whatever white space follows the
      header, whatever blank lines separate the items and precede the terminator. */
  lemma ListRoundTrip(pre: string, header: string, terminator: string, items: seq<string>, layout: Layout, tail: string)
    requires header != [] && Fits(items, layout)
    requires forall k :: 0 <= k < |pre| ==> !MatchesAt(Assessment(pre, header, items, layout, tail), k, header)
    requires forall k :: |pre| + |header| <= k < |pre| + |RenderedSection(header, items, layout)| ==>
      !MatchesAt(Assessment(pre, header, items, layout, tail), k, terminator)
    requires tail == [] || MatchesAt(Assessment(pre, header, items, layout, tail), |pre| + |RenderedSection(header, items, layout)|, terminator)
    ensures ExtractList(Assessment(pre, header, items, layout, tail), header, terminator) == items
  {
    var body := RenderedSection(header, items, layout);
    assert body[..|header|] == header;
    assert Assessment(pre, header, items, layout, tail) == pre + body + tail;
    SectionOfBody(pre, header, terminator, body, tail);
    ItemsAfterHeader(header, items, layout);
  }

  /** The strengths list, ended by the improvements header or by the end of the text. */
  lemma StrengthsRoundTrip(pre: string, items: seq<string>, layout: Layout, tail: string)
    requires Fits(items, layout)
    requires forall k :: 0 <= k < |pre| ==> !MatchesAt(Assessment(pre, StrengthsHeader, items, layout, tail), k, StrengthsHeader)
    requires forall k :: |pre| + |StrengthsHeader| <= k < |pre| + |RenderedSection(StrengthsHeader, items, layout)| ==>
      !MatchesAt(Assessment(pre, StrengthsHeader, items, layout, tail), k, ImprovementsHeader)
    requires tail == [] || MatchesAt(Assessment(pre, StrengthsHeader, items, layout, tail),
                                     |pre| + |RenderedSection(StrengthsHeader, items, layout)|, ImprovementsHeader)
    ensures Strengths(Assessment(pre, StrengthsHeader, items, layout, tail)) == items
  {
    ListRoundTrip(pre, StrengthsHeader, ImprovementsHeader, items, layout, tail);
  }

  /** The improvements list, ended by the tips header or by the end of the text. */
  lemma ImprovementsRoundTrip(pre: string, items: seq<string>, layout: Layout, tail: string)
    requires Fits(items, layout)
    requires forall k :: 0 <= k < |pre| ==> !MatchesAt(Assessment(pre, ImprovementsHeader, items, layout, tail), k, ImprovementsHeader)
    requires forall k :: |pre| + |ImprovementsHeader| <= k < |pre| + |RenderedSection(ImprovementsHeader, items, layout)| ==>
      !MatchesAt(Assessment(pre, ImprovementsHeader, items, layout, tail), k, TipsHeader)
    requires tail == [] || MatchesAt(Assessment(pre, ImprovementsHeader, items, layout, tail),
                                     |pre| + |RenderedSection(ImprovementsHeader, items, layout)|, TipsHeader)
    ensures Improvements(Assessment(pre, ImprovementsHeader, items, layout, tail)) == items
  {
    ListRoundTrip(pre, ImprovementsHeader, TipsHeader, items, layout, tail);
  }

  // ---------------------------------------------------------------------------------------------
  // Display rules

  datatype Parsed = Parsed(score: Option<nat>, decision: Option<Verdict>, strengths: seq<string>, improvements: seq<string>)

  function Parse(assessment: string): Parsed {
    Parsed(ExtractScore(assessment), ExtractDecision(assessment), Strengths(assessment), Improvements(assessment))
  }

  /** Without an assessment, or before the interview is complete, the page redirects to the start
      and renders nothing; an empty assessment counts as missing. */
  function ResultsView(assessment: Option<string>, complete: bool): (r: Option<Parsed>)
    ensures r.Some? <==> assessment.Some? && assessment.value != "" && complete
    ensures r.Some? ==> r.value == Parse(assessment.value)
  {
    if assessment.Some? && assessment.value != "" && complete then Some(Parse(assessment.value)) else None
  }

  function ScoreLabel(score: Option<nat>): (r: string)
    ensures score.None? ==> r == "?"
    ensures score.Some? ==> AllDigits(r) && DigitsValue(r) == score.value
    ensures score.Some? ==> |r| >= 1 && (|r| > 1 ==> r[0] != '0')
  {
    match score
    case None => "?"
    case Some(n) => Decimal(n)
  }

  /** The decision box text: the verdict, or 'Not Available' when none was found. */
  function DecisionLabel(decision: Option<Verdict>): (r: string)
    ensures r == "PASS" <==> decision == Some(Pass)
    ensures r == "FAIL" <==> decision == Some(Fail)
    ensures r == "Not Available" <==> decision.None?
  {
    match decision
    case None => "Not Available"
    case Some(Pass) => "PASS"
    case Some(Fail) => "FAIL"
  }

  datatype Colour = Green | Yellow | Red

  /** The score bar: green from 70 up, yellow from 50 up, red below that (a missing score counts
      as 0); its width in percent is the score, or 0 when it is missing. */
  function BarColour(score: Option<nat>): (c: Colour)
    ensures c == Green <==> score.Some? && score.value >= 70
    ensures c == Yellow <==> score.Some? && 50 <= score.value < 70
    ensures c == Red <==> score.None? || score.value < 50
  {
    match score
    case None => Red
    case Some(n) => if n >= 70 then Green else if n >= 50 then Yellow else Red
  }

  function BarWidth(score: Option<nat>): (w: nat)
    ensures score.None? ==> w == 0
    ensures score.Some? ==> w == score.value
  {
    match score
    case None => 0
    case Some(n) => n
  }

  /** The decision box is green only for PASS: its colour agrees with its text. */
  function DecisionGreen(decision: Option<Verdict>): (g: bool)
    ensures g <==> DecisionLabel(decision) == "PASS"
  {
    decision == Some(Pass)
  }

  function ListOrPlaceholder(items: seq<string>, placeholder: string): (r: seq<string>)
    ensures items != [] ==> r == items
    ensures items == [] ==> r == [placeholder]
  {
    if items == [] then [placeholder] else items
  }

  /** One panel of the history: the turn's number and its question and answer. */
  datatype HistoryEntry = HistoryEntry(number: nat, question: string, answer: string)

  /** The question line of a panel: the letter Q, the turn's number in decimal, a colon and a
      space, then the question; the number reads back from between the letter and the colon. */
  function QuestionLine(e: HistoryEntry): (r: string)
    ensures |r| >= 4 + |e.question| && r[0] == 'Q' && r[|r| - |e.question|..] == e.question
    ensures r[|r| - |e.question| - 2..|r| - |e.question|] == ": "
    ensures AllDigits(r[1..|r| - |e.question| - 2]) && DigitsValue(r[1..|r| - |e.question| - 2]) == e.number
    ensures |r| - |e.question| - 2 > 2 ==> r[1] != '0'
  {
    var d := Decimal(e.number);
    var r := "Q" + d + ": " + e.question;
    assert r[1..|r| - |e.question| - 2] == d;
    r
  }

  /** The answer line of a panel, laid out as the question line with the letter A. */
  function AnswerLine(e: HistoryEntry): (r: string)
    ensures |r| >= 4 + |e.answer| && r[0] == 'A' && r[|r| - |e.answer|..] == e.answer
    ensures r[|r| - |e.answer| - 2..|r| - |e.answer|] == ": "
    ensures AllDigits(r[1..|r| - |e.answer| - 2]) && DigitsValue(r[1..|r| - |e.answer| - 2]) == e.number
    ensures |r| - |e.answer| - 2 > 2 ==> r[1] != '0'
  {
    var d := Decimal(e.number);
    var r := "A" + d + ": " + e.answer;
    assert r[1..|r| - |e.answer| - 2] == d;
    r
  }

  /** The history panel, numbering the turns after `base`. */
  function HistoryEntries(history: seq<InterviewContext.Turn>, base: nat): (r: seq<HistoryEntry>)
    ensures |r| == |history|
    decreases |history|
  {
    if history == [] then []
    else [HistoryEntry(base + 1, history[0].question, history[0].answer)] + HistoryEntries(history[1..], base + 1)
  }

  /** Entry i of the history panel is turn i, numbered i + 1 after `base`. */
  lemma {:induction false} HistoryEntryAt(history: seq<InterviewContext.Turn>, base: nat, i: nat)
    requires i < |history|
    ensures HistoryEntries(history, base)[i] == HistoryEntry(base + i + 1, history[i].question, history[i].answer)
    decreases i
  {
    if i > 0 {
      HistoryEntryAt(history[1..], base + 1, i - 1);
      assert history[1..][i - 1] == history[i];
    }
  }

  /** The i-th panel of the history reads "Q<i + 1>: " and "A<i + 1>: " before turn i's question
      and answer. */
  lemma HistoryLinesAt(history: seq<InterviewContext.Turn>, i: nat)
    requires i < |history|
    ensures var e := HistoryEntries(history, 0)[i];
      QuestionLine(e) == "Q" + Decimal(i + 1) + ": " + history[i].question
      && AnswerLine(e) == "A" + Decimal(i + 1) + ": " + history[i].answer
  {
    HistoryEntryAt(history, 0, i);
  }
}
