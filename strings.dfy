/** String helpers shared by the validators and encoders: decimal rendering,
    `padStart`, `split`/`join`, substring search and literal replacement as
    JavaScript's `String.prototype` methods perform them. */
module Strings {

  predicate IsDigit(c: char) {
    '0' <= c <= '9'
  }

  predicate AllDigits(s: string) {
    forall i :: 0 <= i < |s| ==> IsDigit(s[i])
  }

  /** The characters JavaScript's `\s` and `String.prototype.trim` treat as
      white space: the WhiteSpace and LineTerminator sets of ECMAScript. */
  predicate IsJsSpace(c: char) {
    c == '\t' || c == '\n' || c == '\U{B}' || c == '\U{C}' || c == '\r' || c == ' ' ||
    c == '\U{A0}' || c == '\U{1680}' || ('\U{2000}' <= c <= '\U{200A}') ||
    c == '\U{2028}' || c == '\U{2029}' || c == '\U{202F}' || c == '\U{205F}' ||
    c == '\U{3000}' || c == '\U{FEFF}'
  }

  /** JavaScript's `\w`: ASCII letters, digits and underscore. */
  predicate IsWordChar(c: char) {
    ('a' <= c <= 'z') || ('A' <= c <= 'Z') || IsDigit(c) || c == '_'
  }

  function DigitChar(n: nat): (c: char)
    requires n < 10
    ensures IsDigit(c)
  {
    ['0', '1', '2', '3', '4', '5', '6', '7', '8', '9'][n]
  }

  function DigitValue(c: char): nat
    requires IsDigit(c)
  {
    (c as int - '0' as int) as nat
  }

  /** The value of a string of decimal digits. */
  function DecimalValue(s: string): nat
    requires AllDigits(s)
  {
    if s == [] then 0 else 10 * DecimalValue(s[..|s| - 1]) + DigitValue(s[|s| - 1])
  }

  /** `String(n)` for a non-negative integer. */
  function NatToString(n: nat): (s: string)
    ensures |s| >= 1 && AllDigits(s)
    ensures (s[0] == '0') == (n == 0)
  {
    if n < 10 then [DigitChar(n)] else NatToString(n / 10) + [DigitChar(n % 10)]
  }

  lemma {:induction false} NatToStringValue(n: nat)
    ensures DecimalValue(NatToString(n)) == n
  {
    var s := NatToString(n);
    if n >= 10 {
      NatToStringValue(n / 10);
      assert s[..|s| - 1] == NatToString(n / 10);
    }
  }

  /** Different numbers are rendered differently. */
  lemma NatToStringInjective(m: nat, n: nat)
    requires NatToString(m) == NatToString(n)
    ensures m == n
  {
    NatToStringValue(m);
    NatToStringValue(n);
  }

  /** `String(n)` for any integer: a minus sign before a negative number. */
  function IntToString(n: int): (s: string)
    ensures |s| >= 1
    ensures n >= 0 ==> s == NatToString(n)
    ensures n < 0 ==> s == "-" + NatToString(-n)
  {
    if n >= 0 then NatToString(n) else "-" + NatToString(-n)
  }

  /** `String(s).padStart(2, "0")`. */
  function PadTwo(s: string): (r: string)
    ensures |r| == if |s| >= 2 then |s| else 2
    ensures r[|r| - |s|..] == s
    ensures forall i :: 0 <= i < |r| - |s| ==> r[i] == '0'
  {
    if |s| >= 2 then s else if |s| == 1 then "0" + s else "00"
  }

  predicate StartsWith(s: string, p: string) {
    |p| <= |s| && s[..|p|] == p
  }

  /** `s.includes(p)`. */
  predicate Contains(s: string, p: string)
    decreases |s|
  {
    StartsWith(s, p) || (|s| > 0 && Contains(s[1..], p))
  }

  lemma {:induction false} ContainsAt(s: string, p: string, i: nat)
    requires i + |p| <= |s| && s[i..i + |p|] == p
    ensures Contains(s, p)
    decreases i
  {
    if i > 0 {
      assert s[1..][i - 1..i - 1 + |p|] == p;
      ContainsAt(s[1..], p, i - 1);
    }
  }

  lemma {:induction false} ContainsWitness(s: string, p: string) returns (i: nat)
    requires Contains(s, p)
    ensures i + |p| <= |s| && s[i..i + |p|] == p
    decreases |s|
  {
    if StartsWith(s, p) {
      i := 0;
    } else {
      var j := ContainsWitness(s[1..], p);
      i := j + 1;
      assert s[i..i + |p|] == s[1..][j..j + |p|];
    }
  }

  /** `s.split(c)` for a one-character separator. */
  function Split(s: string, c: char): (parts: seq<string>)
    ensures |parts| >= 1
    ensures forall i :: 0 <= i < |parts| ==> c !in parts[i]
  {
    if s == [] then [""]
    else
      var rest := Split(s[1..], c);
      if s[0] == c then [""] + rest else [[s[0]] + rest[0]] + rest[1..]
  }

  /** `parts.join(c)`. */
  function Join(parts: seq<string>, c: char): string {
    if parts == [] then ""
    else if |parts| == 1 then parts[0]
    else parts[0] + [c] + Join(parts[1..], c)
  }

  /** `parts.join(sep)` for a separator of any length. */
  function JoinText(parts: seq<string>, sep: string): string {
    if parts == [] then ""
    else if |parts| == 1 then parts[0]
    else parts[0] + sep + JoinText(parts[1..], sep)
  }

  lemma {:induction false} JoinSplit(s: string, c: char)
    ensures Join(Split(s, c), c) == s
  {
    if s != [] {
      JoinSplit(s[1..], c);
      var rest := Split(s[1..], c);
      if s[0] != c {
        if |rest| > 1 {
          assert ([[s[0]] + rest[0]] + rest[1..])[1..] == rest[1..];
        }
      }
    }
  }

  /** `s.replace(new RegExp(p, "g"), r)` for a literal pattern: a left-to-right
      scan replacing each non-overlapping occurrence. */
  function ReplaceAll(s: string, p: string, r: string): string
    requires |p| > 0
    decreases |s|
  {
    if |s| < |p| then s
    else if s[..|p|] == p then r + ReplaceAll(s[|p|..], p, r)
    else [s[0]] + ReplaceAll(s[1..], p, r)
  }

  /** `s.replace(p, r)` for a string pattern: only the first occurrence. */
  function ReplaceFirst(s: string, p: string, r: string): string
    requires |p| > 0
    decreases |s|
  {
    if |s| < |p| then s
    else if s[..|p|] == p then r + s[|p|..]
    else [s[0]] + ReplaceFirst(s[1..], p, r)
  }

  /** Text without an occurrence of the pattern is left as it is. */
  lemma {:induction false} ReplaceAllAbsent(s: string, p: string, r: string)
    requires |p| > 0 && !Contains(s, p)
    ensures ReplaceAll(s, p, r) == s
    decreases |s|
  {
    if |s| >= |p| {
      ReplaceAllAbsent(s[1..], p, r);
    }
  }

  /** A prefix that cannot start the pattern is copied, the first occurrence
      after it is replaced, and scanning resumes after that occurrence. */
  lemma ReplaceAllAfterPrefix(a: string, p: string, b: string, r: string)
    requires |p| > 0 && p[0] !in a
    ensures ReplaceAll(a + p + b, p, r) == a + r + ReplaceAll(b, p, r)
  {
    assert a + p + b == a + (p + b);
    ReplaceAllSkip(a, p + b, p, r);
    ReplaceAllAtPattern(p, b, r);
  }

  /** An occurrence at the start is replaced and the scan resumes after it. */
  lemma ReplaceAllAtPattern(p: string, b: string, r: string)
    requires |p| > 0
    ensures ReplaceAll(p + b, p, r) == r + ReplaceAll(b, p, r)
  {
    var s := p + b;
    assert s[..|p|] == p && s[|p|..] == b;
  }

  /** A prefix that cannot start the pattern is copied unchanged. */
  lemma {:induction false} ReplaceAllSkip(a: string, b: string, p: string, r: string)
    requires |p| > 0 && p[0] !in a
    ensures ReplaceAll(a + b, p, r) == a + ReplaceAll(b, p, r)
    decreases |a|
  {
    var s := a + b;
    if a != [] {
      assert |s| >= |p| ==> s[..|p|] != p by {
        if |s| >= |p| {
          assert s[..|p|][0] == a[0] != p[0];
        }
      }
      ReplaceAllHead(s, p, r);
      assert s[1..] == a[1..] + b;
      ReplaceAllSkip(a[1..], b, p, r);
      assert a == [a[0]] + a[1..];
      assert s[0] == a[0];
    } else {
      assert s == b;
    }
  }

  /** Where the pattern does not start, the first character is copied and
      the scan moves on by one. */
  lemma ReplaceAllHead(s: string, p: string, r: string)
    requires |p| > 0 && |s| > 0 && (|s| >= |p| ==> s[..|p|] != p)
    ensures ReplaceAll(s, p, r) == [s[0]] + ReplaceAll(s[1..], p, r)
  {
    if |s| < |p| {
      assert ReplaceAll(s[1..], p, r) == s[1..];
    }
  }

  /** Where the pattern does not start, the first character is copied and
      the search moves on by one. */
  lemma ReplaceFirstHead(s: string, p: string, r: string)
    requires |p| > 0 && |s| > 0 && (|s| >= |p| ==> s[..|p|] != p)
    ensures ReplaceFirst(s, p, r) == [s[0]] + ReplaceFirst(s[1..], p, r)
  {
    if |s| < |p| {
      assert ReplaceFirst(s[1..], p, r) == s[1..];
    }
  }

  /** A prefix that cannot start the pattern is copied and the first
      occurrence after it is replaced. */
  lemma {:induction false} ReplaceFirstAfterPrefix(a: string, p: string, b: string, r: string)
    requires |p| > 0 && p[0] !in a
    ensures ReplaceFirst(a + p + b, p, r) == a + r + b
    decreases |a|
  {
    var s := a + p + b;
    if a == [] {
      assert s == p + b;
      assert s[..|p|] == p && s[|p|..] == b;
    } else {
      assert s[..|p|] != p by { assert s[..|p|][0] == a[0]; }
      ReplaceFirstHead(s, p, r);
      assert s[0] == a[0] && s[1..] == a[1..] + p + b;
      ReplaceFirstAfterPrefix(a[1..], p, b, r);
      assert a + r + b == [a[0]] + (a[1..] + r + b);
    }
  }

  /** One ASCII capital letter lower-cased; every other character kept. */
  function LowerChar(c: char): (d: char)
    ensures 'A' <= c <= 'Z' ==> 'a' <= d <= 'z' && d as int == c as int + 32
    ensures !('A' <= c <= 'Z') ==> d == c
  {
    if 'A' <= c <= 'Z' then (c as int + 32) as char else c
  }

  /** ASCII letters to lower case; other characters unchanged. */
  function ToLowerAscii(s: string): (r: string)
    ensures |r| == |s|
    ensures forall i :: 0 <= i < |s| ==> r[i] == LowerChar(s[i])
  {
    if s == [] then [] else [LowerChar(s[0])] + ToLowerAscii(s[1..])
  }

  predicate NoJsSpace(s: string) {
    forall i :: 0 <= i < |s| ==> !IsJsSpace(s[i])
  }

  /** `s.trimStart()`: drops the leading white space and nothing else. */
  function TrimStart(s: string): (r: string)
    ensures |r| <= |s| && r == s[|s| - |r|..]
    ensures forall i :: 0 <= i < |s| - |r| ==> IsJsSpace(s[i])
    ensures r == [] || !IsJsSpace(r[0])
    decreases |s|
  {
    if s != [] && IsJsSpace(s[0]) then TrimStart(s[1..]) else s
  }

  /** `s.trimEnd()`: drops the trailing white space and nothing else. */
  function TrimEnd(s: string): (r: string)
    ensures |r| <= |s| && r == s[..|r|]
    ensures forall i :: |r| <= i < |s| ==> IsJsSpace(s[i])
    ensures r == [] || !IsJsSpace(r[|r| - 1])
    decreases |s|
  {
    if s != [] && IsJsSpace(s[|s| - 1]) then TrimEnd(s[..|s| - 1]) else s
  }

  /** `s.trim()`. */
  function Trim(s: string): (r: string)
    ensures r == [] || (!IsJsSpace(r[0]) && !IsJsSpace(r[|r| - 1]))
  {
    TrimEnd(TrimStart(s))
  }

  /** A string that neither starts nor ends with white space is its own
      trim. */
  lemma TrimmedIsFixed(s: string)
    requires s == [] || (!IsJsSpace(s[0]) && !IsJsSpace(s[|s| - 1]))
    ensures Trim(s) == s
  {
  }

  /** The trimmed text is a slice of the text. */
  lemma TrimOffset(s: string) returns (a: nat)
    ensures a + |Trim(s)| <= |s| && Trim(s) == s[a..a + |Trim(s)|]
  {
    var t := TrimStart(s);
    a := |s| - |t|;
    var r := TrimEnd(t);
    assert r == t[..|r|];
    assert t == s[a..];
    assert r == s[a..a + |r|];
  }

  /** `s.replace(/\s+/g, r)`: each maximal run of white space becomes `r`. */
  function ReplaceSpaceRuns(s: string, r: string): string
    decreases |s|
  {
    if s == [] then []
    else if IsJsSpace(s[0]) then r + ReplaceSpaceRuns(TrimStart(s), r)
    else [s[0]] + ReplaceSpaceRuns(s[1..], r)
  }

  /** Replacing the runs by text without white space leaves none. */
  lemma {:induction false} ReplaceSpaceRunsNoSpace(s: string, r: string)
    requires NoJsSpace(r)
    ensures NoJsSpace(ReplaceSpaceRuns(s, r))
    decreases |s|
  {
    if s != [] {
      if IsJsSpace(s[0]) {
        ReplaceSpaceRunsNoSpace(TrimStart(s), r);
      } else {
        ReplaceSpaceRunsNoSpace(s[1..], r);
      }
    }
  }

  /** Text without white space is left as it is. */
  lemma {:induction false} ReplaceSpaceRunsIdentity(s: string, r: string)
    requires NoJsSpace(s)
    ensures ReplaceSpaceRuns(s, r) == s
    decreases |s|
  {
    if s != [] {
      ReplaceSpaceRunsIdentity(s[1..], r);
    }
  }

  /** Nothing but single spaces: every white-space character is `' '` and
      the next character is not white space. */
  predicate SingleSpaced(s: string) {
    forall i :: 0 <= i < |s| && IsJsSpace(s[i]) ==> s[i] == ' ' && (i + 1 < |s| ==> !IsJsSpace(s[i + 1]))
  }

  /** Collapsing the runs into one space leaves the text single-spaced. */
  lemma {:induction false} CollapsedIsSingleSpaced(s: string)
    ensures SingleSpaced(ReplaceSpaceRuns(s, " "))
    ensures s != [] && !IsJsSpace(s[0]) ==> ReplaceSpaceRuns(s, " ")[0] == s[0]
    ensures s != [] && IsJsSpace(s[0]) ==> ReplaceSpaceRuns(s, " ")[0] == ' '
    ensures ReplaceSpaceRuns(s, " ") == [] <==> s == []
    ensures s == [] || (IsJsSpace(s[|s| - 1]) <==> IsJsSpace(ReplaceSpaceRuns(s, " ")[|ReplaceSpaceRuns(s, " ")| - 1]))
    decreases |s|
  {
    if s != [] {
      if IsJsSpace(s[0]) {
        CollapsedIsSingleSpaced(TrimStart(s));
        CollapseSpaceStep(s);
      } else {
        CollapsedIsSingleSpaced(s[1..]);
        CollapseCharStep(s);
      }
    }
  }

  /** What the collapse promises about `s`, gathered for the induction. */
  predicate CollapseFacts(s: string) {
    var t := ReplaceSpaceRuns(s, " ");
    SingleSpaced(t) && (t == [] <==> s == []) &&
    (s != [] ==> t[0] == (if IsJsSpace(s[0]) then ' ' else s[0])) &&
    (s == [] || (IsJsSpace(s[|s| - 1]) <==> IsJsSpace(t[|t| - 1])))
  }

  /** The step past a run of white space at the front. */
  lemma CollapseSpaceStep(s: string)
    requires s != [] && IsJsSpace(s[0]) && CollapseFacts(TrimStart(s))
    ensures CollapseFacts(s)
  {
    var u := TrimStart(s);
    var tail := ReplaceSpaceRuns(u, " ");
    var t := ReplaceSpaceRuns(s, " ");
    assert t == [' '] + tail;
    if u == [] {
      assert forall i :: 0 <= i < |s| ==> IsJsSpace(s[i]);
    } else {
      assert u[|u| - 1] == s[|s| - 1];
    }
    SingleSpacedCons(' ', tail);
  }

  /** The step past a character that is not white space. */
  lemma CollapseCharStep(s: string)
    requires s != [] && !IsJsSpace(s[0]) && CollapseFacts(s[1..])
    ensures CollapseFacts(s)
  {
    var tail := ReplaceSpaceRuns(s[1..], " ");
    var t := ReplaceSpaceRuns(s, " ");
    assert t == [s[0]] + tail;
    if s[1..] != [] {
      assert s[1..][|s[1..]| - 1] == s[|s| - 1];
    }
    SingleSpacedCons(s[0], tail);
  }

  /** A character in front of a single-spaced text keeps it single-spaced
      unless it is white space other than `' '` or runs into white space. */
  lemma SingleSpacedCons(c: char, tail: string)
    requires SingleSpaced(tail)
    requires IsJsSpace(c) ==> c == ' ' && (tail == [] || !IsJsSpace(tail[0]))
    ensures SingleSpaced([c] + tail)
  {
    var t := [c] + tail;
    forall i | 0 <= i < |t| && IsJsSpace(t[i])
      ensures t[i] == ' ' && (i + 1 < |t| ==> !IsJsSpace(t[i + 1]))
    {
      if i > 0 {
        assert t[i] == tail[i - 1];
        if i + 1 < |t| {
          assert t[i + 1] == tail[i];
        }
      } else if i + 1 < |t| {
        assert t[1] == tail[0];
      }
    }
  }

  /** A single-spaced text is left as it is by the collapse. */
  lemma {:induction false} CollapseSingleSpaced(s: string)
    requires SingleSpaced(s)
    ensures ReplaceSpaceRuns(s, " ") == s
    decreases |s|
  {
    if s != [] {
      SingleSpacedSlice(s, 1, |s|);
      CollapseSingleSpaced(s[1..]);
      assert [s[0]] + s[1..] == s;
      if IsJsSpace(s[0]) {
        assert s[0] == ' ';
        assert TrimStart(s) == s[1..] by {
          if s[1..] != [] {
            assert !IsJsSpace(s[1..][0]);
          }
        }
      }
    }
  }

  /** A slice of single-spaced text is single-spaced. */
  lemma SingleSpacedSlice(s: string, a: nat, b: nat)
    requires a <= b <= |s| && SingleSpaced(s)
    ensures SingleSpaced(s[a..b])
  {
    var t := s[a..b];
    forall i | 0 <= i < |t| && IsJsSpace(t[i]) ensures t[i] == ' ' && (i + 1 < |t| ==> !IsJsSpace(t[i + 1])) {
      assert t[i] == s[a + i];
      if i + 1 < |t| {
        assert t[i + 1] == s[a + i + 1];
      }
    }
  }

  /** Every character of the result comes from the text or the
      replacement. */
  lemma {:induction false} ReplaceSpaceRunsChars(s: string, r: string, c: char)
    requires c in ReplaceSpaceRuns(s, r)
    ensures c in s || c in r
    decreases |s|
  {
    if s != [] {
      if IsJsSpace(s[0]) {
        if c !in r {
          var t := TrimStart(s);
          ReplaceSpaceRunsChars(t, r, c);
          assert t == s[|s| - |t|..];
        }
      } else if c != s[0] {
        ReplaceSpaceRunsChars(s[1..], r, c);
      }
    }
  }

  /** The characters of `s` that satisfy `keep`, in order. */
  function Filter(s: string, keep: char -> bool): (r: string)
    ensures |r| <= |s|
    ensures forall c :: c in r <==> c in s && keep(c)
    decreases |s|
  {
    if s == [] then [] else (if keep(s[0]) then [s[0]] else []) + Filter(s[1..], keep)
  }

  /** Filtering text with a first character decides that character and
      filters the rest. */
  lemma FilterCons(x: char, s: string, keep: char -> bool)
    ensures Filter([x] + s, keep) == (if keep(x) then [x] else []) + Filter(s, keep)
  {
    assert ([x] + s)[1..] == s;
  }

  /** Filtering text whose every character is kept changes nothing. */
  lemma {:induction false} FilterAllKept(s: string, keep: char -> bool)
    requires forall i :: 0 <= i < |s| ==> keep(s[i])
    ensures Filter(s, keep) == s
    decreases |s|
  {
    if s != [] {
      FilterAllKept(s[1..], keep);
    }
  }

  /** Text without the separator is a single part. */
  lemma {:induction false} SplitNoSeparator(w: string, c: char)
    requires c !in w
    ensures Split(w, c) == [w]
    decreases |w|
  {
    if w != [] {
      SplitNoSeparator(w[1..], c);
      assert [w[0]] + w[1..] == w;
    }
  }

  /** Splitting at a separator splits the parts around it. */
  lemma {:induction false} SplitConcat(a: string, c: char, b: string)
    ensures Split(a + [c] + b, c) == Split(a, c) + Split(b, c)
    decreases |a|
  {
    var s := a + [c] + b;
    if a == [] {
      assert s == [c] + b;
      assert s[1..] == b;
    } else {
      assert s[1..] == a[1..] + [c] + b;
      SplitConcat(a[1..], c, b);
    }
  }

  /** Joining two non-empty lists puts one separator between them. */
  lemma {:induction false} JoinConcat(x: seq<string>, y: seq<string>, c: char)
    requires x != [] && y != []
    ensures Join(x + y, c) == Join(x, c) + [c] + Join(y, c)
    decreases |x|
  {
    if |x| == 1 {
      assert (x + y)[1..] == y;
    } else {
      assert (x + y)[1..] == x[1..] + y;
      JoinConcat(x[1..], y, c);
    }
  }

  /** The text after the separator that ends the first `i` parts is the
      join of the remaining parts: a separator-aligned suffix. */
  lemma SplitSuffix(s: string, c: char, i: nat)
    requires 0 < i < |Split(s, c)|
    ensures var parts := Split(s, c);
      s == Join(parts[..i], c) + [c] + Join(parts[i..], c)
  {
    var parts := Split(s, c);
    JoinSplit(s, c);
    assert parts == parts[..i] + parts[i..];
    JoinConcat(parts[..i], parts[i..], c);
  }
}
