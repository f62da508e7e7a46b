/** The small text helpers of the utility module: `validateEmail`,
    `secondsToTime` and `getDomainName`. */
module TextUtils {
  import opened Strings
  import opened Wrappers

  // ---------------------------------------------------------------------
  // validateEmail

  /** One part of the address pattern, `[^\s@]+`. */
  predicate EmailPart(s: string) {
    s != [] && forall i :: 0 <= i < |s| ==> !IsJsSpace(s[i]) && s[i] != '@'
  }

  /** `/^[^\s@]+@[^\s@]+\.[^\s@]+$/`: the text is a part, `@`, a part, `.`
      and a part. */
  predicate EmailPattern(s: string) {
    exists at, dot :: 0 < at < dot < |s| - 1 && s[at] == '@' && s[dot] == '.' &&
      EmailPart(s[..at]) && EmailPart(s[at + 1..dot]) && EmailPart(s[dot + 1..])
  }

  /** The position of the first `c`. */
  function IndexOf(s: string, c: char): (i: nat)
    requires c in s
    ensures i < |s| && s[i] == c && c !in s[..i]
  {
    if s[0] == c then 0
    else
      assert c in s[1..];
      var j := IndexOf(s[1..], c);
      assert s[..j + 1] == [s[0]] + s[1..][..j];
      j + 1
  }

  /** The pattern as one scan: no white space, one `@` that is not first,
      and a `.` after it with text on both sides. */
  predicate EmailShape(s: string) {
    NoJsSpace(s) && '@' in s &&
    var at := IndexOf(s, '@');
    0 < at && at + 3 <= |s| && '@' !in s[at + 1..] && '.' in s[at + 2..|s| - 1]
  }

  lemma ShapeGivesPattern(s: string)
    requires EmailShape(s)
    ensures EmailPattern(s)
  {
    var at := IndexOf(s, '@');
    var rest := s[at + 1..];
    var inner := s[at + 2..|s| - 1];
    var k :| 0 <= k < |inner| && inner[k] == '.';
    var dot := at + 2 + k;
    assert s[dot] == '.';
    NoAtInSlice(rest, 0, dot - at - 1);
    assert rest[0..dot - at - 1] == s[at + 1..dot];
    NoAtInSlice(rest, dot - at, |rest|);
    assert rest[dot - at..|rest|] == s[dot + 1..];
    NoSpaceInSlice(s, 0, at);
    NoSpaceInSlice(s, at + 1, dot);
    NoSpaceInSlice(s, dot + 1, |s|);
    assert s[0..at] == s[..at] && s[dot + 1..|s|] == s[dot + 1..];
    assert EmailPart(s[..at]) && EmailPart(s[at + 1..dot]) && EmailPart(s[dot + 1..]);
  }

  lemma PatternGivesShape(s: string)
    requires EmailPattern(s)
    ensures EmailShape(s)
  {
    var at, dot :| 0 < at < dot < |s| - 1 && s[at] == '@' && s[dot] == '.' &&
      EmailPart(s[..at]) && EmailPart(s[at + 1..dot]) && EmailPart(s[dot + 1..]);
    PatternParts(s, at, dot);
    IndexOfFirst(s, '@', at);
    var inner := s[at + 2..|s| - 1];
    assert inner[dot - at - 2] == '.';
  }

  /** The scan and the pattern agree. */
  lemma EmailShapeMatches(s: string)
    ensures EmailShape(s) <==> EmailPattern(s)
  {
    if EmailShape(s) {
      ShapeGivesPattern(s);
    }
    if EmailPattern(s) {
      PatternGivesShape(s);
    }
  }

  lemma NoAtInSlice(r: string, a: nat, b: nat)
    requires a <= b <= |r| && '@' !in r
    ensures forall i :: 0 <= i < b - a ==> r[a..b][i] != '@'
  {
    forall i | 0 <= i < b - a ensures r[a..b][i] != '@' {
      assert r[a..b][i] == r[a + i];
    }
  }

  lemma NoSpaceInSlice(s: string, a: nat, b: nat)
    requires a <= b <= |s| && NoJsSpace(s)
    ensures forall i :: 0 <= i < b - a ==> !IsJsSpace(s[a..b][i])
  {
    forall i | 0 <= i < b - a ensures !IsJsSpace(s[a..b][i]) {
      assert s[a..b][i] == s[a + i];
    }
  }

  /** Every character of a matching text is in one of the three parts or is
      the `@` or the `.`. */
  lemma PatternParts(s: string, at: nat, dot: nat)
    requires 0 < at < dot < |s| - 1 && s[at] == '@' && s[dot] == '.'
    requires EmailPart(s[..at]) && EmailPart(s[at + 1..dot]) && EmailPart(s[dot + 1..])
    ensures NoJsSpace(s) && '@' !in s[..at] && '@' !in s[at + 1..]
  {
    var p1, p2, p3 := s[..at], s[at + 1..dot], s[dot + 1..];
    assert s == p1 + [s[at]] + p2 + [s[dot]] + p3;
    forall i | 0 <= i < |s| ensures !IsJsSpace(s[i]) {
      if i < at {
        assert s[i] == p1[i];
      } else if at < i < dot {
        assert s[i] == p2[i - at - 1];
      } else if dot < i {
        assert s[i] == p3[i - dot - 1];
      }
    }
    var rest := s[at + 1..];
    assert rest == p2 + [s[dot]] + p3;
    assert '@' !in p2 && '@' !in p3;
  }

  /** A position holding `c` with no `c` before it is the first one. */
  lemma IndexOfFirst(s: string, c: char, i: nat)
    requires i < |s| && s[i] == c && c !in s[..i]
    ensures IndexOf(s, c) == i
  {
  }

  /** Lower-casing one character keeps it white space, `@` or `.`, or not. */
  lemma LowerKeepsSeparators(c: char)
    ensures (IsJsSpace(LowerChar(c)) <==> IsJsSpace(c)) && (LowerChar(c) == '@' <==> c == '@') &&
      (LowerChar(c) == '.' <==> c == '.')
  {
  }

  /** A slice is a part exactly when none of its characters is white space
      or `@`. */
  lemma PartByIndex(s: string, a: nat, b: nat)
    requires a <= b <= |s|
    ensures EmailPart(s[a..b]) <==> a < b && forall i :: a <= i < b ==> !IsJsSpace(s[i]) && s[i] != '@'
  {
    if a < b && forall i :: a <= i < b ==> !IsJsSpace(s[i]) && s[i] != '@' {
      forall i | 0 <= i < b - a ensures !IsJsSpace(s[a..b][i]) && s[a..b][i] != '@' {
        assert s[a..b][i] == s[a + i];
      }
    }
    if EmailPart(s[a..b]) {
      forall i | a <= i < b ensures !IsJsSpace(s[i]) && s[i] != '@' {
        assert s[a..b][i - a] == s[i];
      }
    }
  }

  /** `t` is `s` lower-cased character by character. */
  predicate LowerOf(t: string, s: string) {
    |t| == |s| && forall i :: 0 <= i < |s| ==> t[i] == LowerChar(s[i])
  }

  /** Lower-casing a slice keeps it a part or not a part. */
  lemma PartLower(t: string, s: string, a: nat, b: nat)
    requires LowerOf(t, s) && a <= b <= |s|
    ensures EmailPart(t[a..b]) <==> EmailPart(s[a..b])
  {
    PartByIndex(s, a, b);
    PartByIndex(t, a, b);
    forall i | a <= i < b
      ensures (!IsJsSpace(t[i]) && t[i] != '@') <==> (!IsJsSpace(s[i]) && s[i] != '@')
    {
      LowerKeepsSeparators(s[i]);
    }
  }

  lemma PrefixLower(t: string, s: string, n: nat)
    requires LowerOf(t, s) && n <= |s|
    ensures EmailPart(t[..n]) <==> EmailPart(s[..n])
  {
    PartLower(t, s, 0, n);
    assert t[..n] == t[0..n] && s[..n] == s[0..n];
  }

  lemma SuffixLower(t: string, s: string, n: nat)
    requires LowerOf(t, s) && n <= |s|
    ensures EmailPart(t[n..]) <==> EmailPart(s[n..])
  {
    PartLower(t, s, n, |s|);
    assert t[n..] == t[n..|s|] && s[n..] == s[n..|s|];
  }

  /** The pattern with its two separators at given positions, on the text
      and on its lower-cased copy. */
  lemma PatternAtLower(t: string, s: string, at: nat, dot: nat)
    requires LowerOf(t, s) && 0 < at < dot < |s| - 1
    ensures (t[at] == '@' && t[dot] == '.' && EmailPart(t[..at]) && EmailPart(t[at + 1..dot]) && EmailPart(t[dot + 1..])) <==>
      (s[at] == '@' && s[dot] == '.' && EmailPart(s[..at]) && EmailPart(s[at + 1..dot]) && EmailPart(s[dot + 1..]))
  {
    LowerKeepsSeparators(s[at]);
    LowerKeepsSeparators(s[dot]);
    PrefixLower(t, s, at);
    PartLower(t, s, at + 1, dot);
    SuffixLower(t, s, dot + 1);
  }

  /** Lower-casing never makes or removes white space, `@` or `.`, so the
      pattern holds of the lower-cased text exactly when it holds of the
      text. */
  lemma LowerCaseKeepsPattern(s: string)
    ensures EmailPattern(ToLowerAscii(s)) <==> EmailPattern(s)
  {
    var t := ToLowerAscii(s);
    assert LowerOf(t, s);
    if EmailPattern(s) {
      var at, dot :| 0 < at < dot < |s| - 1 && s[at] == '@' && s[dot] == '.' &&
        EmailPart(s[..at]) && EmailPart(s[at + 1..dot]) && EmailPart(s[dot + 1..]);
      PatternAtLower(t, s, at, dot);
    }
    if EmailPattern(t) {
      var at, dot :| 0 < at < dot < |t| - 1 && t[at] == '@' && t[dot] == '.' &&
        EmailPart(t[..at]) && EmailPart(t[at + 1..dot]) && EmailPart(t[dot + 1..]);
      PatternAtLower(t, s, at, dot);
    }
  }

  /** `validateEmail(email)`: false for an empty address, otherwise the
      pattern on the lower-cased address. */
  function ValidateEmail(email: string): (ok: bool)
    ensures ok <==> email != "" && EmailPattern(email)
  {
    EmailShapeMatches(ToLowerAscii(email));
    LowerCaseKeepsPattern(email);
    email != "" && EmailShape(ToLowerAscii(email))
  }

  // ---------------------------------------------------------------------
  // secondsToTime

  /** `Math.ceil`. */
  function Ceil(x: real): int {
    -((-x).Floor)
  }

  lemma MulSign(a: real, b: real)
    requires a > 0.0 && b >= 0.0
    ensures a * b >= 0.0
    ensures b > 0.0 ==> a * b > 0.0
  {
  }

  /** JavaScript's `%` for a non-negative dividend and a positive integer
      divisor. */
  function RealMod(x: real, m: nat): (r: real)
    requires x >= 0.0 && m > 0
    ensures 0.0 <= r < m as real
  {
    FloorBounds(x, m as real);
    x - (m as real) * ((x / m as real).Floor as real)
  }

  /** The multiple of `m` below `x`: `m * floor(x / m) <= x < m * floor(x / m) + m`. */
  lemma FloorBounds(x: real, m: real)
    requires m > 0.0
    ensures m * ((x / m).Floor as real) <= x < m * ((x / m).Floor as real) + m
  {
    var y := x / m;
    DivTimes(x, m);
    ScaledFloor(m, y, x, y.Floor as real);
  }

  /** Division undone. */
  lemma DivTimes(x: real, m: real)
    requires m > 0.0
    ensures m * (x / m) == x
  {
  }

  /** Scaling `q <= y < q + 1` by a positive `m`, where `m * y == x`. */
  lemma ScaledFloor(m: real, y: real, x: real, q: real)
    requires m > 0.0 && m * y == x && q <= y < q + 1.0
    ensures m * q <= x < m * q + m
  {
    MulMono(m, q, y);
    MulMono(m, y, q + 1.0);
    calc {
      x;
    ==
      m * y;
    <
      m * (q + 1.0);
    ==
      m * q + m;
    }
  }

  /** Multiplying by a positive number keeps order. */
  lemma MulMono(m: real, a: real, b: real)
    requires m > 0.0
    ensures a <= b ==> m * a <= m * b
    ensures a < b ==> m * a < m * b
  {
    if a <= b {
      MulSign(m, b - a);
      assert m * (b - a) == m * b - m * a;
    }
  }

  /** The clock fields: hours, minutes and seconds. */
  datatype ClockFields = ClockFields(hours: nat, minutes: nat, seconds: nat)

  /** `HH:MM:SS`, each field padded to two digits; hours may take more. */
  function Clock(f: ClockFields): string {
    PadTwo(NatToString(f.hours)) + ":" + PadTwo(NatToString(f.minutes)) + ":" + PadTwo(NatToString(f.seconds))
  }

  /** The fields `secondsToTime` computes for a positive duration: hours and
      minutes floored, the seconds rounded up on their own. */
  function FieldsAsWritten(secs: real): ClockFields
    requires secs > 0.0
  {
    ClockFields((secs / 3600.0).Floor, (RealMod(secs, 3600) / 60.0).Floor, Ceil(RealMod(secs, 60)))
  }

  /** `secondsToTime(secs)` as written: zero, a negative number (and `NaN`)
      give `00:00:00`. */
  function SecondsToTimeAsWritten(secs: real): string {
    if secs <= 0.0 then "00:00:00" else Clock(FieldsAsWritten(secs))
  }

  /** A fractional second just under a minute is rounded up to a seconds
      field of 60. */
  lemma SecondsFieldReachesSixty()
    ensures FieldsAsWritten(59.5) == ClockFields(0, 0, 60)
    ensures FieldsAsWritten(3599.5) == ClockFields(0, 59, 60)
  {
    assert RealMod(59.5, 3600) == 59.5;
    assert RealMod(59.5, 60) == 59.5;
    assert RealMod(3599.5, 3600) == 3599.5;
    assert RealMod(3599.5, 60) == 59.5;
  }

  /** So 59.5 seconds is shown as `00:00:60`. */
  lemma SecondsToTimeShowsSixty()
    ensures SecondsToTimeAsWritten(59.5) == "00:00:60"
  {
    SecondsFieldReachesSixty();
    assert NatToString(60) == NatToString(6) + [DigitChar(0)];
    assert PadTwo(NatToString(60)) == "60";
    assert PadTwo(NatToString(0)) == "00";
  }

  /** The fields of a whole number of seconds. */
  function Fields(total: nat): (f: ClockFields)
    ensures f.minutes < 60 && f.seconds < 60
    ensures 3600 * f.hours + 60 * f.minutes + f.seconds == total
  {
    ClockFields(total / 3600, (total % 3600) / 60, total % 60)
  }

  /** `secondsToTime(secs)` with the rounding applied to the whole duration
      before it is split, so that no field reaches 60. */
  function SecondsToTime(secs: real): (r: string)
    ensures secs <= 0.0 ==> r == "00:00:00"
    ensures secs > 0.0 ==> exists f: ClockFields ::
      f.minutes < 60 && f.seconds < 60 &&
      3600 * f.hours + 60 * f.minutes + f.seconds == Ceil(secs) &&
      r == Clock(f)
  {
    if secs <= 0.0 then "00:00:00" else Clock(Fields(Ceil(secs)))
  }

  /** Padding with zeros keeps the value of a digit string. */
  lemma {:induction false} LeadingZeroValue(s: string)
    requires AllDigits(s)
    ensures AllDigits("0" + s) && DecimalValue("0" + s) == DecimalValue(s)
    decreases |s|
  {
    if s != [] {
      var t := "0" + s;
      assert t[..|t| - 1] == "0" + s[..|s| - 1];
      LeadingZeroValue(s[..|s| - 1]);
    }
  }

  /** Numbers below 10 take one digit and numbers below 100 two. */
  lemma NatToStringLength(n: nat)
    ensures n < 10 ==> |NatToString(n)| == 1
    ensures 10 <= n < 100 ==> |NatToString(n)| == 2
    ensures n >= 10 ==> |NatToString(n)| >= 2
  {
    if n >= 10 {
      assert NatToString(n) == NatToString(n / 10) + [DigitChar(n % 10)];
    }
  }

  /** A padded field reads back as its value, in two digits below 100. */
  lemma PaddedField(n: nat)
    ensures AllDigits(PadTwo(NatToString(n))) && DecimalValue(PadTwo(NatToString(n))) == n
    ensures n < 100 ==> |PadTwo(NatToString(n))| == 2
  {
    NatToStringValue(n);
    NatToStringLength(n);
    var s := NatToString(n);
    if n < 10 {
      LeadingZeroValue(s);
      assert PadTwo(s) == "0" + s;
    } else {
      assert PadTwo(s) == s;
    }
  }

  /** Three fields joined by colons, the last two of two characters, are
      found again by their positions from the end. */
  lemma ColonFields(hh: string, mm: string, ss: string)
    requires |mm| == 2 && |ss| == 2
    ensures var r := hh + ":" + mm + ":" + ss;
      |r| == |hh| + 6 && r[|r| - 3] == ':' && r[|r| - 6] == ':' &&
      r[..|r| - 6] == hh && r[|r| - 5..|r| - 3] == mm && r[|r| - 2..] == ss
  {
  }

  /** The clock reads back: the text splits at its last two colons into
      fields whose values are the hours, minutes and seconds. */
  lemma ClockReadsBack(f: ClockFields)
    requires f.minutes < 60 && f.seconds < 60
    ensures var r := Clock(f);
      |r| >= 8 && r[|r| - 3] == ':' && r[|r| - 6] == ':' &&
      AllDigits(r[..|r| - 6]) && DecimalValue(r[..|r| - 6]) == f.hours &&
      AllDigits(r[|r| - 5..|r| - 3]) && DecimalValue(r[|r| - 5..|r| - 3]) == f.minutes &&
      AllDigits(r[|r| - 2..]) && DecimalValue(r[|r| - 2..]) == f.seconds
  {
    var hh, mm, ss := PadTwo(NatToString(f.hours)), PadTwo(NatToString(f.minutes)), PadTwo(NatToString(f.seconds));
    assert Clock(f) == hh + ":" + mm + ":" + ss;
    PaddedField(f.hours);
    PaddedField(f.minutes);
    PaddedField(f.seconds);
    ColonFields(hh, mm, ss);
  }

  /** `x.Floor` of a quotient of integers is integer division. */
  lemma FloorOfQuotient(n: nat, m: nat)
    requires m > 0
    ensures ((n as real) / (m as real)).Floor == n / m
  {
    var q, r := n / m, n % m;
    assert n == q * m + r;
    assert (n as real) / (m as real) == q as real + (r as real) / (m as real);
    assert 0.0 <= (r as real) / (m as real) < 1.0;
  }

  lemma RealModOfNat(n: nat, m: nat)
    requires m > 0
    ensures RealMod(n as real, m) == (n % m) as real
  {
    FloorOfQuotient(n, m);
    assert n == (n / m) * m + n % m;
  }

  /** On whole seconds, where nothing is rounded, the written fields are the
      corrected ones. */
  lemma WholeSecondsAgree(n: nat)
    requires n > 0
    ensures FieldsAsWritten(n as real) == Fields(n)
  {
    FloorOfQuotient(n, 3600);
    RealModOfNat(n, 3600);
    FloorOfQuotient(n % 3600, 60);
    RealModOfNat(n, 60);
    assert Ceil((n % 60) as real) == n % 60;
  }

  // ---------------------------------------------------------------------
  // getDomainName

  /** How many trailing labels `getDomainName` keeps. */
  function DomainLabels(hostname: string, labelCount: nat): nat {
    if Contains(ToLowerAscii(hostname), ".co.uk") && labelCount > 2 then 3 else 2
  }

  /** `getDomainName(hostname)`: nothing for an empty name, a single label
      unchanged, otherwise the last two labels, or the last three when the
      name contains `.co.uk` anywhere and has more than two labels. */
  function GetDomainName(hostname: string): (r: Option<string>)
    ensures r.None? <==> hostname == ""
    ensures r.Some? && |Split(hostname, '.')| <= 1 ==> r.value == hostname
    ensures r.Some? && |Split(hostname, '.')| > 1 ==>
      var parts := Split(hostname, '.');
      var k := DomainLabels(hostname, |parts|);
      k <= |parts| && r.value == Join(parts[|parts| - k..], '.')
  {
    if hostname == "" then None
    else
      var parts := Split(hostname, '.');
      var n := |parts|;
      if n <= 1 then Some(hostname)
      else
        var domain := parts[n - 2] + "." + parts[n - 1];
        assert Join(parts[n - 2..], '.') == domain by {
          assert parts[n - 2..][1..] == [parts[n - 1]];
        }
        if Contains(ToLowerAscii(hostname), ".co.uk") && n > 2 then
          assert Join(parts[n - 3..], '.') == parts[n - 3] + "." + domain by {
            assert parts[n - 3..][1..] == parts[n - 2..];
          }
          Some(parts[n - 3] + "." + domain)
        else Some(domain)
  }

  /** The domain is a label-aligned suffix of the host name: the name is the
      domain itself, or ends with `.` and the domain. */
  lemma DomainIsSuffix(hostname: string)
    requires hostname != ""
    ensures var d := GetDomainName(hostname).value;
      hostname == d || exists prefix :: hostname == prefix + "." + d
  {
    var parts := Split(hostname, '.');
    var n := |parts|;
    if n > 1 {
      var k := DomainLabels(hostname, n);
      if k < n {
        SplitSuffix(hostname, '.', n - k);
        var prefix := Join(parts[..n - k], '.');
        assert hostname == prefix + "." + GetDomainName(hostname).value;
      } else {
        JoinSplit(hostname, '.');
        assert parts[n - k..] == parts;
      }
    }
  }

  /** Splitting a join of labels without the separator gives the labels
      back. */
  lemma {:induction false} SplitJoin(labels: seq<string>, c: char)
    requires labels != []
    requires forall i :: 0 <= i < |labels| ==> c !in labels[i]
    ensures Split(Join(labels, c), c) == labels
    decreases |labels|
  {
    if |labels| == 1 {
      SplitNoSeparator(labels[0], c);
    } else {
      var rest := Join(labels[1..], c);
      assert Join(labels, c) == labels[0] + [c] + rest;
      SplitJoin(labels[1..], c);
      SplitConcat(labels[0], c, rest);
      SplitNoSeparator(labels[0], c);
      assert [labels[0]] + labels[1..] == labels;
    }
  }

  /** The domain has two labels, or three for a `.co.uk` name. */
  lemma DomainLabelCount(hostname: string)
    requires |Split(hostname, '.')| > 1
    ensures |Split(GetDomainName(hostname).value, '.')| == DomainLabels(hostname, |Split(hostname, '.')|)
  {
    var parts := Split(hostname, '.');
    var k := DomainLabels(hostname, |parts|);
    SplitJoin(parts[|parts| - k..], '.');
  }
}
