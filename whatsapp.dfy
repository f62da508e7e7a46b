/** The MessageCentral WhatsApp sender of `utils/whatsappService.js`: the
    phone check, the sanitising and URL-encoding of template variables, the
    query it posts, and the date text with its English ordinal suffix. The
    token request and the post are inputs and outputs of this model, not
    calls in it. */
module Whatsapp {
  import opened Wrappers
  import opened Strings
  import opened Calendar
  import MetaWhatsapp

  // ---------------------------------------------------------------------
  // isValidPhoneNumber

  /** `/^[6-9]\d{9}$/`: ten ASCII digits, the first 6 to 9. */
  predicate IsValidPhoneNumber(s: string) {
    |s| == 10 && '6' <= s[0] <= '9' && AllDigits(s)
  }

  /** A number this sender accepts is accepted by the corrected Meta
      normalisation, which adds the country code. */
  lemma ValidPhoneNormalizes(s: string)
    requires IsValidPhoneNumber(s)
    ensures MetaWhatsapp.Normalize(Some(s)) == Ok("91" + s)
  {
    MetaWhatsapp.TenDigitMobileAccepted(s);
  }

  /** The normalisation as written rejects the valid numbers starting with
      `91`: the two senders disagree on those. */
  lemma ValidPhoneRejectedAsWritten(s: string)
    requires IsValidPhoneNumber(s) && s[..2] == "91"
    ensures MetaWhatsapp.NormalizeAsWritten(Some(s)).Err?
  {
    MetaWhatsapp.AsWrittenRejectsNineOne(s);
  }

  // ---------------------------------------------------------------------
  // Sanitising a variable

  /** The characters `/[^\w\s.]/g` keeps. */
  predicate KeepChar(c: char) {
    IsWordChar(c) || IsJsSpace(c) || c == '.'
  }

  /** `String(v).trim().replace(/[^\w\s.]/g, "").replace(/\s+/g, " ")` as
      written: the trim comes first, so a removed character can leave white
      space at either end. */
  function SanitizeAsWritten(v: string): string {
    ReplaceSpaceRuns(Filter(Trim(v), KeepChar), " ")
  }

  /** The sanitiser as intended: characters removed, white space runs
      collapsed, and only then the ends trimmed. */
  function Sanitize(v: string): string {
    Trim(ReplaceSpaceRuns(Filter(v, KeepChar), " "))
  }

  /** A sanitised value: no white space at either end, only kept
      characters, and every white space a single `' '`. */
  predicate Clean(s: string) {
    (s == [] || (!IsJsSpace(s[0]) && !IsJsSpace(s[|s| - 1]))) &&
    (forall i :: 0 <= i < |s| ==> KeepChar(s[i])) &&
    SingleSpaced(s)
  }

  /** Collapsing the white space of kept characters keeps only kept
      characters, and leaves every white space a single `' '`. */
  lemma CollapsedKept(s: string)
    requires forall c :: c in s ==> KeepChar(c)
    ensures var t := ReplaceSpaceRuns(s, " ");
      SingleSpaced(t) && forall i :: 0 <= i < |t| ==> KeepChar(t[i])
  {
    var t := ReplaceSpaceRuns(s, " ");
    CollapsedIsSingleSpaced(s);
    forall i | 0 <= i < |t| ensures KeepChar(t[i]) {
      ReplaceSpaceRunsChars(s, " ", t[i]);
    }
  }

  /** A slice of kept characters holds only kept characters. */
  lemma KeptSlice(t: string, a: nat, b: nat)
    requires a <= b <= |t| && forall i :: 0 <= i < |t| ==> KeepChar(t[i])
    ensures forall i :: 0 <= i < b - a ==> KeepChar(t[a..b][i])
  {
    forall i | 0 <= i < b - a ensures KeepChar(t[a..b][i]) {
      assert t[a..b][i] == t[a + i];
    }
  }

  /** Trimming single-spaced kept characters gives a clean value. */
  lemma TrimGivesClean(t: string)
    requires SingleSpaced(t) && forall i :: 0 <= i < |t| ==> KeepChar(t[i])
    ensures Clean(Trim(t))
  {
    var a := TrimOffset(t);
    var r := Trim(t);
    var b := a + |r|;
    SingleSpacedSlice(t, a, b);
    KeptSlice(t, a, b);
    assert r == t[a..b];
    assert SingleSpaced(r) && forall i :: 0 <= i < |r| ==> KeepChar(r[i]);
    assert r == [] || (!IsJsSpace(r[0]) && !IsJsSpace(r[|r| - 1]));
  }

  /** The corrected sanitiser always yields a clean value. */
  lemma SanitizeIsClean(v: string)
    ensures Clean(Sanitize(v))
  {
    var f := Filter(v, KeepChar);
    assert forall c :: c in f ==> KeepChar(c);
    CollapsedKept(f);
    TrimGivesClean(ReplaceSpaceRuns(f, " "));
  }

  /** As written, the sanitiser still keeps only kept characters and
      leaves every white space a single `' '`; only the ends may be
      spaces. */
  lemma AsWrittenKept(v: string)
    ensures var t := SanitizeAsWritten(v);
      SingleSpaced(t) && forall i :: 0 <= i < |t| ==> KeepChar(t[i])
  {
    var f := Filter(Trim(v), KeepChar);
    assert forall c :: c in f ==> KeepChar(c);
    CollapsedKept(f);
  }

  /** A clean value is left as it is. */
  lemma CleanIsFixed(s: string)
    requires Clean(s)
    ensures Sanitize(s) == s
  {
    FilterAllKept(s, KeepChar);
    CollapseSingleSpaced(s);
    TrimmedIsFixed(s);
  }

  /** Sanitising twice is sanitising once. */
  lemma SanitizeIdempotent(v: string)
    ensures Sanitize(Sanitize(v)) == Sanitize(v)
  {
    SanitizeIsClean(v);
    CleanIsFixed(Sanitize(v));
  }

  /** Removing a character that is not kept from the front of `c + " " + w`
      leaves the space in front. */
  lemma FilterDropsHead(c: char, w: string)
    requires !KeepChar(c) && forall i :: 0 <= i < |w| ==> KeepChar(w[i])
    ensures Filter([c, ' '] + w, KeepChar) == " " + w
  {
    var u := [' '] + w;
    assert [c, ' '] + w == [c] + u;
    FilterCons(c, u, KeepChar);
    assert Filter([c] + u, KeepChar) == [] + Filter(u, KeepChar);
    assert KeepChar(' ');
    FilterCons(' ', w, KeepChar);
    FilterAllKept(w, KeepChar);
    assert Filter(u, KeepChar) == [' '] + w;
  }

  /** A single leading space stays when runs are collapsed and goes when
      the ends are trimmed. */
  lemma LeadingSpace(w: string)
    requires w != [] && NoJsSpace(w)
    ensures ReplaceSpaceRuns(" " + w, " ") == " " + w
    ensures Trim(" " + w) == w
  {
    assert (" " + w)[1..] == w;
    assert !IsJsSpace(w[0]) && !IsJsSpace(w[|w| - 1]);
    assert TrimStart(" " + w) == w;
    ReplaceSpaceRunsIdentity(w, " ");
    TrimmedIsFixed(w);
  }

  /** As written, a removed character before a space leaves a leading
      space (`"- Pump"` becomes `" Pump"`, which is not clean); the corrected
      sanitiser gives `"Pump"`. */
  lemma AsWrittenLeadingSpace(c: char, w: string)
    requires !KeepChar(c) && w != [] && NoJsSpace(w) && forall i :: 0 <= i < |w| ==> KeepChar(w[i])
    ensures SanitizeAsWritten([c, ' '] + w) == " " + w
    ensures !Clean(SanitizeAsWritten([c, ' '] + w))
    ensures Sanitize([c, ' '] + w) == w
  {
    var v := [c, ' '] + w;
    assert !IsJsSpace(c) && !IsJsSpace(w[|w| - 1]);
    assert v[0] == c && v[|v| - 1] == w[|w| - 1];
    TrimmedIsFixed(v);
    FilterDropsHead(c, w);
    LeadingSpace(w);
  }

  // ---------------------------------------------------------------------
  // encodeURIComponent

  /** The characters `encodeURIComponent` leaves as they are (section
      19.2.6.5 of ECMA-262): ASCII letters and digits and `-_.!~*'()`. */
  predicate Unreserved(c: char) {
    ('a' <= c <= 'z') || ('A' <= c <= 'Z') || IsDigit(c) ||
    c == '-' || c == '_' || c == '.' || c == '!' || c == '~' || c == '*' || c == '\'' || c == '(' || c == ')'
  }

  function HexDigit(n: nat): (c: char)
    requires n < 16
    ensures IsHexDigit(c) && HexValue(c) == n
  {
    if n < 10 then ('0' as int + n) as char else ('A' as int + n - 10) as char
  }

  /** An upper-case hexadecimal digit. */
  predicate IsHexDigit(c: char) {
    IsDigit(c) || 'A' <= c <= 'F'
  }

  function HexValue(c: char): nat
    requires IsHexDigit(c)
  {
    if IsDigit(c) then c as int - '0' as int else c as int - 'A' as int + 10
  }

  /** The UTF-8 bytes of a character. */
  function Utf8(c: char): (bytes: seq<nat>)
    ensures 1 <= |bytes| <= 4
    ensures forall i :: 0 <= i < |bytes| ==> bytes[i] < 256
    ensures (c as int < 0x80) <==> |bytes| == 1
    ensures c as int < 0x80 ==> bytes == [c as int]
  {
    var cp := c as int;
    if cp < 0x80 then [cp]
    else if cp < 0x800 then [0xC0 + cp / 64, 0x80 + cp % 64]
    else if cp < 0x10000 then [0xE0 + cp / 4096, 0x80 + (cp / 64) % 64, 0x80 + cp % 64]
    else [0xF0 + cp / 262144, 0x80 + (cp / 4096) % 64, 0x80 + (cp / 64) % 64, 0x80 + cp % 64]
  }

  /** `%XY` for one byte, in upper-case hexadecimal. */
  function PercentByte(b: nat): (r: string)
    requires b < 256
    ensures |r| == 3 && r[0] == '%' && IsHexDigit(r[1]) && IsHexDigit(r[2])
    ensures 16 * HexValue(r[1]) + HexValue(r[2]) == b
  {
    ['%', HexDigit(b / 16), HexDigit(b % 16)]
  }

  function PercentBytes(bytes: seq<nat>): string
    requires forall i :: 0 <= i < |bytes| ==> bytes[i] < 256
  {
    if bytes == [] then "" else PercentByte(bytes[0]) + PercentBytes(bytes[1..])
  }

  function EncodeChar(c: char): string {
    if Unreserved(c) then [c] else PercentBytes(Utf8(c))
  }

  /** `encodeURIComponent(s)`. Dafny characters are Unicode scalar values,
      so the lone surrogates that make it throw do not arise. */
  function EncodeURIComponent(s: string): string {
    if s == [] then "" else EncodeChar(s[0]) + EncodeURIComponent(s[1..])
  }

  /** A character that can appear in encoded text. */
  predicate UriChar(c: char) {
    Unreserved(c) || c == '%' || IsHexDigit(c)
  }

  lemma {:induction false} PercentBytesUriChars(bytes: seq<nat>)
    requires forall i :: 0 <= i < |bytes| ==> bytes[i] < 256
    ensures forall i :: 0 <= i < |PercentBytes(bytes)| ==> UriChar(PercentBytes(bytes)[i])
  {
    if bytes != [] {
      PercentBytesUriChars(bytes[1..]);
      var head, tail := PercentByte(bytes[0]), PercentBytes(bytes[1..]);
      forall i | 0 <= i < |head + tail| ensures UriChar((head + tail)[i]) {
        if i >= |head| {
          assert (head + tail)[i] == tail[i - |head|];
        }
      }
    }
  }

  /** Encoded text holds only unreserved characters, `%` and hexadecimal
      digits, so no `&`, `=`, `#`, `,` or space can end a query value
      early. */
  lemma {:induction false} EncodedIsUriSafe(s: string)
    ensures forall i :: 0 <= i < |EncodeURIComponent(s)| ==> UriChar(EncodeURIComponent(s)[i])
  {
    if s != [] {
      EncodedIsUriSafe(s[1..]);
      if !Unreserved(s[0]) {
        PercentBytesUriChars(Utf8(s[0]));
      }
      var head, tail := EncodeChar(s[0]), EncodeURIComponent(s[1..]);
      forall i | 0 <= i < |head + tail| ensures UriChar((head + tail)[i]) {
        if i >= |head| {
          assert (head + tail)[i] == tail[i - |head|];
        }
      }
    }
  }

  /** Percent-decoding of single bytes: `decodeURIComponent` on text whose
      escapes are all ASCII. */
  function DecodeAscii(t: string): string
    decreases |t|
  {
    if t == [] then ""
    else if |t| >= 3 && t[0] == '%' && IsHexDigit(t[1]) && IsHexDigit(t[2]) then
      var b := 16 * HexValue(t[1]) + HexValue(t[2]);
      [b as char] + DecodeAscii(t[3..])
    else [t[0]] + DecodeAscii(t[1..])
  }

  predicate Ascii(s: string) {
    forall i :: 0 <= i < |s| ==> s[i] as int < 0x80
  }

  /** Decoding undoes encoding for ASCII text, so every sanitised variable
      reaches the recipient as it was. */
  lemma {:induction false} DecodeEncode(s: string)
    requires Ascii(s)
    ensures DecodeAscii(EncodeURIComponent(s)) == s
  {
    if s != [] {
      DecodeEncode(s[1..]);
      var c := s[0];
      var tail := EncodeURIComponent(s[1..]);
      if Unreserved(c) {
        assert ([c] + tail)[1..] == tail;
      } else {
        var head := PercentByte(c as int);
        assert EncodeChar(c) == head;
        assert (head + tail)[3..] == tail;
        assert (head + tail)[..3] == head;
      }
    }
  }

  /** Sanitised text is ASCII: `\w`, `.` and the collapsing space. */
  lemma CleanIsAscii(s: string)
    requires SingleSpaced(s) && forall i :: 0 <= i < |s| ==> KeepChar(s[i])
    ensures Ascii(s)
  {
    forall i | 0 <= i < |s| ensures s[i] as int < 0x80 {
      assert KeepChar(s[i]);
      if IsJsSpace(s[i]) {
        assert s[i] == ' ';
      }
    }
  }

  // ---------------------------------------------------------------------
  // sendWhatsAppMessage, up to the post

  const VariableSeparator: string := "%2C%20"

  function EncodeAll(values: seq<string>): (r: seq<string>)
    ensures |r| == |values|
    ensures forall i :: 0 <= i < |values| ==> r[i] == EncodeURIComponent(values[i])
  {
    if values == [] then [] else [EncodeURIComponent(values[0])] + EncodeAll(values[1..])
  }

  function SanitizeAll(values: seq<string>): (r: seq<string>)
    ensures |r| == |values|
    ensures forall i :: 0 <= i < |values| ==> r[i] == SanitizeAsWritten(values[i])
  {
    seq(|values|, i requires 0 <= i < |values| => SanitizeAsWritten(values[i]))
  }

  /** `&ctaVariables=...` when there are call-to-action values, otherwise
      nothing. The values are only converted to strings, not sanitised. */
  function CtaPart(cta: seq<string>): string {
    if cta == [] then "" else "&ctaVariables=" + JoinText(EncodeAll(cta), VariableSeparator)
  }

  /** The query string posted to the MessageCentral `send` endpoint. */
  function Query(phone: string, senderId: string, templateName: string, variables: seq<string>, cta: seq<string>): string {
    QueryHead(phone, senderId, templateName) +
    JoinText(EncodeAll(SanitizeAll(variables)), VariableSeparator) + CtaPart(cta)
  }

  /** The fixed parameters of the query, up to `variables=`. */
  function QueryHead(phone: string, senderId: string, templateName: string): string {
    "flowType=WHATSAPP&type=BROADCAST&mobileNumber=" + phone + "&countryCode=91&senderId=" + senderId +
    "&langId=en_US&templateName=" + templateName + "&variables="
  }

  datatype SendFailure = NoToken | InvalidPhone | NoVariables

  /** `sendWhatsAppMessage(phoneNumber, templateName, variables,
      ctaVariables)` up to the post: `false` without sending when the token
      request gave nothing, the phone is invalid, or there are no
      variables, checked in that order; otherwise the query it posts. The
      token and the sender id are parameters; a failing post is not
      modelled. */
  function SendWhatsAppMessage(token: Option<string>, senderId: string, phone: string, templateName: string,
                               variables: seq<string>, cta: seq<string>): (r: Result<string, SendFailure>)
    ensures r.Ok? <==> token.Some? && token.value != "" && IsValidPhoneNumber(phone) && variables != []
    ensures (token.None? || token.value == "") ==> r == Err(NoToken)
    ensures token.Some? && token.value != "" && !IsValidPhoneNumber(phone) ==> r == Err(InvalidPhone)
    ensures r.Ok? ==> r.value == Query(phone, senderId, templateName, variables, cta)
  {
    if token.None? || token.value == "" then Err(NoToken)
    else if !IsValidPhoneNumber(phone) then Err(InvalidPhone)
    else if SanitizeAll(variables) == [] then Err(NoVariables)
    else Ok(Query(phone, senderId, templateName, variables, cta))
  }

  /** The values joined by the separator, which itself holds only `%`,
      digits and `C`. */
  lemma {:induction false} JoinUriSafe(parts: seq<string>, sep: string)
    requires forall i :: 0 <= i < |sep| ==> UriChar(sep[i])
    requires forall k, i :: 0 <= k < |parts| && 0 <= i < |parts[k]| ==> UriChar(parts[k][i])
    ensures forall i :: 0 <= i < |JoinText(parts, sep)| ==> UriChar(JoinText(parts, sep)[i])
  {
    if |parts| > 1 {
      JoinUriSafe(parts[1..], sep);
      var a, b := parts[0], JoinText(parts[1..], sep);
      forall i | 0 <= i < |a + sep + b| ensures UriChar((a + sep + b)[i]) {
        if i < |a| {
          assert (a + sep + b)[i] == a[i];
        } else if i < |a| + |sep| {
          assert (a + sep + b)[i] == sep[i - |a|];
        } else {
          assert (a + sep + b)[i] == b[i - |a| - |sep|];
        }
      }
    } else if |parts| == 1 {
      assert JoinText(parts, sep) == parts[0];
    }
  }

  /** The `variables` value of the query is URL-safe whatever the variables
      are: they cannot add query parameters. */
  lemma VariablesUriSafe(variables: seq<string>)
    ensures var v := JoinText(EncodeAll(SanitizeAll(variables)), VariableSeparator);
      forall i :: 0 <= i < |v| ==> UriChar(v[i])
  {
    JoinEncodedUriSafe(SanitizeAll(variables));
  }

  /** Encoded values joined by the encoded separator are URL-safe. */
  lemma JoinEncodedUriSafe(values: seq<string>)
    ensures var v := JoinText(EncodeAll(values), VariableSeparator);
      forall i :: 0 <= i < |v| ==> UriChar(v[i])
  {
    var e := EncodeAll(values);
    EncodeAllUriSafe(values);
    SeparatorUriSafe();
    JoinUriSafe(e, VariableSeparator);
  }

  lemma SeparatorUriSafe()
    ensures forall i :: 0 <= i < |VariableSeparator| ==> UriChar(VariableSeparator[i])
  {
    assert UriChar('%') && UriChar('2') && UriChar('C') && UriChar('0');
    assert VariableSeparator == ['%', '2', 'C', '%', '2', '0'];
  }

  lemma EncodeAllUriSafe(values: seq<string>)
    ensures forall k, i :: 0 <= k < |EncodeAll(values)| && 0 <= i < |EncodeAll(values)[k]| ==> UriChar(EncodeAll(values)[k][i])
  {
    var e := EncodeAll(values);
    forall k, i | 0 <= k < |e| && 0 <= i < |e[k]| ensures UriChar(e[k][i]) {
      EncodedIsUriSafe(values[k]);
    }
  }

  /** Each encoded variable decodes back to its sanitised value. */
  lemma VariableReadsBack(variables: seq<string>, k: nat)
    requires k < |variables|
    ensures DecodeAscii(EncodeAll(SanitizeAll(variables))[k]) == SanitizeAsWritten(variables[k])
  {
    AsWrittenKept(variables[k]);
    CleanIsAscii(SanitizeAsWritten(variables[k]));
    DecodeEncode(SanitizeAsWritten(variables[k]));
  }

  /** Without call-to-action values the query ends with the variables. */
  lemma NoCtaNoCtaPart(phone: string, senderId: string, templateName: string, variables: seq<string>)
    ensures var q := Query(phone, senderId, templateName, variables, []);
      var v := JoinText(EncodeAll(SanitizeAll(variables)), VariableSeparator);
      |q| >= |v| && q[|q| - |v|..] == v
  {
    var v := JoinText(EncodeAll(SanitizeAll(variables)), VariableSeparator);
    var head := QueryHead(phone, senderId, templateName);
    assert Query(phone, senderId, templateName, variables, []) == head + v + "";
    EndsWith(head + v, "");
    EndsWith(head, v);
  }

  lemma EndsWith(a: string, b: string)
    ensures |a + b| >= |b| && (a + b)[|a|..] == b
  {
  }

  // ---------------------------------------------------------------------
  // formatDate

  /** `getSuffix(day)`. */
  function GetSuffix(day: nat): string {
    if day > 3 && day < 21 then "th"
    else if day % 10 == 1 then "st"
    else if day % 10 == 2 then "nd"
    else if day % 10 == 3 then "rd"
    else "th"
  }

  /** The English ordinal suffix: `th` for 11, 12 and 13 of every hundred,
      otherwise by the last digit. */
  function OrdinalSuffix(n: nat): string {
    if 11 <= n % 100 <= 13 then "th"
    else if n % 10 == 1 then "st"
    else if n % 10 == 2 then "nd"
    else if n % 10 == 3 then "rd"
    else "th"
  }

  /** `getSuffix` is the English suffix for every day of a month, and indeed
      up to 110; at 111 it says `st`. */
  lemma SuffixIsOrdinal(day: nat)
    ensures day <= 110 ==> GetSuffix(day) == OrdinalSuffix(day)
    ensures GetSuffix(111) == "st" && OrdinalSuffix(111) == "th"
  {
  }

  function MonthName(m: int): string {
    if m == 1 then "January" else if m == 2 then "February" else if m == 3 then "March"
    else if m == 4 then "April" else if m == 5 then "May" else if m == 6 then "June"
    else if m == 7 then "July" else if m == 8 then "August" else if m == 9 then "September"
    else if m == 10 then "October" else if m == 11 then "November" else "December"
  }

  const InvalidDate: string := "Invalid Date"

  /** `formatDate(dateString)`: `"Invalid Date"` for a falsy or unparsable
      input (`None`), otherwise the local calendar day as `14th October
      2026`. Parsing and the time zone are not modelled: the input is the
      parsed local day. */
  function FormatDate(date: Option<Day>): string {
    if date.None? then InvalidDate else DateText(DateOf(date.value))
  }

  /** The text `formatDate` gives a calendar date. */
  function DateText(d: Date): string
    requires Valid(d)
  {
    NatToString(d.day) + GetSuffix(d.day) + " " + MonthName(d.month) + " " + IntToString(d.year)
  }

  lemma NoSpaceInNumber(n: int)
    ensures ' ' !in NatToString(if n < 0 then -n else n) && ' ' !in IntToString(n)
  {
    var s := NatToString(if n < 0 then -n else n);
    assert forall i :: 0 <= i < |s| ==> s[i] != ' ';
    if n < 0 {
      assert IntToString(n) == "-" + s;
      assert forall i :: 0 <= i < |IntToString(n)| ==> IntToString(n)[i] != ' ' by {
        forall i | 0 <= i < |IntToString(n)| ensures IntToString(n)[i] != ' ' {
          if i > 0 {
            assert IntToString(n)[i] == s[i - 1];
          }
        }
      }
    }
  }

  lemma NoSpaceInMonth(m: int)
    ensures ' ' !in MonthName(m)
  {
  }

  /** The formatted date splits at its spaces into the day with its suffix,
      the month name and the year. */
  lemma FormatDateFields(n: Day)
    ensures var d := DateOf(n);
      Split(FormatDate(Some(n)), ' ') == [NatToString(d.day) + GetSuffix(d.day), MonthName(d.month), IntToString(d.year)]
  {
    DateTextFields(DateOf(n));
  }

  /** The split of the text of one calendar date. */
  lemma DateTextFields(d: Date)
    requires Valid(d)
    ensures Split(DateText(d), ' ') == [NatToString(d.day) + GetSuffix(d.day), MonthName(d.month), IntToString(d.year)]
  {
    var a, m, y := NatToString(d.day) + GetSuffix(d.day), MonthName(d.month), IntToString(d.year);
    NoSpaceInNumber(d.day);
    NoSpaceInNumber(d.year);
    NoSpaceInMonth(d.month);
    SuffixNoSpace(d.day);
    assert DateText(d) == a + [' '] + (m + [' '] + y);
    SplitThree(a, m, y);
  }

  lemma SuffixNoSpace(day: nat)
    ensures ' ' !in GetSuffix(day)
  {
  }

  /** Three words without spaces joined by single spaces split back into
      the three. */
  lemma SplitThree(a: string, m: string, y: string)
    requires ' ' !in a && ' ' !in m && ' ' !in y
    ensures Split(a + [' '] + (m + [' '] + y), ' ') == [a, m, y]
  {
    SplitConcat(a, ' ', m + [' '] + y);
    SplitConcat(m, ' ', y);
    SplitNoSeparator(a, ' ');
    SplitNoSeparator(m, ' ');
    SplitNoSeparator(y, ' ');
  }
}
