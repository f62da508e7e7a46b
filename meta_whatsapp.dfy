/** The Meta WhatsApp Cloud API sender of `utils/metaWhatsappService.js`:
    Indian phone normalisation, template placeholder substitution and the
    interactive call-to-action payload. The HTTP post and its logging are
    not part of this model. */
module MetaWhatsapp {
  import opened Wrappers
  import opened Strings

  // ---------------------------------------------------------------------
  // normalizeIndianPhoneNumber

  /** `s.replace(/\D/g, "")`: the ASCII digits of `s`, in order. */
  function DigitsOnly(s: string): (r: string)
    ensures AllDigits(r)
    ensures AllDigits(s) ==> r == s
  {
    var r := Filter(s, IsDigit);
    assert forall i :: 0 <= i < |r| ==> r[i] in r;
    if AllDigits(s) then FilterAllKept(s, IsDigit); r else r
  }

  /** `s.replace(/^0+/, "")`: the text after its leading zeros. */
  function StripLeadingZeros(s: string): (r: string)
    ensures |r| <= |s| && r == s[|s| - |r|..]
    ensures forall i :: 0 <= i < |s| - |r| ==> s[i] == '0'
    ensures r == [] || r[0] != '0'
    decreases |s|
  {
    if s != [] && s[0] == '0' then StripLeadingZeros(s[1..]) else s
  }

  /** The digits the checks look at: non-digits removed, then leading
      zeros. */
  function Cleaned(s: string): (r: string)
    ensures AllDigits(r)
  {
    StripLeadingZeros(DigitsOnly(s))
  }

  /** `/^[6-9]/`. */
  predicate MobileStart(s: string) {
    |s| >= 1 && '6' <= s[0] <= '9'
  }

  /** A ten-digit Indian mobile number without country code. */
  predicate MobileNumber(s: string) {
    |s| == 10 && AllDigits(s) && MobileStart(s)
  }

  /** The normalised form: `91` and a ten-digit mobile number. */
  predicate WithCountryCode(s: string) {
    |s| == 12 && s[..2] == "91" && MobileNumber(s[2..])
  }

  /** The errors thrown, each carrying the input as given. */
  datatype PhoneError = PhoneRequired | NotMobile(input: string) | BadLengthAfterCode(input: string) | BadLength(input: string)

  function PhoneMessage(e: PhoneError): string {
    match e
    case PhoneRequired => "Phone number is required"
    case NotMobile(p) => "Invalid Indian mobile number: " + p + ". Must start with 6, 7, 8, or 9"
    case BadLengthAfterCode(p) => "Invalid Indian phone number length: " + p + ". Expected 10 digits after country code"
    case BadLength(p) => "Invalid Indian phone number length: " + p + ". Expected 10 digits"
  }

  /** `normalizeIndianPhoneNumber(phoneNumber)` as written: a cleaned number
      starting with `91` is judged on what follows the `91`, so a ten-digit
      mobile number that itself starts with `91` is rejected. An absent or
      empty input is falsy. */
  function NormalizeAsWritten(phone: Option<string>): (r: Result<string, PhoneError>)
    ensures r == Err(PhoneRequired) <==> phone.None? || phone.value == ""
    ensures r.Ok? ==> WithCountryCode(r.value)
    ensures r.Ok? ==> var c := Cleaned(phone.value); |c| >= 10 && r.value == "91" + c[|c| - 10..]
  {
    if phone.None? || phone.value == "" then Err(PhoneRequired)
    else
      var cleaned := Cleaned(phone.value);
      if StartsWith(cleaned, "91") then
        var rest := cleaned[2..];
        if |rest| == 10 then
          if MobileStart(rest) then CodeKept(cleaned); Ok(cleaned) else Err(NotMobile(phone.value))
        else Err(BadLengthAfterCode(phone.value))
      else if |cleaned| == 10 then
        if MobileStart(cleaned) then CodeAdded(cleaned); Ok("91" + cleaned) else Err(NotMobile(phone.value))
      else Err(BadLength(phone.value))
  }

  /** As written, the number is accepted exactly when the cleaned digits are
      `91` and a mobile number, or a mobile number not starting with `91`. */
  lemma AsWrittenAccepts(phone: string)
    requires phone != ""
    ensures var c := Cleaned(phone);
      NormalizeAsWritten(Some(phone)).Ok? <==>
        WithCountryCode(c) || (MobileNumber(c) && !StartsWith(c, "91"))
  {
    var c := Cleaned(phone);
    var r := NormalizeAsWritten(Some(phone));
    if StartsWith(c, "91") {
      DigitsAfter(c, 2);
      assert r.Ok? <==> |c| == 12 && MobileStart(c[2..]);
      assert WithCountryCode(c) <==> |c| == 12 && MobileStart(c[2..]);
    } else {
      assert r.Ok? <==> |c| == 10 && MobileStart(c);
      assert !WithCountryCode(c);
    }
  }

  /** Every ten-digit mobile number starting with `91` is rejected as
      written, `9123456789` among them. */
  lemma AsWrittenRejectsNineOne(phone: string)
    requires MobileNumber(phone) && phone[..2] == "91"
    ensures NormalizeAsWritten(Some(phone)) == Err(BadLengthAfterCode(phone))
  {
    assert Cleaned(phone) == phone;
  }

  lemma NineOneExample(phone: string)
    requires phone == "9123456789"
    ensures NormalizeAsWritten(Some(phone)).Err?
    ensures Normalize(Some(phone)) == Ok("91" + phone)
  {
    assert phone[..2] == "91";
    AsWrittenRejectsNineOne(phone);
    TenDigitMobileAccepted(phone);
  }

  /** `normalizeIndianPhoneNumber(phoneNumber)` corrected: ten cleaned digits
      are judged as a mobile number first; only longer numbers are read as
      carrying the `91` country code. The result is `91` and the last ten
      cleaned digits. */
  function Normalize(phone: Option<string>): (r: Result<string, PhoneError>)
    ensures r == Err(PhoneRequired) <==> phone.None? || phone.value == ""
    ensures r.Ok? ==> WithCountryCode(r.value)
    ensures r.Ok? ==> var c := Cleaned(phone.value); |c| >= 10 && r.value == "91" + c[|c| - 10..]
  {
    if phone.None? || phone.value == "" then Err(PhoneRequired)
    else
      var cleaned := Cleaned(phone.value);
      if |cleaned| == 10 then
        if MobileStart(cleaned) then CodeAdded(cleaned); Ok("91" + cleaned) else Err(NotMobile(phone.value))
      else if StartsWith(cleaned, "91") then
        var rest := cleaned[2..];
        if |rest| == 10 then
          if MobileStart(rest) then CodeKept(cleaned); Ok(cleaned) else Err(NotMobile(phone.value))
        else Err(BadLengthAfterCode(phone.value))
      else Err(BadLength(phone.value))
  }

  /** A ten-digit mobile number with `91` put in front is normalised. */
  lemma CodeAdded(c: string)
    requires MobileNumber(c)
    ensures WithCountryCode("91" + c) && "91" + c == "91" + c[|c| - 10..]
  {
    var r := "91" + c;
    assert r[2..] == c && r[..2] == "91";
    assert c[|c| - 10..] == c;
  }

  /** Twelve digits starting with `91` and then a mobile digit are
      normalised already. */
  lemma CodeKept(c: string)
    requires |c| == 12 && AllDigits(c) && StartsWith(c, "91") && MobileStart(c[2..])
    ensures WithCountryCode(c) && c == "91" + c[|c| - 10..]
  {
    DigitsAfter(c, 2);
    assert c == c[..2] + c[2..];
  }

  /** The corrected check accepts exactly a mobile number, with or without
      the `91` code, once non-digits and leading zeros are gone. */
  lemma NormalizeAccepts(phone: string)
    requires phone != ""
    ensures var c := Cleaned(phone);
      Normalize(Some(phone)).Ok? <==> MobileNumber(c) || WithCountryCode(c)
  {
    var c := Cleaned(phone);
    if |c| != 10 && |c| >= 2 {
      DigitsAfter(c, 2);
    }
  }

  /** Digits after a prefix of digits. */
  lemma DigitsAfter(c: string, k: nat)
    requires AllDigits(c) && k <= |c|
    ensures AllDigits(c[k..])
  {
    forall i | 0 <= i < |c[k..]| ensures IsDigit(c[k..][i]) {
      assert c[k..][i] == c[i + k];
    }
  }

  /** Every ten-digit mobile number gains the country code. */
  lemma TenDigitMobileAccepted(phone: string)
    requires MobileNumber(phone)
    ensures Normalize(Some(phone)) == Ok("91" + phone)
  {
    assert Cleaned(phone) == phone;
  }

  /** A normalised number has nothing to clean. */
  lemma CleanedFixed(r: string)
    requires WithCountryCode(r)
    ensures Cleaned(r) == r
  {
    assert AllDigits(r) by {
      forall i | 0 <= i < |r| ensures IsDigit(r[i]) {
        if i >= 2 {
          assert r[i] == r[2..][i - 2];
        } else {
          assert r[..2][i] == r[i];
        }
      }
    }
    assert r[0] == r[..2][0];
  }

  /** A normalised number normalises to itself. */
  lemma NormalizeIdempotent(phone: Option<string>)
    requires Normalize(phone).Ok?
    ensures Normalize(Some(Normalize(phone).value)) == Normalize(phone)
  {
    CleanedFixed(Normalize(phone).value);
  }

  /** The same holds of the function as written. */
  lemma AsWrittenIdempotent(phone: Option<string>)
    requires NormalizeAsWritten(phone).Ok?
    ensures NormalizeAsWritten(Some(NormalizeAsWritten(phone).value)) == NormalizeAsWritten(phone)
  {
    CleanedFixed(NormalizeAsWritten(phone).value);
  }

  /** Spaces, dashes, a `+` and leading zeros make no difference to an
      accepted number: only the digits count. */
  lemma FormattingIgnored(a: string, b: string)
    requires a != "" && b != "" && Cleaned(a) == Cleaned(b)
    requires Normalize(Some(a)).Ok?
    ensures Normalize(Some(b)) == Normalize(Some(a))
  {
  }

  // ---------------------------------------------------------------------
  // replacePlaceholders

  /** A body parameter: text, a number, or `null`/`undefined`. */
  datatype Param = Text(text: string) | Number(n: int) | Absent

  /** `String(param || "")`: falsy values (`""`, `0`, `null`, `undefined`)
      give `""`. */
  function ParamText(p: Param): string {
    match p
    case Text(s) => s
    case Number(n) => if n == 0 then "" else IntToString(n)
    case Absent => ""
  }

  /** `{{k}}`. */
  function Placeholder(k: nat): (r: string)
    ensures |r| >= 5 && r[0] == '{' && r[1] == '{'
  {
    "{{" + NatToString(k) + "}}"
  }

  /** The text after the first `n` passes of the loop: pass `k` replaces
      every `{{k}}` by the `k`-th parameter's text. */
  function Substituted(text: string, params: seq<Param>, n: nat): string
    requires n <= |params|
  {
    if n == 0 then text
    else ReplaceAll(Substituted(text, params, n - 1), Placeholder(n), ParamText(params[n - 1]))
  }

  /** `replacePlaceholders(text, params)`. */
  method ReplacePlaceholders(text: string, params: seq<Param>) returns (result: string)
    ensures result == Substituted(text, params, |params|)
  {
    result := text;
    var i := 0;
    while i < |params|
      invariant 0 <= i <= |params|
      invariant result == Substituted(text, params, i)
    {
      result := ReplaceAll(result, Placeholder(i + 1), ParamText(params[i]));
      i := i + 1;
    }
  }

  /** A template body as literal text and numbered slots. */
  datatype Piece = Lit(s: string) | Slot(k: nat)

  /** The body text: each slot written as its placeholder. */
  function Show(pieces: seq<Piece>): string {
    if pieces == [] then ""
    else (match pieces[0] case Lit(s) => s case Slot(k) => Placeholder(k)) + Show(pieces[1..])
  }

  /** The body with slots `1..n` filled by the parameters and every other
      slot left as its placeholder. */
  function Filled(pieces: seq<Piece>, params: seq<Param>, n: nat): string
    requires n <= |params|
  {
    if pieces == [] then "" else PieceText(pieces[0], params, n) + Filled(pieces[1..], params, n)
  }

  function PieceText(piece: Piece, params: seq<Param>, n: nat): string
    requires n <= |params|
  {
    match piece
    case Lit(s) => s
    case Slot(k) => if 1 <= k <= n then ParamText(params[k - 1]) else Placeholder(k)
  }

  /** No literal text contains `{`. */
  predicate PlainPieces(pieces: seq<Piece>) {
    forall i :: 0 <= i < |pieces| && pieces[i].Lit? ==> '{' !in pieces[i].s
  }

  /** No parameter text contains `{`. */
  predicate PlainParams(params: seq<Param>) {
    forall i :: 0 <= i < |params| ==> '{' !in ParamText(params[i])
  }

  /** The characters of `{{k}}`: two braces, the digits of `k`, a brace. */
  lemma PlaceholderChars(k: nat)
    ensures var d, p := NatToString(k), Placeholder(k);
      |p| == |d| + 4 && p[2 + |d|] == '}' &&
      forall i :: 0 <= i < |d| ==> p[2 + i] == d[i]
  {
  }

  /** After the two braces, a digit until the closing brace. */
  lemma PlaceholderAt(k: nat, j: nat)
    requires j <= |NatToString(k)|
    ensures Placeholder(k)[2 + j] == '}' <==> j == |NatToString(k)|
  {
    var d := NatToString(k);
    PlaceholderChars(k);
    if j < |d| {
      assert IsDigit(d[j]);
    }
  }

  /** Two placeholders with different numbers: neither is a prefix of the
      other followed by more text. */
  lemma PlaceholderPrefix(k: nat, n: nat, rest: string)
    requires var s := Placeholder(k) + rest; |s| >= |Placeholder(n)| && s[..|Placeholder(n)|] == Placeholder(n)
    ensures k == n
  {
    var dk, dn := NatToString(k), NatToString(n);
    var s, p := Placeholder(k) + rest, Placeholder(n);
    PlaceholderChars(k);
    PlaceholderChars(n);
    assert forall i :: 0 <= i < |p| ==> s[i] == p[i] by {
      forall i | 0 <= i < |p| ensures s[i] == p[i] {
        assert s[..|p|][i] == s[i];
      }
    }
    assert forall i :: 0 <= i < |dk| ==> s[2 + i] == dk[i];
    var m := if |dk| < |dn| then |dk| else |dn|;
    assert s[2 + m] == p[2 + m] == Placeholder(k)[2 + m];
    PlaceholderAt(k, m);
    PlaceholderAt(n, m);
    if |dn| != |dk| {
      assert false;
    } else {
      assert forall i :: 0 <= i < |dk| ==> dk[i] == dn[i];
      assert dk == dn;
      NatToStringInjective(k, n);
    }
  }

  /** A `{` followed by text without `{` cannot start a placeholder. */
  lemma ReplaceSkipsBrace(x: string, rest: string, p: string, r: string)
    requires |p| >= 2 && p[0] == '{' && p[1] == '{'
    requires |x| >= 2 && '{' !in x[1..]
    ensures ReplaceAll(x + rest, p, r) == x + ReplaceAll(rest, p, r)
  {
    var s := x + rest;
    assert x[1] == x[1..][0];
    assert |s| >= |p| ==> s[..|p|] != p by {
      if |s| >= |p| {
        assert s[..|p|][1] == x[1];
      }
    }
    ReplaceAllHead(s, p, r);
    assert s[1..] == x[1..] + rest;
    ReplaceAllSkip(x[1..], rest, p, r);
    assert x == [x[0]] + x[1..];
  }

  /** Replacing `{{n}}` copies another placeholder unchanged. */
  lemma ReplaceSkipsPlaceholder(k: nat, n: nat, rest: string, r: string)
    requires k != n
    ensures ReplaceAll(Placeholder(k) + rest, Placeholder(n), r) == Placeholder(k) + ReplaceAll(rest, Placeholder(n), r)
  {
    var p, q := Placeholder(n), Placeholder(k);
    var x := q[1..];
    PlaceholderTail(k);
    var s := q + rest;
    NotPlaceholderAt(k, n, rest);
    ReplaceAllHead(s, p, r);
    assert s[1..] == x + rest;
    ReplaceSkipsBrace(x, rest, p, r);
    assert s[0] == q[0] && q == [q[0]] + x;
    assert [s[0]] + (x + ReplaceAll(rest, p, r)) == q + ReplaceAll(rest, p, r);
  }

  /** Past its first two characters a placeholder has no `{`. */
  lemma PlaceholderTail(k: nat)
    ensures '{' !in Placeholder(k)[1..][1..]
  {
    var x := Placeholder(k)[1..];
    assert x[1..] == NatToString(k) + "}}";
    assert forall i :: 0 <= i < |x[1..]| ==> x[1..][i] != '{';
  }

  /** Another placeholder does not start where `{{k}}` does. */
  lemma NotPlaceholderAt(k: nat, n: nat, rest: string)
    requires k != n
    ensures var s := Placeholder(k) + rest; |s| >= |Placeholder(n)| ==> s[..|Placeholder(n)|] != Placeholder(n)
  {
    var s := Placeholder(k) + rest;
    if |s| >= |Placeholder(n)| && s[..|Placeholder(n)|] == Placeholder(n) {
      PlaceholderPrefix(k, n, rest);
    }
  }

  /** Pass `n` on one piece followed by more text. */
  lemma PieceStep(piece: Piece, params: seq<Param>, n: nat, rest: string)
    requires 1 <= n <= |params|
    requires piece.Lit? ==> '{' !in piece.s
    requires PlainParams(params)
    ensures ReplaceAll(PieceText(piece, params, n - 1) + rest, Placeholder(n), ParamText(params[n - 1])) ==
      PieceText(piece, params, n) + ReplaceAll(rest, Placeholder(n), ParamText(params[n - 1]))
  {
    var p, v := Placeholder(n), ParamText(params[n - 1]);
    match piece
    case Lit(s) =>
      ReplaceAllSkip(s, rest, p, v);
    case Slot(k) =>
      if 1 <= k <= n - 1 {
        assert '{' !in ParamText(params[k - 1]);
        ReplaceAllSkip(ParamText(params[k - 1]), rest, p, v);
      } else if k == n {
        ReplaceAllAfterPrefix([], p, rest, v);
        assert [] + p + rest == p + rest;
      } else {
        ReplaceSkipsPlaceholder(k, n, rest, v);
      }
  }

  /** Pass `n` fills slot `n` and leaves everything else as it was. */
  lemma {:induction false} PassFillsSlot(pieces: seq<Piece>, params: seq<Param>, n: nat)
    requires 1 <= n <= |params|
    requires PlainPieces(pieces) && PlainParams(params)
    ensures ReplaceAll(Filled(pieces, params, n - 1), Placeholder(n), ParamText(params[n - 1])) ==
      Filled(pieces, params, n)
    decreases |pieces|
  {
    if pieces != [] {
      assert PlainPieces(pieces[1..]) by {
        forall i | 0 <= i < |pieces[1..]| && pieces[1..][i].Lit? ensures '{' !in pieces[1..][i].s {
          assert pieces[1..][i] == pieces[i + 1];
        }
      }
      PassFillsSlot(pieces[1..], params, n);
      PieceStep(pieces[0], params, n, Filled(pieces[1..], params, n - 1));
    }
  }

  lemma {:induction false} FilledNone(pieces: seq<Piece>, params: seq<Param>)
    ensures Filled(pieces, params, 0) == Show(pieces)
    decreases |pieces|
  {
    if pieces != [] {
      FilledNone(pieces[1..], params);
    }
  }

  /** The loop fills exactly the slots numbered `1..|params|`, each with its
      parameter, provided neither the literal text nor the parameters
      contain `{`; slots beyond the parameters, and `{{0}}`, stay. */
  lemma {:induction false} SubstitutionFills(pieces: seq<Piece>, params: seq<Param>, n: nat)
    requires n <= |params| && PlainPieces(pieces) && PlainParams(params)
    ensures Substituted(Show(pieces), params, n) == Filled(pieces, params, n)
  {
    if n == 0 {
      FilledNone(pieces, params);
    } else {
      SubstitutionFills(pieces, params, n - 1);
      PassFillsSlot(pieces, params, n);
    }
  }

  // ---------------------------------------------------------------------
  // TEMPLATE_CONFIG and buildInteractivePayload

  /** One entry of the template table; the body is kept as its literal text
      and numbered slots. */
  datatype TemplateConfig = TemplateConfig(
    header: string,
    body: seq<Piece>,
    footer: string,
    buttonText: string,
    urlPattern: string,
    hasButton: bool)

  const StopFooter: string := "Type \"STOP\" to unsubscribe"
  const TaskDetailBase: string := "https://ops.waters.co.in/task-detail/"
  const ProjectDetailBase: string := "https://ops.waters.co.in/project-detail/"

  /** The five configured templates. */
  const Templates: map<string, TemplateConfig> := map[
    "task_delayed" := TemplateConfig(
      "Task Delayed Notification",
      [Lit("The following task is delayed by *"), Slot(1), Lit("* days.  \n\n*Task*: "), Slot(2),
       Lit("  \n*Project*: "), Slot(3), Lit("  \n*Product*: "), Slot(4), Lit("  \n*Primary Owner*: "), Slot(5),
       Lit("  \n*Secondary Owner*: "), Slot(6), Lit("  \n*Timeline*: "), Slot(7), Lit(" *to* "), Slot(8),
       Lit("  \n\nPlease make sure the task is updated as soon as possible.")],
      StopFooter, "View Task", TaskDetailBase + "{{1}}", true),
    "project_assignment_project_manager" := TemplateConfig(
      "Project Assignment",
      [Lit("You are assigned ownership of a new project: *"), Slot(1), Lit("* by *"), Slot(2),
       Lit("*.\n\nYou can start planning")],
      StopFooter, "View Project", ProjectDetailBase + "{{1}}", true),
    "task_assignment_tech" := TemplateConfig(
      "New Task Assigned",
      [Lit("*Task Assignment Alert!*\n\n*Task:* "), Slot(1), Lit("\n*Project:* "), Slot(2),
       Lit("\n\nPlease make sure to upload daily updates and complete it within the deadline .")],
      StopFooter, "View Task", TaskDetailBase + "{{1}}", true),
    "task_resubmission_project_manager" := TemplateConfig(
      "Task Resubmitted",
      [Lit("*Task Resubmitted!*  \n\n*Resubmitted by:* "), Slot(1), Lit("  \n*Task:* "), Slot(2),
       Lit("  \n*Project:* "), Slot(3), Lit("  \n*Product:* "), Slot(4),
       Lit("  \n\nPlease connect with your Project Manager and update the task accordingly.")],
      StopFooter, "View Task", TaskDetailBase + "{{1}}", true),
    "task_submission_project_manager" := TemplateConfig(
      "Task Submitted for Review",
      [Lit("*Submitted by:* "), Slot(1), Lit("  \n*Task:* "), Slot(2), Lit("  \n*Project:* "), Slot(3),
       Lit("  \n*Product:* "), Slot(4), Lit("  \n*Submitted on:* "), Slot(5),
       Lit("  \n\nPlease review the task and ensure all updates are uploaded.  \nComplete it within the deadline.")],
      StopFooter, "View Task", TaskDetailBase + "{{1}}", true)
  ]

  /** The call-to-action button. */
  datatype CtaAction = CtaAction(displayText: string, url: string)

  /** The interactive `cta_url` message; the fixed fields
      (`messaging_product: "whatsapp"`, `recipient_type: "individual"`,
      `type: "interactive"`, the `text` header type and the `cta_url`
      action name) are constants and not repeated here. */
  datatype Payload = Payload(to: string, header: string, body: string, footer: string, action: Option<CtaAction>)

  datatype PayloadError = UnknownTemplate(name: string)

  function PayloadMessage(e: PayloadError): string {
    "Template configuration not found for: " + e.name
  }

  /** `ctaParam` is truthy: present and not empty. */
  predicate Truthy(cta: Option<string>) {
    cta.Some? && cta.value != ""
  }

  /** `buildInteractivePayload(to, templateName, bodyParams, ctaParam)`: an
      unknown template fails; otherwise the configured header and footer,
      the substituted body, and a button exactly when the template has one
      and `ctaParam` is truthy, whose URL is the pattern with its first
      `{{1}}` replaced by `ctaParam`. */
  method BuildInteractivePayload(to: string, templateName: string, bodyParams: seq<Param>, ctaParam: Option<string>)
    returns (r: Result<Payload, PayloadError>)
    ensures r.Err? <==> templateName !in Templates
    ensures r.Err? ==> r.error == UnknownTemplate(templateName)
    ensures r.Ok? ==> var c := Templates[templateName];
      r.value.to == to && r.value.header == c.header && r.value.footer == c.footer &&
      r.value.body == Substituted(Show(c.body), bodyParams, |bodyParams|) &&
      (r.value.action.Some? <==> c.hasButton && Truthy(ctaParam)) &&
      (r.value.action.Some? ==> r.value.action.value == CtaAction(c.buttonText, ReplaceFirst(c.urlPattern, "{{1}}", ctaParam.value)))
  {
    if templateName !in Templates {
      return Err(UnknownTemplate(templateName));
    }
    var config := Templates[templateName];
    var bodyText := ReplacePlaceholders(Show(config.body), bodyParams);
    var payload := Payload(to, config.header, bodyText, config.footer, None);
    if config.hasButton && Truthy(ctaParam) {
      var url := ReplaceFirst(config.urlPattern, "{{1}}", ctaParam.value);
      payload := payload.(action := Some(CtaAction(config.buttonText, url)));
    }
    r := Ok(payload);
  }

  /** Every configured URL pattern is a base without `{` and a final
      `{{1}}`: the button links to the base followed by `ctaParam`. */
  lemma ButtonUrl(templateName: string, id: string)
    requires templateName in Templates
    ensures var base := if templateName == "project_assignment_project_manager" then ProjectDetailBase else TaskDetailBase;
      ReplaceFirst(Templates[templateName].urlPattern, "{{1}}", id) == base + id
  {
    var base := if templateName == "project_assignment_project_manager" then ProjectDetailBase else TaskDetailBase;
    assert Templates[templateName].urlPattern == base + "{{1}}" by {
      if templateName == "project_assignment_project_manager" {
      } else if templateName == "task_delayed" {
      } else if templateName == "task_assignment_tech" {
      } else if templateName == "task_resubmission_project_manager" {
      } else {
        assert templateName == "task_submission_project_manager";
      }
    }
    assert '{' !in TaskDetailBase;
    assert '{' !in ProjectDetailBase;
    SlotAfterBase(base, id);
  }

  /** A base without `{` followed by `{{1}}` links to the base followed by
      the value. */
  lemma SlotAfterBase(base: string, id: string)
    requires '{' !in base
    ensures ReplaceFirst(base + "{{1}}", "{{1}}", id) == base + id
  {
    ReplaceFirstAfterPrefix(base, "{{1}}", "", id);
    assert base + "{{1}}" + "" == base + "{{1}}";
  }

  // ---------------------------------------------------------------------
  // sendWhatsAppTemplate

  datatype SendError = PhoneFailed(phone: PhoneError) | PayloadFailed(payload: PayloadError)

  /** `sendWhatsAppTemplate(to, templateName, bodyParams, ctaParam)` up to the
      post: the phone number is normalised first, and an invalid number
      fails before the template is looked up; the payload goes to the
      normalised number. The normalisation is the one the code has, so a
      ten-digit number starting with `91` fails here. */
  method SendWhatsAppTemplate(to: Option<string>, templateName: string, bodyParams: seq<Param>, ctaParam: Option<string>)
    returns (r: Result<Payload, SendError>)
    ensures NormalizeAsWritten(to).Err? ==> r == Err(PhoneFailed(NormalizeAsWritten(to).error))
    ensures NormalizeAsWritten(to).Ok? && templateName !in Templates ==> r == Err(PayloadFailed(UnknownTemplate(templateName)))
    ensures r.Ok? <==> NormalizeAsWritten(to).Ok? && templateName in Templates
    ensures r.Ok? ==>
      r.value.to == NormalizeAsWritten(to).value && WithCountryCode(r.value.to) &&
      r.value.body == Substituted(Show(Templates[templateName].body), bodyParams, |bodyParams|)
  {
    var phone := NormalizeAsWritten(to);
    if phone.Err? {
      return Err(PhoneFailed(phone.error));
    }
    var payload := BuildInteractivePayload(phone.value, templateName, bodyParams, ctaParam);
    if payload.Err? {
      return Err(PayloadFailed(payload.error));
    }
    r := Ok(payload.value);
  }
}
