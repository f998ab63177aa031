/**
 * The request validators: the rule table `createValidationFor` hands to the router for each
 * endpoint, the way each rule judges a request field, and `checkValidationResult`, which
 * lets the request through or answers 422 with every error folded into one message.
 */
module Validation {
  import opened Wrappers

  // ---------------------------------------------------------------------------
  // The rule table
  // ---------------------------------------------------------------------------

  /** One validator of a chain: `notEmpty()`, `isEmail()`, `isLength({min})`, the reminder's `custom(...)`. */
  datatype Check = NotEmpty | IsEmail | MinLength(min: nat) | ReminderTime

  /** `check(field)` followed by its validators, in the order they are chained. */
  datatype Rule = Rule(field: string, checks: seq<Check>)

  const MinPassword: nat := 8

  /** `createValidationFor`: the constant rule list of each endpoint name, and none for any other name. */
  function CreateValidationFor(named: string): (rules: seq<Rule>)
    ensures named !in {"register", "login", "reqverify", "verify", "reset", "change", "reminder"} ==> rules == []
    ensures forall r | r in rules :: r.checks != []
  {
    if named == "register" then
      [ Rule("name", [NotEmpty]),
        Rule("username", [NotEmpty]),
        Rule("email", [IsEmail, NotEmpty]),
        Rule("password", [NotEmpty, MinLength(MinPassword)]) ]
    else if named == "login" then
      [ Rule("email", [IsEmail, NotEmpty]),
        Rule("password", [NotEmpty, MinLength(MinPassword)]) ]
    else if named == "reqverify" then
      [ Rule("email", [NotEmpty]) ]
    else if named == "verify" then
      [ Rule("email", [NotEmpty]),
        Rule("token", [NotEmpty]) ]
    else if named == "reset" then
      [ Rule("email", [NotEmpty]) ]
    else if named == "change" then
      [ Rule("newPass", [NotEmpty, MinLength(MinPassword)]),
        Rule("confirmPass", [NotEmpty]),
        Rule("email", [NotEmpty]),
        Rule("token", [NotEmpty]) ]
    else if named == "reminder" then
      [ Rule("title", [NotEmpty]),
        Rule("time", [NotEmpty, ReminderTime]),
        Rule("major", [NotEmpty]) ]
    else
      []
  }

  // ---------------------------------------------------------------------------
  // The reminder's time shape: /^\d{4}-\d{2}-\d{2} \d{2}:\d{2}:\d{2}\.\d+$/
  // ---------------------------------------------------------------------------

  /** `\d` without the `u` flag: an ASCII digit. */
  predicate IsDigit(c: char) {
    '0' <= c <= '9'
  }

  predicate AllDigits(s: string) {
    forall i | 0 <= i < |s| :: IsDigit(s[i])
  }

  /** The pattern position by position: the date, a space, the time, a dot and at least one more digit, and nothing else. */
  predicate TimeShaped(s: string) {
    && |s| > 20
    && AllDigits(s[..4]) && s[4] == '-' && AllDigits(s[5..7]) && s[7] == '-' && AllDigits(s[8..10])
    && s[10] == ' '
    && AllDigits(s[11..13]) && s[13] == ':' && AllDigits(s[14..16]) && s[16] == ':' && AllDigits(s[17..19])
    && s[19] == '.' && AllDigits(s[20..])
  }

  /** The digit groups the pattern asks for, one field per group. */
  datatype Stamp = Stamp(year: string, month: string, day: string, hour: string, minute: string, second: string, fraction: string)

  predicate ValidStamp(st: Stamp) {
    && |st.year| == 4 && |st.month| == 2 && |st.day| == 2
    && |st.hour| == 2 && |st.minute| == 2 && |st.second| == 2 && |st.fraction| >= 1
    && AllDigits(st.year) && AllDigits(st.month) && AllDigits(st.day)
    && AllDigits(st.hour) && AllDigits(st.minute) && AllDigits(st.second) && AllDigits(st.fraction)
  }

  /** Writes the groups out with the separators the pattern puts between them. */
  function Render(st: Stamp): (s: string)
    ensures |s| == |st.year| + |st.month| + |st.day| + |st.hour| + |st.minute| + |st.second| + |st.fraction| + 6
  {
    st.year + "-" + st.month + "-" + st.day + " " + st.hour + ":" + st.minute + ":" + st.second + "." + st.fraction
  }

  /** Cuts a string of the right shape back into its digit groups. */
  function Parse(s: string): (st: Stamp)
    requires TimeShaped(s)
    ensures ValidStamp(st)
  {
    Stamp(s[..4], s[5..7], s[8..10], s[11..13], s[14..16], s[17..19], s[20..])
  }

  /** Every well-formed stamp has the shape, and parsing gives the stamp back. */
  lemma RenderParse(st: Stamp)
    requires ValidStamp(st)
    ensures TimeShaped(Render(st)) && Parse(Render(st)) == st
  {
    var s := Render(st);
    assert s[..4] == st.year;
    assert s[5..7] == st.month;
    assert s[8..10] == st.day;
    assert s[11..13] == st.hour;
    assert s[14..16] == st.minute;
    assert s[17..19] == st.second;
    assert s[20..] == st.fraction;
  }

  /** Every string of the shape is the rendering of the stamp parsed from it. */
  lemma ParseRender(s: string)
    requires TimeShaped(s)
    ensures Render(Parse(s)) == s
  {
    var st := Parse(s);
    assert s == s[..4] + [s[4]] + s[5..7] + [s[7]] + s[8..10] + [s[10]] + s[11..13] + [s[13]] + s[14..16] + [s[16]] + s[17..19] + [s[19]] + s[20..];
  }

  /** The pattern accepts exactly the renderings of well-formed stamps. */
  lemma TimeShapedIff(s: string)
    ensures TimeShaped(s) <==> exists st :: ValidStamp(st) && Render(st) == s
  {
    if TimeShaped(s) {
      ParseRender(s);
      assert ValidStamp(Parse(s)) && Render(Parse(s)) == s;
    }
    if st :| ValidStamp(st) && Render(st) == s {
      RenderParse(st);
    }
  }

  // ---------------------------------------------------------------------------
  // Running the rules on a request
  // ---------------------------------------------------------------------------

  /** An error as `validationResult` lists it: the field and the validator's message. */
  datatype ValidationError = ValidationError(param: string, msg: string)

  /** The message of every built-in validator that fails, since none of the chains sets one. */
  const InvalidValue := "Invalid value"
  const DatetimeNotMatch := "Datetime not match"
  /** What calling `.match` on an absent field throws, which becomes the error's message. */
  const MatchOnUndefined := "Cannot read properties of undefined (reading 'match')"

  /**
   * The library code the validators call: validator.js's `isEmail`, and the instant
   * `new Date(value).getTime()` gives (None for NaN).
   */
  datatype Library = Library(isEmail: string -> bool, timeOf: string -> Option<int>)

  /** The request's fields by name; a name that is absent is `undefined`. */
  type Request = map<string, string>

  function Lookup(req: Request, field: string): Option<string> {
    if field in req then Some(req[field]) else None
  }

  /** The built-in validators see an absent field as the empty string. */
  function AsText(v: Option<string>): string {
    v.GetOr("")
  }

  /** The variation selectors U+FE0E and U+FE0F, which validator.js's `isLength` does not count. */
  predicate IsVariationSelector(c: char) {
    c == '\U{FE0E}' || c == '\U{FE0F}'
  }

  /**
   * The length `isLength` measures: one per Unicode scalar value, except the variation
   * selectors, which it subtracts wherever they stand.
   */
  function VisibleLength(s: string): (n: nat)
    ensures n <= |s|
    ensures (forall i | 0 <= i < |s| :: !IsVariationSelector(s[i])) ==> n == |s|
  {
    if s == [] then 0
    else (if IsVariationSelector(s[0]) then 0 else 1) + VisibleLength(s[1..])
  }

  /** The length of two pieces put together is the sum of their lengths. */
  lemma {:induction false} VisibleLengthAppend(a: string, b: string)
    ensures VisibleLength(a + b) == VisibleLength(a) + VisibleLength(b)
  {
    if a != [] {
      assert (a + b)[1..] == a[1..] + b;
      VisibleLengthAppend(a[1..], b);
    } else {
      assert a + b == b;
    }
  }

  /** Eight scalar values of which the last is U+FE0F fall short of `isLength({ min: 8 })`. */
  lemma SelectorNotCounted(lib: Library)
    ensures var pw := "passwor" + ['\U{FE0F}'];
            |pw| == MinPassword && RunCheck(MinLength(MinPassword), Some(pw), lib) == Some(InvalidValue)
  {
    var pw := "passwor" + ['\U{FE0F}'];
    VisibleLengthAppend("passwor", ['\U{FE0F}']);
    assert ['\U{FE0F}'][1..] == [];
  }

  /**
   * The message one validator adds for the field's value, or None when it passes. The
   * custom reminder validator receives the value itself and fails on a time of instant 0
   * as well as on NaN, since both make `!date.getTime()` true.
   */
  function RunCheck(c: Check, v: Option<string>, lib: Library): (failure: Option<string>)
    ensures c.NotEmpty? ==> (failure.None? <==> AsText(v) != "")
    ensures c.MinLength? ==> (failure.None? <==> VisibleLength(AsText(v)) >= c.min)
    ensures c.IsEmail? ==> (failure.None? <==> lib.isEmail(AsText(v)))
    ensures c.ReminderTime? ==>
      (failure.None? <==> v.Some? && TimeShaped(v.value) && lib.timeOf(v.value).Some? && lib.timeOf(v.value).value != 0)
    ensures failure.Some? && !c.ReminderTime? ==> failure.value == InvalidValue
  {
    match c
    case NotEmpty => if AsText(v) != "" then None else Some(InvalidValue)
    case IsEmail => if lib.isEmail(AsText(v)) then None else Some(InvalidValue)
    case MinLength(min) => if VisibleLength(AsText(v)) >= min then None else Some(InvalidValue)
    case ReminderTime =>
      if v.None? then Some(MatchOnUndefined)
      else if !TimeShaped(v.value) then Some(DatetimeNotMatch)
      else if lib.timeOf(v.value).None? || lib.timeOf(v.value).value == 0 then Some(DatetimeNotMatch)
      else None
  }

  /** A chain runs every validator (none of them bails) and adds one error per failure, in chain order. */
  function RunChecks(field: string, checks: seq<Check>, v: Option<string>, lib: Library): (errors: seq<ValidationError>)
    ensures |errors| <= |checks|
  {
    if checks == [] then []
    else
      var rest := RunChecks(field, checks[1..], v, lib);
      match RunCheck(checks[0], v, lib)
      case None => rest
      case Some(msg) => [ValidationError(field, msg)] + rest
  }

  /** The errors of all chains, chain after chain, as `validationResult(req)` collects them. */
  function RunRules(rules: seq<Rule>, req: Request, lib: Library): (errors: seq<ValidationError>)
  {
    if rules == [] then []
    else RunChecks(rules[0].field, rules[0].checks, Lookup(req, rules[0].field), lib) + RunRules(rules[1..], req, lib)
  }

  /** Every error a chain adds names the chain's field. */
  lemma {:induction false} RunChecksParams(field: string, checks: seq<Check>, v: Option<string>, lib: Library)
    ensures forall e | e in RunChecks(field, checks, v, lib) :: e.param == field
  {
    if checks != [] {
      RunChecksParams(field, checks[1..], v, lib);
    }
  }

  /** Every error names the field of one of the rules: no error is reported for a field no rule checks. */
  lemma {:induction false} RunRulesParams(rules: seq<Rule>, req: Request, lib: Library)
    ensures forall e | e in RunRules(rules, req, lib) :: exists r | r in rules :: r.field == e.param
  {
    if rules != [] {
      RunChecksParams(rules[0].field, rules[0].checks, Lookup(req, rules[0].field), lib);
      RunRulesParams(rules[1..], req, lib);
      forall e | e in RunRules(rules, req, lib) ensures exists r | r in rules :: r.field == e.param {
        if e in RunRules(rules[1..], req, lib) {
          var r :| r in rules[1..] && r.field == e.param;
          assert r in rules;
        } else {
          assert rules[0] in rules;
        }
      }
    }
  }

  /** A chain adds no error exactly when each of its validators passes. */
  lemma {:induction false} RunChecksEmpty(field: string, checks: seq<Check>, v: Option<string>, lib: Library)
    ensures RunChecks(field, checks, v, lib) == [] <==> forall c | c in checks :: RunCheck(c, v, lib).None?
  {
    if checks != [] {
      RunChecksEmpty(field, checks[1..], v, lib);
      assert forall c | c in checks :: c == checks[0] || c in checks[1..];
    }
  }

  /** A request passes a rule list exactly when every validator of every chain passes on its field. */
  lemma {:induction false} RunRulesEmpty(rules: seq<Rule>, req: Request, lib: Library)
    ensures RunRules(rules, req, lib) == [] <==>
      forall r, c | r in rules && c in r.checks :: RunCheck(c, Lookup(req, r.field), lib).None?
  {
    if rules != [] {
      RunChecksEmpty(rules[0].field, rules[0].checks, Lookup(req, rules[0].field), lib);
      RunRulesEmpty(rules[1..], req, lib);
      assert forall r | r in rules :: r == rules[0] || r in rules[1..];
    }
  }

  /** Every request passes the empty rule list an unknown endpoint name gets. */
  lemma UnknownNamePasses(named: string, req: Request, lib: Library)
    requires named !in {"register", "login", "reqverify", "verify", "reset", "change", "reminder"}
    ensures RunRules(CreateValidationFor(named), req, lib) == []
  {
  }

  // ---------------------------------------------------------------------------
  // What each endpoint's rules accept
  // ---------------------------------------------------------------------------

  /** The field's text as the built-in validators see it. */
  function Field(req: Request, field: string): string {
    AsText(Lookup(req, field))
  }

  /** `register`: name and username non-empty, an email validator.js accepts, a password of at least 8 characters. */
  lemma RegisterRules(req: Request, lib: Library)
    ensures RunRules(CreateValidationFor("register"), req, lib) == [] <==>
      && Field(req, "name") != "" && Field(req, "username") != ""
      && lib.isEmail(Field(req, "email")) && Field(req, "email") != ""
      && VisibleLength(Field(req, "password")) >= MinPassword
  {
    var rules := CreateValidationFor("register");
    RunRulesEmpty(rules, req, lib);
    assert rules[0] in rules && rules[1] in rules && rules[2] in rules && rules[3] in rules;
    assert IsEmail in rules[2].checks && NotEmpty in rules[2].checks;
    assert MinLength(MinPassword) in rules[3].checks;
  }

  /** A register request with no fields at all draws one error per validator, in the table's order. */
  lemma RegisterEmptyRequest(lib: Library)
    requires !lib.isEmail("")
    ensures RunRules(CreateValidationFor("register"), map[], lib) ==
      [ ValidationError("name", InvalidValue), ValidationError("username", InvalidValue),
        ValidationError("email", InvalidValue), ValidationError("email", InvalidValue),
        ValidationError("password", InvalidValue), ValidationError("password", InvalidValue) ]
  {
    var rules := CreateValidationFor("register");
    var req: Request := map[];
    var password := ValidationError("password", InvalidValue);
    var fail := [password, password];
    assert RunChecks("password", [MinLength(MinPassword)], None, lib) == [ValidationError("password", InvalidValue)];
    assert RunChecks("password", [NotEmpty, MinLength(MinPassword)], None, lib) == fail;
    assert RunRules(rules[3..], req, lib) == fail;
    assert RunChecks("email", [NotEmpty], None, lib) == [ValidationError("email", InvalidValue)];
    assert RunChecks("email", [IsEmail, NotEmpty], None, lib) == [ValidationError("email", InvalidValue), ValidationError("email", InvalidValue)];
    assert RunRules(rules[2..], req, lib) == [ValidationError("email", InvalidValue), ValidationError("email", InvalidValue)] + fail;
    assert RunRules(rules[1..], req, lib) == [ValidationError("username", InvalidValue)] + RunRules(rules[2..], req, lib);
    assert RunRules(rules, req, lib) == [ValidationError("name", InvalidValue)] + RunRules(rules[1..], req, lib);
  }

  /** `login`: an email validator.js accepts and a password of at least 8 characters. */
  lemma LoginRules(req: Request, lib: Library)
    ensures RunRules(CreateValidationFor("login"), req, lib) == [] <==>
      lib.isEmail(Field(req, "email")) && Field(req, "email") != "" && VisibleLength(Field(req, "password")) >= MinPassword
  {
    var rules := CreateValidationFor("login");
    RunRulesEmpty(rules, req, lib);
    assert rules[0] in rules && rules[1] in rules;
    assert IsEmail in rules[0].checks && NotEmpty in rules[0].checks;
    assert MinLength(MinPassword) in rules[1].checks;
  }

  /** `reqverify` and `reset`: a non-empty email, nothing about its shape. */
  lemma EmailOnlyRules(named: string, req: Request, lib: Library)
    requires named == "reqverify" || named == "reset"
    ensures RunRules(CreateValidationFor(named), req, lib) == [] <==> Field(req, "email") != ""
  {
    var rules := CreateValidationFor(named);
    RunRulesEmpty(rules, req, lib);
    assert rules[0] in rules && NotEmpty in rules[0].checks;
  }

  /** `verify`: a non-empty email and a non-empty token. */
  lemma VerifyRules(req: Request, lib: Library)
    ensures RunRules(CreateValidationFor("verify"), req, lib) == [] <==>
      Field(req, "email") != "" && Field(req, "token") != ""
  {
    var rules := CreateValidationFor("verify");
    RunRulesEmpty(rules, req, lib);
    assert rules[0] in rules && rules[1] in rules;
  }

  /** `change`: a new password of at least 8 characters, and a non-empty confirmation, email and token. */
  lemma ChangeRules(req: Request, lib: Library)
    ensures RunRules(CreateValidationFor("change"), req, lib) == [] <==>
      && VisibleLength(Field(req, "newPass")) >= MinPassword && Field(req, "confirmPass") != ""
      && Field(req, "email") != "" && Field(req, "token") != ""
  {
    var rules := CreateValidationFor("change");
    RunRulesEmpty(rules, req, lib);
    assert rules[0] in rules && rules[1] in rules && rules[2] in rules && rules[3] in rules;
    assert MinLength(MinPassword) in rules[0].checks;
  }

  /** The confirmation is never compared with the new password: a request whose two differ passes. */
  lemma ChangeIgnoresConfirmation(req: Request, lib: Library)
    requires Field(req, "newPass") == "password1" && Field(req, "confirmPass") == "different"
    requires Field(req, "email") != "" && Field(req, "token") != ""
    ensures Field(req, "newPass") != Field(req, "confirmPass")
    ensures RunRules(CreateValidationFor("change"), req, lib) == []
  {
    var pw := Field(req, "newPass");
    assert forall i | 0 <= i < |pw| :: !IsVariationSelector(pw[i]);
    ChangeRules(req, lib);
  }

  /** `reminder`: a non-empty title and major, and a time of the pattern's shape whose instant is a non-zero number. */
  lemma ReminderRules(req: Request, lib: Library)
    ensures RunRules(CreateValidationFor("reminder"), req, lib) == [] <==>
      && Field(req, "title") != "" && Field(req, "major") != ""
      && "time" in req && TimeShaped(req["time"])
      && lib.timeOf(req["time"]).Some? && lib.timeOf(req["time"]).value != 0
  {
    var rules := CreateValidationFor("reminder");
    RunRulesEmpty(rules, req, lib);
    assert rules[0] in rules && rules[1] in rules && rules[2] in rules;
    assert NotEmpty in rules[1].checks && ReminderTime in rules[1].checks;
    assert "time" in req ==> Lookup(req, "time") == Some(req["time"]);
  }

  // ---------------------------------------------------------------------------
  // checkValidationResult
  // ---------------------------------------------------------------------------

  /** One error's part of the 422 message. */
  function Entry(e: ValidationError): (s: string)
    ensures |s| == |e.param| + |e.msg| + 5
    ensures s[0] == '(' && s[|s| - 2..] == "; "
  {
    "(" + e.param + ") " + e.msg + "; "
  }

  /** The message the loop accumulates: the entries of the errors, in list order. */
  function ErrorMessage(errors: seq<ValidationError>): (msg: string)
    ensures |msg| >= 5 * |errors|
  {
    if errors == [] then "" else ErrorMessage(errors[..|errors| - 1]) + Entry(errors[|errors| - 1])
  }

  /** The message of a concatenation is the concatenation of the messages. */
  lemma {:induction false} ErrorMessageAppend(a: seq<ValidationError>, b: seq<ValidationError>)
    ensures ErrorMessage(a + b) == ErrorMessage(a) + ErrorMessage(b)
    decreases |b|
  {
    if b != [] {
      var last := b[|b| - 1];
      assert (a + b)[..|a + b| - 1] == a + b[..|b| - 1];
      ErrorMessageAppend(a, b[..|b| - 1]);
    } else {
      assert a + b == a;
    }
  }

  /** The first error's entry opens the message, and the rest follow in order. */
  lemma ErrorMessageCons(e: ValidationError, rest: seq<ValidationError>)
    ensures ErrorMessage([e] + rest) == Entry(e) + ErrorMessage(rest)
  {
    ErrorMessageAppend([e], rest);
    assert ErrorMessage([e]) == ErrorMessage([]) + Entry(e);
  }

  /** The message is empty exactly when there are no errors. */
  lemma ErrorMessageEmpty(errors: seq<ValidationError>)
    ensures ErrorMessage(errors) == [] <==> errors == []
  {
  }

  /** What the middleware does with the request: pass it on, or answer with a status and a message. */
  datatype Outcome = Next | Respond(status: nat, message: string)

  /**
   * `checkValidationResult`: passes the request on exactly when there are no errors;
   * otherwise answers 422 with every error's entry, in list order.
   */
  method CheckValidationResult(errors: seq<ValidationError>) returns (o: Outcome)
    ensures o.Next? <==> errors == []
    ensures errors != [] ==> o == Respond(422, ErrorMessage(errors))
  {
    if errors == [] {
      return Next;
    }
    var msg := "";
    var i := 0;
    while i < |errors|
      invariant 0 <= i <= |errors|
      invariant msg == ErrorMessage(errors[..i])
    {
      var err := errors[i];
      msg := msg + "(" + err.param + ") " + err.msg + "; ";
      assert errors[..i + 1][..i] == errors[..i];
      i := i + 1;
    }
    assert errors[..i] == errors;
    o := Respond(422, msg);
  }
}
