/** The donation form's field configuration: the five per-field rules and the error map that
    `validate` folds them into. Everything here is a pure function of the form's values and
    the tax-exemption flag. */
module FieldRules {
  import opened Wrappers
  import opened Strings

  datatype Field = Name | Email | Phone | Amount | Pan

  /** The order in which the field configuration lists the fields. */
  const FieldOrder: seq<Field> := [Name, Email, Phone, Amount, Pan]

  /** `formData`: one string per field. */
  datatype Form = Form(name: string, email: string, phone: string, amount: string, pan: string) {

    function Get(f: Field): string {
      match f
      case Name => name
      case Email => email
      case Phone => phone
      case Amount => amount
      case Pan => pan
    }

    /** `{ ...formData, [f]: v }` */
    function With(f: Field, v: string): (r: Form)
      ensures r.Get(f) == v
      ensures forall g :: g != f ==> r.Get(g) == Get(g)
    {
      match f
      case Name => this.(name := v)
      case Email => this.(email := v)
      case Phone => this.(phone := v)
      case Amount => this.(amount := v)
      case Pan => this.(pan := v)
    }
  }

  /** The form as the component first renders it. */
  const InitialForm := Form("", "", "", "100", "")

  const NameRequired := "Name is required"
  const EmailRequired := "Email is required"
  const EmailInvalid := "Email is invalid"
  const PhoneRequired := "Mobile number is required"
  const PhoneInvalid := "Mobile number must be 10 digits"
  const AmountRequired := "Amount is required"
  const AmountNotPositive := "Amount must be a positive number"
  const PanRequired := "PAN Number is required for tax exemption"

  /** Name: an error when nothing but whitespace was entered. */
  function NameRule(value: string): Option<string> {
    if Trim(value) == [] then Some(NameRequired) else None
  }

  /** `s[i..j]` is a match of `\S+@\S+\.\S+` with the '@' at `p` and the '.' at `q`. */
  predicate EmailMatchAt(s: string, i: nat, p: nat, q: nat, j: nat) {
    && i < p && p + 1 < q && q + 1 < j <= |s|
    && NoSpace(s[i..p]) && s[p] == '@' && NoSpace(s[p + 1..q]) && s[q] == '.' && NoSpace(s[q + 1..j])
  }

  /** `/\S+@\S+\.\S+/.test(s)`: the pattern is not anchored, so it suffices that some
      substring of `s` matches it. */
  predicate EmailPatternMatches(s: string) {
    exists i: nat, p: nat, q: nat, j: nat | i < |s| && p < |s| && q < |s| && j <= |s| :: EmailMatchAt(s, i, p, q, j)
  }

  function EmailRule(value: string): Option<string> {
    if value == "" then Some(EmailRequired)
    else if !EmailPatternMatches(value) then Some(EmailInvalid)
    else None
  }

  /** `/^\d{10}$/.test(s)` */
  predicate IsTenDigits(s: string) {
    |s| == 10 && AllDigits(s)
  }

  function PhoneRule(value: string): Option<string> {
    if value == "" then Some(PhoneRequired)
    else if !IsTenDigits(value) then Some(PhoneInvalid)
    else None
  }

  /** A plain unsigned decimal numeral: digits with at most one '.', at least one digit
      ("12", "12.", "12.5", ".5"). */
  predicate UnsignedDecimal(u: string) {
    || (|u| > 0 && AllDigits(u))
    || (|u| >= 2 && exists p | 0 <= p < |u| :: u[p] == '.' && AllDigits(u[..p]) && AllDigits(u[p + 1..]))
  }

  predicate HasNonZeroDigit(s: string) {
    exists i | 0 <= i < |s| :: '1' <= s[i] <= '9'
  }

  /** `!(isNaN(value) || value <= 0)` for strings that `Number` reads as plain decimal
      numerals: after trimming whitespace, an optional sign and an unsigned numeral; the
      number is positive when the sign is not '-' and some digit is non-zero. Every other
      string is read as NaN. */
  predicate IsPositiveNumber(value: string) {
    var t := Trim(value);
    if t != [] && (t[0] == '+' || t[0] == '-') then
      t[0] == '+' && UnsignedDecimal(t[1..]) && HasNonZeroDigit(t[1..])
    else
      UnsignedDecimal(t) && HasNonZeroDigit(t)
  }

  /** Amount: required when empty; otherwise it must be a positive number. */
  function AmountRule(value: string): (r: Option<string>)
    ensures r == Some(AmountRequired) <==> value == ""
    ensures r == None <==> IsPositiveNumber(value)
  {
    if value == "" then Some(AmountRequired)
    else if !IsPositiveNumber(value) then Some(AmountNotPositive)
    else None
  }

  /** PAN: required only while the tax exemption is requested; its format is not checked. */
  function PanRule(value: string, taxExemption: bool): Option<string> {
    if taxExemption && value == "" then Some(PanRequired) else None
  }

  /** `field.validation(formData[field.name])` for the configuration entry of `f`. */
  function FieldError(f: Field, form: Form, taxExemption: bool): Option<string> {
    match f
    case Name => NameRule(form.name)
    case Email => EmailRule(form.email)
    case Phone => PhoneRule(form.phone)
    case Amount => AmountRule(form.amount)
    case Pan => PanRule(form.pan, taxExemption)
  }

  /** JavaScript truthiness of a rule's result (`if (error)`). */
  predicate Reports(r: Option<string>) {
    r.Some? && r.value != ""
  }

  /** The validation closures of the field configuration, bound to the current form and
      flag: field `f`'s rule applied to `formData[f]`. */
  function RulesFor(form: Form, taxExemption: bool): (rules: Field -> Option<string>)
    ensures forall f :: rules(f) == FieldError(f, form, taxExemption)
  {
    f => FieldError(f, form, taxExemption)
  }

  /** The errors found among `fields`: each field whose rule reports, mapped to the
      rule's message. */
  function KeepReported(fields: seq<Field>, rules: Field -> Option<string>): (errors: map<Field, string>)
    ensures forall f :: f in errors <==> f in fields && Reports(rules(f))
  {
    map f | f in fields && Reports(rules(f)) :: rules(f).value
  }

  /** Visiting one more field extends the errors found by that field exactly when its rule
      reports, which is what each step of `validate`'s `forEach` does. */
  lemma KeepReportedSnoc(fields: seq<Field>, f: Field, rules: Field -> Option<string>)
    ensures KeepReported(fields + [f], rules) ==
      if Reports(rules(f)) then KeepReported(fields, rules)[f := rules(f).value]
      else KeepReported(fields, rules)
  {
    var before, after := KeepReported(fields, rules), KeepReported(fields + [f], rules);
    var expected := if Reports(rules(f)) then before[f := rules(f).value] else before;
    forall g
      ensures g in after <==> g in expected
      ensures g in after ==> after[g] == expected[g]
    {
      assert g in fields + [f] <==> g in fields || g == f;
    }
    assert after == expected;
  }

  /** The result of `validate` for the current form and flag. */
  function ValidationErrors(form: Form, taxExemption: bool): map<Field, string> {
    KeepReported(FieldOrder, RulesFor(form, taxExemption))
  }

  /** Every rule's message is a non-empty string, so a rule reports exactly when it returns
      a message. */
  lemma RuleReportsIffMessage(f: Field, form: Form, taxExemption: bool)
    ensures Reports(FieldError(f, form, taxExemption)) <==> FieldError(f, form, taxExemption).Some?
  {
  }

  /** `validate` maps exactly the fields whose rule yields a message, each to that message;
      it is empty exactly when every rule passes. */
  lemma ValidationErrorsExact(form: Form, taxExemption: bool)
    ensures forall f :: f in ValidationErrors(form, taxExemption) <==> FieldError(f, form, taxExemption).Some?
    ensures forall f :: f in ValidationErrors(form, taxExemption) ==>
      ValidationErrors(form, taxExemption)[f] == FieldError(f, form, taxExemption).value
    ensures ValidationErrors(form, taxExemption) == map[] <==>
      forall f :: FieldError(f, form, taxExemption) == None
  {
    var v := ValidationErrors(form, taxExemption);
    forall f
      ensures f in v <==> FieldError(f, form, taxExemption).Some?
    {
      assert f in FieldOrder by {
        match f
        case Name => assert FieldOrder[0] == f;
        case Email => assert FieldOrder[1] == f;
        case Phone => assert FieldOrder[2] == f;
        case Amount => assert FieldOrder[3] == f;
        case Pan => assert FieldOrder[4] == f;
      }
      RuleReportsIffMessage(f, form, taxExemption);
    }
    if v == map[] {
      forall f
        ensures FieldError(f, form, taxExemption) == None
      {
        assert f !in v;
      }
    }
  }

  /** The name rule fails exactly when the value is empty or whitespace only. */
  lemma NameRuleIff(value: string)
    ensures NameRule(value) == Some(NameRequired) <==> AllSpace(value)
    ensures NameRule(value) == None <==> !AllSpace(value)
  {
    TrimEmptyIff(value);
  }

  /** The shortest possible match: one non-space character, '@', non-space characters up
      to a '.', and one non-space character. */
  predicate ShortEmailMatchAt(s: string, p: nat, q: nat) {
    && 0 < p && p + 1 < q && q + 1 < |s|
    && s[p] == '@' && s[q] == '.' && !IsSpace(s[p - 1]) && !IsSpace(s[q + 1]) && NoSpace(s[p + 1..q])
  }

  /** The unanchored email pattern matches exactly when some '@' has a non-space character
      right before it and is followed, across non-space characters, by a '.' that has a
      non-space character right after it. */
  lemma EmailPatternIff(s: string)
    ensures EmailPatternMatches(s) <==> exists p: nat, q: nat | p < |s| && q < |s| :: ShortEmailMatchAt(s, p, q)
  {
    if EmailPatternMatches(s) {
      var i: nat, p: nat, q: nat, j: nat :| i < |s| && p < |s| && q < |s| && j <= |s| && EmailMatchAt(s, i, p, q, j);
      assert s[p - 1] == s[i..p][p - 1 - i];
      assert s[q + 1] == s[q + 1..j][0];
      assert ShortEmailMatchAt(s, p, q);
    }
    if p: nat, q: nat :| p < |s| && q < |s| && ShortEmailMatchAt(s, p, q) {
      assert EmailMatchAt(s, p - 1, p, q, q + 2);
    }
  }

  /** The phone rule: "" is missing; anything else passes exactly when it is ten ASCII
      digits. */
  lemma PhoneRuleIff(value: string)
    ensures PhoneRule(value) == Some(PhoneRequired) <==> value == ""
    ensures PhoneRule(value) == None <==> |value| == 10 && forall i :: 0 <= i < 10 ==> '0' <= value[i] <= '9'
  {
  }

  /** On decimal digit strings the amount rule passes exactly when some digit is non-zero:
      "0", "000" fail, "100", "0500" pass. */
  lemma AmountOnDigitStrings(value: string)
    requires value != "" && AllDigits(value)
    ensures AmountRule(value) == None <==> HasNonZeroDigit(value)
  {
    DigitsHaveNoSpace(value);
    TrimNoSpace(value);
  }

  /** The decimal text of every positive integer passes the amount rule. */
  lemma PositiveIntegerAmountPasses(n: nat)
    requires n > 0
    ensures AmountRule(NatToDecimal(n)) == None
  {
    var s := NatToDecimal(n);
    assert '1' <= s[0] <= '9';
    AmountOnDigitStrings(s);
  }

  /** A leading minus sign always fails the amount rule, whatever follows it. */
  lemma NegativeAmountFails(value: string)
    requires value != "" && value[0] == '-'
    ensures AmountRule(value) == Some(AmountNotPositive)
  {
    assert !IsSpace(value[0]);
    var t := TrimStart(value);
    assert t == value;
    var u := TrimEnd(t);
    if u != [] {
      assert u[0] == value[0];
    }
  }

  /** PAN is in error exactly when the exemption is requested and no PAN was entered. */
  lemma PanRuleIff(value: string, taxExemption: bool)
    ensures PanRule(value, taxExemption).Some? <==> taxExemption && value == ""
  {
  }

  /** Turning the exemption on adds at most the PAN error; turning it off removes that
      requirement while the stored PAN stays as it was. */
  lemma TaxExemptionOnlyAffectsPan(form: Form)
    ensures Pan !in ValidationErrors(form, false)
    ensures Pan in ValidationErrors(form, true) <==> form.pan == ""
    ensures ValidationErrors(form, true) - {Pan} == ValidationErrors(form, false)
  {
    var on, off := RulesFor(form, true), RulesFor(form, false);
    assert FieldOrder[4] == Pan;
    forall f | f != Pan
      ensures on(f) == off(f)
    {
      TaxExemptionIgnored(f, form);
    }
    KeepReportedWithout(FieldOrder, on, off, Pan);
  }

  /** Two rule sets that agree except on `x`, where the second never reports, find the
      same errors apart from `x`. */
  lemma KeepReportedWithout(fields: seq<Field>, on: Field -> Option<string>, off: Field -> Option<string>, x: Field)
    requires forall f :: f != x ==> on(f) == off(f)
    requires !Reports(off(x))
    ensures KeepReported(fields, on) - {x} == KeepReported(fields, off)
  {
    var a, b := KeepReported(fields, on) - {x}, KeepReported(fields, off);
    forall f
      ensures f in a <==> f in b
      ensures f in b ==> a[f] == b[f]
    {
    }
    assert a == b;
  }

  /** Only the PAN rule reads the tax-exemption flag. */
  lemma TaxExemptionIgnored(f: Field, form: Form)
    requires f != Pan
    ensures FieldError(f, form, true) == FieldError(f, form, false)
  {
  }

  /** "" is missing, "a@b.c" is a valid address, "abc" and "a @b.c" are not. */
  lemma EmailRuleExamples()
    ensures EmailRule("") == Some(EmailRequired)
    ensures EmailRule("a@b.c") == None
    ensures EmailRule("abc") == Some(EmailInvalid)
    ensures EmailRule("a @b.c") == Some(EmailInvalid)
  {
    assert EmailMatchAt("a@b.c", 0, 1, 3, 5);
    var s := "a @b.c";
    forall p: nat, q: nat | p < |s| && q < |s|
      ensures !ShortEmailMatchAt(s, p, q)
    {
    }
    EmailPatternIff(s);
  }

  /** "1234567890" passes; "", "12345", "12345678901" and "abcdefghij" fail. */
  lemma PhoneRuleExamples()
    ensures PhoneRule("1234567890") == None
    ensures PhoneRule("") == Some(PhoneRequired)
    ensures PhoneRule("12345") == Some(PhoneInvalid)
    ensures PhoneRule("12345678901") == Some(PhoneInvalid)
    ensures PhoneRule("abcdefghij") == Some(PhoneInvalid)
  {
    assert !IsDigit("abcdefghij"[0]);
  }

  /** The rules on the form as first rendered (name, email and phone empty, the default
      amount "100", whatever PAN), without the exemption: name, email and phone are
      missing, the default amount passes and the PAN is not needed. */
  lemma InitialFormRules(form: Form)
    requires form.name == "" && form.email == "" && form.phone == "" && form.amount == "100"
    ensures FieldError(Name, form, false) == Some(NameRequired)
    ensures FieldError(Email, form, false) == Some(EmailRequired)
    ensures FieldError(Phone, form, false) == Some(PhoneRequired)
    ensures FieldError(Amount, form, false) == None
    ensures FieldError(Pan, form, false) == None
  {
    assert AllDigits(form.amount) && HasNonZeroDigit(form.amount) by {
      assert form.amount[0] == '1';
    }
    AmountOnDigitStrings(form.amount);
  }

  /** Submitting the form as first rendered reports exactly the name, email and phone as
      missing. */
  lemma InitialFormErrors(form: Form)
    requires form.name == "" && form.email == "" && form.phone == "" && form.amount == "100"
    ensures ValidationErrors(form, false) ==
      map[Name := NameRequired, Email := EmailRequired, Phone := PhoneRequired]
  {
    InitialFormRules(form);
    var rules := RulesFor(form, false);
    assert rules(Name) == Some(NameRequired) && rules(Email) == Some(EmailRequired);
    assert rules(Phone) == Some(PhoneRequired) && rules(Amount) == None && rules(Pan) == None;
    ErrorsWhenContactMissing(rules);
  }

  /** When exactly the name, email and phone rules fail, each with its "required" message,
      the error map holds those three messages and nothing else. */
  lemma ErrorsWhenContactMissing(rules: Field -> Option<string>)
    requires rules(Name) == Some(NameRequired) && rules(Email) == Some(EmailRequired)
    requires rules(Phone) == Some(PhoneRequired) && rules(Amount) == None && rules(Pan) == None
    ensures KeepReported(FieldOrder, rules) ==
      map[Name := NameRequired, Email := EmailRequired, Phone := PhoneRequired]
  {
    var v := KeepReported(FieldOrder, rules);
    var expected := map[Name := NameRequired, Email := EmailRequired, Phone := PhoneRequired];
    forall f
      ensures f in v <==> f in expected
      ensures f in v ==> v[f] == expected[f]
    {
      assert f in FieldOrder by {
        match f
        case Name => assert FieldOrder[0] == f;
        case Email => assert FieldOrder[1] == f;
        case Phone => assert FieldOrder[2] == f;
        case Amount => assert FieldOrder[3] == f;
        case Pan => assert FieldOrder[4] == f;
      }
    }
    assert v == expected;
  }
}
