/** The donation form component: its state (`formData`, `errors`, `taxExemption`,
    `errorMessage`, `serverStatus`, `serverVersion`, `loading`) and the handlers that update
    it. The two HTTP requests are not performed here: what the backend answered is a
    parameter of the handler that receives it, the order request that was sent is recorded
    in `posted`, and the browser navigation is recorded in `redirect`. */
module DonationForm {
  import opened Wrappers
  import opened Strings
  import opened FieldRules

  datatype ServerStatus = Checking | Alive | Error

  /** What `GET {BACKEND_URL}/` produced. */
  datatype ProbeReply =
    | ProbeResponse(alive: bool, commitVersion: Option<string>)  // a response body; `alive` is its truthiness
    | ProbeFault                                                   // the request threw

  /** What `POST {BACKEND_URL}/order` produced, as far as the submit handler reads it. */
  datatype OrderReply =
    | Approved(url: string)     // `success` truthy and `data.instrumentResponse.redirectInfo.url` present
    | ApprovedMalformed         // `success` truthy but that path is missing, so reading it throws
    | Declined(message: string) // `success` falsy; "" stands for a missing or empty `message`
    | TransportFault            // the request threw (network error, non-2xx status)

  /** An order request as sent: the whole `formData` and the flag at that moment. */
  datatype Submission = Submission(payload: Form, taxExemption: bool)

  /** The quick-select buttons. */
  const PredefinedAmounts: seq<nat> := [100, 500, 1000, 5000, 10000]

  const DeclinedFallback := "Failed to process payment."
  const SubmitFailed := "An error occurred while processing the payment."

  /** `s.slice(-n)` for n > 0: the last `min(n, |s|)` characters. */
  function SliceLast(s: string, n: nat): (r: string)
    requires n > 0
    ensures |r| == if |s| < n then |s| else n
    ensures s == s[..|s| - |r|] + r
  {
    if |s| < n then s else s[|s| - n..]
  }

  /** A submission reaches the backend only when the rules in force accept the form. */
  ghost predicate Accepted(sub: Submission) {
    ValidationErrors(sub.payload, sub.taxExemption) == map[]
  }

  /** The `forEach` of `validate`: visits `fields` in order and records each field whose
      rule result is truthy, with that result. */
  method CollectReported(fields: seq<Field>, rules: Field -> Option<string>)
    returns (errors: map<Field, string>)
    ensures errors == KeepReported(fields, rules)
  {
    errors := map[];
    for i := 0 to |fields|
      invariant errors == KeepReported(fields[..i], rules)
    {
      var field := fields[i];
      var error := rules(field);
      assert fields[..i + 1] == fields[..i] + [field];
      KeepReportedSnoc(fields[..i], field, rules);
      if Reports(error) {
        errors := errors[field := error.value];
      }
    }
    assert fields[..|fields|] == fields;
  }

  class PaymentForm {
    var formData: Form
    var errors: map<Field, string>
    var taxExemption: bool
    var errorMessage: string
    var serverStatus: ServerStatus
    var serverVersion: Option<string>  // None is `undefined`
    var loading: bool
    /** The submit handler is suspended at its `await`, waiting for the order reply. */
    var awaitingReply: bool
    /** The order requests sent so far, oldest first. */
    var posted: seq<Submission>
    /** Where `window.location.href` was sent, if anywhere. */
    var redirect: Option<string>

    /** The loading screen shows exactly while an order reply is awaited or the browser is
        leaving for the payment page; a reply is never awaited after the redirect; every
        order sent passed validation, and while its reply is awaited the form still holds
        what was sent. */
    ghost predicate Valid()
      reads this
    {
      && loading == (awaitingReply || redirect.Some?)
      && !(awaitingReply && redirect.Some?)
      && (forall i :: 0 <= i < |posted| ==> Accepted(posted[i]))
      && (awaitingReply ==> |posted| > 0 && posted[|posted| - 1] == Submission(formData, taxExemption))
    }

    /** The state of a freshly mounted form. */
    constructor ()
      ensures Valid()
      ensures formData == InitialForm && errors == map[] && !taxExemption && errorMessage == ""
      ensures serverStatus == Checking && serverVersion == Some("") && !loading
      ensures !awaitingReply && posted == [] && redirect == None
    {
      formData := InitialForm;
      errors := map[];
      taxExemption := false;
      errorMessage := "";
      serverStatus := Checking;
      serverVersion := Some("");
      loading := false;
      awaitingReply := false;
      posted := [];
      redirect := None;
    }

    /** `handleChange`: stores the typed value verbatim. Existing per-field errors are NOT
        cleared. Only rendered while the form is shown, i.e. not loading. */
    method HandleChange(field: Field, value: string)
      requires Valid() && !loading
      modifies this`formData
      ensures Valid()
      ensures formData == old(formData).With(field, value)
      ensures formData.Get(field) == value
      ensures forall g :: g != field ==> formData.Get(g) == old(formData).Get(g)
    {
      formData := formData.With(field, value);
    }

    /** A quick-select button: the amount becomes the preset's decimal text, which always
        passes the amount rule. */
    method SelectAmount(amt: nat)
      requires Valid() && !loading
      requires amt in PredefinedAmounts
      modifies this`formData
      ensures Valid()
      ensures formData == old(formData).(amount := NatToDecimal(amt))
      ensures AmountRule(formData.amount) == None
    {
      formData := formData.(amount := NatToDecimal(amt));
      PositiveIntegerAmountPasses(amt);
    }

    /** The "Yes"/"No" toggle: only the flag changes; a PAN already entered is kept. */
    method SetTaxExemption(flag: bool)
      requires Valid() && !loading
      modifies this`taxExemption
      ensures Valid()
      ensures taxExemption == flag
    {
      taxExemption := flag;
    }

    /** `validate`: runs the rules of the field configuration, bound to the current form and
        flag, in field order. */
    method Validate() returns (newErrors: map<Field, string>)
      ensures newErrors == ValidationErrors(formData, taxExemption)
    {
      newErrors := CollectReported(FieldOrder, RulesFor(formData, taxExemption));
    }

    /** `handleFormSubmit` up to its `await`: with errors, store them and stop; otherwise
        (leaving `errors` as they were) show the loading screen and send the whole
        `formData`, a hidden PAN included. */
    method Submit()
      requires Valid() && !loading
      modifies this`errors, this`loading, this`awaitingReply, this`posted
      ensures Valid()
      ensures var found := ValidationErrors(formData, taxExemption);
        if found != map[] then
          errors == found && !loading && !awaitingReply && posted == old(posted)
        else
          errors == old(errors) && loading && awaitingReply
          && posted == old(posted) + [Submission(formData, taxExemption)]
    {
      var validationErrors := Validate();
      if validationErrors != map[] {
        errors := validationErrors;
        return;
      }
      loading := true;
      posted := posted + [Submission(formData, taxExemption)];
      awaitingReply := true;
    }

    /** `handleFormSubmit` after its `await`: follow the redirect on success; otherwise show
        a message and leave the loading screen. */
    method ReceiveOrderReply(reply: OrderReply)
      requires Valid() && awaitingReply
      modifies this`errorMessage, this`loading, this`awaitingReply, this`redirect
      ensures Valid() && !awaitingReply
      ensures reply.Approved? ==> redirect == Some(reply.url) && loading && errorMessage == old(errorMessage)
      ensures reply.Declined? ==>
        && redirect == None && !loading
        && errorMessage == (if reply.message == "" then DeclinedFallback else reply.message)
      ensures (reply.ApprovedMalformed? || reply.TransportFault?) ==>
        redirect == None && !loading && errorMessage == SubmitFailed
    {
      awaitingReply := false;
      match reply
      case Approved(url) =>
        redirect := Some(url);
      case Declined(message) =>
        errorMessage := if message != "" then message else DeclinedFallback;
        loading := false;
      case ApprovedMalformed =>
        errorMessage := SubmitFailed;
        loading := false;
      case TransportFault =>
        errorMessage := SubmitFailed;
        loading := false;
    }

    /** `wakeUpBackend` once its request settles: a truthy `alive` marks the server alive
        and keeps the last three characters of `commitVersion`; a falsy one changes
        nothing; a thrown request marks it as failed. */
    method ReceiveProbeReply(reply: ProbeReply)
      requires Valid()
      modifies this`serverStatus, this`serverVersion
      ensures Valid()
      ensures reply.ProbeFault? ==> serverStatus == Error && serverVersion == old(serverVersion)
      ensures reply.ProbeResponse? && reply.alive ==>
        && serverStatus == Alive
        && serverVersion == (if reply.commitVersion.Some? then Some(SliceLast(reply.commitVersion.value, 3)) else None)
      ensures reply.ProbeResponse? && !reply.alive ==>
        serverStatus == old(serverStatus) && serverVersion == old(serverVersion)
    {
      match reply
      case ProbeFault =>
        serverStatus := Error;
      case ProbeResponse(alive, commitVersion) =>
        if alive {
          serverStatus := Alive;
          serverVersion := if commitVersion.Some? then Some(SliceLast(commitVersion.value, 3)) else None;
        }
    }
  }

  /** One visit to a fresh form: the visitor types a name, an email and a phone number,
      submits, and the backend answers with `reply`. The order goes out exactly when those
      values pass validation, and the form is usable again unless the order was approved.
      That no sequence of handler calls ever posts a rejected form is the `Accepted` part
      of `Valid()`, which every handler keeps. */
  method SubmitScenario(name: string, email: string, phone: string, reply: OrderReply)
    returns (sent: bool, usable: bool)
    ensures sent <==> ValidationErrors(InitialForm.(name := name, email := email, phone := phone), false) == map[]
    ensures usable <==> !(sent && reply.Approved?)
  {
    var form := new PaymentForm();
    form.HandleChange(Name, name);
    form.HandleChange(Email, email);
    form.HandleChange(Phone, phone);
    assert form.formData == InitialForm.(name := name, email := email, phone := phone);
    form.Submit();
    sent := form.awaitingReply;
    if sent {
      form.ReceiveOrderReply(reply);
    }
    usable := !form.loading;
  }
}
