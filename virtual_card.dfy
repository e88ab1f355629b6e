/** The virtual card request form: input filters, the ordered validation,
    the request payload and the submit sequence. */
module VirtualCard {
  import opened Common
  import opened Strings
  import Email

  /** `onlyDigits` keeps exactly the digit characters, in order: it is the
      filter of the text by `IsDigit`. */
  lemma {:induction false} OnlyDigitsIsFilter(s: string)
    ensures OnlyDigits(s) == Filter(s, IsDigit)
  {
    if s != [] {
      OnlyDigitsIsFilter(s[1..]);
    }
  }

  predicate IsValidEgn(egn: string) {
    |OnlyDigits(egn)| == 10
  }

  predicate IsValidPostCode(pc: string) {
    |OnlyDigits(pc)| == 4
  }

  predicate IsValidPhone(ph: string) {
    |OnlyDigits(ph)| >= 8
  }

  /** `isValidEmail`: the e-mail pattern on the trimmed text. */
  predicate IsValidEmail(email: string) {
    Email.Test(Trim(email))
  }

  /** Trimming first makes no difference to the pattern: the form accepts
      the same addresses as the sign-in screens. */
  lemma IsValidEmailIff(email: string)
    ensures IsValidEmail(email) <==> Email.Matches(email)
  {
    Email.TestTrimmed(email);
    Email.TestIff(email);
  }

  /** `onlyDigits(t).slice(0, n)`: what a digits-only field keeps of typed
      text `t`. */
  function DigitsField(t: string, n: nat): (r: string)
    ensures AllDigits(r) && |r| <= n
    ensures |r| == if |OnlyDigits(t)| < n then |OnlyDigits(t)| else n
    ensures r == OnlyDigits(t)[..|r|]
  {
    var d := OnlyDigits(t);
    if |d| <= n then d else d[..n]
  }

  /** The EGN field keeps at most 10 digits, the post-code field at most 4;
      the field is valid exactly when the typed text held enough digits, and
      re-filtering the kept text changes nothing. */
  lemma DigitsFieldSpec(t: string)
    ensures IsValidEgn(DigitsField(t, 10)) <==> |OnlyDigits(t)| >= 10
    ensures IsValidPostCode(DigitsField(t, 4)) <==> |OnlyDigits(t)| >= 4
    ensures DigitsField(DigitsField(t, 10), 10) == DigitsField(t, 10)
    ensures DigitsField(DigitsField(t, 4), 4) == DigitsField(t, 4)
  {
    OnlyDigitsOfDigits(DigitsField(t, 10));
    OnlyDigitsOfDigits(DigitsField(t, 4));
  }

  datatype Form = Form(
    firstName: string, middleName: string, lastName: string,
    egn: string, postCode: string, phone: string, email: string,
    wantsGames: bool,
    city: string, streetOrDistrict: string, streetNo: string,
    block: string, entrance: string, apartment: string,
    agree: bool)

  const EmptyForm: Form := Form([], [], [], [], [], [], [], false, [], [], [], [], [], [], false)

  const MsgFirstName: string := "Моля, въведи име."
  const MsgMiddleName: string := "Моля, въведи презиме."
  const MsgLastName: string := "Моля, въведи фамилия."
  const MsgEgn: string := "Моля, въведи валидно ЕГН (10 цифри)."
  const MsgPostCode: string := "Моля, въведи валиден пощенски код (4 цифри)."
  const MsgPhone: string := "Моля, въведи валиден телефон."
  const MsgEmail: string := "Моля, въведи валиден email."
  const MsgConsent: string := "Трябва да потвърдиш съгласието за обработка на данни."

  /** `validate`: the message of the first failing check, or none. */
  function Validate(f: Form): Option<string> {
    if |Trim(f.firstName)| < 2 then Some(MsgFirstName)
    else if |Trim(f.middleName)| < 2 then Some(MsgMiddleName)
    else if |Trim(f.lastName)| < 2 then Some(MsgLastName)
    else if !IsValidEgn(f.egn) then Some(MsgEgn)
    else if !IsValidPostCode(f.postCode) then Some(MsgPostCode)
    else if !IsValidPhone(f.phone) then Some(MsgPhone)
    else if !IsValidEmail(f.email) then Some(MsgEmail)
    else if !f.agree then Some(MsgConsent)
    else None
  }

  /** One check of the form, with the message it reports. */
  datatype Check = Check(passes: bool, message: string)

  /** The checks in the order the form states them. */
  function Checks(f: Form): seq<Check> {
    [Check(|Trim(f.firstName)| >= 2, MsgFirstName),
     Check(|Trim(f.middleName)| >= 2, MsgMiddleName),
     Check(|Trim(f.lastName)| >= 2, MsgLastName),
     Check(IsValidEgn(f.egn), MsgEgn),
     Check(IsValidPostCode(f.postCode), MsgPostCode),
     Check(IsValidPhone(f.phone), MsgPhone),
     Check(IsValidEmail(f.email), MsgEmail),
     Check(f.agree, MsgConsent)]
  }

  /** `cs[k]` is the first check of `cs` that fails, and it reports `m`. */
  ghost predicate FailsFirstAt(cs: seq<Check>, k: int, m: string) {
    0 <= k < |cs| && !cs[k].passes && cs[k].message == m &&
    forall j :: 0 <= j < k ==> cs[j].passes
  }

  lemma ShiftFailure(cs: seq<Check>, m: string)
    requires cs != [] && cs[0].passes
    requires exists k :: FailsFirstAt(cs[1..], k, m)
    ensures exists k :: FailsFirstAt(cs, k, m)
  {
    var k :| FailsFirstAt(cs[1..], k, m);
    assert FailsFirstAt(cs, k + 1, m);
  }

  /** The message of the first failing check of a list. */
  function FirstFailure(cs: seq<Check>): (r: Option<string>)
    ensures r == None <==> forall k :: 0 <= k < |cs| ==> cs[k].passes
    ensures r.Some? ==> exists k :: FailsFirstAt(cs, k, r.value)
  {
    if cs == [] then None
    else if !cs[0].passes then
      assert FailsFirstAt(cs, 0, cs[0].message);
      Some(cs[0].message)
    else
      var r := FirstFailure(cs[1..]);
      if r.Some? then ShiftFailure(cs, r.value); r else r
  }

  /** `validate` reports the message of the first failing check, in the
      order names, EGN, post code, phone, email, consent; it reports nothing
      exactly when every check passes. */
  lemma ValidateIsFirstFailure(f: Form)
    ensures Validate(f) == FirstFailure(Checks(f))
    ensures Validate(f) == None <==>
      |Trim(f.firstName)| >= 2 && |Trim(f.middleName)| >= 2 && |Trim(f.lastName)| >= 2 &&
      |OnlyDigits(f.egn)| == 10 && |OnlyDigits(f.postCode)| == 4 && |OnlyDigits(f.phone)| >= 8 &&
      Email.Matches(f.email) && f.agree
  {
    var c0 := Checks(f);
    var c1 := c0[1..];
    var c2 := c1[1..];
    var c3 := c2[1..];
    var c4 := c3[1..];
    var c5 := c4[1..];
    var c6 := c5[1..];
    var c7 := c6[1..];
    assert FirstFailure(c7) == if !c7[0].passes then Some(c7[0].message) else FirstFailure(c7[1..]);
    assert FirstFailure(c6) == if !c6[0].passes then Some(c6[0].message) else FirstFailure(c7);
    assert FirstFailure(c5) == if !c5[0].passes then Some(c5[0].message) else FirstFailure(c6);
    assert FirstFailure(c4) == if !c4[0].passes then Some(c4[0].message) else FirstFailure(c5);
    assert FirstFailure(c3) == if !c3[0].passes then Some(c3[0].message) else FirstFailure(c4);
    assert FirstFailure(c2) == if !c2[0].passes then Some(c2[0].message) else FirstFailure(c3);
    assert FirstFailure(c1) == if !c1[0].passes then Some(c1[0].message) else FirstFailure(c2);
    IsValidEmailIff(f.email);
  }

  /** The request body of `createVirtual`. */
  datatype Payload = Payload(
    firstName: string, middleName: string, lastName: string,
    egn: string, postCode: string, phone: string, email: string,
    wantsGames: bool,
    city: string, streetOrDistrict: string, streetNo: string,
    block: string, entrance: string, apartment: string,
    consent: bool)

  /** No leading or trailing white space. */
  predicate Trimmed(s: string) {
    Trim(s) == s
  }

  /** The payload: every text field trimmed, EGN and post code reduced to
      their digits, consent set. For a form that validates, the EGN has 10
      digits, the post code 4, the phone at least 8 and the email matches
      the pattern. */
  function BuildPayload(f: Form): (p: Payload)
    ensures Trimmed(p.firstName) && Trimmed(p.middleName) && Trimmed(p.lastName)
    ensures Trimmed(p.phone) && Trimmed(p.email) && Trimmed(p.city) && Trimmed(p.streetOrDistrict)
    ensures Trimmed(p.streetNo) && Trimmed(p.block) && Trimmed(p.entrance) && Trimmed(p.apartment)
    ensures AllDigits(p.egn) && AllDigits(p.postCode) && p.consent && p.wantsGames == f.wantsGames
    ensures Validate(f) == None ==>
      |p.egn| == 10 && |p.postCode| == 4 && |OnlyDigits(p.phone)| >= 8 && Email.Matches(p.email) &&
      |p.firstName| >= 2 && |p.middleName| >= 2 && |p.lastName| >= 2
  {
    TrimIdempotent(f.firstName);
    TrimIdempotent(f.middleName);
    TrimIdempotent(f.lastName);
    TrimIdempotent(f.phone);
    TrimIdempotent(f.email);
    TrimIdempotent(f.city);
    TrimIdempotent(f.streetOrDistrict);
    TrimIdempotent(f.streetNo);
    TrimIdempotent(f.block);
    TrimIdempotent(f.entrance);
    TrimIdempotent(f.apartment);
    ValidateIsFirstFailure(f);
    Email.TestIff(Trim(f.email));
    OnlyDigitsOfTrim(f.phone);
    Payload(Trim(f.firstName), Trim(f.middleName), Trim(f.lastName),
            OnlyDigits(f.egn), OnlyDigits(f.postCode), Trim(f.phone), Trim(f.email),
            f.wantsGames,
            Trim(f.city), Trim(f.streetOrDistrict), Trim(f.streetNo),
            Trim(f.block), Trim(f.entrance), Trim(f.apartment),
            true)
  }

  /** What `createVirtual` answers with (`res.data`). */
  datatype Created = Created(ccnum: Option<string>, card: Option<Option<string>>, virtualCcnum: Option<string>)

  /** `res?.data?.ccnum || res?.data?.card?.ccnum || res?.data?.virtual_ccnum || null` */
  function CardNumber(data: Option<Created>): (r: Option<string>)
    ensures r.Some? ==> r.value != []
    ensures data.None? ==> r == None
    ensures data.Some? && Present(data.value.ccnum) ==> r == data.value.ccnum
    ensures data.Some? && !Present(data.value.ccnum) && data.value.card.Some? && Present(data.value.card.value) ==>
      r == data.value.card.value
    ensures data.Some? && !Present(data.value.ccnum) && !(data.value.card.Some? && Present(data.value.card.value)) ==>
      r == (if Present(data.value.virtualCcnum) then data.value.virtualCcnum else None)
  {
    if data.None? then None
    else if Present(data.value.ccnum) then data.value.ccnum
    else if data.value.card.Some? && Present(data.value.card.value) then data.value.card.value
    else if Present(data.value.virtualCcnum) then data.value.virtualCcnum
    else None
  }

  /** The remote calls `submit` makes. */
  datatype CardCall = CreateVirtual(payload: Payload) | SetCard(ccnum: string)

  /** How `submit` ends: a validation message; the demo notice when the API
      module has no `createVirtual`; success; or an error message. Demo and
      success go back to the previous screen. */
  datatype Submitted = Invalid(message: string) | Demo | Success | Error(message: string)

  const MsgCreateFailed: string := "Неуспешно създаване на виртуална карта."

  class Screen {
    var form: Form
    var saving: bool

    constructor ()
      ensures form == EmptyForm && !saving
    {
      form := EmptyForm;
      saving := false;
    }

    /** The EGN field's `onChangeText`. */
    method OnEgnChange(t: string)
      modifies this
      ensures form == old(form).(egn := DigitsField(t, 10)) && saving == old(saving)
    {
      form := form.(egn := DigitsField(t, 10));
    }

    /** The post-code field's `onChangeText`. */
    method OnPostCodeChange(t: string)
      modifies this
      ensures form == old(form).(postCode := DigitsField(t, 4)) && saving == old(saving)
    {
      form := form.(postCode := DigitsField(t, 4));
    }

    /** `submit`, given whether the API module provides `createVirtual`,
        the outcome of that call and the outcome of `setCard`. A form that
        does not validate makes no call. Otherwise `saving` ends false; the
        card number of the reply, when there is one, is registered with
        `setCard`; a thrown error ends in its message. */
    method Submit(hasCreateVirtual: bool, created: Attempt<Option<Created>>, setCard: Attempt<()>)
      returns (calls: seq<CardCall>, result: Submitted)
      modifies this
      ensures form == old(form)
      ensures Validate(form).Some? ==>
        calls == [] && result == Invalid(Validate(form).value) && saving == old(saving)
      ensures Validate(form).None? ==> !saving
      ensures Validate(form).None? && !hasCreateVirtual ==> calls == [] && result == Demo
      ensures Validate(form).None? && hasCreateVirtual && created.Threw? ==>
        calls == [CreateVirtual(BuildPayload(form))] &&
        result == Error(ErrorMessage(created.err, MsgCreateFailed))
      ensures Validate(form).None? && hasCreateVirtual && created.Done? && CardNumber(created.value).None? ==>
        calls == [CreateVirtual(BuildPayload(form))] && result == Success
      ensures Validate(form).None? && hasCreateVirtual && created.Done? && CardNumber(created.value).Some? ==>
        calls == [CreateVirtual(BuildPayload(form)), SetCard(CardNumber(created.value).value)] &&
        result == (if setCard.Done? then Success else Error(ErrorMessage(setCard.err, MsgCreateFailed)))
    {
      calls := [];
      var err := Validate(form);
      if err.Some? {
        result := Invalid(err.value);
        return;
      }
      var payload := BuildPayload(form);
      saving := true;
      if !hasCreateVirtual {
        result := Demo;
      } else {
        calls := [CreateVirtual(payload)];
        if created.Threw? {
          result := Error(ErrorMessage(created.err, MsgCreateFailed));
        } else {
          var ccnum := CardNumber(created.value);
          result := Success;
          if ccnum.Some? {
            calls := calls + [SetCard(ccnum.value)];
            if setCard.Threw? {
              result := Error(ErrorMessage(setCard.err, MsgCreateFailed));
            }
          }
        }
      }
      saving := false;
    }
  }
}
