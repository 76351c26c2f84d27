/** The visitor form: the `isFormValid` predicate, the `validateForm` message
    list, and the decision `onSubmit` takes before it sends the check-in
    request (the visitor page's class in VisitorPage performs it on its
    fields). */
module VisitorForm {
  import opened Wrappers
  import opened Text
  import opened Raster

  /** The visitor page's form fields. */
  datatype Form = Form(
    name: string,
    surname: string,
    contact: string,
    email: string,
    idn: string,
    purpose: string,
    organization: string,
    otherReason: string,
    signature: Option<Image>,
    selfie: Option<Image>,
    acceptedPopia: bool)

  const OtherPurpose: string := "Other"
  const ContactLength: nat := 10
  const IdLength: nat := 13

  /** `isFormValid`, condition by condition as the component writes it. A
      form it accepts draws no message from `validateForm`. */
  function IsFormValid(f: Form): (b: bool)
    ensures b ==> ValidateForm(f) == []
  {
    && Trim(f.name) != ""
    && Trim(f.surname) != ""
    && |Trim(f.contact)| == ContactLength
    && |Trim(f.idn)| == IdLength
    && Trim(f.email) != ""
    && Trim(f.purpose) != ""
    && (f.purpose != OtherPurpose || Trim(f.otherReason) != "")
    && Trim(f.organization) != ""
    && f.acceptedPopia
  }

  /** The form is valid exactly when every text field holds a character
      other than white space, the trimmed contact has 10 characters and the
      trimmed id number 13 (any characters, digits are not checked), an
      "Other" purpose comes with a reason, and consent is given. */
  lemma IsFormValidIff(f: Form)
    ensures IsFormValid(f) <==>
      && !Blank(f.name) && !Blank(f.surname) && !Blank(f.email)
      && !Blank(f.purpose) && !Blank(f.organization)
      && |Trim(f.contact)| == ContactLength && |Trim(f.idn)| == IdLength
      && (f.purpose != OtherPurpose || !Blank(f.otherReason))
      && f.acceptedPopia
  {
    TrimEmptyIff(f.name);
    TrimEmptyIff(f.surname);
    TrimEmptyIff(f.email);
    TrimEmptyIff(f.purpose);
    TrimEmptyIff(f.organization);
    TrimEmptyIff(f.otherReason);
  }

  /** The rules `validateForm` checks, in the order it checks them. */
  datatype Rule =
    | NameRule | SurnameRule | EmailRule | IdRule | PurposeRule
    | OtherReasonRule | OrganizationRule

  const RuleOrder: seq<Rule> :=
    [NameRule, SurnameRule, EmailRule, IdRule, PurposeRule, OtherReasonRule, OrganizationRule]

  /** When a rule fails, stated on characters rather than on `trim`. */
  predicate Fails(f: Form, rule: Rule) {
    match rule
    case NameRule => Blank(f.name)
    case SurnameRule => Blank(f.surname)
    case EmailRule => Blank(f.email)
    case IdRule => Blank(f.idn)
    case PurposeRule => Blank(f.purpose)
    case OtherReasonRule => f.purpose == OtherPurpose && Blank(f.otherReason)
    case OrganizationRule => Blank(f.organization)
  }

  function Message(rule: Rule): string {
    match rule
    case NameRule => "Name is required."
    case SurnameRule => "Surname is required."
    case EmailRule => "Email Address is required."
    case IdRule => "id number is required"
    case PurposeRule => "Purpose of Visit is required."
    case OtherReasonRule => "Please specify the Other Reason."
    case OrganizationRule => "Organization is required."
  }

  /** The message one rule contributes: its own when it fails, else none. */
  function Check(f: Form, rule: Rule): seq<string> {
    if Fails(f, rule) then [Message(rule)] else []
  }

  /** Reference definition: the messages of the failing rules, in rule order. */
  function FailedMessages(f: Form, rules: seq<Rule>): seq<string> {
    if rules == [] then [] else Check(f, rules[0]) + FailedMessages(f, rules[1..])
  }

  /** `validateForm`: every check runs; each failing one pushes its message,
      so there is at most one message per rule. */
  function ValidateForm(f: Form): (r: seq<string>)
    ensures |r| <= |RuleOrder|
  {
    var m1 := if Trim(f.name) == "" then [Message(NameRule)] else [];
    var m2 := if Trim(f.surname) == "" then [Message(SurnameRule)] else [];
    var m3 := if Trim(f.email) == "" then [Message(EmailRule)] else [];
    var m4 := if Trim(f.idn) == "" then [Message(IdRule)] else [];
    var m5 := if Trim(f.purpose) == "" then [Message(PurposeRule)] else [];
    var m6 := if f.purpose == OtherPurpose && Trim(f.otherReason) == ""
              then [Message(OtherReasonRule)] else [];
    var m7 := if Trim(f.organization) == "" then [Message(OrganizationRule)] else [];
    m1 + m2 + m3 + m4 + m5 + m6 + m7
  }

  /** `validateForm` lists exactly the messages of the failing rules, in the
      fixed order name, surname, email, id, purpose, other reason,
      organization; no rule hides another. */
  lemma ValidateFormFollowsRules(f: Form)
    ensures ValidateForm(f) == FailedMessages(f, RuleOrder)
  {
    ValidateFormPieces(f);
    FailedMessagesInOrder(f);
  }

  /** `validateForm` is the concatenation of the seven checks. */
  lemma ValidateFormPieces(f: Form)
    ensures ValidateForm(f) == Check(f, NameRule) + Check(f, SurnameRule) + Check(f, EmailRule)
      + Check(f, IdRule) + Check(f, PurposeRule) + Check(f, OtherReasonRule) + Check(f, OrganizationRule)
  {
    TrimEmptyIff(f.name);
    TrimEmptyIff(f.surname);
    TrimEmptyIff(f.email);
    TrimEmptyIff(f.idn);
    TrimEmptyIff(f.purpose);
    TrimEmptyIff(f.otherReason);
    TrimEmptyIff(f.organization);
  }

  /** The reference list over `RuleOrder`, unfolded. */
  lemma FailedMessagesInOrder(f: Form)
    ensures FailedMessages(f, RuleOrder) == Check(f, NameRule) + Check(f, SurnameRule) + Check(f, EmailRule)
      + Check(f, IdRule) + Check(f, PurposeRule) + Check(f, OtherReasonRule) + Check(f, OrganizationRule)
  {
    var r6: seq<Rule> := [OrganizationRule];
    var r5 := [OtherReasonRule] + r6;
    var r4 := [PurposeRule] + r5;
    var r3 := [IdRule] + r4;
    var r2 := [EmailRule] + r3;
    var r1 := [SurnameRule] + r2;
    assert RuleOrder == [NameRule] + r1;
    FailedMessagesCons(f, OrganizationRule, []);
    FailedMessagesCons(f, OtherReasonRule, r6);
    FailedMessagesCons(f, PurposeRule, r5);
    FailedMessagesCons(f, IdRule, r4);
    FailedMessagesCons(f, EmailRule, r3);
    FailedMessagesCons(f, SurnameRule, r2);
    FailedMessagesCons(f, NameRule, r1);
    var last := Check(f, OrganizationRule);
    assert FailedMessages(f, r6) == last by {
      assert last + [] == last;
    }
    Regroup(Check(f, NameRule), Check(f, SurnameRule), Check(f, EmailRule), Check(f, IdRule),
            Check(f, PurposeRule), Check(f, OtherReasonRule), last);
  }

  /** Concatenation regrouped from the right to the left. */
  lemma Regroup<T>(a: seq<T>, b: seq<T>, c: seq<T>, d: seq<T>, e: seq<T>, g: seq<T>, h: seq<T>)
    ensures a + (b + (c + (d + (e + (g + h))))) == a + b + c + d + e + g + h
  {
  }

  /** One step of the reference list. */
  lemma FailedMessagesCons(f: Form, rule: Rule, rest: seq<Rule>)
    ensures FailedMessages(f, [rule] + rest) == Check(f, rule) + FailedMessages(f, rest)
  {
    assert ([rule] + rest)[1..] == rest;
  }

  /** A message is in the list exactly when its rule fails. */
  lemma {:induction false} FailedMessagesHas(f: Form, rules: seq<Rule>, rule: Rule)
    ensures Message(rule) in FailedMessages(f, rules) <==> rule in rules && Fails(f, rule)
  {
    if rules != [] {
      FailedMessagesHas(f, rules[1..], rule);
      assert rules == [rules[0]] + rules[1..];
    }
  }

  /** The reference list is empty exactly when none of its rules fails. */
  lemma {:induction false} FailedMessagesEmptyIff(f: Form, rules: seq<Rule>)
    ensures FailedMessages(f, rules) == [] <==> forall r :: r in rules ==> !Fails(f, r)
  {
    if rules != [] {
      FailedMessagesEmptyIff(f, rules[1..]);
      assert rules == [rules[0]] + rules[1..];
    }
  }

  /** The list is empty exactly when no rule fails. */
  lemma ValidateFormEmptyIff(f: Form)
    ensures ValidateForm(f) == [] <==> forall rule :: !Fails(f, rule)
  {
    ValidateFormFollowsRules(f);
    FailedMessagesEmptyIff(f, RuleOrder);
    forall rule ensures rule in RuleOrder {
      RuleListed(rule);
    }
  }

  lemma RuleListed(rule: Rule)
    ensures rule in RuleOrder
  {
    match rule
    case NameRule => assert RuleOrder[0] == rule;
    case SurnameRule => assert RuleOrder[1] == rule;
    case EmailRule => assert RuleOrder[2] == rule;
    case IdRule => assert RuleOrder[3] == rule;
    case PurposeRule => assert RuleOrder[4] == rule;
    case OtherReasonRule => assert RuleOrder[5] == rule;
    case OrganizationRule => assert RuleOrder[6] == rule;
  }

  /** An empty purpose is never "Other", so the purpose message and the
      other-reason message never appear together. */
  lemma PurposeExcludesOtherReason(f: Form)
    ensures !(Fails(f, PurposeRule) && Fails(f, OtherReasonRule))
  {
    if f.purpose == OtherPurpose {
      assert !IsWhitespace(f.purpose[0]);
    }
  }

  /** So at most six of the seven messages are ever reported. */
  lemma ValidateFormAtMostSix(f: Form)
    ensures |ValidateForm(f)| <= 6
  {
    ValidateFormPieces(f);
    PurposeExcludesOtherReason(f);
    assert |Check(f, PurposeRule) + Check(f, OtherReasonRule)| <= 1;
  }

  /** Only the text fields feed `validateForm`: the contact is not checked. */
  lemma ValidateFormIgnoresContact(f: Form, contact: string)
    ensures ValidateForm(f.(contact := contact)) == ValidateForm(f)
  {
  }

  /** A form `isFormValid` accepts draws no message. The converse fails
      only on what `validateForm` does not look at: the contact and id
      lengths, and consent. */
  lemma ValidFormHasNoMessages(f: Form)
    ensures IsFormValid(f) ==> ValidateForm(f) == []
    ensures (ValidateForm(f) == [] && |Trim(f.contact)| == ContactLength
             && |Trim(f.idn)| == IdLength && f.acceptedPopia) ==> IsFormValid(f)
  {
    ValidateFormEmptyIff(f);
    IsFormValidIff(f);
    TrimEmptyIff(f.idn);
  }

  /** The record posted to the check-in endpoint. */
  datatype Payload = Payload(
    name: string,
    surname: string,
    contact: string,
    email: string,
    idn: string,
    purpose: string,
    organization: string,
    signature: Option<Image>,
    selfie: Option<Image>,
    acceptedPopia: bool)

  /** The purpose sent: the typed reason when "Other" is chosen. */
  function ReasonForVisit(f: Form): string {
    if f.purpose == OtherPurpose then f.otherReason else f.purpose
  }

  function PayloadOf(f: Form): Payload {
    Payload(f.name, f.surname, f.contact, f.email, f.idn, ReasonForVisit(f),
            f.organization, f.signature, f.selfie, f.acceptedPopia)
  }

  const ConsentMessage: string := "You must accept the POPIA terms to proceed."
  const ContactMessage: string := "Invalid Contact: Must contain exactly 10 digits"

  /** What `onSubmit` does: reject with the toast it shows, or post one record. */
  datatype Outcome = Rejected(message: string) | Posted(payload: Payload)

  /** The outcome and the `contact` field afterwards. */
  datatype Submission = Submission(outcome: Outcome, contact: string)

  /** `onSubmit`'s decision sequence: consent, then the raw contact length
      (too long is cut to 10 characters, too short is refused), then the
      message list, then the payload. */
  function Submit(f: Form): (r: Submission)
    ensures StartsWith(f.contact, r.contact)
    ensures r.outcome.Posted? ==> f.acceptedPopia && |f.contact| >= ContactLength
    ensures r.outcome.Posted? ==>
              |r.contact| == ContactLength && r.outcome.payload.contact == r.contact
  {
    if !f.acceptedPopia then Submission(Rejected(ConsentMessage), f.contact)
    else if |f.contact| < ContactLength then Submission(Rejected(ContactMessage), f.contact)
    else
      var contact := Take(f.contact, ContactLength);
      var messages := ValidateForm(f.(contact := contact));
      if |messages| > 0 then Submission(Rejected(Join(messages, " ")), contact)
      else Submission(Posted(PayloadOf(f.(contact := contact))), contact)
  }

  /** Without consent nothing else is looked at: no request, contact kept. */
  lemma SubmitNeedsConsent(f: Form)
    ensures !f.acceptedPopia ==> Submit(f) == Submission(Rejected(ConsentMessage), f.contact)
  {
  }

  /** The contact check uses the raw length: with consent, a longer contact
      becomes its first 10 characters, a shorter one is refused unchanged,
      and whatever is kept is a prefix of what was typed. */
  lemma SubmitContact(f: Form)
    ensures StartsWith(f.contact, Submit(f).contact)
    ensures f.acceptedPopia && |f.contact| > ContactLength ==>
              Submit(f).contact == f.contact[..ContactLength]
    ensures f.acceptedPopia && |f.contact| < ContactLength ==>
              Submit(f) == Submission(Rejected(ContactMessage), f.contact)
    ensures !f.acceptedPopia || |f.contact| <= ContactLength ==> Submit(f).contact == f.contact
  {
  }

  /** A second submit does not cut the contact again. */
  lemma SubmitSettlesContact(f: Form)
    ensures Submit(f.(contact := Submit(f).contact)).contact == Submit(f).contact
  {
    SubmitContact(f);
    SubmitContact(f.(contact := Submit(f).contact));
  }

  /** A request is sent exactly when consent is given, the raw contact has
      at least 10 characters and no rule fails; the rules are all reported
      together, joined by single spaces, when some fail. */
  lemma SubmitPostsIff(f: Form)
    ensures Submit(f).outcome.Posted? <==>
              f.acceptedPopia && |f.contact| >= ContactLength && forall rule :: !Fails(f, rule)
    ensures f.acceptedPopia && |f.contact| >= ContactLength && ValidateForm(f) != [] ==>
              Submit(f).outcome == Rejected(Join(FailedMessages(f, RuleOrder), " "))
  {
    ValidateFormEmptyIff(f);
    ValidateFormFollowsRules(f);
    if f.acceptedPopia && |f.contact| >= ContactLength {
      var c := Take(f.contact, ContactLength);
      ValidateFormIgnoresContact(f, c);
      var messages := ValidateForm(f);
      assert Submit(f).outcome == if |messages| > 0 then Rejected(Join(messages, " "))
                                  else Posted(PayloadOf(f.(contact := c)));
    }
  }

  /** Every posted record carries a 10-character contact, the purpose
      chosen by `ReasonForVisit`, and every other field as it was,
      signature and selfie included, even when they are null. */
  lemma PostedPayload(f: Form)
    requires Submit(f).outcome.Posted?
    ensures var p := Submit(f).outcome.payload;
      && |p.contact| == ContactLength && StartsWith(f.contact, p.contact)
      && p.purpose == (if f.purpose == OtherPurpose then f.otherReason else f.purpose)
      && p.name == f.name && p.surname == f.surname && p.email == f.email
      && p.idn == f.idn && p.organization == f.organization
      && p.signature == f.signature && p.selfie == f.selfie && p.acceptedPopia
  {
  }

  /** A form `isFormValid` accepts is always posted. */
  lemma ValidFormIsPosted(f: Form)
    requires IsFormValid(f)
    ensures Submit(f).outcome.Posted?
  {
    ValidFormHasNoMessages(f);
    SubmitPostsIff(f);
    ValidateFormEmptyIff(f);
  }

  /** The submit path is looser than `isFormValid`: it checks the raw
      contact length and only that the id number is not blank, so a
      13-character id is not required, and a padded contact passes. */
  lemma PostedFormNeedNotBeValid()
    ensures exists f :: Submit(f).outcome.Posted? && !IsFormValid(f)
  {
    var f := ShortIdForm();
    ShortIdFormPasses();
    ShortIdFormInvalid();
    SubmitPostsIff(f);
    assert Submit(f).outcome.Posted? && !IsFormValid(f);
  }

  /** A filled-in form whose id number has one character. */
  function ShortIdForm(): Form {
    Form("Ann", "Lee", "0123456789", "a@b.c", "1", "Meeting", "Acme", "", None, None, true)
  }

  lemma ShortIdFormPasses()
    ensures forall rule :: !Fails(ShortIdForm(), rule)
  {
    forall rule ensures !Fails(ShortIdForm(), rule) {
      var f := ShortIdForm();
      assert !IsWhitespace(f.idn[0]);
      assert !IsWhitespace(f.name[0]);
      assert !IsWhitespace(f.surname[0]);
      assert !IsWhitespace(f.email[0]);
      assert !IsWhitespace(f.purpose[0]);
      assert !IsWhitespace(f.organization[0]);
    }
  }

  lemma ShortIdFormInvalid()
    ensures !IsFormValid(ShortIdForm())
  {
    assert TrimStart("1") == "1";
    assert TrimEnd("1") == "1";
  }
}
