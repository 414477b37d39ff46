/** The checkout form: its prefill from the signed-in account, the field
    validator (required fields, the email pattern, the phone digit count) and
    the shipping address a valid submit stores. */
module Checkout {
  import opened Common
  import opened Text
  import Accounts
  import Orders

  datatype Field = FirstName | LastName | Email | Phone | Address | City | State | PostalCode | Country

  const AllFields: set<Field> := {FirstName, LastName, Email, Phone, Address, City, State, PostalCode, Country}

  lemma AllFieldsComplete(f: Field)
    ensures f in AllFields
  {
  }

  datatype Form = Form(
    firstName: string,
    lastName: string,
    email: string,
    phone: string,
    address: string,
    city: string,
    state: string,
    postalCode: string,
    country: string)

  function Get(form: Form, f: Field): string {
    match f
    case FirstName => form.firstName
    case LastName => form.lastName
    case Email => form.email
    case Phone => form.phone
    case Address => form.address
    case City => form.city
    case State => form.state
    case PostalCode => form.postalCode
    case Country => form.country
  }

  const Required := "This field is required"
  const InvalidEmail := "Please enter a valid email address"
  const InvalidPhone := "Please enter a valid phone number"

  // ---------------------------------------------------------------------------
  // The email pattern `^[^\s@]+@[^\s@]+\.[^\s@]+$`.
  // ---------------------------------------------------------------------------

  /** Every character is in the class `[^\s@]`. */
  predicate NoSpaceOrAt(s: string) {
    forall i :: 0 <= i < |s| ==> !IsSpace(s[i]) && s[i] != '@'
  }

  /** The pattern read as a regular expression: a non-empty local part, an
      `@` at `i`, a non-empty run, a `.` at `j`, and a non-empty tail, where
      none of the three parts holds whitespace or `@`. */
  ghost predicate MatchesEmailPattern(s: string) {
    exists i, j :: 0 < i && i + 1 < j && j + 1 < |s| && s[i] == '@' && s[j] == '.' &&
      NoSpaceOrAt(s[..i]) && NoSpaceOrAt(s[i + 1..j]) && NoSpaceOrAt(s[j + 1..])
  }

  /** A `.` that is neither the first nor the last character. */
  predicate HasInnerDot(d: string) {
    exists k :: 0 < k < |d| - 1 && d[k] == '.'
  }

  /** The same test, stated in words: exactly one `@`, not first; no
      whitespace; and a domain with a `.` that is neither its first nor its
      last character. */
  predicate EmailOk(s: string) {
    var at := FirstIndex(s, '@');
    && 0 < at < |s|
    && NoSpaceOrAt(s[..at])
    && NoSpaceOrAt(s[at + 1..])
    && HasInnerDot(s[at + 1..])
  }

  /** The words and the pattern accept the same strings. */
  lemma EmailOkIffPattern(s: string)
    ensures EmailOk(s) <==> MatchesEmailPattern(s)
  {
    if EmailOk(s) {
      EmailOkMatches(s);
    }
    if MatchesEmailPattern(s) {
      var i, j :| 0 < i && i + 1 < j && j + 1 < |s| && s[i] == '@' && s[j] == '.' &&
        NoSpaceOrAt(s[..i]) && NoSpaceOrAt(s[i + 1..j]) && NoSpaceOrAt(s[j + 1..]);
      PatternPartsAreEmailOk(s, i, j);
    }
  }

  lemma EmailOkMatches(s: string)
    requires EmailOk(s)
    ensures MatchesEmailPattern(s)
  {
    var at := FirstIndex(s, '@');
    var d := s[at + 1..];
    var k :| 0 < k < |d| - 1 && d[k] == '.';
    var j := at + 1 + k;
    assert s[at + 1..j] == d[..k];
    assert s[j + 1..] == d[k + 1..];
    assert s[j] == '.';
  }

  lemma PatternPartsAreEmailOk(s: string, i: int, j: int)
    requires 0 < i && i + 1 < j && j + 1 < |s| && s[i] == '@' && s[j] == '.'
    requires NoSpaceOrAt(s[..i]) && NoSpaceOrAt(s[i + 1..j]) && NoSpaceOrAt(s[j + 1..])
    ensures EmailOk(s)
  {
    assert forall m :: 0 <= m < i ==> s[m] == s[..i][m];
    assert FirstIndex(s, '@') == i;
    var d := s[i + 1..];
    var k := j - i - 1;
    assert d[k] == '.';
    assert d == s[i + 1..j] + [s[j]] + s[j + 1..];
    assert HasInnerDot(d);
  }

  /** A few addresses the pattern accepts and refuses. */
  lemma EmailExamples()
    ensures EmailOk("a@b.co")
    ensures !EmailOk("a@b.")
    ensures !EmailOk("@b.co")
    ensures !EmailOk("a@@b.co")
  {
    var s := "a@b.co";
    assert FirstIndex(s, '@') == 1;
    assert s[2..][1] == '.';
    assert FirstIndex("@b.co", '@') == 0;
    var t := "a@@b.co";
    assert FirstIndex(t, '@') == 1;
    assert t[2..][0] == '@';
    var u := "a@b.";
    assert FirstIndex(u, '@') == 1;
    assert u[2..] == "b.";
  }

  /** `/^\d{10,}$/` applied to the phone with every non-digit removed. */
  predicate PhoneOk(s: string) {
    |Digits(s)| >= 10
  }

  /** Separators are ignored: a formatted number with ten digits passes. */
  lemma PhoneIgnoresSeparators(a: string, b: string)
    requires forall i :: 0 <= i < |b| ==> !IsDigit(b[i])
    ensures PhoneOk(a + b) <==> PhoneOk(a)
    ensures PhoneOk(b + a) <==> PhoneOk(a)
  {
    DigitsAppend(a, b);
    DigitsAppend(b, a);
    NoDigits(b);
  }

  lemma {:induction false} NoDigits(b: string)
    requires forall i :: 0 <= i < |b| ==> !IsDigit(b[i])
    ensures Digits(b) == ""
    decreases |b|
  {
    if |b| > 0 {
      assert b == [b[0]] + b[1..];
      DigitsAppend([b[0]], b[1..]);
      NoDigits(b[1..]);
    }
  }

  // ---------------------------------------------------------------------------
  // The validator.
  // ---------------------------------------------------------------------------

  /** A required error for each field that is blank after trimming. */
  function RequiredErrors(form: Form): (errors: map<Field, string>)
    ensures forall f :: f in errors <==> IsBlank(Get(form, f))
    ensures forall f :: f in errors ==> errors[f] == Required
  {
    var r := map f | f in AllFields && IsBlank(Get(form, f)) :: Required;
    assert forall f :: f in r <==> IsBlank(Get(form, f)) by {
      forall f ensures f in r <==> IsBlank(Get(form, f)) {
        AllFieldsComplete(f);
      }
    }
    r
  }

  /** `errors[f] = msg` when `bad` holds; every other entry stays as it was. */
  function Flag(errors: map<Field, string>, bad: bool, f: Field, msg: string): (r: map<Field, string>)
    ensures bad ==> f in r && r[f] == msg
    ensures !bad ==> r == errors
  {
    if bad then errors[f := msg] else errors
  }

  lemma FlagKeepsOthers(errors: map<Field, string>, bad: bool, f: Field, msg: string, g: Field)
    requires g != f
    ensures g in Flag(errors, bad, f, msg) <==> g in errors
    ensures g in errors ==> Flag(errors, bad, f, msg)[g] == errors[g]
  {
  }

  /** `validateForm()`: a required error for each blank field; a non-empty
      email that fails the pattern, and a non-empty phone with fewer than ten
      digits, get their own message, replacing a required error. */
  function Validate(form: Form): (errors: map<Field, string>) {
    var required := RequiredErrors(form);
    var withEmail := Flag(required, form.email != "" && !EmailOk(form.email), Email, InvalidEmail);
    Flag(withEmail, form.phone != "" && !PhoneOk(form.phone), Phone, InvalidPhone)
  }

  /** Every field other than email and phone has an error exactly when it is
      blank, and that error is the required message. */
  lemma ValidateOtherFields(form: Form, f: Field)
    requires f != Email && f != Phone
    ensures f in Validate(form) <==> IsBlank(Get(form, f))
    ensures f in Validate(form) ==> Validate(form)[f] == Required
  {
    var req := RequiredErrors(form);
    var badEmail := form.email != "" && !EmailOk(form.email);
    var withEmail := Flag(req, badEmail, Email, InvalidEmail);
    FlagKeepsOthers(req, badEmail, Email, InvalidEmail, f);
    FlagKeepsOthers(withEmail, form.phone != "" && !PhoneOk(form.phone), Phone, InvalidPhone, f);
  }

  /** The email has an error exactly when it is blank or fails the pattern; a
      non-empty email that fails the pattern gets the email message, even when
      it is all spaces. */
  lemma ValidateEmail(form: Form)
    ensures Email in Validate(form) <==> IsBlank(form.email) || !EmailOk(form.email)
    ensures Email in Validate(form) ==>
      Validate(form)[Email] == if form.email != "" && !EmailOk(form.email) then InvalidEmail else Required
  {
    var req := RequiredErrors(form);
    var badEmail := form.email != "" && !EmailOk(form.email);
    assert Email in req <==> IsBlank(form.email) by {
      assert Get(form, Email) == form.email;
    }
    if form.email == "" {
      assert IsBlank(form.email);
    }
    FlagKeepsOthers(Flag(req, badEmail, Email, InvalidEmail), form.phone != "" && !PhoneOk(form.phone), Phone, InvalidPhone, Email);
  }

  /** The phone has an error exactly when it is blank or has fewer than ten
      digits; a non-empty phone with too few digits gets the phone message. */
  lemma ValidatePhone(form: Form)
    ensures Phone in Validate(form) <==> IsBlank(form.phone) || !PhoneOk(form.phone)
    ensures Phone in Validate(form) ==>
      Validate(form)[Phone] == if form.phone != "" && !PhoneOk(form.phone) then InvalidPhone else Required
  {
    var req := RequiredErrors(form);
    var badEmail := form.email != "" && !EmailOk(form.email);
    assert Phone in req <==> IsBlank(form.phone) by {
      assert Get(form, Phone) == form.phone;
    }
    if form.phone == "" {
      assert IsBlank(form.phone);
    }
    FlagKeepsOthers(req, badEmail, Email, InvalidEmail, Phone);
  }

  /** `Object.keys(newErrors).length === 0`. */
  predicate IsValid(form: Form) {
    |Validate(form)| == 0
  }

  /** The form is valid exactly when no field is blank, the email matches the
      pattern and the phone has at least ten digits. */
  lemma IsValidIff(form: Form)
    ensures IsValid(form) <==>
      && (forall f :: f in AllFields ==> !IsBlank(Get(form, f)))
      && MatchesEmailPattern(form.email)
      && PhoneOk(form.phone)
  {
    EmailOkIffPattern(form.email);
    var e := Validate(form);
    if IsValid(form) {
      ValidateEmail(form);
      ValidatePhone(form);
      forall f | f in AllFields ensures !IsBlank(Get(form, f)) {
        if f != Email && f != Phone {
          ValidateOtherFields(form, f);
        }
      }
    } else {
      assert e.Keys != {};
      var f :| f in e.Keys;
      AllFieldsComplete(f);
      if f == Email {
        ValidateEmail(form);
      } else if f == Phone {
        ValidatePhone(form);
      } else {
        ValidateOtherFields(form, f);
      }
    }
  }

  /** `handleSubmit`: only a valid form stores a shipping address (and moves
      on to payment); it keeps address, city, postal code and country and
      drops the state, phone and names. */
  function Submit(form: Form): (r: Option<Orders.ShippingAddress>)
    ensures r.Some? <==> IsValid(form)
    ensures r.Some? ==>
      && r.value.address == form.address && r.value.city == form.city
      && r.value.postalCode == form.postalCode && r.value.country == form.country
  {
    if IsValid(form) then Some(Orders.ShippingAddress(form.address, form.city, form.postalCode, form.country))
    else None
  }

  /** The stored address depends on the four address fields alone: two valid
      forms that agree on them store the same address. */
  lemma SubmitKeepsOnlyAddressFields(a: Form, b: Form)
    requires IsValid(a) && IsValid(b)
    requires a.address == b.address && a.city == b.city && a.postalCode == b.postalCode && a.country == b.country
    ensures Submit(a) == Submit(b)
    ensures Submit(a).value.address == a.address && Submit(a).value.city == a.city
    ensures Submit(a).value.postalCode == a.postalCode && Submit(a).value.country == a.country
  {
  }

  // ---------------------------------------------------------------------------
  // The prefill.
  // ---------------------------------------------------------------------------

  /** `s.split(' ')[k] || ''`. */
  function Token(s: string, k: nat): (r: string)
    ensures k < |Split(s, ' ')| ==> r == Split(s, ' ')[k]
    ensures k >= |Split(s, ' ')| ==> r == ""
  {
    var parts := Split(s, ' ');
    if k < |parts| then parts[k] else ""
  }

  /** The initial form: names from the first two space-separated tokens of the
      account name, the rest from the account, "" where there is nothing. */
  function Prefill(user: Option<Accounts.PublicUser>): (form: Form)
    ensures user.None? ==> form == Form("", "", "", "", "", "", "", "", "")
    ensures user.Some? ==> form.email == user.value.email && form.phone == user.value.phone
    ensures user.Some? ==> form.firstName == Token(user.value.name, 0) && form.lastName == Token(user.value.name, 1)
    ensures user.Some? && user.value.address.Some? ==>
      var a := user.value.address.value;
      && form.address == a.street && form.city == a.city && form.state == a.state
      && form.postalCode == a.postalCode && form.country == a.country
    ensures user.Some? && user.value.address.None? ==>
      form.address == "" && form.city == "" && form.state == "" && form.postalCode == "" && form.country == ""
  {
    match user
    case None => Form("", "", "", "", "", "", "", "", "")
    case Some(u) =>
      var a := u.address;
      Form(Token(u.name, 0), Token(u.name, 1), u.email, u.phone,
           if a.Some? then a.value.street else "",
           if a.Some? then a.value.city else "",
           if a.Some? then a.value.state else "",
           if a.Some? then a.value.postalCode else "",
           if a.Some? then a.value.country else "")
  }

  /** "First Last" prefills both names; a name without a space is the first
      name and leaves the last name empty. */
  lemma PrefillNames(u: Accounts.PublicUser, first: string, last: string)
    requires forall i :: 0 <= i < |first| ==> first[i] != ' '
    requires forall i :: 0 <= i < |last| ==> last[i] != ' '
    ensures u.name == first + " " + last ==>
      Prefill(Some(u)).firstName == first && Prefill(Some(u)).lastName == last
    ensures u.name == first ==>
      Prefill(Some(u)).firstName == first && Prefill(Some(u)).lastName == ""
  {
    if u.name == first + " " + last {
      SplitAfterFirst(first, last, ' ');
      SplitNoSeparator(last, ' ');
    }
    if u.name == first {
      SplitNoSeparator(first, ' ');
    }
  }

  /** Submitting the prefilled form unchanged stores the account's own
      address when the form is valid. */
  lemma PrefillThenSubmit(u: Accounts.PublicUser)
    requires u.address.Some?
    ensures IsValid(Prefill(Some(u))) ==>
      var a := u.address.value;
      Submit(Prefill(Some(u))) == Some(Orders.ShippingAddress(a.street, a.city, a.postalCode, a.country))
  {
  }

  /** An account without an address can never submit the prefill unchanged:
      its address field is blank. */
  lemma PrefillWithoutAddressBlocks(u: Accounts.PublicUser)
    requires u.address.None?
    ensures Submit(Prefill(Some(u))).None?
  {
    var form := Prefill(Some(u));
    assert IsBlank(Get(form, Address)) by {
      BlankIffAllSpace(form.address);
    }
    ValidateOtherFields(form, Address);
  }
}
