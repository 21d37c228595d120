/** Client-side checks of the partner and waitlist forms before anything is sent to the
    HubSpot Forms API: the e-mail and phone predicates and the two validators that build a
    map from form field to error message. */
module Validation {
  import opened Wrappers
  import opened JsString

  /* ---------------------------------------------------------------- e-mail */

  /** One or more characters of the class `[^\s@]`. */
  predicate IsAtom(s: string) {
    |s| > 0 && forall i :: 0 <= i < |s| ==> !IsWhitespace(s[i]) && s[i] != '@'
  }

  /** `isValidEmail`: whether the whole of `email` matches `^[^\s@]+@[^\s@]+\.[^\s@]+$`, that is,
      some '@' at `at` and some '.' at `dot` cut it into three atoms. */
  predicate IsValidEmail(email: string) {
    exists at, dot | 0 < at < |email| && 0 < dot < |email| ::
      && at + 1 < dot < |email| - 1
      && email[at] == '@' && email[dot] == '.'
      && IsAtom(email[..at]) && IsAtom(email[at + 1..dot]) && IsAtom(email[dot + 1..])
  }

  /** A '.' that is neither the first nor the last character. */
  predicate HasInnerDot(domain: string) {
    exists j | 0 < j < |domain| - 1 :: domain[j] == '.'
  }

  /** The accepted shape stated part by part: no white space anywhere, exactly one '@' with
      something before it, and an inner '.' in what follows it. */
  predicate EmailShape(email: string) {
    && (forall i :: 0 <= i < |email| ==> !IsWhitespace(email[i]))
    && multiset(email)['@'] == 1
    && var at := IndexOf(email, '@');
       0 < at < |email| && HasInnerDot(email[at + 1..])
  }

  /** Atoms around an '@' at `at` and a '.' at `dot` give the shape. */
  lemma MatchHasShape(email: string, at: nat, dot: nat)
    requires 0 < at && at + 1 < dot < |email| - 1
    requires email[at] == '@' && email[dot] == '.'
    requires IsAtom(email[..at]) && IsAtom(email[at + 1..dot]) && IsAtom(email[dot + 1..])
    ensures EmailShape(email)
  {
    var local, host, top := email[..at], email[at + 1..dot], email[dot + 1..];
    var domain := email[at + 1..];
    assert domain == host + [email[dot]] + top;
    assert email == local + [email[at]] + domain;
    assert !IsWhitespace(email[at]) && !IsWhitespace(email[dot]);
    assert forall i :: 0 <= i < |email| ==> !IsWhitespace(email[i]) by {
      forall i | 0 <= i < |email|
        ensures !IsWhitespace(email[i])
      {
        if i < at {
          assert email[i] == local[i];
        } else if at < i < dot {
          assert email[i] == host[i - at - 1];
        } else if dot < i {
          assert email[i] == top[i - dot - 1];
        }
      }
    }
    assert '@' !in domain;
    assert multiset(email)['@'] == 1 by {
      assert multiset(email) == multiset(local) + multiset([email[at]]) + multiset(domain);
    }
    IndexOfIsFirst(email, '@', at);
    assert domain[dot - at - 1] == '.';
  }

  /** Every string the regular expression accepts has that shape. */
  lemma EmailPatternHasShape(email: string)
    requires IsValidEmail(email)
    ensures EmailShape(email)
  {
    var at, dot :| 0 < at < |email| && 0 < dot < |email|
      && at + 1 < dot < |email| - 1
      && email[at] == '@' && email[dot] == '.'
      && IsAtom(email[..at]) && IsAtom(email[at + 1..dot]) && IsAtom(email[dot + 1..]);
    MatchHasShape(email, at, dot);
  }

  /** A slice free of white space and '@' is an atom. */
  lemma AtomOfSlice(email: string, lo: nat, hi: nat)
    requires lo < hi <= |email|
    requires forall k :: lo <= k < hi ==> !IsWhitespace(email[k]) && email[k] != '@'
    ensures IsAtom(email[lo..hi])
  {
    forall i | 0 <= i < hi - lo
      ensures !IsWhitespace(email[lo..hi][i]) && email[lo..hi][i] != '@'
    {
      assert email[lo..hi][i] == email[lo + i];
    }
  }

  /** A character that occurs once, at `at`, occurs nowhere else. */
  lemma OnlyOccurrence(s: string, c: char, at: nat)
    requires at < |s| && s[at] == c && multiset(s)[c] == 1
    ensures forall k :: 0 <= k < |s| && k != at ==> s[k] != c
  {
    forall k | 0 <= k < |s| && k != at
      ensures s[k] != c
    {
      var lo, hi := if k < at then k else at, if k < at then at else k;
      assert s == s[..hi] + s[hi..];
      assert multiset(s) == multiset(s[..hi]) + multiset(s[hi..]);
      assert s[..hi][lo] == s[lo] && s[hi..][0] == s[hi];
    }
  }

  /** Every string of that shape is accepted by the regular expression. */
  lemma EmailShapeMatchesPattern(email: string)
    requires EmailShape(email)
    ensures IsValidEmail(email)
  {
    var at := IndexOf(email, '@');
    var domain := email[at + 1..];
    var j :| 0 < j < |domain| - 1 && domain[j] == '.';
    var dot := at + 1 + j;
    assert email[dot] == '.';
    OnlyOccurrence(email, '@', at);
    assert forall k :: 0 <= k < |email| && k != at ==> !IsWhitespace(email[k]) && email[k] != '@';
    AtomOfSlice(email, 0, at);
    AtomOfSlice(email, at + 1, dot);
    AtomOfSlice(email, dot + 1, |email|);
    assert email[dot + 1..|email|] == email[dot + 1..];
    assert email[0..at] == email[..at];
  }

  /** The regular expression accepts exactly the strings of that shape. */
  lemma EmailShapeIff(email: string)
    ensures IsValidEmail(email) <==> EmailShape(email)
  {
    if IsValidEmail(email) {
      EmailPatternHasShape(email);
    }
    if EmailShape(email) {
      EmailShapeMatchesPattern(email);
    }
  }

  /* ---------------------------------------------------------------- phone */

  /** The class `[\s\-\(\)\+\.]` of characters the phone check ignores. */
  predicate IsPhoneFormatting(c: char) {
    IsWhitespace(c) || c == '-' || c == '(' || c == ')' || c == '+' || c == '.'
  }

  /** The class `\d`: ASCII decimal digits only. */
  predicate IsDigit(c: char) {
    '0' <= c <= '9'
  }

  predicate AllDigits(s: string) {
    forall i :: 0 <= i < |s| ==> IsDigit(s[i])
  }

  /** `phone.replace(/[\s\-\(\)\+\.]/g, '')`: every formatting character deleted, every other
      character kept as often as it occurs. */
  function StripPhoneFormatting(phone: string): (cleaned: string)
    ensures forall i :: 0 <= i < |cleaned| ==> !IsPhoneFormatting(cleaned[i])
    ensures forall c :: !IsPhoneFormatting(c) ==> multiset(cleaned)[c] == multiset(phone)[c]
  {
    if phone == [] then []
    else
      var rest := StripPhoneFormatting(phone[1..]);
      assert phone == [phone[0]] + phone[1..];
      assert multiset(phone) == multiset([phone[0]]) + multiset(phone[1..]);
      if IsPhoneFormatting(phone[0]) then rest
      else
        assert multiset([phone[0]] + rest) == multiset([phone[0]]) + multiset(rest);
        [phone[0]] + rest
  }

  /** Deleting characters from a concatenation deletes them from each half. */
  lemma {:induction false} StripAppend(a: string, b: string)
    ensures StripPhoneFormatting(a + b) == StripPhoneFormatting(a) + StripPhoneFormatting(b)
    decreases |a|
  {
    if a == [] {
      assert a + b == b;
    } else {
      assert (a + b)[1..] == a[1..] + b;
      StripAppend(a[1..], b);
    }
  }

  /** A string without formatting characters comes through unchanged. */
  lemma {:induction false} StripKeepsPlain(s: string)
    requires forall i :: 0 <= i < |s| ==> !IsPhoneFormatting(s[i])
    ensures StripPhoneFormatting(s) == s
    decreases |s|
  {
    if s != [] {
      assert !IsPhoneFormatting(s[0]);
      StripKeepsPlain(s[1..]);
      assert s == [s[0]] + s[1..];
    }
  }

  /** `isValidPhone`: the cleaned string is at least ten long and matches `^\d+$`. */
  predicate IsValidPhone(phone: string) {
    var cleaned := StripPhoneFormatting(phone);
    Utf16Length(cleaned) >= 10 && |cleaned| > 0 && AllDigits(cleaned)
  }

  /** The phone check as a property of the input: every character is a digit or formatting,
      and at least ten characters are not formatting. */
  lemma PhoneIff(phone: string)
    ensures IsValidPhone(phone) <==>
      && (forall i :: 0 <= i < |phone| ==> IsPhoneFormatting(phone[i]) || IsDigit(phone[i]))
      && |StripPhoneFormatting(phone)| >= 10
  {
    var cleaned := StripPhoneFormatting(phone);
    if AllDigits(cleaned) {
      assert Utf16Length(cleaned) == |cleaned| by {
        forall i | 0 <= i < |cleaned| ensures !IsAstral(cleaned[i]) {
          assert IsDigit(cleaned[i]);
        }
      }
      forall i | 0 <= i < |phone| && !IsPhoneFormatting(phone[i])
        ensures IsDigit(phone[i])
      {
        var c := phone[i];
        assert c in multiset(phone);
        assert c in multiset(cleaned);
        var k :| 0 <= k < |cleaned| && cleaned[k] == c;
      }
    } else {
      var k :| 0 <= k < |cleaned| && !IsDigit(cleaned[k]);
      var c := cleaned[k];
      assert c in multiset(cleaned);
      assert c in multiset(phone);
      var i :| 0 <= i < |phone| && phone[i] == c;
    }
  }

  /** Stripping removes an inserted formatting character. */
  lemma StripIgnoresFormatting(a: string, b: string, f: char)
    requires IsPhoneFormatting(f)
    ensures StripPhoneFormatting(a + [f] + b) == StripPhoneFormatting(a + b)
  {
    assert [f][1..] == [];
    assert StripPhoneFormatting([f]) == [];
    StripAppend([f], b);
    assert a + [f] + b == a + ([f] + b);
    StripAppend(a, [f] + b);
    StripAppend(a, b);
  }

  /** Inserting a formatting character anywhere never changes the verdict. */
  lemma PhoneIgnoresFormatting(a: string, b: string, f: char)
    requires IsPhoneFormatting(f)
    ensures IsValidPhone(a + [f] + b) == IsValidPhone(a + b)
  {
    StripIgnoresFormatting(a, b, f);
  }

  /** Any character that is neither a digit nor formatting, a letter for one, makes the phone invalid. */
  lemma PhoneRejectsOtherCharacters(phone: string, i: nat)
    requires i < |phone| && !IsPhoneFormatting(phone[i]) && !IsDigit(phone[i])
    ensures !IsValidPhone(phone)
  {
    PhoneIff(phone);
  }

  /* ---------------------------------------------------------------- forms */

  /** The fields a validator can report on, each with the key it has in the `ValidationErrors`
      object: the partner form's `name`, `email` and `partnerType`, and the waitlist form's seven. */
  datatype FieldKey =
    | Name | Email | PartnerType
    | FirstName | LastName | Phone | HouseholdSize | Neighbourhood | UnitType
  {
    function Key(): string {
      match this
      case Name => "name"
      case Email => "email"
      case PartnerType => "partnerType"
      case FirstName => "firstName"
      case LastName => "lastName"
      case Phone => "phone"
      case HouseholdSize => "householdSize"
      case Neighbourhood => "neighbourhood"
      case UnitType => "unitType"
    }
  }

  /** Distinct fields have distinct keys, so a map over `FieldKey` is the keyed object. */
  lemma KeysDistinct(f: FieldKey, g: FieldKey)
    requires f != g
    ensures f.Key() != g.Key()
  {
  }

  /** The `ValidationErrors` object: field to message. */
  type Errors = map<FieldKey, string>

  datatype PartnerForm = PartnerForm(
    name: string,
    email: string,
    organization: Option<string>,
    partnerType: string,
    message: Option<string>)

  datatype WaitlistForm = WaitlistForm(
    firstName: string,
    lastName: string,
    email: string,
    phone: string,
    householdSize: string,
    neighbourhood: string,
    unitType: string)

  /** The message each field is reported with. */
  function ErrorMessage(f: FieldKey): string {
    match f
    case Name => "Please enter your name"
    case Email => "Please enter a valid email address"
    case PartnerType => "Please select a partnership type"
    case FirstName => "Please enter your first name"
    case LastName => "Please enter your last name"
    case Phone => "Please enter a valid phone number"
    case HouseholdSize => "Please select your household size"
    case Neighbourhood => "Please select your neighbourhood"
    case UnitType => "Please select your preferred unit type"
  }

  /** Every reported field carries its own message. */
  predicate WellReported(errors: Errors) {
    forall f :: f in errors ==> errors[f] == ErrorMessage(f)
  }

  /** `!name || name.trim().length < 2`: the trimmed name is empty or a single character that
      JavaScript counts as one. */
  lemma NameTooShortIff(value: string)
    ensures (value == "" || Utf16Length(Trim(value)) < 2) <==>
      var t := Trim(value); t == [] || (|t| == 1 && !IsAstral(t[0]))
  {
    Utf16LengthBelowTwo(Trim(value));
    if value == "" {
      assert Trim(value) == [];
    }
  }

  /** `!s || s.trim().length < 1`: the name is all white space. */
  lemma NameMissingIff(value: string)
    ensures (value == "" || Utf16Length(Trim(value)) < 1) <==> AllWhitespace(value)
  {
    TrimEmptyIff(value);
  }

  /** `!email || !isValidEmail(email)`: the empty string already fails the pattern. */
  lemma EmailCheckIff(value: string)
    ensures (value == "" || !IsValidEmail(value)) <==> !EmailShape(value)
  {
    EmailShapeIff(value);
  }

  /** `!phone || !isValidPhone(phone)`: the empty string already fails the phone check. */
  lemma PhoneCheckIff(value: string)
    ensures (value == "" || !IsValidPhone(value)) <==> !IsValidPhone(value)
  {
  }

  /** The partner form's fields. */
  const PartnerFields: set<FieldKey> := {Name, Email, PartnerType}

  /** What the partner form's check on field `f` rejects, stated directly: a name that trims to
      nothing or to one character of JavaScript length one, an e-mail without the accepted shape,
      an empty partnership type. */
  predicate PartnerRejected(f: FieldKey, value: string) {
    match f
    case Name => var t := Trim(value); t == [] || (|t| == 1 && !IsAstral(t[0]))
    case Email => !EmailShape(value)
    case PartnerType => value == ""
    case _ => false
  }

  /** The partner form's check on field `f` as the source writes it:
      `!name || name.trim().length < 2`, `!email || !isValidEmail(email)`, `!partnerType`. */
  function PartnerCheckFails(f: FieldKey, value: string): (fails: bool)
    ensures fails <==> PartnerRejected(f, value)
  {
    match f
    case Name =>
      NameTooShortIff(value);
      value == "" || Utf16Length(Trim(value)) < 2
    case Email =>
      EmailCheckIff(value);
      value == "" || !IsValidEmail(value)
    case PartnerType => value == ""
    case _ => false
  }

  /** What the partner form holds in field `f`. */
  function PartnerValue(data: PartnerForm, f: FieldKey): string {
    match f
    case Name => data.name
    case Email => data.email
    case PartnerType => data.partnerType
    case _ => ""
  }

  /** `validatePartnerForm`: exactly the partner fields whose own value is rejected, each with its
      message; empty exactly when every check passes. */
  function ValidatePartnerForm(data: PartnerForm): (errors: Errors)
    ensures forall f :: f in errors <==> f in PartnerFields && PartnerRejected(f, PartnerValue(data, f))
    ensures WellReported(errors)
    ensures |errors| == 0 <==> forall f :: f in PartnerFields ==> !PartnerRejected(f, PartnerValue(data, f))
  {
    var errors := map f | f in PartnerFields && PartnerCheckFails(f, PartnerValue(data, f)) :: ErrorMessage(f);
    assert |errors| == 0 <==> errors.Keys == {};
    errors
  }

  /** The partner checks field by field. */
  lemma PartnerErrorsByField(data: PartnerForm)
    ensures Name in ValidatePartnerForm(data) <==> var t := Trim(data.name); t == [] || (|t| == 1 && !IsAstral(t[0]))
    ensures Email in ValidatePartnerForm(data) <==> !EmailShape(data.email)
    ensures PartnerType in ValidatePartnerForm(data) <==> data.partnerType == ""
  {
    var errors := ValidatePartnerForm(data);
    assert Name in errors <==> var t := Trim(data.name); t == [] || (|t| == 1 && !IsAstral(t[0])) by {
      assert Name in PartnerFields;
    }
    assert Email in errors <==> !EmailShape(data.email) by {
      assert Email in PartnerFields;
    }
    assert PartnerType in errors <==> data.partnerType == "" by {
      assert PartnerType in PartnerFields;
    }
  }

  /** The partner form passes exactly when none of its three fields is reported. */
  lemma PartnerValidIff(data: PartnerForm)
    ensures |ValidatePartnerForm(data)| == 0 <==>
      && !PartnerRejected(Name, data.name) && EmailShape(data.email) && data.partnerType != ""
  {
    var errors := ValidatePartnerForm(data);
    assert Name in PartnerFields && Email in PartnerFields && PartnerType in PartnerFields;
    assert |errors| == 0 <==> errors.Keys == {};
  }

  /** The seven waitlist fields. */
  const WaitlistFields: set<FieldKey> :=
    {FirstName, LastName, Email, Phone, HouseholdSize, Neighbourhood, UnitType}

  /** What the waitlist form's check on field `f` rejects, stated directly: a first or last name
      that is all white space, an e-mail without the accepted shape, a phone the phone check
      refuses, an empty select. */
  predicate WaitlistRejected(f: FieldKey, value: string) {
    match f
    case FirstName | LastName => AllWhitespace(value)
    case Email => !EmailShape(value)
    case Phone => !IsValidPhone(value)
    case HouseholdSize | Neighbourhood | UnitType => value == ""
    case _ => false
  }

  /** The waitlist form's check on field `f` as the source writes it: `!s || s.trim().length < 1`
      for the names, `!email || !isValidEmail(email)`, `!phone || !isValidPhone(phone)`, and `!s`
      for the selects. */
  function WaitlistCheckFails(f: FieldKey, value: string): (fails: bool)
    ensures fails <==> WaitlistRejected(f, value)
  {
    match f
    case FirstName | LastName =>
      NameMissingIff(value);
      value == "" || Utf16Length(Trim(value)) < 1
    case Email =>
      EmailCheckIff(value);
      value == "" || !IsValidEmail(value)
    case Phone =>
      PhoneCheckIff(value);
      value == "" || !IsValidPhone(value)
    case HouseholdSize | Neighbourhood | UnitType => value == ""
    case _ => false
  }

  /** What the waitlist form holds in field `f`. */
  function WaitlistValue(data: WaitlistForm, f: FieldKey): string {
    match f
    case FirstName => data.firstName
    case LastName => data.lastName
    case Email => data.email
    case Phone => data.phone
    case HouseholdSize => data.householdSize
    case Neighbourhood => data.neighbourhood
    case UnitType => data.unitType
    case _ => ""
  }

  /** `validateWaitlistForm`: exactly the waitlist fields whose own value is rejected, each with
      its message. */
  function ValidateWaitlistForm(data: WaitlistForm): (errors: Errors)
    ensures forall f :: f in errors <==> f in WaitlistFields && WaitlistRejected(f, WaitlistValue(data, f))
    ensures WellReported(errors)
    ensures |errors| == 0 <==> forall f :: f in WaitlistFields ==> !WaitlistRejected(f, WaitlistValue(data, f))
  {
    var errors := map f | f in WaitlistFields && WaitlistCheckFails(f, WaitlistValue(data, f)) :: ErrorMessage(f);
    assert |errors| == 0 <==> errors.Keys == {};
    errors
  }

  /** Whether a waitlist field is reported depends on that field's value alone. */
  lemma WaitlistErrorsAreLocal(d1: WaitlistForm, d2: WaitlistForm, f: FieldKey)
    requires WaitlistValue(d1, f) == WaitlistValue(d2, f)
    ensures f in ValidateWaitlistForm(d1) <==> f in ValidateWaitlistForm(d2)
  {
  }

  /** The waitlist checks field by field. */
  lemma WaitlistErrorsByField(data: WaitlistForm)
    ensures FirstName in ValidateWaitlistForm(data) <==> AllWhitespace(data.firstName)
    ensures LastName in ValidateWaitlistForm(data) <==> AllWhitespace(data.lastName)
    ensures Email in ValidateWaitlistForm(data) <==> !EmailShape(data.email)
    ensures Phone in ValidateWaitlistForm(data) <==> !IsValidPhone(data.phone)
    ensures HouseholdSize in ValidateWaitlistForm(data) <==> data.householdSize == ""
    ensures Neighbourhood in ValidateWaitlistForm(data) <==> data.neighbourhood == ""
    ensures UnitType in ValidateWaitlistForm(data) <==> data.unitType == ""
  {
    var errors := ValidateWaitlistForm(data);
    assert FirstName in errors <==> AllWhitespace(data.firstName) by {
      assert FirstName in WaitlistFields;
    }
    assert LastName in errors <==> AllWhitespace(data.lastName) by {
      assert LastName in WaitlistFields;
    }
    assert Email in errors <==> !EmailShape(data.email) by {
      assert Email in WaitlistFields;
    }
    assert Phone in errors <==> !IsValidPhone(data.phone) by {
      assert Phone in WaitlistFields;
    }
    assert HouseholdSize in errors <==> data.householdSize == "" by {
      assert HouseholdSize in WaitlistFields;
    }
    assert Neighbourhood in errors <==> data.neighbourhood == "" by {
      assert Neighbourhood in WaitlistFields;
    }
    assert UnitType in errors <==> data.unitType == "" by {
      assert UnitType in WaitlistFields;
    }
  }
}
