/** Submitting the partner and waitlist forms to the HubSpot Forms API v3: mapping a form to
    the `(name, value)` field list, building the request, and deciding the `SubmissionResult`
    from validation, configuration and the response. The network is a parameter `send`. */
module Submission {
  import opened Wrappers
  import opened JsString
  import opened Validation
  import opened Cookie

  const HUBSPOT_API_URL := "https://api.hsforms.com/submissions/v3/integration/submit"

  /** A HubSpot form property and the value submitted for it. */
  datatype Field = Field(name: string, value: string)

  /** The page context sent with the fields; a missing `hutk` is left out of the JSON. */
  datatype Context = Context(hutk: Option<string>, pageUri: string, pageName: string)

  datatype Payload = Payload(fields: seq<Field>, context: Context)

  /** A POST of `payload`, serialized as JSON, to `url`. */
  datatype Request = Request(url: string, payload: Payload)

  /** How the request ended: a response with `ok` set, a response without it, or a thrown error. */
  datatype Response = Ok | NotOk | Threw

  /** The `PUBLIC_HUBSPOT_*` settings after `|| ''`. */
  datatype Config = Config(portalId: string, partnerFormId: string, waitlistFormId: string)

  /** What the browser offers: `document.cookie` when there is a document, and
      `window.location.href` when there is a window. */
  datatype Page = Page(cookie: Option<string>, href: Option<string>)

  /** `SubmissionResult`: `errors` and `message` are both optional. */
  datatype SubmissionResult = SubmissionResult(success: bool, errors: Option<Errors>, message: Option<string>)

  const DEMO_MESSAGE := "Form submitted (demo mode)"
  const SUCCESS_MESSAGE := "Form submitted successfully"
  const FAILURE_MESSAGE := "Failed to submit form. Please try again or email us directly."
  const NETWORK_MESSAGE := "Network error. Please check your connection and try again."

  const PARTNER_PAGE := "Partner Inquiry"
  const WAITLIST_PAGE := "FAMILY 1 Waitlist"

  /** Reads the three settings, an unset one becoming ''. */
  function LoadConfig(portal: Option<string>, partner: Option<string>, waitlist: Option<string>): (c: Config)
    ensures c.portalId == "" <==> portal.None? || portal == Some("")
    ensures portal.Some? ==> c.portalId == portal.value
    ensures c.partnerFormId == "" <==> partner.None? || partner == Some("")
    ensures partner.Some? ==> c.partnerFormId == partner.value
    ensures c.waitlistFormId == "" <==> waitlist.None? || waitlist == Some("")
    ensures waitlist.Some? ==> c.waitlistFormId == waitlist.value
  {
    Config(portal.GetOr(""), partner.GetOr(""), waitlist.GetOr(""))
  }

  /** Both identifiers set: otherwise the submission runs in demo mode. */
  predicate Configured(portalId: string, formId: string) {
    portalId != "" && formId != ""
  }

  /* ---------------------------------------------------------------- request */

  /** `${HUBSPOT_API_URL}/${portalId}/${formId}`. */
  function RequestUrl(portalId: string, formId: string): string {
    HUBSPOT_API_URL + "/" + portalId + "/" + formId
  }

  /** The two identifiers can be read back from the URL when neither holds a '/'. */
  lemma RequestUrlRoundTrip(portalId: string, formId: string)
    requires '/' !in portalId && '/' !in formId
    ensures var url := RequestUrl(portalId, formId);
      && |url| > |HUBSPOT_API_URL| && url[..|HUBSPOT_API_URL|] == HUBSPOT_API_URL
      && url[|HUBSPOT_API_URL|] == '/'
      && Split(url[|HUBSPOT_API_URL| + 1..], '/') == [portalId, formId]
  {
    var url := RequestUrl(portalId, formId);
    var n := |HUBSPOT_API_URL|;
    assert url == HUBSPOT_API_URL + ("/" + (portalId + "/" + formId));
    assert url[n + 1..] == portalId + "/" + formId;
    assert [portalId, formId][1..] == [formId];
    assert Join([portalId, formId], '/') == portalId + "/" + formId;
    SplitJoin([portalId, formId], '/');
  }

  /** `submitToHubSpot` up to the `fetch`: the request it makes. */
  function BuildRequest(portalId: string, formId: string, fields: seq<Field>, pageName: string, page: Page): (req: Request)
    ensures req.url == RequestUrl(portalId, formId)
    ensures req.payload.fields == fields && req.payload.context.pageName == pageName
    ensures req.payload.context.hutk == GetHubSpotCookie(page.cookie)
    ensures req.payload.context.pageUri == page.href.GetOr("")
  {
    var context := Context(GetHubSpotCookie(page.cookie), page.href.GetOr(""), pageName);
    Request(RequestUrl(portalId, formId), Payload(fields, context))
  }

  /* ---------------------------------------------------------------- field mapping */

  /** The value of the first field called `name`, if any: how a consumer of the list reads it. */
  function Lookup(fields: seq<Field>, name: string): (r: Option<string>)
    ensures r.Some? <==> exists i :: 0 <= i < |fields| && fields[i].name == name
    ensures r.Some? ==> exists i :: 0 <= i < |fields| && fields[i] == Field(name, r.value)
  {
    if fields == [] then None
    else if fields[0].name == name then Some(fields[0].value)
    else
      var r := Lookup(fields[1..], name);
      assert forall i :: 0 < i < |fields| ==> fields[i] == fields[1..][i - 1];
      r
  }

  /** When no earlier field has the same name, looking that name up finds this field's value. */
  lemma {:induction false} LookupDistinct(fields: seq<Field>, i: nat)
    requires i < |fields|
    requires forall j :: 0 <= j < i ==> fields[j].name != fields[i].name
    ensures Lookup(fields, fields[i].name) == Some(fields[i].value)
  {
    if i > 0 {
      assert fields[0].name != fields[i].name;
      assert forall j :: 0 <= j < i - 1 ==> fields[1..][j] == fields[j + 1];
      LookupDistinct(fields[1..], i - 1);
    }
  }

  /** The partner name split: `name.split(' ')[0] || name` and `name.split(' ').slice(1).join(' ') || ''`.
      The first name is the text before the first space, or the whole name when that text is
      empty; the last name is everything after the first space. */
  function SplitName(name: string): (r: (string, string))
    ensures var k := IndexOf(name, ' ');
      && r.0 == (if k == 0 then name else name[..k])
      && r.1 == (if k < |name| then name[k + 1..] else "")
  {
    var parts := Split(name, ' ');
    SplitAtFirst(name, ' ');
    (if parts[0] != "" then parts[0] else name, Join(parts[1..], ' '))
  }

  /** A name with no space is all first name. */
  lemma SplitNameWithoutSpace(name: string)
    requires ' ' !in name
    ensures SplitName(name) == (name, "")
  {
    IndexOfIsFirst(name, ' ', |name|);
    assert name[..|name|] == name;
  }

  /** A name with a space and no leading space splits at its first space and rejoins exactly. */
  lemma SplitNameRejoins(name: string)
    requires ' ' in name && name[0] != ' '
    ensures var (first, last) := SplitName(name);
      && ' ' !in first && first != ""
      && first + " " + last == name
  {
    var k := IndexOf(name, ' ');
    assert k < |name|;
    assert k != 0;
    assert name == name[..k] + [name[k]] + name[k + 1..];
  }

  /** A leading space leaves an empty first piece, so the whole name, space included, becomes the
      first name and the rest of it the last name. */
  lemma SplitNameLeadingSpace(name: string)
    requires name != [] && name[0] == ' '
    ensures SplitName(name) == (name, name[1..])
  {
    IndexOfIsFirst(name, ' ', 0);
  }

  /** The property names of a field list, in order. */
  function Names(fields: seq<Field>): seq<string> {
    seq(|fields|, i requires 0 <= i < |fields| => fields[i].name)
  }

  /** `submitPartnerForm`'s field list: six properties with distinct names, in a fixed order. */
  function PartnerRequestFields(data: PartnerForm): (fields: seq<Field>)
    ensures |fields| == 6
    ensures Names(fields) == ["firstname", "lastname", "email", "company", "partner_type", "message"]
    ensures forall i, j :: 0 <= i < j < |fields| ==> fields[i].name != fields[j].name
  {
    var r := SplitName(data.name);
    var fields := [ Field("firstname", r.0),
                    Field("lastname", r.1),
                    Field("email", data.email),
                    Field("company", data.organization.GetOr("")),
                    Field("partner_type", data.partnerType),
                    Field("message", data.message.GetOr("")) ];
    assert Names(fields) == ["firstname", "lastname", "email", "company", "partner_type", "message"];
    fields
  }

  /** What HubSpot reads under each partner property: the split name, the e-mail, the
      organization or '', the partnership type, and the message or ''. */
  lemma PartnerFieldValues(data: PartnerForm)
    ensures var fields := PartnerRequestFields(data);
      && Lookup(fields, "firstname") == Some(SplitName(data.name).0)
      && Lookup(fields, "lastname") == Some(SplitName(data.name).1)
      && Lookup(fields, "email") == Some(data.email)
      && Lookup(fields, "company") == Some(data.organization.GetOr(""))
      && Lookup(fields, "partner_type") == Some(data.partnerType)
      && Lookup(fields, "message") == Some(data.message.GetOr(""))
  {
    var fields := PartnerRequestFields(data);
    LookupDistinct(fields, 0);
    LookupDistinct(fields, 1);
    LookupDistinct(fields, 2);
    LookupDistinct(fields, 3);
    LookupDistinct(fields, 4);
    LookupDistinct(fields, 5);
  }

  /** `submitWaitlistForm`'s field list: the seven values copied unchanged, in a fixed order. */
  function WaitlistRequestFields(data: WaitlistForm): (fields: seq<Field>)
    ensures Names(fields) == ["firstname", "lastname", "email", "phone", "household_size",
                              "neighbourhood", "unit_type_preference"]
    ensures |fields| == 7
    ensures forall i, j :: 0 <= i < j < |fields| ==> fields[i].name != fields[j].name
  {
    [ Field("firstname", data.firstName),
      Field("lastname", data.lastName),
      Field("email", data.email),
      Field("phone", data.phone),
      Field("household_size", data.householdSize),
      Field("neighbourhood", data.neighbourhood),
      Field("unit_type_preference", data.unitType) ]
  }

  /** Reads a waitlist form back out of a field list by property name. */
  function WaitlistFromFields(fields: seq<Field>): Option<WaitlistForm> {
    var firstName := Lookup(fields, "firstname");
    var lastName := Lookup(fields, "lastname");
    var email := Lookup(fields, "email");
    var phone := Lookup(fields, "phone");
    var householdSize := Lookup(fields, "household_size");
    var neighbourhood := Lookup(fields, "neighbourhood");
    var unitType := Lookup(fields, "unit_type_preference");
    if firstName.Some? && lastName.Some? && email.Some? && phone.Some?
      && householdSize.Some? && neighbourhood.Some? && unitType.Some?
    then Some(WaitlistForm(firstName.value, lastName.value, email.value, phone.value,
                           householdSize.value, neighbourhood.value, unitType.value))
    else None
  }

  /** The waitlist mapping loses nothing: the form can be read back from its fields. */
  lemma WaitlistFieldsRoundTrip(data: WaitlistForm)
    ensures WaitlistFromFields(WaitlistRequestFields(data)) == Some(data)
  {
    var fields := WaitlistRequestFields(data);
    LookupDistinct(fields, 0);
    LookupDistinct(fields, 1);
    LookupDistinct(fields, 2);
    LookupDistinct(fields, 3);
    LookupDistinct(fields, 4);
    LookupDistinct(fields, 5);
    LookupDistinct(fields, 6);
  }

  /* ---------------------------------------------------------------- result */

  /** Every result the submit functions return has this shape: errors exactly when there is no
      message, errors only on failure and never empty, and success exactly with the demo-mode or
      success message. */
  predicate WellFormed(r: SubmissionResult) {
    && (r.errors.Some? <==> r.message.None?)
    && (r.errors.Some? ==> !r.success && |r.errors.value| > 0)
    && (r.message.Some? ==> r.message.value in {DEMO_MESSAGE, SUCCESS_MESSAGE, FAILURE_MESSAGE, NETWORK_MESSAGE})
    && (r.message.Some? ==> (r.success <==> r.message.value in {DEMO_MESSAGE, SUCCESS_MESSAGE}))
  }

  /** The `try` block's outcome: success on an `ok` response, the failure message otherwise, and
      the network-error message when the request throws. */
  function Interpret(response: Response): (r: SubmissionResult)
    ensures WellFormed(r) && r.errors.None?
    ensures r.success <==> response == Ok
    ensures r.message == Some(FAILURE_MESSAGE) <==> response == NotOk
    ensures r.message == Some(NETWORK_MESSAGE) <==> response == Threw
  {
    match response
    case Ok => SubmissionResult(true, None, Some(SUCCESS_MESSAGE))
    case NotOk => SubmissionResult(false, None, Some(FAILURE_MESSAGE))
    case Threw => SubmissionResult(false, None, Some(NETWORK_MESSAGE))
  }

  /** The decision both submit functions make: validation errors first, then demo mode when an
      identifier is missing, then the response to the one request sent. */
  function SubmitForm(
    errors: Errors, portalId: string, formId: string, fields: seq<Field>, pageName: string,
    page: Page, send: Request -> Response): (r: SubmissionResult)
    ensures WellFormed(r)
    ensures r.errors.Some? <==> |errors| > 0
    ensures r.errors.Some? ==> r.errors.value == errors
    ensures r.message == Some(DEMO_MESSAGE) <==> |errors| == 0 && !Configured(portalId, formId)
    ensures |errors| == 0 && Configured(portalId, formId) ==>
      var response := send(BuildRequest(portalId, formId, fields, pageName, page));
      && (r.success <==> response == Ok)
      && (r.message == Some(FAILURE_MESSAGE) <==> response == NotOk)
      && (r.message == Some(NETWORK_MESSAGE) <==> response == Threw)
  {
    if |errors| > 0 then SubmissionResult(false, Some(errors), None)
    else if portalId == "" || formId == "" then SubmissionResult(true, None, Some(DEMO_MESSAGE))
    else Interpret(send(BuildRequest(portalId, formId, fields, pageName, page)))
  }

  /** Nothing is sent unless validation passed and both identifiers are set: up to that point,
      any two transports give the same result. */
  lemma NoRequestBeforeValidation(
    errors: Errors, portalId: string, formId: string, fields: seq<Field>, pageName: string,
    page: Page, send1: Request -> Response, send2: Request -> Response)
    requires |errors| > 0 || !Configured(portalId, formId)
    ensures SubmitForm(errors, portalId, formId, fields, pageName, page, send1)
         == SubmitForm(errors, portalId, formId, fields, pageName, page, send2)
  {
  }

  /** The request `submitPartnerForm` sends once the form is valid and configured. */
  function PartnerRequest(data: PartnerForm, config: Config, page: Page): Request {
    BuildRequest(config.portalId, config.partnerFormId, PartnerRequestFields(data), PARTNER_PAGE, page)
  }

  /** `submitPartnerForm`. */
  function SubmitPartnerForm(data: PartnerForm, config: Config, page: Page, send: Request -> Response): (r: SubmissionResult)
    ensures WellFormed(r)
    ensures r.errors.Some? ==> r.errors.value == ValidatePartnerForm(data)
    ensures r.errors.None? <==> forall f :: f in PartnerFields ==> !PartnerRejected(f, PartnerValue(data, f))
    ensures r.success <==>
      && r.errors.None?
      && (!Configured(config.portalId, config.partnerFormId) || send(PartnerRequest(data, config, page)) == Ok)
    ensures r.message == Some(DEMO_MESSAGE) <==>
      r.errors.None? && !Configured(config.portalId, config.partnerFormId)
    ensures r.errors.None? && Configured(config.portalId, config.partnerFormId) ==>
      var response := send(PartnerRequest(data, config, page));
      && (r.message == Some(SUCCESS_MESSAGE) <==> response == Ok)
      && (r.message == Some(FAILURE_MESSAGE) <==> response == NotOk)
      && (r.message == Some(NETWORK_MESSAGE) <==> response == Threw)
  {
    SubmitForm(ValidatePartnerForm(data), config.portalId, config.partnerFormId,
               PartnerRequestFields(data), PARTNER_PAGE, page, send)
  }

  /** The request `submitWaitlistForm` sends once the form is valid and configured. */
  function WaitlistRequest(data: WaitlistForm, config: Config, page: Page): Request {
    BuildRequest(config.portalId, config.waitlistFormId, WaitlistRequestFields(data), WAITLIST_PAGE, page)
  }

  /** `submitWaitlistForm`. */
  function SubmitWaitlistForm(data: WaitlistForm, config: Config, page: Page, send: Request -> Response): (r: SubmissionResult)
    ensures WellFormed(r)
    ensures r.errors.Some? ==> r.errors.value == ValidateWaitlistForm(data)
    ensures r.errors.None? <==> forall f :: f in WaitlistFields ==> !WaitlistRejected(f, WaitlistValue(data, f))
    ensures r.success <==>
      && r.errors.None?
      && (!Configured(config.portalId, config.waitlistFormId) || send(WaitlistRequest(data, config, page)) == Ok)
    ensures r.message == Some(DEMO_MESSAGE) <==>
      r.errors.None? && !Configured(config.portalId, config.waitlistFormId)
    ensures r.errors.None? && Configured(config.portalId, config.waitlistFormId) ==>
      var response := send(WaitlistRequest(data, config, page));
      && (r.message == Some(SUCCESS_MESSAGE) <==> response == Ok)
      && (r.message == Some(FAILURE_MESSAGE) <==> response == NotOk)
      && (r.message == Some(NETWORK_MESSAGE) <==> response == Threw)
  {
    SubmitForm(ValidateWaitlistForm(data), config.portalId, config.waitlistFormId,
               WaitlistRequestFields(data), WAITLIST_PAGE, page, send)
  }
}
