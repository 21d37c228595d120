# HubSpot form submission and mobile detection, in Dafny

This project models two utilities of the website.

**HubSpot forms** (`src/lib/utils/hubspot.ts`). The site's partner-inquiry and waitlist forms go to the unauthenticated HubSpot Forms API v3. The model covers:

- the e-mail pattern `^[^\s@]+@[^\s@]+\.[^\s@]+$`;
- the phone check, which strips formatting characters and then requires at least ten ASCII digits;
- the two validators, which return a map from field key to error message;
- the lookup of the `hubspotutk` tracking cookie in `document.cookie`;
- the mapping of each form to HubSpot property names, including the split of the partner's name into first and last name;
- the request URL `<api>/<portalId>/<formId>`;
- the decision that turns validation, configuration and the response into a `SubmissionResult`. Validation errors come first. Demo mode applies when an identifier is unset. Otherwise the result is success, failure or network error, depending on the response.

**Mobile detection** (`src/lib/utils/mobile.svelte.ts`). This is a two-field state: whether the detector is initialized, and the reactive mobile flag. The breakpoint is 768 px. Initialization happens once and only in the browser. A resize event has an effect only after initialization, because the listener is registered during initialization.

The JavaScript built-ins the code relies on are modelled in `JsString`:

- `trim` and the regular-expression class `\s`, which share one white-space set;
- `length`, counted in UTF-16 code units;
- `split` and `join` with a one-character separator.

`IndexOf`, the first position of a character, is not a built-in the code calls. It is the vocabulary in which the pieces of a `split` are described: `split(sep)[0]` ends at `IndexOf(s, sep)`.

Strings are sequences of Unicode scalar values. `Utf16Length` recovers JavaScript's length, which matters for the check `name.trim().length < 2`: one character outside the Basic Multilingual Plane has length 2 and passes that check.

Modules:

- `Wrappers`: `Option`, JavaScript's `undefined`.
- `JsString`: the string built-ins.
- `Validation`: the e-mail and phone checks and the two validators.
- `Cookie`: the tracking-cookie lookup.
- `Submission`: field mapping, request building and the result decision.
- `Mobile`: the detector.
- `Scenarios`: worked instances.

The outside world enters as parameters:

- the three `PUBLIC_HUBSPOT_*` settings go to `LoadConfig`;
- `document.cookie` and `window.location.href` are an `Option` each in `Page`;
- `fetch` is a function `send: Request -> Response` whose outcome is `Ok`, `NotOk` or `Threw`;
- whether the code runs in a browser, and the window width, are plain arguments in `Mobile`.

One behaviour worth knowing: the name split does not trim. A partner name with a leading space passes validation, because validation trims. Its first piece before the space is empty, so the whole name becomes the first name and the rest of the name becomes the last name (`SplitNameLeadingSpace`, `Scenarios.NameScenario`).

## Model

| member | source | states |
|---|---|---|
| JsString.LeadingWhitespace | src/lib/utils/hubspot.ts:48 | the count covers only white space and stops at the first other character |
| JsString.TrailingWhitespace | src/lib/utils/hubspot.ts:48 | the count covers only white space at the end and stops at the last other character |
| JsString.Trim | src/lib/utils/hubspot.ts:48 | the result is the infix of the input that starts after the leading white space and is followed only by white space, and it neither starts nor ends with white space |
| JsString.TrimChars | src/lib/utils/hubspot.ts:48 | every character of the trimmed string occurs in the original |
| JsString.TrimNoop | src/lib/utils/hubspot.ts:48 | a string without white space at its ends is left unchanged by `trim` |
| JsString.TrimLeadingWhitespace | src/lib/utils/hubspot.ts:48 | a leading white-space character does not affect the result of `trim` |
| JsString.TrimIdempotent | src/lib/utils/hubspot.ts:48 | trimming twice is trimming once |
| JsString.TrimEmptyIff | src/lib/utils/hubspot.ts:140-146 | `trim` yields the empty string exactly when the input is all white space, which is when a first or last name counts as empty |
| JsString.Utf16Length | src/lib/utils/hubspot.ts:119 | JavaScript's `length` lies between the character count and twice it, and equals the character count exactly when no character is outside the Basic Multilingual Plane |
| JsString.Utf16LengthBelowTwo | src/lib/utils/hubspot.ts:119 | `length < 2` holds exactly for the empty string and for one Basic-Multilingual-Plane character |
| JsString.IndexOf | src/lib/utils/hubspot.ts:224 | the first position holding the character, or the length when the character is absent |
| JsString.IndexOfIsFirst | src/lib/utils/hubspot.ts:224 | the first-occurrence property determines the position |
| JsString.Split | src/lib/utils/hubspot.ts:46 | `split` yields at least one piece, no piece holds the separator, and the pieces join back to the input |
| JsString.Join | src/lib/utils/hubspot.ts:225 | `join` with a one-character separator; `SplitJoin` shows `split` undoes it |
| JsString.SplitJoin | src/lib/utils/hubspot.ts:46 | `split` undoes `join` when no piece holds the separator |
| JsString.SplitJoinStep | src/lib/utils/hubspot.ts:46 | the inductive step of that round trip: one more separator-free piece in front |
| JsString.SplitAfterPrefix | src/lib/utils/hubspot.ts:46 | a separator-free prefix is glued onto the first piece |
| JsString.SplitCount | src/lib/utils/hubspot.ts:46 | there is one more piece than there are separators |
| JsString.SplitAtFirst | src/lib/utils/hubspot.ts:224-225 | the first piece is the text before the first separator; the other pieces, joined, are the text after it |
| JsString.SplitRest | src/lib/utils/hubspot.ts:48 | the pieces after the first are exactly the pieces of the text after the first separator |
| JsString.SplitSecond | src/lib/utils/hubspot.ts:48 | with a separator present, the second piece runs from the first separator to the next one or to the end |
| JsString.SplitSingle | src/lib/utils/hubspot.ts:48 | `split` gives one piece exactly when the separator is absent |
| JsString.SplitFirstTwo | src/lib/utils/hubspot.ts:48 | the first two pieces, with the separator between them, are a prefix of the input, followed by the end of the input or another separator |
| Validation.IsValidEmail | src/lib/utils/hubspot.ts:59-62 | `isValidEmail`: the pattern transcribed as a bounded search for the '@' and '.' positions; `EmailShapeIff` states which addresses it accepts |
| Validation.EmailShapeIff | src/lib/utils/hubspot.ts:59-62 | the pattern matches exactly when the address has no white space, has exactly one '@' with text before it, and has a '.' after the '@' that is neither the first nor the last character of the domain |
| Validation.EmailPatternHasShape | src/lib/utils/hubspot.ts:60 | a match of the pattern has that shape |
| Validation.EmailShapeMatchesPattern | src/lib/utils/hubspot.ts:60 | an address of that shape matches the pattern |
| Validation.AtomOfSlice | src/lib/utils/hubspot.ts:60 | a non-empty stretch free of white space and '@' matches `[^\s@]+` |
| Validation.OnlyOccurrence | src/lib/utils/hubspot.ts:60 | a character counted once occurs at no other position |
| Validation.MatchHasShape | src/lib/utils/hubspot.ts:60 | a match at given '@' and '.' positions has that shape |
| Validation.StripPhoneFormatting | src/lib/utils/hubspot.ts:69 | no formatting character survives, and every other character is kept exactly as often as it occurs |
| Validation.StripAppend | src/lib/utils/hubspot.ts:69 | stripping distributes over concatenation |
| Validation.StripKeepsPlain | src/lib/utils/hubspot.ts:69 | a string without formatting characters is unchanged |
| Validation.IsValidPhone | src/lib/utils/hubspot.ts:67-71 | `isValidPhone`: strip the formatting characters, then at least ten ASCII digits and nothing else; `PhoneIff` states which numbers it accepts |
| Validation.PhoneIff | src/lib/utils/hubspot.ts:67-71 | a phone number is valid exactly when every character is a digit or a formatting character and at least ten characters are digits |
| Validation.StripIgnoresFormatting | src/lib/utils/hubspot.ts:69 | stripping removes an inserted formatting character, wherever it is inserted |
| Validation.PhoneIgnoresFormatting | src/lib/utils/hubspot.ts:69-70 | inserting a formatting character anywhere never changes the verdict |
| Validation.PhoneRejectsOtherCharacters | src/lib/utils/hubspot.ts:70 | any character other than a digit or formatting makes the number invalid |
| Validation.KeysDistinct | src/lib/utils/hubspot.ts:116-169 | distinct fields are reported under distinct keys of the errors object |
| Validation.NameTooShortIff | src/lib/utils/hubspot.ts:119 | `!name \|\| name.trim().length < 2` holds exactly when the trimmed name is empty or one Basic-Multilingual-Plane character |
| Validation.NameMissingIff | src/lib/utils/hubspot.ts:140-146 | `!s \|\| s.trim().length < 1` holds exactly when the name is all white space |
| Validation.EmailCheckIff | src/lib/utils/hubspot.ts:123 | `!email \|\| !isValidEmail(email)` holds exactly when the address lacks the e-mail shape |
| Validation.PhoneCheckIff | src/lib/utils/hubspot.ts:152 | the empty-string test in `!phone \|\| !isValidPhone(phone)` adds nothing to the phone check |
| Validation.PartnerCheckFails | src/lib/utils/hubspot.ts:119-129 | the source's per-field test (empty or too short after trimming, not an e-mail, no partnership type) fails exactly when the field is rejected by its stated meaning |
| Validation.ValidatePartnerForm | src/lib/utils/hubspot.ts:116-132 | a key appears exactly for a rejected partner field, each with that field's message, and the map is empty exactly when no field is rejected |
| Validation.PartnerErrorsByField | src/lib/utils/hubspot.ts:119-129 | field by field: `name` is reported iff its trimmed length is below 2, `email` iff the address lacks the e-mail shape, and `partnerType` iff it is empty |
| Validation.PartnerValidIff | src/lib/utils/hubspot.ts:116-132 | the partner form has no errors exactly when the name, the e-mail and the partnership type are all acceptable |
| Validation.WaitlistCheckFails | src/lib/utils/hubspot.ts:140-166 | the source's per-field test fails exactly when the waitlist field is rejected by its stated meaning |
| Validation.ValidateWaitlistForm | src/lib/utils/hubspot.ts:137-169 | a key appears exactly for a rejected waitlist field, each with its message, and the map is empty exactly when no field is rejected |
| Validation.WaitlistErrorsAreLocal | src/lib/utils/hubspot.ts:137-169 | whether a field is reported depends on that field's value alone |
| Validation.WaitlistErrorsByField | src/lib/utils/hubspot.ts:140-166 | field by field: names iff all white space, `email` iff no e-mail shape, `phone` iff not a valid phone number, the three selections iff empty |
| Cookie.ParseEntry | src/lib/utils/hubspot.ts:48 | the name is the trimmed entry up to its first '='; the value is missing exactly when there is no '=', and otherwise runs from the first '=' to the next one or to the end |
| Cookie.TrackingIndex | src/lib/utils/hubspot.ts:47-49 | the position of the first entry named `hubspotutk`, or the number of entries when none is |
| Cookie.FindTracking | src/lib/utils/hubspot.ts:47-53 | the loop returns the value of the first entry named `hubspotutk`, even when that entry has no value, and returns nothing when no entry has that name |
| Cookie.GetHubSpotCookie | src/lib/utils/hubspot.ts:43-54 | missing without a document; otherwise decided by the first `;`-separated entry named `hubspotutk`: its value, or missing when there is no such entry |
| Cookie.TrackingValueIsPlain | src/lib/utils/hubspot.ts:46-50 | a tracking value found never contains ';' or '=' |
| Cookie.EntryValueFromEntry | src/lib/utils/hubspot.ts:48 | an entry's value holds no '=' and only characters of that entry |
| Submission.LoadConfig | src/lib/utils/hubspot.ts:13-15 | a setting is '' exactly when it is unset or empty, and otherwise it is the value given |
| Submission.RequestUrl | src/lib/utils/hubspot.ts:191 | the submission URL; `RequestUrlRoundTrip` shows both identifiers can be read back from it |
| Submission.RequestUrlRoundTrip | src/lib/utils/hubspot.ts:191 | the URL starts with the API base followed by '/', and when neither identifier contains '/' the rest splits back into exactly the portal and form identifiers |
| Submission.BuildRequest | src/lib/utils/hubspot.ts:180-191 | the request goes to the form's URL and carries the given fields and page name; its `hutk` is the tracking cookie's value as `getHubSpotCookie` finds it, and its `pageUri` is `window.location.href`, or '' without a window |
| Submission.LookupDistinct | src/lib/utils/hubspot.ts:223-230 | when no earlier field has the same name, looking up a field's name finds that field's value |
| Submission.SplitName | src/lib/utils/hubspot.ts:224-225 | the first name is the text before the first space, or the whole name when that text is empty; the last name is everything after the first space |
| Submission.SplitNameWithoutSpace | src/lib/utils/hubspot.ts:224-225 | a name without a space is all first name, with an empty last name |
| Submission.SplitNameRejoins | src/lib/utils/hubspot.ts:224-225 | for a name with a space and no leading space, the first name has no space and the first name, a space and the last name give back the name |
| Submission.SplitNameLeadingSpace | src/lib/utils/hubspot.ts:224-225 | a name with a leading space is kept whole as the first name, and the rest of it becomes the last name |
| Submission.PartnerRequestFields | src/lib/utils/hubspot.ts:223-230 | six properties with distinct names, in the order firstname, lastname, email, company, partner_type, message |
| Submission.PartnerFieldValues | src/lib/utils/hubspot.ts:223-230 | looking up each partner property gives the split name, the e-mail, the organization or '', the partnership type, and the message or '' |
| Submission.WaitlistRequestFields | src/lib/utils/hubspot.ts:279-287 | seven properties with distinct names, in the order firstname, lastname, email, phone, household_size, neighbourhood, unit_type_preference |
| Submission.WaitlistFieldsRoundTrip | src/lib/utils/hubspot.ts:279-287 | the waitlist form can be read back from its field list by property name |
| Submission.Interpret | src/lib/utils/hubspot.ts:239-254 | success exactly on an `ok` response; the failure message exactly on a response without `ok`; the network message exactly when the request throws; never any errors |
| Submission.SubmitForm | src/lib/utils/hubspot.ts:207-254 | the result is well formed; errors appear exactly when validation found some; demo mode exactly when validation passed and an identifier is unset; otherwise the response alone decides |
| Submission.NoRequestBeforeValidation | src/lib/utils/hubspot.ts:207-218 | with validation errors or an unset identifier, the result does not depend on the network |
| Submission.SubmitPartnerForm | src/lib/utils/hubspot.ts:205-256 | well formed; reported errors are the validator's; no errors exactly when no field is rejected; success exactly when valid and either in demo mode or the request succeeded; the demo-mode message exactly when valid and an identifier is unset; once valid and configured, the success, failure and network-error messages exactly for an ok response, a response that is not ok, and a thrown request |
| Submission.SubmitWaitlistForm | src/lib/utils/hubspot.ts:261-313 | the same promises for the waitlist form with its own form identifier and page name, including which of the four messages the result carries |
| Mobile.CheckIsMobile | src/lib/utils/mobile.svelte.ts:51-54 | false outside the browser; in the browser, true below 768 px and false from 768 px on |
| Mobile.BreakpointBoundary | src/lib/utils/mobile.svelte.ts:10 | 767 px is mobile and 768 px is not |
| Mobile.CheckIsMobileMonotone | src/lib/utils/mobile.svelte.ts:53 | a narrower window than a mobile one is mobile too |
| Mobile.InitMobileDetection | src/lib/utils/mobile.svelte.ts:23-36 | nothing changes outside the browser or once initialized; otherwise the detector becomes initialized and reports the one-time check for the current width |
| Mobile.InitIdempotent | src/lib/utils/mobile.svelte.ts:24 | a second initialization changes nothing, whatever the width then |
| Mobile.OnResize | src/lib/utils/mobile.svelte.ts:26-35 | before initialization a resize changes nothing; afterwards the flag follows the new width |
| Mobile.StepConsistent | src/lib/utils/mobile.svelte.ts:16-44 | a mount or a resize keeps the detector consistent: once initialized it matches the one-time check of the current width, and before that it reports not mobile |
| Mobile.RunConsistent | src/lib/utils/mobile.svelte.ts:16-44 | any sequence of events keeps the detector consistent |
| Mobile.RunInitializedIff | src/lib/utils/mobile.svelte.ts:17-32 | the detector ends up initialized exactly when it was already initialized, or when it runs in the browser and a mount happened |
| Mobile.IsMobile | src/lib/utils/mobile.svelte.ts:42-44 | `isMobile`: the reactive flag; `FromLoad` states what it reports at any point after page load |
| Mobile.FromLoad | src/lib/utils/mobile.svelte.ts:16-44 | from page load, the reported flag matches the one-time check of the current width once mounted in the browser, and is false otherwise, including during server rendering |
| Scenarios.ShortestEmail | src/lib/utils/hubspot.ts:60 | `a@b.c` matches the pattern |
| Scenarios.EmailWithoutDot | src/lib/utils/hubspot.ts:60 | `a@b` does not match |
| Scenarios.EmailWithSpace | src/lib/utils/hubspot.ts:60 | `a b@c.d` does not match |
| Scenarios.NameScenario | src/lib/utils/hubspot.ts:224-225 | `Ada Lovelace` splits into `Ada` and `Lovelace`; ` Ada` gives first name ` Ada` and last name `Ada` |

## Left out

- `src/lib/utils/gsap.ts`, `src/lib/actions/animate.ts`, the Vite configuration and the route layout are not part of this model. They load and drive a third-party animation library and configure the build, and have no logic of their own to state.
- `fetch`, the `POST` method, the JSON content-type header and `JSON.stringify` are reduced to the `Request` value and the `send` parameter. The serialization omits an undefined `hutk`, which `Context` records as `None`.
- Reading `response.json()` and logging with `console.warn` and `console.error` on the failure paths are left out, because they do not affect the result.
- The 800 ms `setTimeout` pause in demo mode is left out, because the model has no clock.
- `import.meta.env` is replaced by the arguments of `LoadConfig`. The source reads the settings once at module load.
- `typeof window` and `typeof document` are replaced by parameters. `isBrowser` is fixed at module load in the source, and so is a single argument for a whole run in `Mobile`.
- `window.addEventListener` and Svelte's `$state` reactivity are left out. A resize is an explicit `Resize` event.
- Regular-expression matching in general is not modelled, only the two patterns the code uses, transcribed as predicates. Without the `u` flag JavaScript matches them on UTF-16 code units. A character outside the Basic Multilingual Plane becomes two units that are neither white space nor '@', so the verdict is the same as over characters.
- JavaScript strings that hold a lone surrogate cannot be represented, because strings here are sequences of Unicode scalar values. A lone surrogate is neither white space, nor '@', nor a digit, nor a formatting character, so every verdict on such a string would be the same as on the same string with any other character of that kind, such as 'x', in its place.
- The validators receive strings, as the TypeScript types state. The falsy test `!x` on a string is therefore the empty-string test. The optional `organization` and `message` are `Option`s.
- Submission.WaitlistRequestFields: its contract gives the count and the names in order. The values are stated by `Submission.WaitlistFieldsRoundTrip`.
- Submission.PartnerRequestFields: its contract gives the count and the names in order. The values are stated by `Submission.PartnerFieldValues`.
