# twiml in Dafny

A model of the core of the Go package `twiml`. The package is a small helper
for Twilio voice webhooks. The model covers three parts:

- **Inbound requests** (`request.go`, `validators.go`). `Request.ValidatePost`
  accepts only a POST. It rebuilds the message Twilio signs: the public URL,
  then every form field name and its first value, with names in ascending
  byte order. It compares the HMAC-SHA1 signature of that message with the
  single `X-Twilio-Signature` header. It then walks the fields in the same
  order: each field runs the validator that `fieldValidators` registers for it
  (`From` and `To` take a phone number or a SIP URI; `Digits` takes keypad
  characters), and each field that passes is copied into `Request.Values`.
  `ParseNumber` classifies a `From`/`To` value as a phone number that
  libphonenumber calls valid for region US (kept as given, not reformatted) or a
  Twilio SIP endpoint (`<domain>.sip.<region>.twilio.com`). `CallDuration` and
  `SequenceNumber` read integer fields.
- **Outbound responses** (`response.go`). These are the fluent builders for
  the TwiML verbs `Response`, `Gather`, `Dial`, `Say`, `Pause`, `Redirect`,
  `Number` and `Conference`, with their attribute setters. They also include
  the space-separated `statusCallbackEvent` list built by
  `ConferenceCallbackEvents().Start().Join()...`.
- **The Go library behaviour they rely on.** This covers `strings`
  (`ToLower`, `HasPrefix`, `Replace(…, 1)`, `Split`, `Join`, `TrimLeft`),
  `strconv.Atoi` with `Itoa` as its inverse, `sort.Strings`, and `int64`
  wrap-around.

Each Go function becomes a pure Dafny function. Errors become `Result`/`Outcome`
values with one constructor per error the Go code returns.

Three outside dependencies are parameters. They travel together in
`Externals.Env`:

- libphonenumber (`parse` with default region `"US"`, `isValid`, `formatE164`);
- `net/url.Parse`;
- the HMAC-SHA1-then-base64 signer.

The model proves what the package does with their answers. It does not model
how the answers are computed.

Go ranges over a map in no fixed order. `ValidatePost` therefore takes the
order as an argument, which must enumerate the form's keys exactly once.
`Webhook.ValidatePostOrderIndependent` proves that the result does not depend
on that order.

The validators accept Go's `interface{}` argument. It is modelled as
`Validators.Arg`, which is either a `string` (`Text`) or a `*string` (`Ref`, with
`None` for nil).

Modules: `Results`, `GoStrings`, `GoStrconv`, `GoSort`, `Externals`,
`Validators`, `Numbers`, `RequestValues`, `Webhook`, `Twiml`,
`ResponseBuilder`, `DialBuilder`, `SayBuilder`, `GatherBuilder`,
`RedirectBuilder`, `ConferenceBuilder`, `CallbackEvents`, `ResponseExamples`.

## Model

| member | source | states |
|---|---|---|
| Webhook.ValidatePost | request.go:147-210 | A non-POST request fails with the method named, and the values stay unchanged. A form that does not decode passes its error through, and the values stay unchanged. For a POST with a decoded form, the outcome is a signature mismatch exactly when there is not exactly one header value equal to the signature of the canonical message; that error carries the computed signature and the received value ("" unless exactly one). Otherwise the result is `LoopResult`: either every field passes and all are stored, or the least failing field (in name order) is reported with its value and cause, after exactly the fields below it were stored. |
| Webhook.ValidatePostOrderIndependent | request.go:162-166 | Two enumerations of the form's keys give the same `ValidatePost` result, so map iteration order does not matter. |
| Webhook.ValidatePostIdempotent | request.go:195-209 | Running `ValidatePost` again on the values a first run left gives the same result. |
| Webhook.LoopResultUnique | request.go:195-209 | The loop's specification determines its result: two results satisfying `LoopResult` for the same form and values are equal. |
| Webhook.LeastFailureUnique | request.go:196-204 | Two failing fields that both have no failing field sorting below them are the same field. |
| Webhook.StoreFieldsSorted | request.go:196-207 | The in-order loop over the sorted names meets the set-based `LoopResult` specification. |
| Webhook.StoreFields | request.go:196-207 | If no field fails, every field's first value is stored and the outcome is Pass. Otherwise the loop stops at the first failing position, reports `InvalidField(name, value, cause)`, and only the names before it are stored. |
| Webhook.FirstFailure | request.go:201-204 | This is the first failing position: its check fails and all earlier checks pass. `None` means every check passes. |
| Webhook.AllPassSorted | request.go:196-207 | When no sorted name fails, every form field passes, and storing the sorted names is storing the whole form. |
| Webhook.FailureSorted | request.go:196-207 | A failure at sorted position i means not every field passes. Every field sorting below name i passes, and the stored prefix is the fields sorting below it. |
| Webhook.PassesBelowFailure | request.go:196-205 | Every form field sorting strictly below the first failing name passes its check. |
| Webhook.StoredBelowFailure | request.go:196-207 | The first i sorted names are exactly the form fields sorting below name i, so storing them equals `StoreBefore`. |
| Webhook.StoredCons | request.go:206 | Storing the head field and then the rest equals storing all the names. |
| Webhook.StoredPrefixCons | request.go:206 | The same for a prefix: the head, then the rest of the first i names. |
| Webhook.StoreAllIdempotent | request.go:206 | Storing every field twice equals storing once. |
| Webhook.StoreBeforeIdempotent | request.go:206 | Storing the fields below a name twice equals storing once. |
| Webhook.CheckField | request.go:217-239 | Fields without an entry in the table always pass. `From` and `To` run `validFromOrTo`, and `Digits` runs `validateKeyPadEntry`; each gets its value as a string and an empty option. |
| Webhook.RegisteredFieldsRequired | request.go:217-239 | The table registers exactly `From`, `To` and `Digits`, and none uses `allowempty`, so an empty value for any of them fails with `Required`. |
| Webhook.RunValidator | request.go:201-205 | An empty value gets the empty rule of the option. A key-pad entry passes exactly when its characters are all in `0123456789#*`. A From/To value passes exactly when it is a valid phone number or a valid SIP URI. A failure is never the SIP error. |
| Webhook.CanonicalMessage | request.go:151-174 | The signed message begins with host + URL. |
| Webhook.SignatureAccepted | request.go:186 | Accepted exactly when the header list is the single computed signature. |
| Webhook.Authenticated | request.go:154-186 | Only a POST with a decoded form can be authenticated; for such a request, authentication holds exactly when the header list is the single signature of the canonical message. |
| Webhook.CanonicalMessageSpec | request.go:162-174 | The message is host + URL followed by name + first value for each field, in sorted name order. |
| Webhook.CanonicalMessageOrderIndependent | request.go:162-166 | Any two enumerations of the keys give the same message. |
| Webhook.FieldsMessageFirstValuesOnly | request.go:171-173 | Only the first value of each field enters the message. Forms that agree on first values give the same fields part. |
| Webhook.CanonicalMessageFirstValuesOnly | request.go:168-174 | Two forms with the same names and the same first values give the same signed message. |
| Validators.ValidFromOrTo | validators.go:16-27 | Passes exactly when the phone validator or the SIP validator passes. On failure the error reported is the phone validator's. |
| Validators.FromOrToReportsPhoneError | validators.go:17-26 | A failing `From`/`To` reports `Required` or an invalid phone number, never the SIP error. |
| Validators.ValidPhoneNumber | validators.go:31-56 | An absent value (empty string or nil pointer) passes exactly when the option is `allowempty`, and otherwise fails with `Required`. A present value passes exactly when libphonenumber parses it (region US) and calls it valid; otherwise it fails with the invalid-number error. |
| Validators.ValidatePhoneNumber | validators.go:58-68 | Passes exactly when the number parses in region US and is valid, and otherwise fails with the invalid-number error. |
| Validators.ValidateKeyPadEntry | validators.go:70-95 | Same empty convention. A present value passes exactly when all its characters are in `0123456789#*`; a failure names the first character that is not. |
| Validators.ValidateNumericPoundStar | validators.go:97-99 | Passes exactly when every character is one of `0123456789#*`; a failure names the first character that is not. |
| Validators.KeyPadEntryAccepted | validators.go:70-99 | A string entry passes exactly when it is non-empty and all keypad characters, or empty with `allowempty`. |
| Validators.CharacterList | validators.go:103-111 | Passes exactly when every character is in the list. A failure names a character that is not in the list and has only listed characters before it, i.e. the first offender. |
| Validators.KeyPadAcceptsExample | validators.go:97-99 | `123#*0` is accepted. |
| Validators.KeyPadRejectsExample | validators.go:103-108 | `12a3` is rejected, naming `a`. |
| Validators.Present | validators.go:32-52 | The value is absent exactly for `""` and a nil pointer. Otherwise it is the string, or the string the pointer holds. |
| Validators.EmptyConvention | validators.go:31-135 | For an absent value all four validators return the same outcome: pass exactly under `allowempty`, else `Required`. |
| Validators.RewriteScheme | validators.go:152-156 | `sips:` becomes `sips://` and `sip:` becomes `sip://`; `sips:` is checked first. Anything else is unchanged. |
| Validators.RewriteOnlyFirst | validators.go:152-156 | Only the leading scheme is rewritten (`sip:sip:x` becomes `sip://sip:x`). `sipx:a` is left alone. |
| Validators.ParseSIPURI | validators.go:144-179 | Succeeds exactly when all of these hold: the lower-cased URI starts with `sip`; the rewritten URI parses; the scheme is `sip` or `sips`; the path and opaque part are empty; the host is set; and the user info renders non-empty. The URL returned is the parsed one, and every failure is the invalid-SIP-URI error. |
| Validators.ParseSIPURICaseInsensitive | validators.go:145 | Parsing a URI equals parsing its lower-case form. |
| Validators.RejectsNonSIPSchemes | validators.go:147-149 | A phone number and any `https://` URL are rejected without consulting the URL parser. |
| Validators.AcceptsLowerCaseSIPURI | validators.go:115-178 | For `sip:`/`sips:` followed by lower-case text, the URL parser sees `scheme://text`. The value is accepted exactly when that parse yields an acceptable SIP URL. |
| Validators.ValidSIPURI | validators.go:115-142 | Same empty convention. A present value passes exactly when `parseSIPURI` succeeds. |
| Numbers.ParseNumber | request.go:74-110 | Never fails, and keeps the raw input. A valid phone number is returned as given, unformatted. The value is a SIP endpoint exactly when it is not a phone number, parses as a SIP URI, its host labels end in `sip.<x>.twilio.com` with at least five labels, and its user part is a valid number. Then the number is the E.164 user part, the domain is the labels before `sip`, the region is `"sip"`, and the host equals domain + "." + region + "." + label + ".twilio.com". Any other value is reported invalid, with the input as its number. |
| Numbers.FromSIPUrl | request.go:91-109 | For a URI `parseSIPURI` accepted: a SIP endpoint exactly when the host labels pass the Twilio check and the user part is a valid number. The result is valid exactly when it is SIP, and otherwise it is the unrecognised result. When SIP, the number is the formatted user part, the domain is the labels before `sip`, the region is `"sip"`, and the host is rebuilt from them. |
| Numbers.HostCheckIsLabelwise | request.go:91-96 | On labels split at dots, the joined-suffix test `Join(parts[l-2:], ".") == "twilio.com"` is the label-wise test `twilio`, `com`. |
| Numbers.TwilioHostShape | request.go:91-107 | A host passing the check is its leading labels joined, then `.sip.<label>.twilio.com`. |
| Numbers.HostFromMetadata | request.go:106-107 | The domain and region read off the labels put the host back together. |
| Numbers.ParsedValidIsAccepted | request.go:74-110 | A number `ParseNumber` calls valid passes the `From`/`To` validator. |
| Numbers.SIPExample | request.go:86-109 | For `sips:` URIs on `<domain>.sip.<region>.<org>.<tld>` with a valid user: a SIP endpoint exactly when `<org>.<tld>` is `twilio.com`, with domain `<domain>` and region `sip`; otherwise invalid. |
| Numbers.PhoneNumberKeptRaw | request.go:80-84 | A valid phone number is reported valid, not SIP, and unformatted. |
| Numbers.FormatNumber | request.go:122-132 | The error is absent exactly when the number parses in region US and is valid, and the result is then the E.164 form. On error the input comes back unchanged. |
| Numbers.FormatAgreesWithValidator | request.go:122-132 | `FormatNumber` succeeds exactly when `validatePhoneNumber` passes. |
| RequestValues.CallDuration | request.go:25-36 | An absent or empty value is zero. Otherwise the call fails exactly when `Atoi` fails. The value equals the seconds times 10^9 modulo 2^64, and is exactly n seconds while that fits in `int64`. |
| RequestValues.CallDurationReadsSeconds | request.go:25-36 | Any in-range n written in decimal reads back as n seconds. |
| RequestValues.CallDurationWraps | request.go:35 | Above about 292 years the call still succeeds, with a value that is not n seconds. |
| RequestValues.CallDurationExamples | request.go:25-36 | `12` is twelve seconds, `11 sec` is an error, and an absent field is zero. |
| RequestValues.SequenceNumber | request.go:39-50 | An absent or empty value is 0; otherwise the result is the `Atoi` result. |
| RequestValues.SequenceNumberReadsBack | request.go:39-50 | Any `int` written in decimal reads back unchanged. |
| RequestValues.From | request.go:64-66 | The raw `From` value is kept, and a valid result passes the `From` validator. |
| RequestValues.To | request.go:69-71 | The raw `To` value is kept, and a valid result passes the `To` validator. |
| GoStrconv.Atoi | request.go:28 | Succeeds exactly when an optional `+` or `-` is followed by at least one digit, all digits, whose signed value fits in `int64`; the value is then that signed value (leading zeros and `+` allowed). Otherwise the error names the input. |
| GoStrconv.AtoiPlusSign | request.go:28 | A leading `+` before an unsigned string reads the same value, and fails exactly when the string without it fails. |
| GoStrconv.AtoiLeadingZero | request.go:28 | A leading zero before a run of digits reads the same value, and fails exactly when the digits alone fail. |
| GoStrconv.AtoiItoa | request.go:28 | `Atoi` reads back every `int64` written in decimal. |
| GoStrconv.Wrap64 | request.go:35 | The identity on `int64`, and always congruent modulo 2^64. |
| GoSort.SortStrings | request.go:166 | The output is sorted and is a permutation of the input. |
| GoSort.SortedUnique | request.go:166 | Two sorted permutations of each other are equal. |
| GoSort.SortIndependentOfOrder | request.go:162-166 | Sorting any two enumerations of the same key set gives the same list. |
| GoSort.SortedEnumerationUnique | request.go:162-166 | The sorted key list is the only sorted enumeration of the keys. |
| GoSort.SortedEnumerates | request.go:162-166 | Sorting an enumeration of the keys gives an enumeration of the keys. |
| GoSort.SortedPrefixBelow | request.go:166-169 | In a sorted enumeration, the names before position i are exactly the keys sorting strictly below name i. |
| GoSort.LessEqTotal | request.go:166 | Byte-wise string order is total. |
| GoSort.LessEqAntisymmetric | request.go:166 | It is antisymmetric. |
| GoSort.LessEqTransitive | request.go:166 | It is transitive. |
| GoStrings.Split | request.go:91 | At least one piece; no piece contains the separator; joining the pieces gives the input back. |
| GoStrings.SplitJoin | request.go:91-106 | Splitting the join of separator-free pieces gives the pieces back. |
| GoStrings.JoinPairInjective | request.go:94 | Two separator-free words joined by the separator determine both words. |
| GoStrings.JoinAppend | request.go:106 | Joining two non-empty lists puts one separator between their joins. |
| GoStrings.JoinEnds | request.go:94 | A join of a non-empty list starts with the first part, followed by the separator when there are more parts, and ends with the last part. |
| GoStrings.ToLowerIdempotent | validators.go:145 | Lower-casing twice equals lower-casing once. |
| GoStrings.ToLower | validators.go:145 | Same length; the result holds no ASCII upper-case letter; every other character is kept. |
| GoStrings.HasPrefix | validators.go:147 | Holds exactly when the prefix is no longer than the string and agrees with it position by position. |
| GoStrings.ReplaceFirst | validators.go:153-155 | Without an occurrence the string is unchanged. Otherwise exactly the first occurrence is replaced. |
| GoStrings.IndexFrom | validators.go:153-155 | The first occurrence at or after a position, or none at any position. |
| GoStrings.TrimLeft | response.go:428 | Drops a prefix made only of the trimmed character, and what remains does not start with it. |
| ResponseBuilder.NewResponse | response.go:31-33 | A new response has no verbs. |
| ResponseBuilder.Gather | response.go:36-40 | Appends exactly the given gather after the existing verbs. |
| ResponseBuilder.Dial | response.go:42-46 | Appends exactly the given dial after the existing verbs. |
| ResponseBuilder.Say | response.go:48-52 | Appends exactly the given say after the existing verbs. |
| ResponseBuilder.Pause | response.go:54-58 | Appends one pause of the given length after the existing verbs. |
| ResponseBuilder.Redirect | response.go:60-64 | Appends exactly the given redirect after the existing verbs. |
| ResponseBuilder.NewPause | response.go:242-244 | The pause has the given length. |
| ResponseBuilder.ChainAppendsInCallOrder | response.go:36-64 | Any chain of builder calls appends one verb per call, in call order, after the existing verbs. |
| DialBuilder.NewDial | response.go:105-107 | A new dial has no nested verbs and no attributes. |
| DialBuilder.NewNumber | response.go:172-174 | The number holds the given text. |
| DialBuilder.Number | response.go:110-114 | Appends the number to the dial's verbs and changes nothing else. |
| DialBuilder.Conference | response.go:116-120 | Appends the conference to the dial's verbs and changes nothing else. |
| SayBuilder.NewSay | response.go:155-157 | The message with no voice. |
| SayBuilder.VoiceSay | response.go:125-130 | The message in the receiver voice. |
| SayBuilder.SetVoice | response.go:160-163 | Sets the voice and changes nothing else. |
| GatherBuilder.NewGather | response.go:195-197 | No verbs, `finishOnKey` absent, and every one of the eleven other attributes at its zero value (empty string, 0 or false). |
| GatherBuilder.Say | response.go:200-204 | Appends the say inside the gather and changes nothing else. |
| GatherBuilder.Pause | response.go:206-210 | Appends a pause of the given length inside the gather and changes nothing else. |
| GatherBuilder.SetInput | response.go:212-216 | Sets `input` and changes nothing else. |
| GatherBuilder.SetAction | response.go:218-222 | Sets `action` and changes nothing else. |
| GatherBuilder.SetMethod | response.go:224-228 | Sets `method` and changes nothing else. |
| GatherBuilder.SetTimeout | response.go:230-234 | Sets `timeout` and changes nothing else. |
| RedirectBuilder.NewRedirect | response.go:254-256 | The target with no method. |
| RedirectBuilder.SetMethod | response.go:259-262 | Sets `method` and changes nothing else. |
| ConferenceBuilder.NewConference | response.go:306-308 | The name is set, the two pointer attributes are absent, and each of the sixteen other attributes has its zero value (empty string, 0 or false). |
| ConferenceBuilder.SetMuted | response.go:311-315 | Sets `muted` and changes nothing else. |
| ConferenceBuilder.SetBeep | response.go:317-321 | Sets `beep` and changes nothing else. |
| ConferenceBuilder.SetStartConferenceOnEnter | response.go:323-327 | Makes the attribute present with the given value (even `false`) and changes nothing else. |
| ConferenceBuilder.SetEndConferenceOnExit | response.go:329-333 | Sets `endConferenceOnExit` and changes nothing else. |
| ConferenceBuilder.SetWaitURL | response.go:335-339 | Makes `waitUrl` present with the given value (even empty) and changes nothing else. |
| ConferenceBuilder.SetWaitMethod | response.go:341-345 | Sets `waitMethod` and changes nothing else. |
| ConferenceBuilder.SetMaxParticipants | response.go:347-351 | Sets `maxParticipants` and changes nothing else. |
| ConferenceBuilder.SetRecord | response.go:353-357 | Sets `record` and changes nothing else. |
| ConferenceBuilder.SetRegion | response.go:359-363 | Sets `region` and changes nothing else. |
| ConferenceBuilder.SetTrim | response.go:365-369 | Sets `trim` and changes nothing else. |
| ConferenceBuilder.SetCoach | response.go:371-375 | Sets `coach` and changes nothing else. |
| ConferenceBuilder.SetStatusCallbackEvent | response.go:377-381 | Sets `statusCallbackEvent` and changes nothing else. |
| ConferenceBuilder.SetStatusCallback | response.go:383-387 | Sets `statusCallback` and changes nothing else. |
| ConferenceBuilder.SetStatusCallbackMethod | response.go:389-393 | Sets `statusCallbackMethod` and changes nothing else. |
| ConferenceBuilder.SetRecordingStatusCallback | response.go:395-399 | Sets `recordingStatusCallback` and changes nothing else. |
| ConferenceBuilder.SetRecordingStatusCallbackMethod | response.go:401-405 | Sets `recordingStatusCallbackMethod` and changes nothing else. |
| ConferenceBuilder.SetRecordingStatusCallbackEvent | response.go:407-411 | Sets `recordingStatusCallbackEvent` and changes nothing else. |
| ConferenceBuilder.SetEventCallbackURL | response.go:413-417 | Sets `eventCallbackUrl` and changes nothing else. |
| CallbackEvents.NoEvents | response.go:422-424 | The list starts empty. |
| CallbackEvents.Token | response.go:426-459 | Every event name is non-empty and has no space. |
| CallbackEvents.Add | response.go:426-459 | On the empty list the result is the name alone. On a list not starting with a space, the name is appended after one space. |
| CallbackEvents.Enable | response.go:422-459 | The chain is empty exactly when no event was enabled, and a non-empty chain never starts with a space. |
| CallbackEvents.TrimLeftStopsAt | response.go:428 | Trimming stops at the first character that is not a space. |
| CallbackEvents.EnableStep | response.go:426-459 | Each event after the first adds a space and its name. |
| CallbackEvents.EnableSingle | response.go:422-430 | One event on the empty list is its name alone. |
| CallbackEvents.EnableJoinsTokens | response.go:419-459 | A chain of events is their names joined by single spaces, in call order. |
| CallbackEvents.EnableSplitsBack | response.go:419-459 | Splitting the attribute at spaces gives back the enabled names in order. |
| ResponseExamples.DialThenSay | response.go:31-174 | `NewResponse().Dial(NewDial().Number(NewNumber(n))).Say(NewSay(m))` equals the literal response with a dial holding n, then a say of m. |
| ResponseExamples.GatherMenu | response.go:31-262 | The gather-menu chain equals the literal response: the gather with its four attributes and three nested verbs, then a say, a pause and a redirect with method POST. |

## Left out

- Rendering. `Response.Render`/`RenderTo` (XML encoding, the `omitempty` rules) and the OpenCensus tracing spans are left out. The model stops at the verb values that would be encoded; the pointer attributes are kept as `Option` so the "absent vs. empty" distinction the encoder sees is preserved.
- `RequestValues.TimestampOrNow`: it reads the clock and parses RFC 1123 dates.
- `NewRequest` is not modelled separately: a `Webhook.Request` value is the request it builds.
- Outside libraries are parameters of `Externals.Env`, not implementations: libphonenumber's parse/validity/E.164 formatting, `net/url.Parse`, and HMAC-SHA1 with base64.
- Webhook.ValidatePost: does not model the signature check as unforgeable or constant-time. It compares with Go's `!=` as written. It also leaves out the unreachable `hash.Write` short-write branch.
- `url.URL.User.String()` escaping is not modelled: `Externals.UserStringEmpty` says only when the rendered user info is empty (no user, or an empty name without a password).
- GoStrings.ToLower: maps only ASCII `A`–`Z`, where Go's `strings.ToLower` also lower-cases other Unicode letters (for instance `İ` to `i`). The lowered string is both what the `sip` prefix test sees and what `url.Parse` receives, so on non-ASCII input the model's `Validators.ParseSIPURI`, `Validators.ValidSIPURI`, `Validators.ValidFromOrTo` and `Numbers.ParseNumber` can differ from Go: an address such as `sİp:…` or one with `İ` in its host labels is accepted by Go and rejected or left unrecognised by the model.
- GoStrconv.Atoi: does not distinguish a syntax error from a range error; both are `NumError(input)`. The `errors.Wrap` context strings are also left out.
- The validators' third branch (`Unexpected type`) is unreachable from the package: the table passes only strings. `Validators.Arg` therefore has only the string and `*string` cases.
- Validators.ParseSIPURI: returns only the error when the URL parsed but was rejected. The Go function also returns the rejected URL, which every caller ignores.
- Pointer aliasing in the builders is left out. The Go builders mutate in place and return the same pointer. A verb appended to a response can still be changed through another reference, and the value model does not represent that.
- Strings are sequences of characters. Go ranges over runes in `characterList` and compares bytes in `sort.Strings`; code-point order and byte order agree, and ranging over runes visits the characters in order, on all valid UTF-8; invalid UTF-8 is not modelled.
- Error message texts are left out: each error is a constructor carrying its data.

## Behaviour kept as written

Some behaviours look surprising. The package's comments say nothing about
them, and the model keeps them as the code is written:

- `Region` is always `"sip"`, the fourth label from the end.
- An empty `From`, `To` or `Digits` field fails with `Required`, because the
  table passes an empty option rather than `allowempty`.
- The values stored before a failing field stay in `Request.Values`, although a
  request that fails validation would be expected to expose none of its values
  (`Webhook.FailureSorted`, `Webhook.ValidatePost`).
- `CallDuration` wraps around silently beyond about 292 years
  (`RequestValues.CallDurationWraps`).
