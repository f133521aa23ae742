/**
 * Classification of a raw From/To value as a phone number or a Twilio SIP
 * URI (`ParseNumber`), and E.164 formatting (`FormatNumber`).
 */
module Numbers {
  import opened Results
  import opened GoStrings
  import opened Externals
  import opened Validators

  /** What `ParseNumber` reports about an endpoint. */
  datatype ParsedNumber = ParsedNumber(
    valid: bool,
    number: string,
    sip: bool,
    sipDomain: string,
    region: string,
    raw: string)

  /** Why libphonenumber refused a number. */
  datatype FormatError = Unparsable | NotValidNumber

  /** `FormatNumber`'s pair: the formatted number, or the input with an error. */
  datatype Formatted = Formatted(number: string, err: Option<FormatError>)

  /** `FormatNumber`: the E.164 form of a valid number; the input unchanged otherwise. */
  function FormatNumber(lib: PhoneLib, number: string): (r: Formatted)
    ensures r.err.Some? ==> r.number == number
    ensures r.err.None? <==> IsValidPhone(lib, number)
    ensures r.err.None? ==> r.number == lib.formatE164(lib.parse(number, DefaultRegion).value)
  {
    match lib.parse(number, DefaultRegion)
    case None => Formatted(number, Some(Unparsable))
    case Some(n) =>
      if !lib.isValid(n) then Formatted(number, Some(NotValidNumber))
      else Formatted(lib.formatE164(n), None)
  }

  /** The result for a value that is neither a phone number nor a Twilio SIP URI. */
  function Unrecognised(v: string): ParsedNumber {
    ParsedNumber(false, v, false, "", "", v)
  }

  /**
   * Host labels of a Twilio SIP domain, `<domain>.sip.<region>.twilio.com`:
   * at least five, ending in `twilio` and `com`, with `sip` fourth from the end.
   */
  predicate TwilioSIPLabels(labels: seq<string>) {
    var l := |labels|;
    l >= 5 && labels[l - 2] == "twilio" && labels[l - 1] == "com" && labels[l - 4] == "sip"
  }

  /** The host check as `ParseNumber` writes it, on the joined last two labels. */
  predicate HostCheck(labels: seq<string>) {
    var l := |labels|;
    l >= 5 && Join(labels[l - 2..], ".") == "twilio.com" && labels[l - 4] == "sip"
  }

  /** On labels split at dots, the joined-suffix check is the label-wise one. */
  lemma HostCheckIsLabelwise(labels: seq<string>)
    requires forall i :: 0 <= i < |labels| ==> '.' !in labels[i]
    ensures HostCheck(labels) <==> TwilioSIPLabels(labels)
  {
    var l := |labels|;
    if l >= 5 {
      var a, b := labels[l - 2], labels[l - 1];
      assert labels[l - 2..] == [a, b];
      assert Join([a, b], ".") == a + "." + b;
      assert "twilio.com" == "twilio" + "." + "com";
      if a + "." + b == "twilio" + "." + "com" {
        JoinPairInjective(a, b, "twilio", "com", '.');
      }
    }
  }

  /** `ParseNumber` recognises `v` as a Twilio SIP URI, stated label by label. */
  predicate IsTwilioSIPEndpoint(env: Env, v: string) {
    && ValidPhoneNumber(env.phone, Text(v), "").Fail?
    && ParseSIPURI(env, v).Success?
    && TwilioSIPLabels(Split(ParseSIPURI(env, v).value.hostname, '.'))
    && IsValidPhone(env.phone, Username(ParseSIPURI(env, v).value.user))
  }

  /**
   * `ParseNumber`: never fails; keeps the raw input; a valid phone number is
   * returned as is; a Twilio SIP URI yields the E.164 user part, the tenant
   * domain (labels before `sip`) and the `sip` label as region; anything else
   * is reported invalid with the input as its number.
   */
  function ParseNumber(env: Env, v: string): (r: ParsedNumber)
    ensures r.raw == v
    ensures ValidPhoneNumber(env.phone, Text(v), "").Pass? ==> r == ParsedNumber(true, v, false, "", "", v)
    ensures r.sip <==> IsTwilioSIPEndpoint(env, v)
    ensures r.valid <==> ValidPhoneNumber(env.phone, Text(v), "").Pass? || IsTwilioSIPEndpoint(env, v)
    ensures !r.valid ==> r == Unrecognised(v)
    ensures r.sip ==>
      var u := ParseSIPURI(env, v).value;
      var labels := Split(u.hostname, '.');
      var l := |labels|;
      && r.valid
      && r.number == FormatNumber(env.phone, Username(u.user)).number
      && r.sipDomain == Join(labels[..l - 4], ".")
      && r.region == "sip"
      && u.hostname == r.sipDomain + "." + Join([r.region, labels[l - 3], "twilio", "com"], ".")
  {
    if ValidPhoneNumber(env.phone, Text(v), "").Pass? then Unrecognised(v).(valid := true)
    else
      match ParseSIPURI(env, v)
      case Failure(_) => Unrecognised(v)
      case Success(u) => FromSIPUrl(env, v, u)
  }

  /**
   * The SIP branch of `ParseNumber`, once `parseSIPURI` has accepted `v` as
   * `u`: the host check, then formatting the user part.
   */
  function FromSIPUrl(env: Env, v: string, u: Url): (r: ParsedNumber)
    ensures r.sip <==> TwilioSIPLabels(Split(u.hostname, '.')) && IsValidPhone(env.phone, Username(u.user))
    ensures r.valid == r.sip
    ensures !r.sip ==> r == Unrecognised(v)
    ensures r.sip ==>
      var labels := Split(u.hostname, '.');
      var l := |labels|;
      && r.raw == v
      && r.number == FormatNumber(env.phone, Username(u.user)).number
      && r.sipDomain == Join(labels[..l - 4], ".")
      && r.region == "sip"
      && u.hostname == r.sipDomain + "." + Join([r.region, labels[l - 3], "twilio", "com"], ".")
  {
    var number := Unrecognised(v);
    var parts := Split(u.hostname, '.');
    var l := |parts|;
    HostCheckIsLabelwise(parts);
    if l < 5 || Join(parts[l - 2..], ".") != "twilio.com" || parts[l - 4] != "sip" then number
    else
      var formatted := FormatNumber(env.phone, Username(u.user));
      if formatted.err.Some? then number
      else
        HostFromMetadata(u.hostname, Join(parts[..l - 4], "."), parts[l - 4]);
        number.(valid := true, sip := true, number := formatted.number,
                sipDomain := Join(parts[..l - 4], "."), region := parts[l - 4])
  }

  /** A host whose labels pass the check is `<domain>.sip.<label>.twilio.com`. */
  lemma TwilioHostShape(host: string)
    requires TwilioSIPLabels(Split(host, '.'))
    ensures
      var labels := Split(host, '.');
      var l := |labels|;
      host == Join(labels[..l - 4], ".") + "." + Join(["sip", labels[l - 3], "twilio", "com"], ".")
  {
    var labels := Split(host, '.');
    var l := |labels|;
    var front, back := labels[..l - 4], labels[l - 4..];
    assert host == Join(labels, ".");
    assert labels == front + back;
    JoinAppend(front, back, ".");
    assert host == Join(front, ".") + "." + Join(back, ".");
    assert back == ["sip", labels[l - 3], "twilio", "com"];
  }

  /** A domain and region read off a Twilio host's labels put the host back together. */
  lemma HostFromMetadata(host: string, sipDomain: string, region: string)
    requires TwilioSIPLabels(Split(host, '.'))
    requires sipDomain == Join(Split(host, '.')[..|Split(host, '.')| - 4], ".") && region == "sip"
    ensures
      var labels := Split(host, '.');
      host == sipDomain + "." + Join([region, labels[|labels| - 3], "twilio", "com"], ".")
  {
    TwilioHostShape(host);
  }

  /**
   * A number `ParseNumber` reports valid passes the `From`/`To` validator.
   * The converse fails: any SIP URI passes the validator, but only a
   * Twilio SIP domain is a valid parsed number.
   */
  lemma ParsedValidIsAccepted(env: Env, v: string)
    ensures ParseNumber(env, v).valid ==> ValidFromOrTo(env, Text(v), "").Pass?
  {
    if ParseNumber(env, v).valid && ValidPhoneNumber(env.phone, Text(v), "").Fail? {
      assert ParseSIPURI(env, v).Success?;
      assert v != "" by {
        assert !HasPrefix(ToLower(""), "sip");
      }
    }
  }

  /** The phone-number branch of `FormatNumber` agrees with the validator's. */
  lemma FormatAgreesWithValidator(lib: PhoneLib, s: string)
    ensures FormatNumber(lib, s).err.None? <==> ValidatePhoneNumber(lib, s).Pass?
  {
  }

  /** A plain phone number is reported as given, not re-formatted. */
  lemma PhoneNumberKeptRaw(env: Env)
    requires IsValidPhone(env.phone, "+18005642365")
    ensures ParseNumber(env, "+18005642365") == ParsedNumber(true, "+18005642365", false, "", "", "+18005642365")
  {
  }

  /**
   * A lower-case `sips:` URI on `<domain>.sip.<region>.<org>.<tld>` is a
   * Twilio SIP endpoint exactly when `<org>.<tld>` is `twilio.com` (and the
   * user part is a valid number): `domain.sip.us1.twilio.com` gives
   * domain `domain` and region `sip`, `domain.sip.us1.example.com` is invalid.
   */
  lemma SIPExample(env: Env, rest: string, user: string, domain: string, region: string, org: string, tld: string)
    requires ToLower(rest) == rest
    requires !IsValidPhone(env.phone, "sips:" + rest)
    requires '.' !in domain && '.' !in region && '.' !in org && '.' !in tld
    requires env.parseUrl("sips://" + rest)
      == Some(Url("sips", "", "", Join([domain, "sip", region, org, tld], ".") + ":5061",
                  Join([domain, "sip", region, org, tld], "."), Some(UserInfo(user, None))))
    requires user != "" && IsValidPhone(env.phone, user)
    ensures ParseNumber(env, "sips:" + rest).sip <==> org == "twilio" && tld == "com"
    ensures org == "twilio" && tld == "com" ==>
      ParseNumber(env, "sips:" + rest)
        == ParsedNumber(true, FormatNumber(env.phone, user).number, true, domain, "sip", "sips:" + rest)
    ensures !(org == "twilio" && tld == "com") ==>
      ParseNumber(env, "sips:" + rest) == Unrecognised("sips:" + rest)
  {
    var v := "sips:" + rest;
    var host := Join([domain, "sip", region, org, tld], ".");
    var u := Url("sips", "", "", host + ":5061", host, Some(UserInfo(user, None)));
    assert ValidPhoneNumber(env.phone, Text(v), "").Fail?;
    ExampleParses(env, rest, u);
    var labels := FiveLabels(domain, region, org, tld);
    assert labels[..1] == [domain];
    assert TwilioSIPLabels(labels) <==> org == "twilio" && tld == "com";
  }

  lemma ExampleParses(env: Env, rest: string, u: Url)
    requires ToLower(rest) == rest
    requires env.parseUrl("sips://" + rest) == Some(u)
    requires AcceptableSIPUrl(u)
    ensures ParseSIPURI(env, "sips:" + rest) == Success(u)
  {
    assert "sips" + ":" + rest == "sips:" + rest by {
      assert "sips" + ":" == "sips:";
    }
    assert "sips" + "://" + rest == "sips://" + rest by {
      assert "sips" + "://" == "sips://";
    }
    AcceptsLowerCaseSIPURI(env, "sips", rest);
  }

  lemma FiveLabels(domain: string, region: string, org: string, tld: string) returns (labels: seq<string>)
    requires '.' !in domain && '.' !in region && '.' !in org && '.' !in tld
    ensures labels == [domain, "sip", region, org, tld]
    ensures Split(Join(labels, "."), '.') == labels
  {
    labels := [domain, "sip", region, org, tld];
    SplitJoin(labels, '.');
  }
}
