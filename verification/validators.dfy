/**
 * The field validators of the twiml package: the "allowempty" convention,
 * the DTMF character whitelist, the hand-written SIP URI check and the
 * phone-or-SIP combinator.
 */
module Validators {
  import opened Results
  import opened GoStrings
  import opened Externals

  /** The only validator option: an empty value passes instead of failing with `Required`. */
  const AllowEmpty := "allowempty"

  /** Characters a keypad (DTMF) entry may contain. */
  const KeyPadCharacters := "0123456789#*"

  /** The region phone numbers are parsed against. */
  const DefaultRegion := "US"

  /**
   * A validator's argument: Go passes either a `string` or a `*string`;
   * `Ref(None)` is the nil pointer.
   */
  datatype Arg = Text(s: string) | Ref(p: Option<string>)

  datatype ValidationError =
    | Required
    | InvalidPhoneNumber
    | InvalidSIPURI
    | CharacterNotAllowed(c: char)

  /**
   * The string a validator goes on to check, or `None` for the two values
   * that trigger the `Required` rule: the empty string and the nil pointer.
   * A non-nil pointer to an empty string is checked like any other string.
   */
  function Present(v: Arg): (r: Option<string>)
    ensures r.None? <==> v == Text("") || v == Ref(None)
    ensures r.Some? && v.Text? ==> r.value == v.s
    ensures r.Some? && v.Ref? ==> v.p == r
  {
    match v
    case Text(s) => if s == "" then None else Some(s)
    case Ref(p) => p
  }

  /** What every validator answers for an empty value. */
  function EmptyRule(param: string): Outcome<ValidationError> {
    if param == AllowEmpty then Pass else Fail(Required)
  }

  /** libphonenumber parses `num` for the default region and calls the result valid. */
  predicate IsValidPhone(lib: PhoneLib, num: string) {
    match lib.parse(num, DefaultRegion)
    case None => false
    case Some(n) => lib.isValid(n)
  }

  /** `validatePhoneNumber`. */
  function ValidatePhoneNumber(lib: PhoneLib, num: string): (r: Outcome<ValidationError>)
    ensures r.Pass? <==> IsValidPhone(lib, num)
    ensures r.Fail? ==> r.error == InvalidPhoneNumber
  {
    match lib.parse(num, DefaultRegion)
    case None => Fail(InvalidPhoneNumber)
    case Some(n) => if lib.isValid(n) then Pass else Fail(InvalidPhoneNumber)
  }

  /** `validPhoneNumber`. */
  function ValidPhoneNumber(lib: PhoneLib, v: Arg, param: string): (r: Outcome<ValidationError>)
    ensures Present(v).None? ==> (r.Pass? <==> param == AllowEmpty)
    ensures Present(v).None? && r.Fail? ==> r.error == Required
    ensures Present(v).Some? ==> (r.Pass? <==> IsValidPhone(lib, Present(v).value))
    ensures Present(v).Some? && r.Fail? ==> r.error == InvalidPhoneNumber
  {
    match Present(v)
    case None => EmptyRule(param)
    case Some(num) => ValidatePhoneNumber(lib, num)
  }

  /**
   * `characterList`: every character of `s` must occur in `list`; the error
   * names the first one, scanning left to right, that does not.
   */
  function CharacterList(s: string, list: string): (r: Outcome<ValidationError>)
    ensures r.Pass? <==> forall i :: 0 <= i < |s| ==> s[i] in list
    ensures r.Fail? ==>
      exists k :: 0 <= k < |s| && s[k] !in list && r.error == CharacterNotAllowed(s[k])
        && forall i :: 0 <= i < k ==> s[i] in list
    decreases |s|
  {
    if |s| == 0 then Pass
    else if s[0] !in list then Fail(CharacterNotAllowed(s[0]))
    else
      var r := CharacterList(s[1..], list);
      assert r.Fail? ==>
        exists k :: 0 <= k < |s| && s[k] !in list && r.error == CharacterNotAllowed(s[k])
          && forall i :: 0 <= i < k ==> s[i] in list
      by {
        if r.Fail? {
          var k :| 0 <= k < |s[1..]| && s[1..][k] !in list && r.error == CharacterNotAllowed(s[1..][k])
            && forall i :: 0 <= i < k ==> s[1..][i] in list;
          assert forall i :: 0 <= i < k + 1 ==> s[i] in list by {
            forall i | 0 <= i < k + 1
              ensures s[i] in list
            {
              if i > 0 {
                assert s[i] == s[1..][i - 1];
              }
            }
          }
        }
      }
      r
  }

  /** `validateNumericPoundStar`. */
  function ValidateNumericPoundStar(s: string): (r: Outcome<ValidationError>)
    ensures r.Pass? <==> forall i :: 0 <= i < |s| ==> s[i] in "0123456789#*"
    ensures r.Fail? ==>
      exists k :: 0 <= k < |s| && s[k] !in "0123456789#*" && r.error == CharacterNotAllowed(s[k])
        && forall i :: 0 <= i < k ==> s[i] in "0123456789#*"
  {
    CharacterList(s, KeyPadCharacters)
  }

  /** `validateKeyPadEntry`. */
  function ValidateKeyPadEntry(v: Arg, param: string): (r: Outcome<ValidationError>)
    ensures Present(v).None? ==> r == EmptyRule(param)
    ensures Present(v).Some? ==>
      (r.Pass? <==> forall i :: 0 <= i < |Present(v).value| ==> Present(v).value[i] in KeyPadCharacters)
    ensures Present(v).Some? && r.Fail? ==>
      var s := Present(v).value;
      exists k :: 0 <= k < |s| && s[k] !in KeyPadCharacters && r.error == CharacterNotAllowed(s[k])
        && forall i :: 0 <= i < k ==> s[i] in KeyPadCharacters
  {
    match Present(v)
    case None => EmptyRule(param)
    case Some(s) => ValidateNumericPoundStar(s)
  }

  /**
   * The scheme rewrite of `parseSIPURI`: the first `sips:` or `sip:` becomes
   * `sips://` or `sip://`. Since it is only done when the input starts with
   * that token, the rewrite always happens at the front.
   */
  function RewriteScheme(uri: string): (r: string)
    ensures HasPrefix(uri, "sips:") ==> r == "sips://" + uri[5..]
    ensures !HasPrefix(uri, "sips:") && HasPrefix(uri, "sip:") ==> r == "sip://" + uri[4..]
    ensures !HasPrefix(uri, "sips:") && !HasPrefix(uri, "sip:") ==> r == uri
  {
    if HasPrefix(uri, "sips:") then
      ReplaceFirstAtPrefix(uri, "sips:", "sips://");
      ReplaceFirst(uri, "sips:", "sips://")
    else if HasPrefix(uri, "sip:") then
      ReplaceFirstAtPrefix(uri, "sip:", "sip://");
      ReplaceFirst(uri, "sip:", "sip://")
    else uri
  }

  /** The structural checks `parseSIPURI` makes on a parsed URL. */
  predicate AcceptableSIPUrl(u: Url) {
    && (u.scheme == "sip" || u.scheme == "sips")
    && u.path == ""
    && u.opaquePart == ""
    && u.host != ""
    && !UserStringEmpty(u.user)
  }

  /** `parseSIPURI`. */
  function ParseSIPURI(env: Env, uri: string): (r: Result<Url, ValidationError>)
    ensures r.Failure? ==> r.error == InvalidSIPURI
    ensures !HasPrefix(ToLower(uri), "sip") ==> r.Failure?
    ensures r.Success? <==>
      && HasPrefix(ToLower(uri), "sip")
      && env.parseUrl(RewriteScheme(ToLower(uri))).Some?
      && AcceptableSIPUrl(env.parseUrl(RewriteScheme(ToLower(uri))).value)
    ensures r.Success? ==> env.parseUrl(RewriteScheme(ToLower(uri))) == Some(r.value)
  {
    var lower := ToLower(uri);
    if !HasPrefix(lower, "sip") then Failure(InvalidSIPURI)
    else
      match env.parseUrl(RewriteScheme(lower))
      case None => Failure(InvalidSIPURI)
      case Some(u) =>
        if u.scheme != "sip" && u.scheme != "sips" then Failure(InvalidSIPURI)
        else if u.path != "" || u.opaquePart != "" then Failure(InvalidSIPURI)
        else if u.host == "" || UserStringEmpty(u.user) then Failure(InvalidSIPURI)
        else Success(u)
  }

  /** `validSIPURI`. */
  function ValidSIPURI(env: Env, v: Arg, param: string): (r: Outcome<ValidationError>)
    ensures Present(v).None? ==> r == EmptyRule(param)
    ensures Present(v).Some? ==> (r.Pass? <==> ParseSIPURI(env, Present(v).value).Success?)
    ensures Present(v).Some? && r.Fail? ==> r.error == InvalidSIPURI
  {
    match Present(v)
    case None => EmptyRule(param)
    case Some(s) =>
      match ParseSIPURI(env, s)
      case Success(_) => Pass
      case Failure(e) => Fail(e)
  }

  /** `validFromOrTo`: a phone number, or failing that a SIP URI. */
  function ValidFromOrTo(env: Env, v: Arg, param: string): (r: Outcome<ValidationError>)
    ensures r.Pass? <==> ValidPhoneNumber(env.phone, v, param).Pass? || ValidSIPURI(env, v, param).Pass?
    ensures r.Fail? ==> r == ValidPhoneNumber(env.phone, v, param)
  {
    var phone := ValidPhoneNumber(env.phone, v, param);
    if phone.Pass? then Pass
    else if ValidSIPURI(env, v, param).Pass? then Pass
    else phone
  }

  /**
   * Every validator treats the empty string and the nil pointer alike:
   * they pass exactly when the option is "allowempty" and fail with
   * `Required` otherwise.
   */
  lemma EmptyConvention(env: Env, v: Arg, param: string)
    requires v == Text("") || v == Ref(None)
    ensures ValidPhoneNumber(env.phone, v, param) == EmptyRule(param)
    ensures ValidateKeyPadEntry(v, param) == EmptyRule(param)
    ensures ValidSIPURI(env, v, param) == EmptyRule(param)
    ensures ValidFromOrTo(env, v, param) == EmptyRule(param)
    ensures EmptyRule(param).Pass? <==> param == AllowEmpty
    ensures EmptyRule(param).Fail? ==> EmptyRule(param).error == Required
  {
  }

  /** A keypad entry passes iff it is a non-empty string of `0-9`, `#`, `*`, or empty and allowed to be. */
  lemma KeyPadEntryAccepted(s: string, param: string)
    ensures ValidateKeyPadEntry(Text(s), param).Pass? <==>
      (s != "" && forall i :: 0 <= i < |s| ==> s[i] in KeyPadCharacters)
      || (s == "" && param == AllowEmpty)
  {
  }

  /** The combined From/To validator only ever reports the phone-number error. */
  lemma FromOrToReportsPhoneError(env: Env, v: Arg, param: string)
    requires ValidFromOrTo(env, v, param).Fail?
    ensures ValidFromOrTo(env, v, param).error == Required
      || ValidFromOrTo(env, v, param).error == InvalidPhoneNumber
  {
  }

  /** Matching is case-insensitive: the whole input is lower-cased before anything else. */
  lemma ParseSIPURICaseInsensitive(env: Env, uri: string)
    ensures ParseSIPURI(env, uri) == ParseSIPURI(env, ToLower(uri))
  {
    ToLowerIdempotent(uri);
  }

  /**
   * Inputs that do not start with `sip` are rejected whatever the URL parser
   * does: phone numbers such as `+18002368945` and every `https://` URL.
   */
  lemma RejectsNonSIPSchemes(env: Env, rest: string)
    ensures ParseSIPURI(env, "+18002368945").Failure?
    ensures ParseSIPURI(env, "https://" + rest).Failure?
    ensures ValidSIPURI(env, Text("+18002368945"), "") == Fail(InvalidSIPURI)
  {
    assert ToLower("+18002368945")[..3][0] == '+';
    assert ToLower("https://" + rest)[..3][0] == 'h';
  }

  /** The rewrite touches only the leading scheme token, not later occurrences. */
  lemma RewriteOnlyFirst()
    ensures RewriteScheme("sip:sip:x") == "sip://sip:x"
    ensures RewriteScheme("sips:a@b") == "sips://a@b"
    ensures RewriteScheme("sipx:a") == "sipx:a"
  {
    assert HasPrefix("sip:sip:x", "sip:");
    assert "sip:sip:x"[..5][3] == ':';
    assert HasPrefix("sips:a@b", "sips:");
    assert "sipx:a"[..5][3] == 'x';
    assert "sipx:a"[..4][3] == 'x';
  }

  /**
   * A lower-case `sips:` or `sip:` URI is accepted exactly when `url.Parse`
   * turns its `://` form into a URL passing the structural checks; for
   * instance `sips:user@yourdomain.sip.us1.twilio.com:5061`, which parses to
   * scheme `sips`, a host, user `user` and no path.
   */
  lemma AcceptsLowerCaseSIPURI(env: Env, scheme: string, rest: string)
    requires scheme == "sips" || scheme == "sip"
    requires ToLower(rest) == rest
    ensures RewriteScheme(ToLower(scheme + ":" + rest)) == scheme + "://" + rest
    ensures ValidSIPURI(env, Text(scheme + ":" + rest), "").Pass? <==>
      env.parseUrl(scheme + "://" + rest).Some? && AcceptableSIPUrl(env.parseUrl(scheme + "://" + rest).value)
  {
    var s := scheme + ":" + rest;
    assert ToLower(s) == s by {
      forall i | 0 <= i < |s|
        ensures ToLower(s)[i] == s[i]
      {
        if i >= |scheme| + 1 {
          assert s[i] == rest[i - |scheme| - 1];
        }
      }
    }
    assert s[..3] == "sip";
    if scheme == "sips" {
      assert s[..5] == "sips:";
      assert s[5..] == rest;
      assert "sips://" + rest == scheme + "://" + rest;
    } else {
      assert !HasPrefix(s, "sips:") by {
        if |s| >= 5 {
          assert s[..5][3] == ':';
        }
      }
      assert s[..4] == "sip:";
      assert s[4..] == rest;
      assert "sip://" + rest == scheme + "://" + rest;
    }
  }

  /** A keypad entry of digits, `#` and `*` is accepted. */
  lemma KeyPadAcceptsExample()
    ensures ValidateKeyPadEntry(Text("123#*0"), "") == Pass
  {
    var s := "123#*0";
    forall i | 0 <= i < |s|
      ensures s[i] in KeyPadCharacters
    {
      assert s[i] in "0123456789#*";
    }
  }

  /** A letter in a keypad entry is reported as the character not allowed. */
  lemma KeyPadRejectsExample()
    ensures ValidateKeyPadEntry(Text("12a3"), "") == Fail(CharacterNotAllowed('a'))
  {
    assert "12a3"[1..] == "2a3" && "2a3"[1..] == "a3";
    assert CharacterList("a3", KeyPadCharacters) == Fail(CharacterNotAllowed('a'));
    assert CharacterList("12a3", KeyPadCharacters) == CharacterList("a3", KeyPadCharacters);
  }
}
