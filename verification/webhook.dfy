/**
 * `Request.ValidatePost`: the canonical message, the `X-Twilio-Signature`
 * gate and the per-field validation loop, with the `fieldValidators` table.
 */
module Webhook {
  import opened Results
  import opened GoStrings
  import opened GoSort
  import opened Externals
  import opened Validators
  import opened RequestValues

  /** A decoded form body: field name to all its values, in order. */
  type Form = map<string, seq<string>>

  /** The parts of an `*http.Request` that `ValidatePost` reads. */
  datatype HttpRequest = HttpRequest(
    httpMethod: string,
    /** The path and query as `URL.String()` renders them. */
    url: string,
    /** `PostForm` once `ParseForm` succeeds, or its error. */
    postForm: Result<Form, string>,
    /** Every value of the `X-Twilio-Signature` header. */
    signatureHeader: seq<string>)

  /** `Request`: the public host, the HTTP request and the values validated so far. */
  datatype Request = Request(host: string, http: HttpRequest, values: Values)

  datatype RequestError =
    | NotPost(httpMethod: string)
    | FormError(reason: string)
    | SignatureMismatch(computed: string, received: string)
    | InvalidField(field: string, value: string, cause: ValidationError)

  /** `ValidatePost`'s error together with the state `req.Values` is left in. */
  datatype Validation = Validation(values: Values, outcome: Outcome<RequestError>)

  /** The validators `fieldValidators` can name. */
  datatype ValidatorKind = FromOrTo | KeyPadEntry

  /** `valCfg`: a validator and its option string. */
  datatype ValCfg = ValCfg(valFunc: ValidatorKind, valParam: string)

  /** `fieldValidators`: fields with no entry are stored unvalidated. */
  const FieldValidators: map<string, ValCfg> := map[
    "From" := ValCfg(FromOrTo, ""),
    "To" := ValCfg(FromOrTo, ""),
    "Digits" := ValCfg(KeyPadEntry, "")
  ]

  /** `valParam.valFunc(val, valParam.valParam)`. */
  function RunValidator(env: Env, cfg: ValCfg, value: string): (r: Outcome<ValidationError>)
    ensures value == "" ==> r == EmptyRule(cfg.valParam)
    ensures cfg.valFunc == KeyPadEntry && value != "" ==>
      (r.Pass? <==> forall i :: 0 <= i < |value| ==> value[i] in "0123456789#*")
    ensures cfg.valFunc == FromOrTo ==>
      (r.Pass? <==> ValidPhoneNumber(env.phone, Text(value), cfg.valParam).Pass?
                    || ValidSIPURI(env, Text(value), cfg.valParam).Pass?)
    ensures r.Fail? ==> r.error != InvalidSIPURI
  {
    match cfg.valFunc
    case FromOrTo => ValidFromOrTo(env, Text(value), cfg.valParam)
    case KeyPadEntry => ValidateKeyPadEntry(Text(value), cfg.valParam)
  }

  /** The check the loop makes on one field: its registered validator, if any. */
  function CheckField(env: Env, key: string, value: string): (r: Outcome<ValidationError>)
    ensures key !in FieldValidators ==> r == Pass
    ensures key == "From" || key == "To" ==> r == ValidFromOrTo(env, Text(value), "")
    ensures key == "Digits" ==> r == ValidateKeyPadEntry(Text(value), "")
  {
    if key in FieldValidators then RunValidator(env, FieldValidators[key], value) else Pass
  }

  /**
   * The table registers exactly `From`, `To` and `Digits`, none with
   * `allowempty`, so an empty value for any of them fails with `Required`.
   */
  lemma RegisteredFieldsRequired(env: Env, key: string)
    ensures key in FieldValidators <==> key in {"From", "To", "Digits"}
    ensures key in FieldValidators ==> CheckField(env, key, "") == Fail(Required)
  {
  }

  /** A field's first value, or the empty string when it has none. */
  function FirstValue(form: Form, key: string): string
    requires key in form
  {
    if |form[key]| > 0 then form[key][0] else ""
  }

  predicate AllInForm(form: Form, keys: seq<string>) {
    forall i :: 0 <= i < |keys| ==> keys[i] in form
  }

  /** Each key followed by its first value, with no separators. */
  function FieldsMessage(form: Form, keys: seq<string>): string
    requires AllInForm(form, keys)
    decreases |keys|
  {
    if |keys| == 0 then ""
    else keys[0] + FirstValue(form, keys[0]) + FieldsMessage(form, keys[1..])
  }

  /**
   * The message Twilio signs: host and URL, then the fields in ascending
   * name order. `order` is the order Go happens to range over the form map.
   */
  function CanonicalMessage(host: string, url: string, form: Form, order: seq<string>): (r: string)
    requires Enumerates(order, form.Keys)
    ensures HasPrefix(r, host + url)
  {
    var params := SortStrings(order);
    SortedEnumerates(order, form.Keys);
    var r := host + url + FieldsMessage(form, params);
    assert r[..|host + url|] == host + url;
    r
  }

  /** The message is the fields' sorted listing, whatever the map order was. */
  lemma CanonicalMessageSpec(host: string, url: string, form: Form, order: seq<string>, sorted: seq<string>)
    requires Enumerates(order, form.Keys)
    requires Sorted(sorted) && Enumerates(sorted, form.Keys)
    ensures CanonicalMessage(host, url, form, order) == host + url + FieldsMessage(form, sorted)
  {
    SortedEnumerationUnique(order, sorted, form.Keys);
  }

  /** Two map orders yield the same message. */
  lemma CanonicalMessageOrderIndependent(host: string, url: string, form: Form, a: seq<string>, b: seq<string>)
    requires Enumerates(a, form.Keys) && Enumerates(b, form.Keys)
    ensures CanonicalMessage(host, url, form, a) == CanonicalMessage(host, url, form, b)
  {
    SortIndependentOfOrder(a, b, form.Keys);
  }

  lemma {:induction false} FieldsMessageFirstValuesOnly(f: Form, g: Form, keys: seq<string>)
    requires AllInForm(f, keys) && AllInForm(g, keys)
    requires forall i :: 0 <= i < |keys| ==> FirstValue(f, keys[i]) == FirstValue(g, keys[i])
    ensures FieldsMessage(f, keys) == FieldsMessage(g, keys)
    decreases |keys|
  {
    if |keys| > 0 {
      FieldsMessageFirstValuesOnly(f, g, keys[1..]);
    }
  }

  /** Values after the first one do not enter the message. */
  lemma CanonicalMessageFirstValuesOnly(host: string, url: string, f: Form, g: Form, order: seq<string>)
    requires f.Keys == g.Keys && Enumerates(order, f.Keys)
    requires forall k :: k in f ==> FirstValue(f, k) == FirstValue(g, k)
    ensures CanonicalMessage(host, url, f, order) == CanonicalMessage(host, url, g, order)
  {
    SortedEnumerates(order, f.Keys);
    FieldsMessageFirstValuesOnly(f, g, SortStrings(order));
  }

  /** Exactly one `X-Twilio-Signature` value, equal to the computed signature. */
  predicate SignatureAccepted(env: Env, authToken: string, message: string, header: seq<string>): (r: bool)
    ensures r <==> header == [env.sign(authToken, message)]
  {
    |header| == 1 && header[0] == env.sign(authToken, message)
  }

  /** A POST whose form decodes and whose signature is accepted. */
  predicate Authenticated(env: Env, req: Request, authToken: string, order: seq<string>): (r: bool)
    requires req.http.postForm.Success? ==> Enumerates(order, req.http.postForm.value.Keys)
    ensures r ==> req.http.httpMethod == "POST" && req.http.postForm.Success?
    ensures req.http.httpMethod == "POST" && req.http.postForm.Success? ==>
      (r <==> req.http.signatureHeader
               == [env.sign(authToken, CanonicalMessage(req.host, req.http.url, req.http.postForm.value, order))])
  {
    && req.http.httpMethod == "POST"
    && req.http.postForm.Success?
    && SignatureAccepted(env, authToken,
         CanonicalMessage(req.host, req.http.url, req.http.postForm.value, order),
         req.http.signatureHeader)
  }

  /** `values` with the first value of each of `keys` stored. */
  function Stored(values: Values, form: Form, keys: seq<string>): Values
    requires AllInForm(form, keys)
  {
    values + map k | k in keys :: FirstValue(form, k)
  }

  /** The position of the first key whose validator rejects its value. */
  function FirstFailure(env: Env, form: Form, keys: seq<string>): (r: Option<nat>)
    requires AllInForm(form, keys)
    ensures r.Some? ==> r.value < |keys| && CheckField(env, keys[r.value], FirstValue(form, keys[r.value])).Fail?
    ensures r.Some? ==> forall j :: 0 <= j < r.value ==> CheckField(env, keys[j], FirstValue(form, keys[j])).Pass?
    ensures r.None? ==> forall j :: 0 <= j < |keys| ==> CheckField(env, keys[j], FirstValue(form, keys[j])).Pass?
    decreases |keys|
  {
    if |keys| == 0 then None
    else if CheckField(env, keys[0], FirstValue(form, keys[0])).Fail? then Some(0)
    else
      match FirstFailure(env, form, keys[1..])
      case None => None
      case Some(i) => Some(i + 1)
  }

  lemma StoredCons(values: Values, form: Form, keys: seq<string>)
    requires |keys| > 0 && AllInForm(form, keys)
    ensures Stored(values[keys[0] := FirstValue(form, keys[0])], form, keys[1..]) == Stored(values, form, keys)
  {
    var a := Stored(values[keys[0] := FirstValue(form, keys[0])], form, keys[1..]);
    var b := Stored(values, form, keys);
    forall x
      ensures x in a <==> x in b
      ensures x in a ==> a[x] == b[x]
    {
      if x != keys[0] {
        assert x in keys <==> x in keys[1..] by {
          if x in keys {
            var j :| 0 <= j < |keys| && keys[j] == x;
            assert keys[1..][j - 1] == x;
          }
        }
      }
    }
  }

  /**
   * The validation loop: in order, each field's validator runs and the field
   * is stored; the first failure stops the loop, leaving the fields before it
   * stored.
   */
  function StoreFields(env: Env, form: Form, keys: seq<string>, values: Values): (r: Validation)
    requires AllInForm(form, keys)
    ensures FirstFailure(env, form, keys).None? ==> r == Validation(Stored(values, form, keys), Pass)
    ensures FirstFailure(env, form, keys).Some? ==>
      var i := FirstFailure(env, form, keys).value;
      var v := FirstValue(form, keys[i]);
      r == Validation(Stored(values, form, keys[..i]),
                      Fail(InvalidField(keys[i], v, CheckField(env, keys[i], v).error)))
    decreases |keys|
  {
    if |keys| == 0 then Validation(values, Pass)
    else
      var k := keys[0];
      var v := FirstValue(form, k);
      match CheckField(env, k, v)
      case Fail(e) =>
        assert keys[..0] == [];
        Validation(values, Fail(InvalidField(k, v, e)))
      case Pass =>
        var r := StoreFields(env, form, keys[1..], values[k := v]);
        var first := FirstFailure(env, form, keys);
        if first.Some? then
          var i := first.value;
          assert i > 0 && FirstFailure(env, form, keys[1..]) == Some(i - 1);
          assert keys[1..][i - 1] == keys[i];
          StoredPrefixCons(values, form, keys, i);
          r
        else
          StoredCons(values, form, keys);
          r
  }

  /** Storing the head first, then the rest of a prefix, stores the whole prefix. */
  lemma StoredPrefixCons(values: Values, form: Form, keys: seq<string>, i: nat)
    requires 0 < i <= |keys| && AllInForm(form, keys)
    ensures keys[1..][..i - 1] == keys[..i][1..]
    ensures Stored(values[keys[0] := FirstValue(form, keys[0])], form, keys[1..][..i - 1]) == Stored(values, form, keys[..i])
  {
    assert keys[1..][..i - 1] == keys[..i][1..];
    StoredCons(values, form, keys[..i]);
  }

  /** Every field of the form passes its registered validator. */
  predicate AllFieldsPass(env: Env, form: Form) {
    forall k :: k in form ==> CheckField(env, k, FirstValue(form, k)).Pass?
  }

  /** `values` with every field of the form stored. */
  function StoreAll(values: Values, form: Form): Values {
    values + map k | k in form :: FirstValue(form, k)
  }

  /** `values` with the fields whose names sort strictly before `key` stored. */
  function StoreBefore(values: Values, form: Form, key: string): Values {
    values + map k | k in form && LessEq(k, key) && k != key :: FirstValue(form, k)
  }

  /** What the validation loop leaves behind, stated on the form's key set. */
  predicate LoopResult(env: Env, form: Form, values: Values, r: Validation) {
    && (AllFieldsPass(env, form) ==> r == Validation(StoreAll(values, form), Pass))
    && (!AllFieldsPass(env, form) ==>
         && r.outcome.Fail?
         && r.outcome.error.InvalidField?
         && var e := r.outcome.error;
         && e.field in form
         && e.value == FirstValue(form, e.field)
         && CheckField(env, e.field, e.value) == Fail(e.cause)
         && (forall k :: k in form && LessEq(k, e.field) && k != e.field ==>
               CheckField(env, k, FirstValue(form, k)).Pass?)
         && r.values == StoreBefore(values, form, e.field))
  }

  lemma AllPassSorted(env: Env, form: Form, params: seq<string>, values: Values)
    requires Sorted(params) && Enumerates(params, form.Keys)
    requires FirstFailure(env, form, params).None?
    ensures AllFieldsPass(env, form)
    ensures Stored(values, form, params) == StoreAll(values, form)
  {
    assert (map k | k in params :: FirstValue(form, k)) == (map k | k in form :: FirstValue(form, k));
  }

  lemma FailureSorted(env: Env, form: Form, params: seq<string>, values: Values, i: nat)
    requires Sorted(params) && Enumerates(params, form.Keys)
    requires FirstFailure(env, form, params) == Some(i)
    ensures !AllFieldsPass(env, form)
    ensures forall k :: k in form && LessEq(k, params[i]) && k != params[i] ==>
      CheckField(env, k, FirstValue(form, k)).Pass?
    ensures Stored(values, form, params[..i]) == StoreBefore(values, form, params[i])
  {
    PassesBelowFailure(env, form, params, i);
    StoredBelowFailure(form, params, values, i);
  }

  /** Every field sorting before the first failure passed. */
  lemma PassesBelowFailure(env: Env, form: Form, params: seq<string>, i: nat)
    requires Sorted(params) && Enumerates(params, form.Keys)
    requires FirstFailure(env, form, params) == Some(i)
    ensures forall k :: k in form && LessEq(k, params[i]) && k != params[i] ==>
      CheckField(env, k, FirstValue(form, k)).Pass?
  {
    var key := params[i];
    forall k | k in form && LessEq(k, key) && k != key
      ensures CheckField(env, k, FirstValue(form, k)).Pass?
    {
      SortedPrefixBelow(params, form.Keys, i, k);
      var j :| 0 <= j < i && params[..i][j] == k;
      assert params[j] == k;
    }
  }

  /** The stored prefix is exactly the fields sorting before the `i`-th name. */
  lemma StoredBelowFailure(form: Form, params: seq<string>, values: Values, i: nat)
    requires Sorted(params) && Enumerates(params, form.Keys) && i < |params|
    ensures AllInForm(form, params[..i])
    ensures Stored(values, form, params[..i]) == StoreBefore(values, form, params[i])
  {
    var key := params[i];
    forall k
      ensures k in params[..i] <==> k in form && LessEq(k, key) && k != key
    {
      SortedPrefixBelow(params, form.Keys, i, k);
    }
    assert (map k | k in params[..i] :: FirstValue(form, k))
      == (map k | k in form && LessEq(k, key) && k != key :: FirstValue(form, k));
  }

  /** Running the loop over the sorted field names gives `LoopResult`. */
  lemma StoreFieldsSorted(env: Env, form: Form, params: seq<string>, values: Values)
    requires Sorted(params) && Enumerates(params, form.Keys)
    ensures AllInForm(form, params)
    ensures LoopResult(env, form, values, StoreFields(env, form, params, values))
  {
    match FirstFailure(env, form, params)
    case None =>
      AllPassSorted(env, form, params, values);
    case Some(i) =>
      FailureSorted(env, form, params, values, i);
  }

  /**
   * `ValidatePost`. A non-POST request, an undecodable form or a rejected
   * signature leaves `req.Values` untouched; an authenticated request runs
   * the field loop over the field names in ascending order.
   */
  function ValidatePost(env: Env, req: Request, authToken: string, order: seq<string>): (r: Validation)
    requires req.http.postForm.Success? ==> Enumerates(order, req.http.postForm.value.Keys)
    ensures req.http.httpMethod != "POST" ==> r == Validation(req.values, Fail(NotPost(req.http.httpMethod)))
    ensures req.http.httpMethod == "POST" && req.http.postForm.Failure? ==>
      r == Validation(req.values, Fail(FormError(req.http.postForm.error)))
    ensures req.http.httpMethod == "POST" && req.http.postForm.Success? ==>
      (r.outcome.Fail? && r.outcome.error.SignatureMismatch? <==> !Authenticated(env, req, authToken, order))
    ensures !Authenticated(env, req, authToken, order) ==> r.values == req.values && r.outcome.Fail?
    ensures req.http.httpMethod == "POST" && req.http.postForm.Success? && !Authenticated(env, req, authToken, order) ==>
      var header := req.http.signatureHeader;
      r.outcome.error == SignatureMismatch(
        env.sign(authToken, CanonicalMessage(req.host, req.http.url, req.http.postForm.value, order)),
        if |header| == 1 then header[0] else "")
    ensures Authenticated(env, req, authToken, order) ==>
      LoopResult(env, req.http.postForm.value, req.values, r)
  {
    if req.http.httpMethod != "POST" then Validation(req.values, Fail(NotPost(req.http.httpMethod)))
    else
      match req.http.postForm
      case Failure(e) => Validation(req.values, Fail(FormError(e)))
      case Success(form) =>
        var sig := env.sign(authToken, CanonicalMessage(req.host, req.http.url, form, order));
        var header := req.http.signatureHeader;
        if |header| != 1 || sig != header[0] then
          Validation(req.values, Fail(SignatureMismatch(sig, if |header| == 1 then header[0] else "")))
        else
          var params := SortStrings(order);
          SortedEnumerates(order, form.Keys);
          StoreFieldsSorted(env, form, params, req.values);
          StoreFields(env, form, params, req.values)
  }

  /** The result does not depend on the order Go ranges over the form map. */
  lemma ValidatePostOrderIndependent(env: Env, req: Request, authToken: string, a: seq<string>, b: seq<string>)
    requires req.http.postForm.Success? ==> Enumerates(a, req.http.postForm.value.Keys)
    requires req.http.postForm.Success? ==> Enumerates(b, req.http.postForm.value.Keys)
    ensures ValidatePost(env, req, authToken, a) == ValidatePost(env, req, authToken, b)
  {
    if req.http.postForm.Success? {
      var form := req.http.postForm.value;
      CanonicalMessageOrderIndependent(req.host, req.http.url, form, a, b);
      SortIndependentOfOrder(a, b, form.Keys);
    }
  }

  /** At most one field can be the least failing one. */
  lemma LeastFailureUnique(env: Env, form: Form, a: string, b: string)
    requires a in form && b in form
    requires CheckField(env, a, FirstValue(form, a)).Fail? && CheckField(env, b, FirstValue(form, b)).Fail?
    requires forall k :: k in form && LessEq(k, a) && k != a ==> CheckField(env, k, FirstValue(form, k)).Pass?
    requires forall k :: k in form && LessEq(k, b) && k != b ==> CheckField(env, k, FirstValue(form, k)).Pass?
    ensures a == b
  {
    LessEqTotal(a, b);
  }

  lemma StoreAllIdempotent(values: Values, form: Form)
    ensures StoreAll(StoreAll(values, form), form) == StoreAll(values, form)
  {
  }

  lemma StoreBeforeIdempotent(values: Values, form: Form, key: string)
    ensures StoreBefore(StoreBefore(values, form, key), form, key) == StoreBefore(values, form, key)
  {
  }

  /** The loop's result is determined by the form and the starting values. */
  lemma LoopResultUnique(env: Env, form: Form, values: Values, r1: Validation, r2: Validation)
    requires LoopResult(env, form, values, r1) && LoopResult(env, form, values, r2)
    ensures r1 == r2
  {
    if !AllFieldsPass(env, form) {
      LeastFailureUnique(env, form, r1.outcome.error.field, r2.outcome.error.field);
    }
  }

  /** Validating the same request again, from the values it left, changes nothing. */
  lemma ValidatePostIdempotent(env: Env, req: Request, authToken: string, order: seq<string>)
    requires req.http.postForm.Success? ==> Enumerates(order, req.http.postForm.value.Keys)
    ensures
      var r := ValidatePost(env, req, authToken, order);
      ValidatePost(env, req.(values := r.values), authToken, order) == r
  {
    var r := ValidatePost(env, req, authToken, order);
    var req2 := req.(values := r.values);
    var r2 := ValidatePost(env, req2, authToken, order);
    if Authenticated(env, req, authToken, order) {
      var form := req.http.postForm.value;
      assert Authenticated(env, req2, authToken, order);
      assert LoopResult(env, form, r.values, r2);
      if AllFieldsPass(env, form) {
        StoreAllIdempotent(req.values, form);
        assert LoopResult(env, form, r.values, r);
      } else {
        StoreBeforeIdempotent(req.values, form, r.outcome.error.field);
        assert LoopResult(env, form, r.values, r);
      }
      LoopResultUnique(env, form, r.values, r, r2);
    }
  }
}
