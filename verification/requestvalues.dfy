/**
 * `RequestValues`, the validated form fields handed to callers, and its
 * typed accessors.
 */
module RequestValues {
  import opened Results
  import opened GoStrconv
  import opened Externals
  import Numbers
  import Validators

  /** Field name to (first) field value. */
  type Values = map<string, string>

  /** `time.Duration`: a count of nanoseconds in an `int64`. */
  type Duration = int64

  /** `time.Second` in nanoseconds. */
  const Second: int := 1_000_000_000

  /** Go's map index: a missing key reads as the empty string. */
  function Lookup(values: Values, key: string): string {
    if key in values then values[key] else ""
  }

  /**
   * `CallDuration`: no value means zero; otherwise the `Atoi` value in
   * seconds, multiplied into nanoseconds with `int64` wrap-around; a
   * non-integer is an error.
   */
  function CallDuration(values: Values): (r: Result<Duration, NumError>)
    ensures Lookup(values, "CallDuration") == "" ==> r == Success(0)
    ensures Lookup(values, "CallDuration") != "" ==>
      (r.Failure? <==> Atoi(Lookup(values, "CallDuration")).Failure?)
    ensures r.Success? && Lookup(values, "CallDuration") != "" ==>
      var n := Atoi(Lookup(values, "CallDuration")).value;
      && (r.value - n * Second) % 0x1_0000_0000_0000_0000 == 0
      && (-(MaxInt64 / Second) <= n <= MaxInt64 / Second ==> r.value == n * Second)
  {
    var raw := Lookup(values, "CallDuration");
    if raw == "" then Success(0)
    else
      match Atoi(raw)
      case Failure(e) => Failure(e)
      case Success(d) =>
        ScaledFits(d);
        Success(Wrap64(Second * d))
  }

  /** Up to `MaxInt64 / Second` seconds, the product in nanoseconds fits in `int64`. */
  lemma ScaledFits(d: int)
    ensures -(MaxInt64 / Second) <= d <= MaxInt64 / Second ==> MinInt64 <= Second * d <= MaxInt64
  {
    assert MaxInt64 / Second == 9_223_372_036;
  }

  /** `SequenceNumber`: like `CallDuration` without the scaling to seconds. */
  function SequenceNumber(values: Values): (r: Result<int64, NumError>)
    ensures Lookup(values, "SequenceNumber") == "" ==> r == Success(0)
    ensures Lookup(values, "SequenceNumber") != "" ==> r == Atoi(Lookup(values, "SequenceNumber"))
  {
    var raw := Lookup(values, "SequenceNumber");
    if raw == "" then Success(0) else Atoi(raw)
  }

  /** `From`: the classified `From` field. */
  function From(env: Env, values: Values): (r: Numbers.ParsedNumber)
    ensures r.raw == Lookup(values, "From")
    ensures r.valid ==> Validators.ValidFromOrTo(env, Validators.Text(Lookup(values, "From")), "").Pass?
  {
    Numbers.ParsedValidIsAccepted(env, Lookup(values, "From"));
    Numbers.ParseNumber(env, Lookup(values, "From"))
  }

  /** `To`: the classified `To` field. */
  function To(env: Env, values: Values): (r: Numbers.ParsedNumber)
    ensures r.raw == Lookup(values, "To")
    ensures r.valid ==> Validators.ValidFromOrTo(env, Validators.Text(Lookup(values, "To")), "").Pass?
  {
    Numbers.ParsedValidIsAccepted(env, Lookup(values, "To"));
    Numbers.ParseNumber(env, Lookup(values, "To"))
  }

  /** A duration written by `Itoa` reads back as that many seconds. */
  lemma CallDurationReadsSeconds(n: int64)
    requires -(MaxInt64 / Second) <= n <= MaxInt64 / Second
    ensures CallDuration(map["CallDuration" := Itoa(n)]) == Success(n * Second)
  {
    AtoiItoa(n);
    NatDigitsValue(if n < 0 then -(n as int) else n as int);
  }

  /** A sequence number written by `Itoa` reads back unchanged. */
  lemma SequenceNumberReadsBack(n: int64)
    ensures SequenceNumber(map["SequenceNumber" := Itoa(n)]) == Success(n)
  {
    AtoiItoa(n);
    NatDigitsValue(if n < 0 then -(n as int) else n as int);
  }

  /**
   * Beyond about 292 years the product in nanoseconds no longer fits:
   * the call still succeeds, with a value other than `n` seconds.
   */
  lemma CallDurationWraps(n: int64)
    requires n > MaxInt64 / Second
    ensures CallDuration(map["CallDuration" := Itoa(n)]).Success?
    ensures CallDuration(map["CallDuration" := Itoa(n)]).value != n * Second
  {
    AtoiItoa(n);
    NatDigitsValue(n);
  }

  /** `"12"` is twelve seconds; `"11 sec"` is an error; an absent value is zero. */
  lemma CallDurationExamples()
    ensures CallDuration(map["CallDuration" := "12"]) == Success(12 * Second)
    ensures CallDuration(map["CallDuration" := "11 sec"]).Failure?
    ensures CallDuration(map[]) == Success(0)
  {
    assert Itoa(12) == "12";
    CallDurationReadsSeconds(12);
    assert "11 sec"[2] == ' ';
  }
}
