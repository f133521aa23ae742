/** The TwiML verbs a response is built from (`response.go`). */
module Twiml {
  import opened Results
  import opened GoStrconv

  /** `MethodType`: an HTTP method name; empty means the attribute is omitted. */
  type MethodType = string
  const Post: MethodType := "POST"
  const Get: MethodType := "GET"

  /** `VoiceType`: the voice a `Say` uses. */
  type VoiceType = string
  const ManVoice: VoiceType := "man"
  const WomenVoice: VoiceType := "women"
  const AliceVoice: VoiceType := "alice"
  const PollyMatthew: VoiceType := "Polly.Matthew"

  /** `BeepType`: when a conference beeps. */
  type BeepType = string
  const BeepsOn: BeepType := "true"
  const BeepsOff: BeepType := "false"
  const BeepOnEnter: BeepType := "onEnter"
  const BeepOnExit: BeepType := "onExit"

  /** An element of a `Verbs` list (Go's `[]interface{}` holds these pointers). */
  datatype Verb =
    | GatherVerb(gather: Gather)
    | DialVerb(dial: Dial)
    | SayVerb(say: Say)
    | PauseVerb(pause: Pause)
    | RedirectVerb(redirect: Redirect)
    | NumberVerb(number: Number)
    | ConferenceVerb(conference: Conference)

  datatype Response = Response(verbs: seq<Verb>)

  datatype Dial = Dial(action: string, httpMethod: MethodType, timeout: uint64, verbs: seq<Verb>)

  datatype Say = Say(voice: VoiceType, loop: uint64, value: string)

  datatype Number = Number(value: string)

  datatype Gather = Gather(
    input: string,
    action: string,
    httpMethod: MethodType,
    timeout: uint64,
    /** A pointer in Go: `None` omits the attribute, `Some("")` renders it empty. */
    finishOnKey: Option<string>,
    numDigits: uint64,
    partialResultCallback: string,
    partialResultCallbackMethod: MethodType,
    language: string,
    hints: string,
    profanityFilter: bool,
    speechTimeout: uint64,
    verbs: seq<Verb>)

  datatype Pause = Pause(length: uint64)

  datatype Redirect = Redirect(httpMethod: MethodType, value: string)

  datatype Conference = Conference(
    muted: bool,
    beep: BeepType,
    /** A pointer in Go, so that an explicit `false` is rendered. */
    startConferenceOnEnter: Option<bool>,
    endConferenceOnExit: bool,
    /** A pointer in Go, so that an explicit empty URL is rendered. */
    waitUrl: Option<string>,
    waitMethod: MethodType,
    maxParticipants: int64,
    record: string,
    region: string,
    trim: string,
    coach: string,
    statusCallbackEvent: string,
    statusCallback: string,
    statusCallbackMethod: MethodType,
    recordingStatusCallback: string,
    recordingStatusCallbackMethod: MethodType,
    recordingStatusCallbackEvent: string,
    eventCallbackUrl: string,
    value: string)

  /** `after` is `before` with exactly `v` appended at the end. */
  predicate AppendsOne(before: seq<Verb>, after: seq<Verb>, v: Verb) {
    |after| == |before| + 1 && after[..|before|] == before && after[|before|] == v
  }
}

/** `Response` and its builder methods. */
module ResponseBuilder {
  import opened GoStrconv
  import T = Twiml

  /** `NewResponse`. */
  function NewResponse(): (r: T.Response)
    ensures |r.verbs| == 0
  {
    T.Response([])
  }

  /** `NewPause`. */
  function NewPause(length: uint64): (r: T.Pause)
    ensures r.length == length
  {
    T.Pause(length)
  }

  /** `Response.Gather`. */
  function Gather(resp: T.Response, gather: T.Gather): (r: T.Response)
    ensures T.AppendsOne(resp.verbs, r.verbs, T.GatherVerb(gather))
  {
    T.Response(resp.verbs + [T.GatherVerb(gather)])
  }

  /** `Response.Dial`. */
  function Dial(resp: T.Response, dial: T.Dial): (r: T.Response)
    ensures T.AppendsOne(resp.verbs, r.verbs, T.DialVerb(dial))
  {
    T.Response(resp.verbs + [T.DialVerb(dial)])
  }

  /** `Response.Say`. */
  function Say(resp: T.Response, say: T.Say): (r: T.Response)
    ensures T.AppendsOne(resp.verbs, r.verbs, T.SayVerb(say))
  {
    T.Response(resp.verbs + [T.SayVerb(say)])
  }

  /** `Response.Pause`: appends a pause of the given length. */
  function Pause(resp: T.Response, length: uint64): (r: T.Response)
    ensures |r.verbs| == |resp.verbs| + 1 && r.verbs[..|resp.verbs|] == resp.verbs
    ensures r.verbs[|resp.verbs|].PauseVerb? && r.verbs[|resp.verbs|].pause.length == length
  {
    T.Response(resp.verbs + [T.PauseVerb(NewPause(length))])
  }

  /** `Response.Redirect`. */
  function Redirect(resp: T.Response, redirect: T.Redirect): (r: T.Response)
    ensures T.AppendsOne(resp.verbs, r.verbs, T.RedirectVerb(redirect))
  {
    T.Response(resp.verbs + [T.RedirectVerb(redirect)])
  }

  /** One call in a fluent chain on a `*Response`. */
  datatype Call =
    | GatherCall(gather: T.Gather)
    | DialCall(dial: T.Dial)
    | SayCall(say: T.Say)
    | PauseCall(length: uint64)
    | RedirectCall(redirect: T.Redirect)

  function Apply(resp: T.Response, c: Call): T.Response {
    match c
    case GatherCall(g) => Gather(resp, g)
    case DialCall(d) => Dial(resp, d)
    case SayCall(s) => Say(resp, s)
    case PauseCall(n) => Pause(resp, n)
    case RedirectCall(rd) => Redirect(resp, rd)
  }

  /** The verb a call contributes. */
  function CallVerb(c: Call): T.Verb {
    match c
    case GatherCall(g) => T.GatherVerb(g)
    case DialCall(d) => T.DialVerb(d)
    case SayCall(s) => T.SayVerb(s)
    case PauseCall(n) => T.PauseVerb(T.Pause(n))
    case RedirectCall(rd) => T.RedirectVerb(rd)
  }

  /** `resp.c0(..).c1(..)...`: the calls applied left to right. */
  function Chain(resp: T.Response, calls: seq<Call>): T.Response
    decreases |calls|
  {
    if |calls| == 0 then resp else Chain(Apply(resp, calls[0]), calls[1..])
  }

  /** A chain of builder calls appends one verb per call, in call order. */
  lemma {:induction false} ChainAppendsInCallOrder(resp: T.Response, calls: seq<Call>)
    ensures Chain(resp, calls).verbs == resp.verbs + seq(|calls|, i requires 0 <= i < |calls| => CallVerb(calls[i]))
    decreases |calls|
  {
    if |calls| > 0 {
      var next := Apply(resp, calls[0]);
      assert next.verbs == resp.verbs + [CallVerb(calls[0])];
      ChainAppendsInCallOrder(next, calls[1..]);
    }
  }
}

/** `Dial` and its builder methods. */
module DialBuilder {
  import T = Twiml

  /** `NewDial`. */
  function NewDial(): (r: T.Dial)
    ensures |r.verbs| == 0 && r.action == "" && r.httpMethod == "" && r.timeout == 0
  {
    T.Dial("", "", 0, [])
  }

  /** `NewNumber`. */
  function NewNumber(number: string): (r: T.Number)
    ensures r.value == number
  {
    T.Number(number)
  }

  /** `Dial.Number`: appends a number to dial; the attributes are unchanged. */
  function Number(dial: T.Dial, number: T.Number): (r: T.Dial)
    ensures T.AppendsOne(dial.verbs, r.verbs, T.NumberVerb(number))
    ensures r.(verbs := dial.verbs) == dial
  {
    dial.(verbs := dial.verbs + [T.NumberVerb(number)])
  }

  /** `Dial.Conference`: appends a conference; the attributes are unchanged. */
  function Conference(dial: T.Dial, conference: T.Conference): (r: T.Dial)
    ensures T.AppendsOne(dial.verbs, r.verbs, T.ConferenceVerb(conference))
    ensures r.(verbs := dial.verbs) == dial
  {
    dial.(verbs := dial.verbs + [T.ConferenceVerb(conference)])
  }
}

/** `Say` and its builder methods. */
module SayBuilder {
  import T = Twiml

  /** `NewSay`: no voice chosen. */
  function NewSay(msg: string): (r: T.Say)
    ensures r.value == msg && r.voice == "" && r.loop == 0
  {
    T.Say("", 0, msg)
  }

  /** `VoiceType.Say`: a message in the given voice. */
  function VoiceSay(voice: T.VoiceType, msg: string): (r: T.Say)
    ensures r.value == msg && r.voice == voice && r.loop == 0
  {
    T.Say(voice, 0, msg)
  }

  /** `Say.SetVoice`. */
  function SetVoice(say: T.Say, voice: T.VoiceType): (r: T.Say)
    ensures r.voice == voice && r.(voice := say.voice) == say
  {
    say.(voice := voice)
  }
}

/** `Gather` and its builder methods. */
module GatherBuilder {
  import opened Results
  import opened GoStrconv
  import T = Twiml
  import ResponseBuilder

  /** `NewGather`: every attribute unset, `finishOnKey` absent. */
  function NewGather(): (r: T.Gather)
    ensures |r.verbs| == 0 && r.finishOnKey.None?
    ensures r.input == "" && r.action == "" && r.httpMethod == "" && r.timeout == 0
    ensures r.numDigits == 0 && r.partialResultCallback == "" && r.partialResultCallbackMethod == ""
    ensures r.language == "" && r.hints == "" && !r.profanityFilter && r.speechTimeout == 0
  {
    T.Gather("", "", "", 0, None, 0, "", "", "", "", false, 0, [])
  }

  /** `Gather.Say`: appends a nested `Say`; the attributes are unchanged. */
  function Say(gather: T.Gather, say: T.Say): (r: T.Gather)
    ensures T.AppendsOne(gather.verbs, r.verbs, T.SayVerb(say))
    ensures r.(verbs := gather.verbs) == gather
  {
    gather.(verbs := gather.verbs + [T.SayVerb(say)])
  }

  /** `Gather.Pause`: appends a nested pause of the given length. */
  function Pause(gather: T.Gather, length: uint64): (r: T.Gather)
    ensures T.AppendsOne(gather.verbs, r.verbs, T.PauseVerb(T.Pause(length)))
    ensures r.(verbs := gather.verbs) == gather
  {
    gather.(verbs := gather.verbs + [T.PauseVerb(ResponseBuilder.NewPause(length))])
  }

  /** `Gather.SetInput`. */
  function SetInput(gather: T.Gather, input: string): (r: T.Gather)
    ensures r.input == input && r.(input := gather.input) == gather
  {
    gather.(input := input)
  }

  /** `Gather.SetAction`. */
  function SetAction(gather: T.Gather, action: string): (r: T.Gather)
    ensures r.action == action && r.(action := gather.action) == gather
  {
    gather.(action := action)
  }

  /** `Gather.SetMethod`. */
  function SetMethod(gather: T.Gather, httpMethod: T.MethodType): (r: T.Gather)
    ensures r.httpMethod == httpMethod && r.(httpMethod := gather.httpMethod) == gather
  {
    gather.(httpMethod := httpMethod)
  }

  /** `Gather.SetTimeout`. */
  function SetTimeout(gather: T.Gather, timeout: uint64): (r: T.Gather)
    ensures r.timeout == timeout && r.(timeout := gather.timeout) == gather
  {
    gather.(timeout := timeout)
  }
}

/** `Redirect` and its builder methods. */
module RedirectBuilder {
  import T = Twiml

  /** `NewRedirect`. */
  function NewRedirect(redirect: string): (r: T.Redirect)
    ensures r.value == redirect && r.httpMethod == ""
  {
    T.Redirect("", redirect)
  }

  /** `Redirect.SetMethod`. */
  function SetMethod(redirect: T.Redirect, httpMethod: T.MethodType): (r: T.Redirect)
    ensures r.httpMethod == httpMethod && r.(httpMethod := redirect.httpMethod) == redirect
  {
    redirect.(httpMethod := httpMethod)
  }
}

/** The fluent chains the package's tests build, against the literal values they must equal. */
module ResponseExamples {
  import opened Results
  import T = Twiml
  import R = ResponseBuilder
  import DialBuilder
  import SayBuilder
  import GatherBuilder
  import RedirectBuilder

  /** `NewResponse().Dial(NewDial().Number(NewNumber(n))).Say(NewSay(m))` is the literal dial-then-say response. */
  lemma DialThenSay(number: string, message: string)
    ensures R.Say(R.Dial(R.NewResponse(), DialBuilder.Number(DialBuilder.NewDial(), DialBuilder.NewNumber(number))),
                  SayBuilder.NewSay(message))
         == T.Response([T.DialVerb(T.Dial("", "", 0, [T.NumberVerb(T.Number(number))])),
                        T.SayVerb(T.Say("", 0, message))])
  {
  }

  /** The gather-menu chain: setters reach the gather, nested verbs stay inside it, in order. */
  lemma GatherMenu(action: string, welcome: string, prompt: string, fallback: string)
    ensures
      var g := GatherBuilder.SetInput(GatherBuilder.SetTimeout(GatherBuilder.SetMethod(
                 GatherBuilder.SetAction(GatherBuilder.NewGather(), action), T.Post), 10), "dtmf");
      var g' := GatherBuilder.Say(GatherBuilder.Pause(GatherBuilder.Say(g, SayBuilder.VoiceSay(T.AliceVoice, welcome)), 1),
                                  SayBuilder.VoiceSay(T.AliceVoice, prompt));
      var resp := R.Redirect(R.Pause(R.Say(R.Gather(R.NewResponse(), g'), SayBuilder.VoiceSay(T.AliceVoice, fallback)), 1),
                             RedirectBuilder.SetMethod(RedirectBuilder.NewRedirect(action), T.Post));
      resp == T.Response([
        T.GatherVerb(T.Gather("dtmf", action, T.Post, 10, None, 0, "", "", "", "", false, 0,
          [T.SayVerb(T.Say(T.AliceVoice, 0, welcome)),
           T.PauseVerb(T.Pause(1)),
           T.SayVerb(T.Say(T.AliceVoice, 0, prompt))])),
        T.SayVerb(T.Say(T.AliceVoice, 0, fallback)),
        T.PauseVerb(T.Pause(1)),
        T.RedirectVerb(T.Redirect(T.Post, action))])
  {
    var w := T.SayVerb(T.Say(T.AliceVoice, 0, welcome));
    var p := T.SayVerb(T.Say(T.AliceVoice, 0, prompt));
    var g := GatherBuilder.SetInput(GatherBuilder.SetTimeout(GatherBuilder.SetMethod(
               GatherBuilder.SetAction(GatherBuilder.NewGather(), action), T.Post), 10), "dtmf");
    var g1 := GatherBuilder.Say(g, SayBuilder.VoiceSay(T.AliceVoice, welcome));
    assert g1.verbs == [w];
    var g2 := GatherBuilder.Pause(g1, 1);
    assert g2.verbs == [w, T.PauseVerb(T.Pause(1))];
    var g' := GatherBuilder.Say(g2, SayBuilder.VoiceSay(T.AliceVoice, prompt));
    assert g'.verbs == [w, T.PauseVerb(T.Pause(1)), p];
    var r1 := R.Gather(R.NewResponse(), g');
    assert r1.verbs == [T.GatherVerb(g')];
    var r2 := R.Say(r1, SayBuilder.VoiceSay(T.AliceVoice, fallback));
    var r3 := R.Pause(r2, 1);
    assert r3.verbs == [T.GatherVerb(g'), T.SayVerb(T.Say(T.AliceVoice, 0, fallback)), T.PauseVerb(T.Pause(1))];
  }
}
