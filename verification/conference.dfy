/** `Conference` and its setters. */
module ConferenceBuilder {
  import opened Results
  import opened GoStrconv
  import T = Twiml

  /**
   * `NewConference`: only the name is set; the two pointer attributes
   * (`startConferenceOnEnter`, `waitUrl`) are absent until set.
   */
  function NewConference(conferenceName: string): (r: T.Conference)
    ensures r.value == conferenceName
    ensures r.startConferenceOnEnter.None? && r.waitUrl.None?
    ensures !r.muted && r.beep == "" && r.maxParticipants == 0 && r.statusCallbackEvent == ""
    ensures !r.endConferenceOnExit && r.waitMethod == "" && r.record == "" && r.region == ""
    ensures r.trim == "" && r.coach == "" && r.statusCallback == "" && r.statusCallbackMethod == ""
    ensures r.recordingStatusCallback == "" && r.recordingStatusCallbackMethod == ""
    ensures r.recordingStatusCallbackEvent == "" && r.eventCallbackUrl == ""
  {
    T.Conference(false, "", None, false, None, "", 0, "", "", "", "", "", "", "", "", "", "", "", conferenceName)
  }

  function SetMuted(c: T.Conference, muted: bool): (r: T.Conference)
    ensures r.muted == muted && r.(muted := c.muted) == c
  {
    c.(muted := muted)
  }

  function SetBeep(c: T.Conference, beep: T.BeepType): (r: T.Conference)
    ensures r.beep == beep && r.(beep := c.beep) == c
  {
    c.(beep := beep)
  }

  /** Stores a present value, so that even `false` is rendered. */
  function SetStartConferenceOnEnter(c: T.Conference, startConferenceOnEnter: bool): (r: T.Conference)
    ensures r.startConferenceOnEnter == Some(startConferenceOnEnter)
    ensures r.(startConferenceOnEnter := c.startConferenceOnEnter) == c
  {
    c.(startConferenceOnEnter := Some(startConferenceOnEnter))
  }

  function SetEndConferenceOnExit(c: T.Conference, endConferenceOnExit: bool): (r: T.Conference)
    ensures r.endConferenceOnExit == endConferenceOnExit
    ensures r.(endConferenceOnExit := c.endConferenceOnExit) == c
  {
    c.(endConferenceOnExit := endConferenceOnExit)
  }

  /** Stores a present value, so that even an empty URL is rendered. */
  function SetWaitURL(c: T.Conference, waitUrl: string): (r: T.Conference)
    ensures r.waitUrl == Some(waitUrl) && r.(waitUrl := c.waitUrl) == c
  {
    c.(waitUrl := Some(waitUrl))
  }

  function SetWaitMethod(c: T.Conference, waitMethod: T.MethodType): (r: T.Conference)
    ensures r.waitMethod == waitMethod && r.(waitMethod := c.waitMethod) == c
  {
    c.(waitMethod := waitMethod)
  }

  function SetMaxParticipants(c: T.Conference, maxParticipants: int64): (r: T.Conference)
    ensures r.maxParticipants == maxParticipants && r.(maxParticipants := c.maxParticipants) == c
  {
    c.(maxParticipants := maxParticipants)
  }

  function SetRecord(c: T.Conference, record: string): (r: T.Conference)
    ensures r.record == record && r.(record := c.record) == c
  {
    c.(record := record)
  }

  function SetRegion(c: T.Conference, region: string): (r: T.Conference)
    ensures r.region == region && r.(region := c.region) == c
  {
    c.(region := region)
  }

  function SetTrim(c: T.Conference, trim: string): (r: T.Conference)
    ensures r.trim == trim && r.(trim := c.trim) == c
  {
    c.(trim := trim)
  }

  function SetCoach(c: T.Conference, coach: string): (r: T.Conference)
    ensures r.coach == coach && r.(coach := c.coach) == c
  {
    c.(coach := coach)
  }

  /** Takes the space-separated list built by `CallbackEvents`. */
  function SetStatusCallbackEvent(c: T.Conference, statusCallbackEvent: string): (r: T.Conference)
    ensures r.statusCallbackEvent == statusCallbackEvent
    ensures r.(statusCallbackEvent := c.statusCallbackEvent) == c
  {
    c.(statusCallbackEvent := statusCallbackEvent)
  }

  function SetStatusCallback(c: T.Conference, statusCallback: string): (r: T.Conference)
    ensures r.statusCallback == statusCallback && r.(statusCallback := c.statusCallback) == c
  {
    c.(statusCallback := statusCallback)
  }

  function SetStatusCallbackMethod(c: T.Conference, statusCallbackMethod: T.MethodType): (r: T.Conference)
    ensures r.statusCallbackMethod == statusCallbackMethod
    ensures r.(statusCallbackMethod := c.statusCallbackMethod) == c
  {
    c.(statusCallbackMethod := statusCallbackMethod)
  }

  function SetRecordingStatusCallback(c: T.Conference, recordingStatusCallback: string): (r: T.Conference)
    ensures r.recordingStatusCallback == recordingStatusCallback
    ensures r.(recordingStatusCallback := c.recordingStatusCallback) == c
  {
    c.(recordingStatusCallback := recordingStatusCallback)
  }

  function SetRecordingStatusCallbackMethod(c: T.Conference, recordingStatusCallbackMethod: T.MethodType): (r: T.Conference)
    ensures r.recordingStatusCallbackMethod == recordingStatusCallbackMethod
    ensures r.(recordingStatusCallbackMethod := c.recordingStatusCallbackMethod) == c
  {
    c.(recordingStatusCallbackMethod := recordingStatusCallbackMethod)
  }

  function SetRecordingStatusCallbackEvent(c: T.Conference, recordingStatusCallbackEvent: string): (r: T.Conference)
    ensures r.recordingStatusCallbackEvent == recordingStatusCallbackEvent
    ensures r.(recordingStatusCallbackEvent := c.recordingStatusCallbackEvent) == c
  {
    c.(recordingStatusCallbackEvent := recordingStatusCallbackEvent)
  }

  function SetEventCallbackURL(c: T.Conference, eventCallbackUrl: string): (r: T.Conference)
    ensures r.eventCallbackUrl == eventCallbackUrl && r.(eventCallbackUrl := c.eventCallbackUrl) == c
  {
    c.(eventCallbackUrl := eventCallbackUrl)
  }
}

/**
 * `conferenceCallbackEvents`: the value of a conference's
 * `statusCallbackEvent` attribute, a space-separated list of event names
 * built one event at a time.
 */
module CallbackEvents {
  import opened GoStrings

  datatype Event = Start | End | Join | Leave | Mute | Hold | Speaker

  /** The event's name in the attribute. */
  function Token(e: Event): (r: string)
    ensures |r| > 0 && ' ' !in r
  {
    match e
    case Start => "start"
    case End => "end"
    case Join => "join"
    case Leave => "leave"
    case Mute => "mute"
    case Hold => "hold"
    case Speaker => "speaker"
  }

  /** `ConferenceCallbackEvents()`: no event enabled. */
  function NoEvents(): (r: string)
    ensures |r| == 0
  {
    ""
  }

  /** Trimming stops at the first character that is not `c`. */
  lemma TrimLeftStopsAt(s: string, c: char, k: nat)
    requires k <= |s|
    requires forall i :: 0 <= i < k ==> s[i] == c
    requires k < |s| ==> s[k] != c
    ensures TrimLeft(s, c) == s[k..]
  {
    var r := TrimLeft(s, c);
    var n :| 0 <= n <= |s| && r == s[n..] && forall i :: 0 <= i < n ==> s[i] == c;
    if n < k {
      assert false;
    } else if k < n {
      assert false;
    }
  }

  /**
   * `c.Start()`, `c.End()`, ...: `TrimLeft(c + " " + name, " ")`. On the
   * empty list the result is the name alone; on a list that does not start
   * with a space the name is appended after one space.
   */
  function Add(events: string, e: Event): (r: string)
    ensures events == "" ==> r == Token(e)
    ensures |events| > 0 && events[0] != ' ' ==> r == events + " " + Token(e)
  {
    var s := events + " " + Token(e);
    if events == "" then
      TrimLeftStopsAt(s, ' ', 1);
      assert s[1..] == Token(e);
      TrimLeft(s, ' ')
    else if events[0] != ' ' then
      TrimLeftStopsAt(s, ' ', 0);
      TrimLeft(s, ' ')
    else
      TrimLeft(s, ' ')
  }

  /** `ConferenceCallbackEvents().e0().e1()...`. */
  function Enable(es: seq<Event>): (r: string)
    ensures |es| == 0 <==> r == ""
    ensures |es| > 0 ==> r[0] != ' '
    decreases |es|
  {
    if |es| == 0 then NoEvents() else Add(Enable(es[..|es| - 1]), es[|es| - 1])
  }

  /** The names of the events, in order. */
  function Tokens(es: seq<Event>): (r: seq<string>)
    ensures |r| == |es|
    ensures forall i :: 0 <= i < |es| ==> r[i] == Token(es[i])
    decreases |es|
  {
    if |es| == 0 then [] else Tokens(es[..|es| - 1]) + [Token(es[|es| - 1])]
  }

  /** Enabling one more event after a non-empty chain appends a space and its name. */
  lemma EnableStep(es: seq<Event>)
    requires |es| > 1
    ensures Enable(es) == Enable(es[..|es| - 1]) + " " + Token(es[|es| - 1])
  {
  }

  /** A chain of enabled events is their names joined by single spaces, in call order. */
  lemma {:induction false} EnableJoinsTokens(es: seq<Event>)
    ensures Enable(es) == GoStrings.Join(Tokens(es), " ")
    decreases |es|
  {
    if |es| == 1 {
      EnableSingle(es[0]);
      assert es == [es[0]];
    } else if |es| > 1 {
      var p := es[..|es| - 1];
      var t := Token(es[|es| - 1]);
      EnableJoinsTokens(p);
      EnableStep(es);
      GoStrings.JoinAppend(Tokens(p), [t], " ");
      assert GoStrings.Join([t], " ") == t;
      assert Enable(es) == GoStrings.Join(Tokens(p), " ") + " " + GoStrings.Join([t], " ");
    }
  }

  /** Enabling one event on the empty list gives its name alone. */
  lemma EnableSingle(e: Event)
    ensures Enable([e]) == Token(e) && GoStrings.Join([Token(e)], " ") == Token(e)
  {
    assert [e][..0] == [];
  }

  /** Splitting the attribute at spaces recovers the enabled events' names. */
  lemma EnableSplitsBack(es: seq<Event>)
    requires |es| > 0
    ensures Split(Enable(es), ' ') == Tokens(es)
  {
    EnableJoinsTokens(es);
    SplitJoin(Tokens(es), ' ');
  }
}
