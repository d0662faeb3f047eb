/** Recorded websocket conversations, and the matching of expected transcripts against them. */
module WSCapture {

  import opened Options
  import opened Framing
  import opened RequestCapture

  datatype Sender = Server | Client

  datatype Payload = Text(text: string) | Binary(bytes: Bytes)

  /** A recorded message; the payload is absent only if the event carried neither form. */
  datatype RecordedWSMessage = RecordedWSMessage(data: Option<Payload>, sender: Sender)

  datatype ExpectedData = AnyData | Exactly(data: Payload) | Pattern(fullmatch: Payload -> bool)

  datatype ExpectedWSMessage = ExpectedWSMessage(data: ExpectedData, sender: Sender) {
    /** `ExpectedWSMessage.matches`. A pattern never matches data of another type. */
    predicate Matches(m: RecordedWSMessage) {
      && sender == m.sender
      && match data
         case AnyData => true
         case Exactly(d) => m.data == Some(d)
         case Pattern(f) => m.data.Some? && f(m.data.value)
    }
  }

  // -------------------------------------------------------------------------------------------
  // The language of a pattern
  // -------------------------------------------------------------------------------------------

  /** An element of the pattern as the user writes it. */
  datatype Element = Ellipsis | Message(expected: ExpectedWSMessage)

  /** The transcripts a pattern describes: an ellipsis stands for any finite sequence. */
  ghost predicate InLanguage(p: seq<Element>, s: seq<RecordedWSMessage>)
    decreases |p|
  {
    if p == [] then s == []
    else match p[0]
      case Ellipsis => exists i :: 0 <= i <= |s| && InLanguage(p[1..], s[i..])
      case Message(m) => s != [] && m.Matches(s[0]) && InLanguage(p[1..], s[1..])
  }

  /** The messages match `s` from position `at` on. */
  ghost predicate MatchesAt(ms: seq<ExpectedWSMessage>, s: seq<RecordedWSMessage>, at: nat) {
    at + |ms| <= |s| && forall i :: 0 <= i < |ms| ==> ms[i].Matches(s[at + i])
  }

  function Plain(ms: seq<ExpectedWSMessage>): seq<Element> {
    seq(|ms|, i requires 0 <= i < |ms| => Message(ms[i]))
  }

  lemma PlainTail(ms: seq<ExpectedWSMessage>)
    requires ms != []
    ensures Plain(ms)[1..] == Plain(ms[1..])
    ensures (Plain(ms) + [Ellipsis])[1..] == Plain(ms[1..]) + [Ellipsis]
  {
  }

  lemma {:induction false} PlainLanguage(ms: seq<ExpectedWSMessage>, s: seq<RecordedWSMessage>)
    ensures InLanguage(Plain(ms), s) <==> |ms| == |s| && MatchesAt(ms, s, 0)
    decreases |ms|
  {
    if ms != [] && s != [] {
      PlainTail(ms);
      PlainLanguage(ms[1..], s[1..]);
      Shift(ms, s, 0);
    }
  }

  lemma {:induction false} OpenEndLanguage(ms: seq<ExpectedWSMessage>, s: seq<RecordedWSMessage>)
    ensures InLanguage(Plain(ms) + [Ellipsis], s) <==> MatchesAt(ms, s, 0)
    decreases |ms|
  {
    var p := Plain(ms) + [Ellipsis];
    if ms == [] {
      assert p[1..] == [] && InLanguage([], s[|s|..]);
      assert p[0].Ellipsis?;
    } else if s != [] {
      PlainTail(ms);
      OpenEndLanguage(ms[1..], s[1..]);
      Shift(ms, s, 0);
    }
  }

  lemma Shift(ms: seq<ExpectedWSMessage>, s: seq<RecordedWSMessage>, at: nat)
    requires ms != [] && at < |s|
    ensures MatchesAt(ms, s, at) <==> ms[0].Matches(s[at]) && MatchesAt(ms[1..], s[at + 1..], 0)
  {
    if ms[0].Matches(s[at]) && MatchesAt(ms[1..], s[at + 1..], 0) {
      forall i | 0 <= i < |ms| ensures ms[i].Matches(s[at + i]) {
        if i > 0 { assert ms[1..][i - 1].Matches(s[at + 1..][i - 1]); }
      }
    }
    if MatchesAt(ms, s, at) {
      assert ms[0].Matches(s[at + 0]);
      forall i | 0 <= i < |ms| - 1 ensures ms[1..][i].Matches(s[at + 1..][i]) {
        assert ms[i + 1].Matches(s[at + (i + 1)]);
      }
    }
  }

  lemma Suffix(ms: seq<ExpectedWSMessage>, s: seq<RecordedWSMessage>, at: nat)
    requires at <= |s|
    ensures MatchesAt(ms, s, at) <==> MatchesAt(ms, s[at..], 0)
  {
    forall i | 0 <= i < |ms| && at + |ms| <= |s|
      ensures ms[i].Matches(s[at..][0 + i]) <==> ms[i].Matches(s[at + i])
    {
    }
  }

  /** Which recorded messages an expected one accepts. */
  lemma MessageMeans(e: ExpectedWSMessage, m: RecordedWSMessage)
    ensures e.data.AnyData? ==> (e.Matches(m) <==> m.sender == e.sender)
    ensures e.data.Exactly? ==> (e.Matches(m) <==> m == RecordedWSMessage(Some(e.data.data), e.sender))
    ensures e.data.Pattern? ==>
              (e.Matches(m) <==> exists p :: m == RecordedWSMessage(Some(p), e.sender) && e.data.fullmatch(p))
  {
    if e.Matches(m) && e.data.Pattern? { assert m == RecordedWSMessage(Some(m.data.value), e.sender); }
  }

  /** Without ellipses, exact messages describe one transcript only: those messages. */
  lemma ExactPatternIsOneTranscript(ms: seq<ExpectedWSMessage>, s: seq<RecordedWSMessage>)
    requires forall i :: 0 <= i < |ms| ==> ms[i].data.Exactly?
    ensures InLanguage(Plain(ms), s)
            <==> s == seq(|ms|, i requires 0 <= i < |ms| => RecordedWSMessage(Some(ms[i].data.data), ms[i].sender))
  {
    PlainLanguage(ms, s);
    if |ms| == |s| {
      forall i | 0 <= i < |ms|
        ensures ms[i].Matches(s[0 + i]) <==> s[i] == RecordedWSMessage(Some(ms[i].data.data), ms[i].sender)
      {
        MessageMeans(ms[i], s[i]);
      }
    }
  }

  // -------------------------------------------------------------------------------------------
  // Expected transcripts
  // -------------------------------------------------------------------------------------------

  datatype ExpectedWSTranscript<!P> = ExpectedWSTranscript(
    scope: Scope<P>, anyStart: bool, messages: seq<ExpectedWSMessage>, anyEnd: bool,
    close: Option<(Sender, int)>, accepted: Option<bool>)

  /** A pattern in normal form. */
  function Normal(anyStart: bool, ms: seq<ExpectedWSMessage>, anyEnd: bool): seq<Element> {
    Ends(anyStart) + Plain(ms) + Ends(anyEnd)
  }

  function Ends(any: bool): seq<Element> { if any then [Ellipsis] else [] }

  ghost predicate HasInnerEllipsis(p: seq<Element>) {
    exists i :: 0 < i < |p| - 1 && p[i].Ellipsis?
  }

  ghost predicate Stripped(p: seq<Element>, anyStart: bool, ms: seq<Element>, anyEnd: bool) {
    && p == Ends(anyStart) + ms + Ends(anyEnd)
    && (!anyStart && ms != [] ==> !ms[0].Ellipsis?)
    && (!anyEnd && ms != [] ==> !ms[|ms| - 1].Ellipsis?)
  }

  lemma StrippedInner(p: seq<Element>, anyStart: bool, ms: seq<Element>, anyEnd: bool)
    requires Stripped(p, anyStart, ms, anyEnd)
    ensures HasInnerEllipsis(p) <==> exists i :: 0 <= i < |ms| && ms[i].Ellipsis?
  {
    var first := |Ends(anyStart)|;
    assert forall i :: 0 <= i < |ms| ==> ms[i] == p[first + i];
    if HasInnerEllipsis(p) {
      var i :| 0 < i < |p| - 1 && p[i].Ellipsis?;
      assert ms[i - first].Ellipsis?;
    }
    if i :| 0 <= i < |ms| && ms[i].Ellipsis? {
      assert p[first + i].Ellipsis?;
    }
  }

  /** An ellipsis at either end is stripped and remembered. */
  method Strip(pattern: seq<Element>) returns (anyStart: bool, messages: seq<Element>, anyEnd: bool)
    ensures Stripped(pattern, anyStart, messages, anyEnd)
  {
    messages := pattern;
    anyStart := messages != [] && messages[0].Ellipsis?;
    if anyStart { messages := messages[1..]; }
    anyEnd := messages != [] && messages[|messages| - 1].Ellipsis?;
    assert pattern == Ends(anyStart) + messages;
    if anyEnd { messages := messages[..|messages| - 1]; }
  }

  /** `__init__`: any ellipsis that is not at an end is a TypeError. */
  method Construct<P>(scope: Scope<P>, pattern: seq<Element>, close: Option<(Sender, int)>, accepted: Option<bool>)
      returns (r: Option<ExpectedWSTranscript<P>>)
    ensures r.None? <==> HasInnerEllipsis(pattern)
    ensures r.Some? ==>
              && r.value.scope == scope && r.value.close == close && r.value.accepted == accepted
              && Normal(r.value.anyStart, r.value.messages, r.value.anyEnd) == pattern
  {
    var anyStart, messages, anyEnd := Strip(pattern);
    StrippedInner(pattern, anyStart, messages, anyEnd);
    var plain: seq<ExpectedWSMessage> := [];
    for i := 0 to |messages|
      invariant |plain| == i && forall j :: 0 <= j < i ==> messages[j] == Message(plain[j])
    {
      if messages[i].Ellipsis? { return None; }
      plain := plain + [messages[i].expected];
    }
    assert messages == Plain(plain);
    return Some(ExpectedWSTranscript(scope, anyStart, plain, anyEnd, close, accepted));
  }

  /** The window starts to try, once the length checks have passed. */
  function Starts(anyStart: bool, anyEnd: bool, n: nat, m: nat): (nat, nat)
    requires n <= m
  {
    if !anyStart then (0, 1)
    else if !anyEnd then (m - n, m - n + 1)
    else (0, m - n + 1)
  }

  ghost predicate LengthOk(anyStart: bool, anyEnd: bool, n: nat, m: nat) {
    (!anyStart && !anyEnd ==> n == m) && n <= m
  }

  lemma OpenStartLanguage(p: seq<Element>, s: seq<RecordedWSMessage>)
    ensures InLanguage([Ellipsis] + p, s) <==> exists i :: 0 <= i <= |s| && InLanguage(p, s[i..])
  {
    assert ([Ellipsis] + p)[1..] == p;
  }

  /** A normal pattern describes a transcript exactly when its messages match one of the windows
      that its ellipses leave open. */
  lemma WindowLanguage(anyStart: bool, ms: seq<ExpectedWSMessage>, anyEnd: bool, s: seq<RecordedWSMessage>)
    ensures InLanguage(Normal(anyStart, ms, anyEnd), s)
            <==> && LengthOk(anyStart, anyEnd, |ms|, |s|)
                 && var (lo, hi) := Starts(anyStart, anyEnd, |ms|, |s|);
                    exists at: nat :: lo <= at < hi && MatchesAt(ms, s, at)
  {
    var rest := Normal(false, ms, anyEnd);
    if anyEnd { assert rest == Plain(ms) + [Ellipsis]; } else { assert rest == Plain(ms); }
    if !anyStart {
      PlainLanguage(ms, s);
      OpenEndLanguage(ms, s);
    } else {
      assert Normal(anyStart, ms, anyEnd) == [Ellipsis] + rest;
      OpenStartLanguage(rest, s);
      forall i | 0 <= i <= |s|
        ensures InLanguage(rest, s[i..]) <==> MatchesAt(ms, s, i) && (anyEnd || |ms| == |s| - i)
      {
        PlainLanguage(ms, s[i..]);
        OpenEndLanguage(ms, s[i..]);
        Suffix(ms, s, i);
      }
    }
  }

  // -------------------------------------------------------------------------------------------
  // Recording a conversation
  // -------------------------------------------------------------------------------------------

  /** The ASGI events that reach the recorder; a missing close code is 1000 (section 7.4.1 of
      RFC 6455). */
  datatype Event =
    | ReceiveData(text: Option<string>, bytes: Option<Bytes>)
    | Disconnect(code: Option<int>)
    | ReceiveOther
    | SendAccept
    | SendClose(code: Option<int>)
    | SendData(text: Option<string>, bytes: Option<Bytes>)
    | SendOther

  const NORMAL_CLOSURE := 1000

  datatype Conversation =
    Conversation(messages: seq<RecordedWSMessage>, accepted: bool, close: Option<(Sender, int)>)

  /** The text if there is one, even an empty one, and otherwise the bytes. */
  function Data(text: Option<string>, bytes: Option<Bytes>): Option<Payload> {
    if text.Some? then Some(Text(text.value))
    else if bytes.Some? then Some(Binary(bytes.value))
    else None
  }

  function CodeOf(code: Option<int>): int {
    if code.Some? then code.value else NORMAL_CLOSURE
  }

  function Step(c: Conversation, e: Event): Conversation {
    match e
    case ReceiveData(t, b) => c.(messages := c.messages + [RecordedWSMessage(Data(t, b), Client)])
    case Disconnect(code) => c.(close := Some((Client, CodeOf(code))))
    case SendAccept => c.(accepted := true)
    case SendClose(code) => c.(close := Some((Server, CodeOf(code))))
    case SendData(t, b) => c.(messages := c.messages + [RecordedWSMessage(Data(t, b), Server)])
    case _ => c
  }

  function Replay(events: seq<Event>): Conversation {
    if events == [] then Conversation([], false, None)
    else Step(Replay(events[..|events| - 1]), events[|events| - 1])
  }

  predicate CarriesData(e: Event) { e.ReceiveData? || e.SendData? }

  predicate Closes(e: Event) { e.Disconnect? || e.SendClose? }

  /** A message is what a data event carries: its text, even an empty one; without text its bytes,
      even none; from the side that the event comes from. */
  ghost predicate Records(e: Event, m: RecordedWSMessage) {
    && CarriesData(e)
    && (e.text.Some? ==> m.data == Some(Text(e.text.value)))
    && (e.text.None? && e.bytes.Some? ==> m.data == Some(Binary(e.bytes.value)))
    && (e.text.None? && e.bytes.None? ==> m.data.None?)
    && (m.sender == Client <==> e.ReceiveData?)
  }

  /** A closing is that of a close event: its code, 1000 if it has none, and its side. */
  ghost predicate RecordsClosing(e: Event, closing: (Sender, int)) {
    && Closes(e)
    && (e.code.Some? ==> closing.1 == e.code.value)
    && (e.code.None? ==> closing.1 == 1000)
    && (closing.0 == Client <==> e.Disconnect?)
  }

  /** What one event changes: a data event adds its message, a close event replaces the closing, an
      accept is noted, and nothing else happens. */
  ghost predicate Follows(before: Conversation, e: Event, now: Conversation) {
    && (if CarriesData(e) then exists m :: Records(e, m) && now.messages == before.messages + [m]
        else now.messages == before.messages)
    && (if Closes(e) then now.close.Some? && RecordsClosing(e, now.close.value) else now.close == before.close)
    && (now.accepted <==> before.accepted || e.SendAccept?)
  }

  lemma StepFollows(c: Conversation, e: Event)
    ensures Follows(c, e, Step(c, e))
  {
    if CarriesData(e) {
      var all := Step(c, e).messages;
      assert Records(e, all[|c.messages|]) && all == c.messages + [all[|c.messages|]];
    }
  }

  /** `at` lists, in order, the positions of all the data events. */
  ghost predicate DataPositions(events: seq<Event>, at: seq<nat>) {
    && (forall i, j :: 0 <= i < j < |at| ==> at[i] < at[j])
    && (forall i :: 0 <= i < |at| ==> at[i] < |events| && CarriesData(events[at[i]]))
    && (forall k :: 0 <= k < |events| && CarriesData(events[k]) ==> k in at)
  }

  /** `closing` is the last closing among the events, if there is any. */
  ghost predicate LastClosing(events: seq<Event>, closing: Option<(Sender, int)>) {
    match closing
    case None => forall k :: 0 <= k < |events| ==> !Closes(events[k])
    case Some(c) => exists k ::
      && 0 <= k < |events| && RecordsClosing(events[k], c)
      && forall j :: k < j < |events| ==> !Closes(events[j])
  }

  lemma LastClosingSnoc(events: seq<Event>, e: Event, before: Conversation)
    requires LastClosing(events, before.close)
    ensures LastClosing(events + [e], Step(before, e).close)
  {
    var all := events + [e];
    if Closes(e) {
      assert RecordsClosing(all[|events|], Step(before, e).close.value);
    } else if before.close.Some? {
      var k :| && 0 <= k < |events| && RecordsClosing(events[k], before.close.value)
               && forall j :: k < j < |events| ==> !Closes(events[j]);
      assert RecordsClosing(all[k], before.close.value);
    }
  }

  /** The transcript records the data events at positions `at`. */
  ghost predicate Projects(events: seq<Event>, at: seq<nat>, messages: seq<RecordedWSMessage>) {
    && DataPositions(events, at) && |at| == |messages|
    && forall i :: 0 <= i < |at| ==> Records(events[at[i]], messages[i])
  }

  lemma PositionsSnoc(events: seq<Event>, at: seq<nat>, e: Event)
    requires DataPositions(events, at)
    ensures DataPositions(events + [e], if CarriesData(e) then at + [|events|] else at)
  {
    var all, at' := events + [e], if CarriesData(e) then at + [|events|] else at;
    forall i | 0 <= i < |at'| ensures at'[i] < |all| && CarriesData(all[at'[i]]) {
      if i < |at| { assert all[at[i]] == events[at[i]]; }
    }
    forall k | 0 <= k < |all| && CarriesData(all[k]) ensures k in at' {
      if k < |events| {
        assert all[k] == events[k];
        var i :| 0 <= i < |at| && at[i] == k;
        assert at'[i] == k;
      } else {
        assert at'[|at|] == k;
      }
    }
  }

  lemma ProjectsAdd(events: seq<Event>, at: seq<nat>, messages: seq<RecordedWSMessage>, e: Event, m: RecordedWSMessage)
    requires Projects(events, at, messages) && Records(e, m)
    ensures Projects(events + [e], at + [|events|], messages + [m])
  {
    var all, at', messages' := events + [e], at + [|events|], messages + [m];
    PositionsSnoc(events, at, e);
    forall i | 0 <= i < |at'| ensures Records(all[at'[i]], messages'[i]) {
      if i < |at| { assert all[at[i]] == events[at[i]]; } else { assert all[at'[i]] == e && messages'[i] == m; }
    }
  }

  lemma ProjectsSame(events: seq<Event>, at: seq<nat>, messages: seq<RecordedWSMessage>, e: Event)
    requires Projects(events, at, messages) && !CarriesData(e)
    ensures Projects(events + [e], at, messages)
  {
    PositionsSnoc(events, at, e);
    forall i | 0 <= i < |at| ensures Records((events + [e])[at[i]], messages[i]) {
      assert (events + [e])[at[i]] == events[at[i]];
    }
  }

  lemma ProjectsSnoc(events: seq<Event>, at: seq<nat>, before: Conversation, e: Event)
    requires Projects(events, at, before.messages)
    ensures Projects(events + [e], if CarriesData(e) then at + [|events|] else at, Step(before, e).messages)
  {
    StepFollows(before, e);
    if CarriesData(e) {
      var m :| Records(e, m) && Step(before, e).messages == before.messages + [m];
      ProjectsAdd(events, at, before.messages, e, m);
    } else {
      ProjectsSame(events, at, before.messages, e);
    }
  }

  lemma AcceptedSnoc(events: seq<Event>, e: Event, before: Conversation)
    requires before.accepted <==> SendAccept in events
    ensures Step(before, e).accepted <==> SendAccept in events + [e]
  {
  }

  /** A transcript that holds exactly the data messages, in order and with their senders; `accepted`
      says whether an accept was sent; `close` is the last closing, if any. */
  ghost predicate IsProjection(events: seq<Event>, at: seq<nat>, c: Conversation) {
    && Projects(events, at, c.messages)
    && (c.accepted <==> SendAccept in events)
    && LastClosing(events, c.close)
  }

  lemma {:induction false} MessagesProjected(events: seq<Event>) returns (at: seq<nat>)
    ensures Projects(events, at, Replay(events).messages)
    decreases |events|
  {
    at := [];
    if events != [] {
      var init, e := events[..|events| - 1], events[|events| - 1];
      assert events == init + [e];
      var before := MessagesProjected(init);
      ProjectsSnoc(init, before, Replay(init), e);
      at := if CarriesData(e) then before + [|init|] else before;
    }
  }

  lemma {:induction false} AcceptedReplayed(events: seq<Event>)
    ensures Replay(events).accepted <==> SendAccept in events
    decreases |events|
  {
    if events != [] {
      var init, e := events[..|events| - 1], events[|events| - 1];
      assert events == init + [e];
      AcceptedReplayed(init);
      AcceptedSnoc(init, e, Replay(init));
    }
  }

  lemma {:induction false} ClosingReplayed(events: seq<Event>)
    ensures LastClosing(events, Replay(events).close)
    decreases |events|
  {
    if events != [] {
      var init, e := events[..|events| - 1], events[|events| - 1];
      assert events == init + [e];
      ClosingReplayed(init);
      LastClosingSnoc(init, e, Replay(init));
    }
  }

  lemma TranscriptIsProjection(events: seq<Event>) returns (at: seq<nat>)
    ensures IsProjection(events, at, Replay(events))
  {
    at := MessagesProjected(events);
    AcceptedReplayed(events);
    ClosingReplayed(events);
  }

  /** A transcript, shared by all the captures it was appended to. */
  class RecordedWSTranscript<P> {
    const scope: Recorded<P>
    var messages: seq<RecordedWSMessage>
    var accepted: bool
    var close: Option<(Sender, int)>

    function Content(): Conversation
      reads this
    {
      Conversation(messages, accepted, close)
    }

    constructor (scope: Recorded<P>)
      ensures this.scope == scope && Content() == Replay([])
    {
      this.scope := scope;
      messages, accepted, close := [], false, None;
    }
  }

  /** The list a capture hands out. */
  class RecordedWSTranscripts<P> {
    var transcripts: seq<RecordedWSTranscript<P>>
  }

  class WebSocketRecorder<P> {
    const transcript: RecordedWSTranscript<P>

    constructor (scope: Recorded<P>, sinks: seq<RecordedWSTranscripts<P>>)
      requires forall i, j :: 0 <= i < j < |sinks| ==> sinks[i] != sinks[j]
      modifies sinks
      ensures fresh(transcript) && transcript.scope == scope && transcript.Content() == Replay([])
      ensures forall s :: s in sinks ==> s.transcripts == old(s.transcripts) + [transcript]
    {
      transcript := new RecordedWSTranscript(scope);
      new;
      for i := 0 to |sinks|
        invariant transcript.Content() == Replay([])
        invariant forall j :: 0 <= j < i ==> sinks[j].transcripts == old(sinks[j].transcripts) + [transcript]
        invariant forall j :: i <= j < |sinks| ==> sinks[j].transcripts == old(sinks[j].transcripts)
      {
        sinks[i].transcripts := sinks[i].transcripts + [transcript];
      }
    }

    method Receive(e: Event)
      requires e.ReceiveData? || e.Disconnect? || e.ReceiveOther?
      modifies transcript
      ensures transcript.Content() == Step(old(transcript.Content()), e)
      ensures Follows(old(transcript.Content()), e, transcript.Content())
    {
      StepFollows(transcript.Content(), e);
      match e
      case ReceiveData(text, bytes) =>
        var data := if text.Some? then Some(Text(text.value))
                    else if bytes.Some? then Some(Binary(bytes.value)) else None;
        transcript.messages := transcript.messages + [RecordedWSMessage(data, Client)];
      case Disconnect(code) =>
        transcript.close := Some((Client, if code.Some? then code.value else NORMAL_CLOSURE));
      case _ =>
    }

    /** The event is recorded before it is passed on, whether or not passing it on succeeds. */
    method Send(e: Event)
      requires e.SendAccept? || e.SendClose? || e.SendData? || e.SendOther?
      modifies transcript
      ensures transcript.Content() == Step(old(transcript.Content()), e)
      ensures Follows(old(transcript.Content()), e, transcript.Content())
    {
      StepFollows(transcript.Content(), e);
      match e
      case SendAccept =>
        transcript.accepted := true;
      case SendClose(code) =>
        transcript.close := Some((Server, if code.Some? then code.value else NORMAL_CLOSURE));
      case SendData(text, bytes) =>
        var data := if text.Some? then Some(Text(text.value))
                    else if bytes.Some? then Some(Binary(bytes.value)) else None;
        transcript.messages := transcript.messages + [RecordedWSMessage(data, Server)];
      case _ =>
    }
  }

  /** `RecorderEndpoint.__call__`: each capture open when the connection starts gets one and the
      same transcript, and that transcript follows the conversation to its end. */
  method RecordConnection<P>(scope: Recorded<P>, sinks: seq<RecordedWSTranscripts<P>>, events: seq<Event>)
      returns (t: RecordedWSTranscript<P>)
    requires forall i, j :: 0 <= i < j < |sinks| ==> sinks[i] != sinks[j]
    modifies sinks
    ensures fresh(t) && t.scope == scope
    ensures forall s :: s in sinks ==> s.transcripts == old(s.transcripts) + [t]
    ensures t.Content() == Replay(events)
  {
    var ws := new WebSocketRecorder(scope, sinks);
    t := ws.transcript;
    for i := 0 to |events|
      invariant t.Content() == Replay(events[..i])
      invariant forall s :: s in sinks ==> s.transcripts == old(s.transcripts) + [t]
    {
      assert events[..i + 1][..i] == events[..i];
      match events[i] {
        case ReceiveData(_, _) => ws.Receive(events[i]);
        case Disconnect(_) => ws.Receive(events[i]);
        case ReceiveOther => ws.Receive(events[i]);
        case _ => ws.Send(events[i]);
      }
    }
    assert events[..|events|] == events;
  }

  // -------------------------------------------------------------------------------------------
  // Matching
  // -------------------------------------------------------------------------------------------

  datatype Verdict = Unfinished | Matched | Mismatched

  /** The nested loops of `matches`: try each window in turn. */
  method FindWindow(ms: seq<ExpectedWSMessage>, recorded: seq<RecordedWSMessage>, lo: nat, hi: nat)
      returns (found: bool)
    requires lo <= hi <= |recorded| - |ms| + 1
    ensures found <==> exists at: nat :: lo <= at < hi && MatchesAt(ms, recorded, at)
  {
    for start := lo to hi
      invariant forall at: nat :: lo <= at < start ==> !MatchesAt(ms, recorded, at)
    {
      var i := 0;
      while i < |ms| && ms[i].Matches(recorded[start + i])
        invariant i <= |ms|
        invariant forall k :: 0 <= k < i ==> ms[k].Matches(recorded[start + k])
      {
        i := i + 1;
      }
      if i == |ms| {
        assert MatchesAt(ms, recorded, start);
        return true;
      }
    }
    return false;
  }

  /** `ExpectedWSTranscript.matches`. A finished transcript matches exactly when its scope, closing
      and acceptance are as expected and its messages are in the language of the pattern. */
  method Matches<P(==)>(e: ExpectedWSTranscript<P>, recorded: RecordedWSTranscript<P>) returns (v: Verdict)
    ensures v == Unfinished <==> recorded.close.None?
    ensures recorded.close.Some? ==>
              (v == Matched
               <==> && Accepts(e.scope, recorded.scope)
                    && (e.close.Some? ==> recorded.close == e.close)
                    && (e.accepted.Some? ==> recorded.accepted == e.accepted.value)
                    && InLanguage(Normal(e.anyStart, e.messages, e.anyEnd), recorded.messages))
  {
    if recorded.close.None? { return Unfinished; }
    var parts := ScopeMismatchReasons(e.scope, recorded.scope);
    var n, m := |e.messages|, |recorded.messages|;
    WindowLanguage(e.anyStart, e.messages, e.anyEnd, recorded.messages);
    var reasons := |parts|;
    if e.close.Some? && recorded.close != e.close { reasons := reasons + 1; }
    if e.accepted.Some? && recorded.accepted != e.accepted.value { reasons := reasons + 1; }
    if !e.anyStart && !e.anyEnd && m != n { reasons := reasons + 1; }
    if m < n { reasons := reasons + 1; }
    if reasons > 0 { return Mismatched; }
    var lo, hi := 0, m - n + 1;
    if !e.anyStart { hi := 1; }
    else if !e.anyEnd { lo, hi := m - n, m - n + 1; }
    var found := FindWindow(e.messages, recorded.messages, lo, hi);
    return if found then Matched else Mismatched;
  }

  // -------------------------------------------------------------------------------------------
  // Grouping the pairs of a connection
  // -------------------------------------------------------------------------------------------

  /** `from_connection`, the grouping of its header and query pairs. */
  method GroupConnection(lower: string -> string, headers: seq<(string, string)>, query: seq<(string, string)>)
      returns (h: map<string, seq<string>>, q: map<string, seq<string>>)
    ensures Groups(seq(|headers|, i requires 0 <= i < |headers| => (lower(headers[i].0), headers[i].1)), h)
    ensures Groups(query, q)
  {
    h := map[];
    ghost var lowered := seq(|headers|, i requires 0 <= i < |headers| => (lower(headers[i].0), headers[i].1));
    for i := 0 to |headers|
      invariant Groups(lowered[..i], h)
    {
      GroupsStep(lowered, i, h);
      var hkLower := lower(headers[i].0);
      var hList := if hkLower in h then Some(h[hkLower]) else None;
      match hList
      case None => h := h[hkLower := [headers[i].1]];
      case Some(values) => h := h[hkLower := values + [headers[i].1]];
    }
    assert lowered[..|headers|] == lowered;
    assert lowered == seq(|headers|, i requires 0 <= i < |headers| => (lower(headers[i].0), headers[i].1));
    q := map[];
    for i := 0 to |query|
      invariant Groups(query[..i], q)
    {
      GroupsStep(query, i, q);
      var qList := if query[i].0 in q then Some(q[query[i].0]) else None;
      match qList
      case None => q := q[query[i].0 := [query[i].1]];
      case Some(values) => q := q[query[i].0 := values + [query[i].1]];
    }
    assert query[..|query|] == query;
  }
}
