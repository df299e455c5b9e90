/** The client side of the session: the reducer that turns each server
    message into the React state of the voice agent hook (agent state,
    transcript, metrics, session id) and drives the sentence player, and the
    disconnect. Sockets, the microphone and the React scheduler are not
    modelled; the hook state is a value and each handler returns the next
    one. */
module VoiceAgent {
  import opened Basics
  import opened Protocol
  import TtsPlayer

  /** One line of the on-screen transcript. */
  datatype Line =
    | UserLine(text: string, isInterim: bool)
    | AssistantLine(text: string)

  /** `{ turnId, ...data }`: the latency figures are not modelled. */
  datatype MetricsEntry = MetricsEntry(turnId: nat, bargeIn: bool)

  /** The hook's state, with the player reference (`None` before connect and
      after disconnect). */
  datatype Ui = Ui(
    state: AgentState,
    transcript: seq<Line>,
    metrics: seq<MetricsEntry>,
    isConnected: bool,
    sessionId: Option<string>,
    player: Option<TtsPlayer.Player>)

  /** The next hook state, and whether the `onInterviewEnd` callback ran. */
  datatype Reaction = Reaction(ui: Ui, interviewEnded: bool)

  const MaxMetrics: nat := 10

  const Initial: Ui := Ui(Idle, [], [], false, None, None)

  /** `ttsPlayerRef.current?.stopAll()`. */
  function StopPlayer(p: Option<TtsPlayer.Player>): (r: Option<TtsPlayer.Player>)
    ensures r.Some? <==> p.Some?
  {
    if p.Some? then Some(TtsPlayer.StopAll(p.value)) else None
  }

  /** The `transcript_user` update: an interim user line at the end is
      replaced, anything else gets a new line after it. */
  function AddUser(t: seq<Line>, text: string, isInterim: bool): (r: seq<Line>)
    ensures r != [] && |t| <= |r| <= |t| + 1 && r[|r| - 1] == UserLine(text, isInterim)
    ensures t != [] ==> r[..|t| - 1] == t[..|t| - 1]
  {
    if t != [] && t[|t| - 1].UserLine? && t[|t| - 1].isInterim then t[..|t| - 1] + [UserLine(text, isInterim)]
    else t + [UserLine(text, isInterim)]
  }

  /** The `transcript_assistant` update: an assistant line at the end is
      replaced, anything else gets a new line after it. */
  function AddAssistant(t: seq<Line>, text: string): (r: seq<Line>)
    ensures r != [] && |t| <= |r| <= |t| + 1 && r[|r| - 1] == AssistantLine(text)
    ensures t != [] ==> r[..|t| - 1] == t[..|t| - 1]
  {
    if t != [] && t[|t| - 1].AssistantLine? then t[..|t| - 1] + [AssistantLine(text)]
    else t + [AssistantLine(text)]
  }

  /** `[{ turnId, ...data }, ...prev].slice(0, 10)`. */
  function AddMetrics(m: seq<MetricsEntry>, e: MetricsEntry): (r: seq<MetricsEntry>)
    ensures 0 < |r| <= MaxMetrics && r[0] == e
  {
    Take([e] + m, MaxMetrics)
  }

  /** `handleMessage(msg)`. For `tts_audio_full` the flag says whether the
      audio decodes. A `tts_complete` calls `markBackendDone`, which the
      player does not define: with a player the call throws before any state
      changes, without one it is skipped, so the state is unchanged either
      way. */
  function HandleMessage(ui: Ui, msg: ServerMessage, decodes: bool): (r: Reaction)
    ensures r.interviewEnded <==> msg.InterviewEnd?
    ensures msg.InterviewEnd? || msg.TtsComplete? ==> r.ui == ui
    ensures r.ui.isConnected == ui.isConnected
    ensures r.ui.transcript != ui.transcript ==> msg.TranscriptUser? || msg.TranscriptAssistant?
    ensures r.ui.metrics != ui.metrics ==> msg.Metrics?
    ensures |r.ui.transcript| >= |ui.transcript|
  {
    match msg
      case State(value) =>
        Reaction(ui.(state := value,
                     player := if value == Listening || value == Thinking then StopPlayer(ui.player) else ui.player),
                 false)
      case TranscriptUser(text, isInterim) =>
        Reaction(if text == [] then ui else ui.(transcript := AddUser(ui.transcript, text, isInterim)), false)
      case TranscriptAssistant(text) =>
        Reaction(if text == [] then ui else ui.(transcript := AddAssistant(ui.transcript, text)), false)
      case Metrics(turnId, bargeIn) =>
        Reaction(ui.(metrics := AddMetrics(ui.metrics, MetricsEntry(turnId, bargeIn))), false)
      case BargeIn =>
        Reaction(ui.(player := StopPlayer(ui.player), state := Listening), false)
      case TtsAudioFull(_, index, total, requestId) =>
        var p := if ui.player.Some?
                 then Some(TtsPlayer.HandleFullAudio(ui.player.value, TtsPlayer.Segment(index, total), requestId, decodes))
                 else None;
        Reaction(ui.(player := p), false)
      case TtsComplete(_) =>
        Reaction(ui, false)
      case SessionStarted(id) =>
        Reaction(ui.(sessionId := if id == [] then None else Some(id)), false)
      case InterviewEnd =>
        Reaction(ui, true)
  }

  /** Feeds a run of messages through the reducer; the result counts the
      `onInterviewEnd` calls. */
  function HandleAll(ui: Ui, msgs: seq<ServerMessage>, decodes: bool): (r: (Ui, nat))
    ensures r.1 <= |msgs|
    ensures r.0.isConnected == ui.isConnected && |r.0.transcript| >= |ui.transcript|
    decreases |msgs|
  {
    if msgs == [] then (ui, 0)
    else
      var step := HandleMessage(ui, msgs[0], decodes);
      var rest := HandleAll(step.ui, msgs[1..], decodes);
      (rest.0, rest.1 + (if step.interviewEnded then 1 else 0))
  }

  /** `disconnect()`: the player is stopped and dropped, the socket closed,
      and the hook shows an idle, disconnected agent. */
  function Disconnect(ui: Ui): (r: Ui)
    ensures r.player.None? && !r.isConnected && r.state == Idle
    ensures r.transcript == ui.transcript && r.metrics == ui.metrics && r.sessionId == ui.sessionId
  {
    ui.(player := None, isConnected := false, state := Idle)
  }

  // ---------------------------------------------------------------------
  // The transcript

  /** All transcript lines carry text. */
  predicate NonEmptyLines(t: seq<Line>) {
    forall i :: 0 <= i < |t| ==> t[i].text != []
  }

  /** Two assistant lines are never adjacent, and an interim user line is
      never followed by another user line: each update replaces the line it
      would otherwise repeat. */
  predicate NoRepeats(t: seq<Line>) {
    forall i :: 0 <= i < |t| - 1 ==>
      !(t[i].AssistantLine? && t[i + 1].AssistantLine?)
      && !(t[i].UserLine? && t[i].isInterim && t[i + 1].UserLine?)
  }

  predicate GoodTranscript(t: seq<Line>) {
    NonEmptyLines(t) && NoRepeats(t)
  }

  /** A transcript update keeps every line before the last, ends with the
      new line, and grows by one line exactly when the last line was not
      the one it replaces. */
  lemma UserLineEffect(t: seq<Line>, text: string, isInterim: bool)
    ensures var r := AddUser(t, text, isInterim);
      var swap := (t != [] && t[|t| - 1].UserLine? && t[|t| - 1].isInterim);
      && |r| == (if swap then |t| else |t| + 1)
      && r[|r| - 1] == UserLine(text, isInterim)
      && r[..|r| - 1] == (if swap then t[..|t| - 1] else t)
  {
  }

  lemma AssistantLineEffect(t: seq<Line>, text: string)
    ensures var r := AddAssistant(t, text);
      var swap := (t != [] && t[|t| - 1].AssistantLine?);
      && |r| == (if swap then |t| else |t| + 1)
      && r[|r| - 1] == AssistantLine(text)
      && r[..|r| - 1] == (if swap then t[..|t| - 1] else t)
  {
  }

  /** The transcript never shrinks, and no update touches a line other than
      the last. */
  lemma TranscriptOnlyGrows(ui: Ui, msg: ServerMessage, decodes: bool)
    ensures var t := ui.transcript; var r := HandleMessage(ui, msg, decodes).ui.transcript;
      && |r| >= |t|
      && (t != [] ==> r[..|t| - 1] == t[..|t| - 1])
  {
    var t := ui.transcript;
    var r := HandleMessage(ui, msg, decodes).ui.transcript;
    if t != [] && r != t {
      assert r[..|r| - 1][..|t| - 1] == r[..|t| - 1];
    }
  }

  /** Appending after a line never creates one of the forbidden pairs the
      new line does not form with its predecessor. */
  lemma AppendKeeps(t: seq<Line>, x: Line)
    requires GoodTranscript(t) && x.text != []
    requires t != [] ==> !(t[|t| - 1].AssistantLine? && x.AssistantLine?)
    requires t != [] ==> !(t[|t| - 1].UserLine? && t[|t| - 1].isInterim && x.UserLine?)
    ensures GoodTranscript(t + [x])
  {
    var r := t + [x];
    forall i | 0 <= i < |r| - 1
      ensures !(r[i].AssistantLine? && r[i + 1].AssistantLine?)
      ensures !(r[i].UserLine? && r[i].isInterim && r[i + 1].UserLine?)
    {
      if i < |t| - 1 { assert r[i] == t[i] && r[i + 1] == t[i + 1]; }
    }
  }

  lemma DropLastKeeps(t: seq<Line>)
    requires GoodTranscript(t) && t != []
    ensures GoodTranscript(t[..|t| - 1])
  {
    var d := t[..|t| - 1];
    forall i | 0 <= i < |d| - 1
      ensures !(d[i].AssistantLine? && d[i + 1].AssistantLine?)
      ensures !(d[i].UserLine? && d[i].isInterim && d[i + 1].UserLine?)
    {
      assert d[i] == t[i] && d[i + 1] == t[i + 1];
    }
  }

  /** Every message keeps the transcript free of empty lines and of repeated
      assistant or interim user lines. */
  lemma MessageKeepsTranscript(ui: Ui, msg: ServerMessage, decodes: bool)
    requires GoodTranscript(ui.transcript)
    ensures GoodTranscript(HandleMessage(ui, msg, decodes).ui.transcript)
  {
    var t := ui.transcript;
    match msg {
      case TranscriptUser(text, isInterim) =>
        if text != [] {
          var x := UserLine(text, isInterim);
          if t != [] && t[|t| - 1].UserLine? && t[|t| - 1].isInterim {
            var d := t[..|t| - 1];
            DropLastKeeps(t);
            if d != [] {
              assert d[|d| - 1] == t[|t| - 2];
            }
            AppendKeeps(d, x);
          } else {
            AppendKeeps(t, x);
          }
        }
      case TranscriptAssistant(text) =>
        if text != [] {
          var x := AssistantLine(text);
          if t != [] && t[|t| - 1].AssistantLine? {
            var d := t[..|t| - 1];
            DropLastKeeps(t);
            if d != [] {
              assert d[|d| - 1] == t[|t| - 2];
            }
            AppendKeeps(d, x);
          } else {
            AppendKeeps(t, x);
          }
        }
      case _ =>
    }
  }

  // ---------------------------------------------------------------------
  // Metrics

  /** The newest metrics come first, the list keeps at most ten entries,
      and the older entries follow in their previous order. */
  lemma MetricsNewestFirst(m: seq<MetricsEntry>, e: MetricsEntry)
    ensures var r := AddMetrics(m, e);
      && r[0] == e
      && |r| == (if |m| + 1 < MaxMetrics then |m| + 1 else MaxMetrics)
      && r[1..] == m[..|r| - 1]
  {
    var r := AddMetrics(m, e);
    assert r == ([e] + m)[..|r|];
    assert r[1..] == ([e] + m)[1..|r|];
    assert ([e] + m)[1..|r|] == m[..|r| - 1];
  }

  // ---------------------------------------------------------------------
  // The hook state over a run of messages

  /** The state every reachable hook state satisfies: a bounded metrics
      list, a well-formed transcript and a player in a reachable state. */
  predicate Valid(ui: Ui) {
    && |ui.metrics| <= MaxMetrics
    && GoodTranscript(ui.transcript)
    && (ui.player.Some? ==> TtsPlayer.Valid(ui.player.value))
  }

  lemma MessageKeepsValid(ui: Ui, msg: ServerMessage, decodes: bool)
    requires Valid(ui)
    ensures Valid(HandleMessage(ui, msg, decodes).ui)
  {
    MessageKeepsTranscript(ui, msg, decodes);
    if ui.player.Some? && msg.TtsAudioFull? {
      TtsPlayer.EventsKeepValid(ui.player.value, TtsPlayer.Segment(msg.index, msg.total), msg.requestId, decodes);
    }
  }

  /** Any run of messages keeps the hook state valid, and the interview end
      callback runs once per `interview_end` message. */
  lemma {:induction false} RunKeepsValid(ui: Ui, msgs: seq<ServerMessage>, decodes: bool)
    requires Valid(ui)
    ensures Valid(HandleAll(ui, msgs, decodes).0)
    ensures HandleAll(ui, msgs, decodes).1 == CountEnds(msgs)
    decreases |msgs|
  {
    if msgs != [] {
      MessageKeepsValid(ui, msgs[0], decodes);
      RunKeepsValid(HandleMessage(ui, msgs[0], decodes).ui, msgs[1..], decodes);
    }
  }

  /** The number of `interview_end` messages in a run. */
  function CountEnds(msgs: seq<ServerMessage>): nat {
    if msgs == [] then 0 else (if msgs[0].InterviewEnd? then 1 else 0) + CountEnds(msgs[1..])
  }

  // ---------------------------------------------------------------------
  // Playback

  /** A barge-in, or a state change to listening or thinking, silences the
      player and empties its queue, and the next sentence of any request
      is accepted. */
  lemma BargeInSilences(ui: Ui, msg: ServerMessage, decodes: bool)
    requires msg.BargeIn? || msg == State(Listening) || msg == State(Thinking)
    ensures var r := HandleMessage(ui, msg, decodes).ui;
      && (r.state == Listening || r.state == Thinking)
      && (r.player.Some? <==> ui.player.Some?)
      && (r.player.Some? ==> r.player.value == TtsPlayer.Fresh)
  {
  }

  /** A state change to speaking or idle leaves the player alone. */
  lemma OtherStatesKeepPlayer(ui: Ui, value: AgentState, decodes: bool)
    requires value == Speaking || value == Idle
    ensures HandleMessage(ui, State(value), decodes).ui == ui.(state := value)
  {
  }

  /** Audio of a request other than the one playing never reaches the
      player's queue. */
  lemma StaleAudioIgnored(ui: Ui, audio: seq<Byte>, index: nat, total: nat, requestId: nat, decodes: bool)
    requires ui.player.Some? && ui.player.value.currentRequestId.Some?
    requires requestId != ui.player.value.currentRequestId.value
    ensures HandleMessage(ui, TtsAudioFull(audio, index, total, requestId), decodes).ui == ui
  {
    TtsPlayer.DropsOtherRequest(ui.player.value, TtsPlayer.Segment(index, total), requestId, decodes);
  }

  /** The session id shown is the one the server sent, an empty id showing
      as none. */
  lemma SessionIdShown(ui: Ui, id: string, decodes: bool)
    ensures var r := HandleMessage(ui, SessionStarted(id), decodes);
      (r.ui.sessionId.Some? <==> id != []) && (id != [] ==> r.ui.sessionId.value == id) && !r.interviewEnded
  {
  }

  /** Only `interview_end` runs the interview end callback, and it changes
      nothing else. */
  lemma InterviewEndOnly(ui: Ui, msg: ServerMessage, decodes: bool)
    ensures var r := HandleMessage(ui, msg, decodes);
      r.interviewEnded <==> msg.InterviewEnd?
    ensures msg.InterviewEnd? ==> HandleMessage(ui, msg, decodes).ui == ui
  {
  }
}
