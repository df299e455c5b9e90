/** The backend's per-session turn engine: the audio and control branches
    of the WebSocket message handler, the silence heartbeat, `finalizeTurn`,
    `handleUserTurn` with the search gate, and the admin context route.

    The model is sequential. Every `await` of the source is a point where
    the model either runs the awaited work at once (synthesis, the LLM
    calls) with its outcome taken from an oracle, or, for the delayed
    `handleUserTurn` of `finalizeTurn`, queues it as a pending turn that a
    later `TurnDue` event runs. */
module Server {
  import opened Basics
  import opened Text
  import opened Protocol
  import opened Sessions
  import Vad
  import TtsService
  import SpeechFormatter

  /** Silence after the last audio frame after which the heartbeat ends a
      turn, in milliseconds. */
  const TurnEndSilenceMs: int := 800
  /** History entries kept when the user message is appended. */
  const HistoryLimit: nat := 12

  // ---------------------------------------------------------------------
  // shouldTriggerSearch

  const Keywords: seq<string> :=
    ["today", "latest", "current", "news", "now", "weather", "stock", "price", "ceo", "score"]
  const StopWords: seq<string> := ["what", "is", "the", "about", "a", "an"]
  const FollowUpPrefix: string := "what about the "

  predicate IsLowerLetter(c: char) {
    'a' <= c <= 'z'
  }

  /** `[a-z]+` matching the whole of `w`. */
  predicate Letters(w: string) {
    w != [] && forall i :: 0 <= i < |w| ==> IsLowerLetter(w[i])
  }

  /** `/^<prefix>[a-z]+$/` */
  predicate WordAfter(q: string, prefix: string) {
    StartsWith(q, prefix) && Letters(q[|prefix|..])
  }

  /** The length of the longest suffix of lower-case letters. */
  function TrailingLetters(q: string): (n: nat)
    ensures n <= |q|
    ensures forall i :: |q| - n <= i < |q| ==> IsLowerLetter(q[i])
    ensures n < |q| ==> !IsLowerLetter(q[|q| - n - 1])
    decreases |q|
  {
    if q == [] || !IsLowerLetter(q[|q| - 1]) then 0
    else 1 + TrailingLetters(q[..|q| - 1])
  }

  predicate EndsWith(s: string, p: string) {
    |p| <= |s| && s[|s| - |p|..] == p
  }

  /** `/what about the [a-z]+$/`, not anchored at the start: the trailing
      letters are the `[a-z]+`, since the blank before them is no letter. */
  predicate FollowUp(q: string) {
    var n := TrailingLetters(q);
    n > 0 && EndsWith(q[..|q| - n], FollowUpPrefix)
  }

  /** The four skip patterns of the gate. */
  predicate Skipped(q: string) {
    WordAfter(q, "what is ") || WordAfter(q, "explain ") || WordAfter(q, "is ") || FollowUp(q)
  }

  /** `keywords.some(k => q.includes(k))` */
  function AnyContained(q: string, ks: seq<string>): (r: bool)
    ensures r <==> exists i :: 0 <= i < |ks| && Contains(q, ks[i])
  {
    if ks == [] then false
    else Contains(q, ks[0]) || AnyContained(q, ks[1..])
  }

  /** The tokens that are not stop words, in order. */
  function ContentWords(words: seq<string>): (r: seq<string>)
    ensures |r| <= |words|
    ensures forall w :: w in r <==> w in words && w !in StopWords
    ensures forall w :: multiset(r)[w] == if w in StopWords then 0 else multiset(words)[w]
  {
    if words == [] then []
    else
      assert words == [words[0]] + words[1..];
      if words[0] in StopWords then ContentWords(words[1..])
      else [words[0]] + ContentWords(words[1..])
  }

  /** The filter keeps the order of the tokens: filtering a concatenation
      concatenates the filtered parts. */
  lemma {:induction false} ContentWordsAppend(a: seq<string>, b: seq<string>)
    ensures ContentWords(a + b) == ContentWords(a) + ContentWords(b)
    decreases |a|
  {
    if a != [] {
      assert (a + b)[0] == a[0] && (a + b)[1..] == a[1..] + b;
      ContentWordsAppend(a[1..], b);
      var head := if a[0] in StopWords then [] else [a[0]];
      assert ContentWords(a) == head + ContentWords(a[1..]);
      assert ContentWords(a + b) == head + ContentWords(a[1..] + b);
    } else {
      assert a + b == b;
    }
  }

  /** `shouldTriggerSearch(query)` */
  function ShouldTriggerSearch(query: string): (r: bool)
    ensures r ==> AnyContained(ToLower(query), Keywords)
    ensures r ==> !Skipped(ToLower(query)) && |ContentWords(SplitWs(ToLower(query)))| >= 2
  {
    var q := ToLower(query);
    if Skipped(q) then false
    else AnyContained(q, Keywords) && |ContentWords(SplitWs(q))| >= 2
  }

  /** The unanchored follow-up pattern matches exactly when some suffix of
      the text is the prefix followed by letters only. */
  lemma FollowUpIff(q: string)
    ensures FollowUp(q) <==> exists k :: 0 <= k <= |q| && WordAfter(q[k..], FollowUpPrefix)
  {
    var n := TrailingLetters(q);
    var m := |FollowUpPrefix|;
    if FollowUp(q) {
      var k := |q| - n - m;
      assert q[k..][..m] == q[..|q| - n][k..];
      assert q[k..][m..] == q[|q| - n..];
      assert WordAfter(q[k..], FollowUpPrefix);
    }
    if k :| 0 <= k <= |q| && WordAfter(q[k..], FollowUpPrefix) {
      FollowUpAt(q, k);
    }
  }

  lemma FollowUpAt(q: string, k: nat)
    requires k <= |q| && WordAfter(q[k..], FollowUpPrefix)
    ensures FollowUp(q)
  {
    var n := TrailingLetters(q);
    var m := |FollowUpPrefix|;
    var w := q[k + m..];
    assert q[k..][m..] == w;
    assert q[k + m - 1] == q[k..][m - 1] == ' ';
    assert forall i :: k + m <= i < |q| ==> IsLowerLetter(q[i]) by {
      forall i | k + m <= i < |q| ensures IsLowerLetter(q[i]) {
        assert q[i] == w[i - k - m];
      }
    }
    assert n == |w|;
    assert q[..|q| - n][|q| - n - m..] == q[k..][..m];
  }

  /** The gate ignores letter case. */
  lemma SearchIgnoresCase(query: string)
    ensures ShouldTriggerSearch(ToLower(query)) == ShouldTriggerSearch(query)
  {
    ToLowerShape(query);
    ToLowerFixed(ToLower(query));
  }

  /** "what is", "explain" or "is" followed by one word of letters, in any
      letter case, never triggers a search. */
  lemma DefinitionalSkipped(prefix: string, w: string, query: string)
    requires prefix == "what is " || prefix == "explain " || prefix == "is "
    requires Letters(w) && ToLower(query) == prefix + w
    ensures !ShouldTriggerSearch(query)
  {
    var q := prefix + w;
    assert q[..|prefix|] == prefix && q[|prefix|..] == w;
  }

  /** Anything ending in "what about the" and one word of letters never
      triggers a search. */
  lemma FollowUpSkipped(before: string, w: string, query: string)
    requires Letters(w) && ToLower(query) == before + FollowUpPrefix + w
    ensures !ShouldTriggerSearch(query)
  {
    var q := before + FollowUpPrefix + w;
    var k := |before|;
    assert q[k..] == FollowUpPrefix + w;
    assert q[k..][..|FollowUpPrefix|] == FollowUpPrefix;
    assert q[k..][|FollowUpPrefix|..] == w;
    FollowUpAt(q, k);
  }

  // ---------------------------------------------------------------------
  // Events and their results

  /** What one handler run changed: the session, the messages it sent, and
      whether it called `finalizeTurn` (whose `handleUserTurn` runs later). */
  datatype Handled = Handled(next: Session, sent: seq<ServerMessage>, queued: bool)

  /** The speech-start branch of the audio handler: a barge-in. */
  function BargeIn(s: Session, open: bool): (r: Handled)
    ensures r.next == s.(isSpeaking := true, ttsRequestId := s.ttsRequestId + 1,
      isSpeakingTTS := false, hasBargeIn := true, finalTranscript := [], interimTranscript := [])
    ensures r.sent == SendIfOpen(open, [State(Listening), Protocol.BargeIn])
    ensures !r.queued
  {
    var next := s.(isSpeaking := true, ttsRequestId := s.ttsRequestId + 1,
      isSpeakingTTS := false, hasBargeIn := true, finalTranscript := [], interimTranscript := []);
    Handled(next, SendIfOpen(open, [State(Listening)]) + SendIfOpen(open, [Protocol.BargeIn]), false)
  }

  /** The synchronous part of `finalizeTurn`: a speaking session stops
      speaking and the client is told the agent is thinking; in every case
      `handleUserTurn` is queued. */
  function FinalizeStart(s: Session, open: bool): (r: Handled)
    ensures r.queued && !r.next.isSpeaking
    ensures s.isSpeaking ==> r.next == s.(isSpeaking := false) && r.sent == SendIfOpen(open, [State(Thinking)])
    ensures !s.isSpeaking ==> r.next == s && r.sent == []
  {
    if s.isSpeaking then Handled(s.(isSpeaking := false), SendIfOpen(open, [State(Thinking)]), true)
    else Handled(s, [], true)
  }

  /** The binary branch of the message handler, for a frame arriving at
      clock reading `now`. */
  function OnAudio(s: Session, frame: Vad.Frame, now: int, open: bool): (r: Handled)
    ensures r.next.lastAudioTimestamp == now
    ensures r.next.vad == Vad.Process(s.vad, frame).next
  {
    var st := Vad.Process(s.vad, frame);
    var s1 := s.(lastAudioTimestamp := now, vad := st.next);
    if st.event == Vad.SpeechStart && !s1.isSpeaking then BargeIn(s1, open)
    else if st.event == Vad.SpeechEnd && s1.isSpeaking then FinalizeStart(s1, open)
    else Handled(s1, [], false)
  }

  /** The heartbeat's condition: still marked speaking and silent for more
      than `TurnEndSilenceMs`, strictly. */
  predicate HeartbeatDue(s: Session, now: int) {
    s.isSpeaking && now - s.lastAudioTimestamp > TurnEndSilenceMs
  }

  /** The heartbeat body for one session. */
  function HeartbeatOne(s: Session, now: int, open: bool): (r: Handled)
    ensures r.queued <==> HeartbeatDue(s, now)
    ensures !r.queued ==> r.next == s && r.sent == []
    ensures r.queued ==> r.next == s.(isSpeaking := false)
  {
    if HeartbeatDue(s, now) then FinalizeStart(s, open) else Handled(s, [], false)
  }

  datatype Swept = Swept(registry: Registry, finalized: set<string>)

  /** One heartbeat over every registered session; `finalized` are the ids
      whose `finalizeTurn` was called. The messages each finalization sends
      are those of `HeartbeatOne`. */
  function Heartbeat(reg: Registry, now: int): (r: Swept)
    ensures r.registry.Keys == reg.Keys
    ensures forall id :: id in r.finalized <==> id in reg && HeartbeatDue(reg[id], now)
    ensures forall id :: id in reg && HeartbeatDue(reg[id], now) ==>
      r.registry[id] == reg[id].(isSpeaking := false)
    ensures forall id :: id in reg && !HeartbeatDue(reg[id], now) ==> r.registry[id] == reg[id]
  {
    Swept(
      map id | id in reg :: HeartbeatOne(reg[id], now, false).next,
      set id | id in reg && HeartbeatDue(reg[id], now))
  }

  /** A second heartbeat at the same clock reading finalizes nothing. */
  lemma HeartbeatOnce(reg: Registry, now: int)
    ensures Heartbeat(Heartbeat(reg, now).registry, now).finalized == {}
  {
    var r1 := Heartbeat(reg, now).registry;
    forall id | id in r1 ensures !HeartbeatDue(r1[id], now) {
    }
  }

  // ---------------------------------------------------------------------
  // Control messages

  const DefaultContext: string :=
    "IMPORTANT: You are a testimonial interviewer. Ask the user about their experience with the business. Be warm and conversational. Do not use lists."
  const InterviewGreeting: string := "Hello, I'm ready to share my testimonial."
  const InterviewThanks: string :=
    "Thank you so much for sharing your testimonial. Your feedback is really valuable!"

  /** Parsed JSON control messages, one constructor per handled `type`;
      `None` is a missing or non-string field. */
  datatype Control =
    | ContextUpdate(content: Option<string>)
    | DebugInput(text: Option<string>)
    | PlaybackComplete
    | StartInterview
    | EndInterview(tts: TtsService.TtsEnv)
    | OtherType

  /** `context_update`: a non-blank string replaces the dynamic context by
      one system message with the trimmed text. */
  function UpdateContext(s: Session, content: Option<string>): (r: Session)
    ensures r == s || (&& r.contextVersion == s.contextVersion + 1
                       && |r.dynamicContext| == 1 && r.dynamicContext[0].role == System
                       && r.dynamicContext[0].content != [] && IsTrimmed(r.dynamicContext[0].content))
    ensures r.(dynamicContext := s.dynamicContext, contextVersion := s.contextVersion) == s
  {
    if content.Some? && Trim(content.value) != [] then
      s.(dynamicContext := [ChatMessage(System, Trim(content.value))], contextVersion := s.contextVersion + 1)
    else s
  }

  /** Runs `streamTTS` on the session's id and speaking flag. */
  function Speak(s: Session, text: string, open: bool, env: TtsService.TtsEnv): (r: (Session, TtsService.Streamed))
    ensures r.0 == s.(ttsRequestId := r.1.next.ttsRequestId, isSpeakingTTS := r.1.next.isSpeakingTTS)
    ensures r.1 == TtsService.StreamTts(text, TtsService.TtsState(s.ttsRequestId, s.isSpeakingTTS), open, env)
    ensures Trim(text) == [] ==> r.0 == s && r.1.sent == []
    ensures Trim(text) != [] ==> r.0.isSpeakingTTS && r.0.ttsRequestId > s.ttsRequestId
  {
    var st := TtsService.StreamTts(text, TtsService.TtsState(s.ttsRequestId, s.isSpeakingTTS), open, env);
    (s.(ttsRequestId := st.next.ttsRequestId, isSpeakingTTS := st.next.isSpeakingTTS), st)
  }

  /** The JSON branch of the message handler. */
  function OnControl(s: Session, c: Control, open: bool): (r: Handled)
    ensures r.next.messages == s.messages && r.next.turnId == s.turnId
    ensures r.queued <==> c.DebugInput? || (c.StartInterview? && !s.isInterviewActive)
    ensures !c.EndInterview? ==> r.next.ttsRequestId == s.ttsRequestId
    ensures c.OtherType? ==> r == Handled(s, [], false)
  {
    match c
    case ContextUpdate(content) => Handled(UpdateContext(s, content), [], false)
    case DebugInput(text) => FinalizeStart(s.(finalTranscript := text.GetOr([])), open)
    case PlaybackComplete => Handled(s.(isSpeakingTTS := false), SendIfOpen(open, [State(Idle)]), false)
    case StartInterview =>
      if s.isInterviewActive then Handled(s, [], false)
      else
        var ctx := if |s.dynamicContext| > 0 then s.dynamicContext else [ChatMessage(System, DefaultContext)];
        Handled(s.(isInterviewActive := true, dynamicContext := ctx, finalTranscript := InterviewGreeting),
          SendIfOpen(open, [State(Thinking)]), true)
    case EndInterview(env) => CloseInterview(s, InterviewThanks, open, env)
    case OtherType => Handled(s, [], false)
  }

  /** `end_interview` with `words` as the closing utterance. */
  function CloseInterview(s: Session, words: string, open: bool, env: TtsService.TtsEnv): (r: Handled)
    ensures !s.isInterviewActive ==> r == Handled(s, [], false)
    ensures !r.next.isInterviewActive && !r.queued
    ensures r.next.messages == s.messages && r.next.turnId == s.turnId
    ensures s.isInterviewActive ==> r.next.ttsRequestId > s.ttsRequestId
  {
    if !s.isInterviewActive then Handled(s, [], false)
    else
      var s1 := s.(isInterviewActive := false, ttsRequestId := s.ttsRequestId + 1, isSpeakingTTS := false);
      var (s2, st) := Speak(s1, words, open, env);
      Handled(s2, SendIfOpen(open, [State(Speaking)]) + st.sent + SendIfOpen(open, [InterviewEnd]), false)
  }

  /** A `context_update` with a non-blank string installs it trimmed and
      bumps the version by one; any other payload changes nothing. */
  lemma ContextUpdateEffect(s: Session, content: Option<string>, open: bool)
    ensures var r := OnControl(s, ContextUpdate(content), open);
      && r.sent == [] && !r.queued
      && (content.Some? && !AllSpace(content.value) ==>
           r.next == s.(dynamicContext := [ChatMessage(System, Trim(content.value))],
                        contextVersion := s.contextVersion + 1))
      && (content.None? || AllSpace(content.value) ==> r.next == s)
  {
    if content.Some? {
      TrimEmptyIff(content.value);
    }
  }

  /** `start_interview` is ignored while an interview runs; otherwise it
      sets the flag, installs the default context only when none is set,
      and queues the greeting turn. */
  lemma StartInterviewEffect(s: Session, open: bool)
    ensures var r := OnControl(s, StartInterview, open);
      && (s.isInterviewActive ==> r == Handled(s, [], false))
      && (!s.isInterviewActive ==>
           && r.next.isInterviewActive && r.queued
           && r.next.finalTranscript == InterviewGreeting
           && (s.dynamicContext != [] ==> r.next.dynamicContext == s.dynamicContext)
           && (s.dynamicContext == [] ==> r.next.dynamicContext == [ChatMessage(System, DefaultContext)])
           && r.next.ttsRequestId == s.ttsRequestId && r.next.messages == s.messages)
  {
  }

  lemma ThanksNotBlank()
    ensures Trim(InterviewThanks) != []
  {
    assert !IsSpace(InterviewThanks[|InterviewThanks| - 1]);
    TrimEmptyIff(InterviewThanks);
  }

  /** Closing an interview with non-blank words: ignored without an
      interview; otherwise the flag is cleared, the running stream is
      cancelled and the closing stream starts under an id two past the old
      one, between "speaking" and `interview_end`. */
  lemma CloseInterviewEffect(s: Session, words: string, env: TtsService.TtsEnv, open: bool)
    requires Trim(words) != []
    ensures var r := CloseInterview(s, words, open, env);
      && (!s.isInterviewActive ==> r == Handled(s, [], false))
      && (s.isInterviewActive ==>
           && !r.next.isInterviewActive && !r.queued && r.next.isSpeakingTTS
           && r.next.ttsRequestId >= s.ttsRequestId + 2
           && (open ==> r.sent != [] && r.sent[0] == State(Speaking) && r.sent[|r.sent| - 1] == InterviewEnd)
           && (!open ==> r.sent == []))
  {
    if s.isInterviewActive {
      var ts := TtsService.TtsState(s.ttsRequestId + 1, false);
      var st := TtsService.StreamTts(words, ts, open, env);
      var sent := SendIfOpen(open, [State(Speaking)]) + st.sent + SendIfOpen(open, [InterviewEnd]);
      assert CloseInterview(s, words, open, env) == Handled(s.(isInterviewActive := false,
        ttsRequestId := st.next.ttsRequestId, isSpeakingTTS := st.next.isSpeakingTTS), sent, false) by {
        CloseSpeaks(s, words, env, open);
      }
      assert open ==> sent != [] && sent[0] == State(Speaking) && sent[|sent| - 1] == InterviewEnd;
    }
  }

  /** An active interview's close is the closing stream, under the id one
      past the session's, between the two messages. */
  lemma CloseSpeaks(s: Session, words: string, env: TtsService.TtsEnv, open: bool)
    requires s.isInterviewActive
    ensures var st := TtsService.StreamTts(words, TtsService.TtsState(s.ttsRequestId + 1, false), open, env);
      CloseInterview(s, words, open, env) == Handled(s.(isInterviewActive := false,
        ttsRequestId := st.next.ttsRequestId, isSpeakingTTS := st.next.isSpeakingTTS),
        SendIfOpen(open, [State(Speaking)]) + st.sent + SendIfOpen(open, [InterviewEnd]), false)
  {
  }

  /** `end_interview` is ignored without an interview; otherwise the
      thank-you, which is not blank, closes it as `CloseInterviewEffect`
      describes. */
  lemma EndInterviewEffect(s: Session, env: TtsService.TtsEnv, open: bool)
    ensures var r := OnControl(s, EndInterview(env), open);
      && (!s.isInterviewActive ==> r == Handled(s, [], false))
      && (s.isInterviewActive ==>
           && !r.next.isInterviewActive && !r.queued && r.next.isSpeakingTTS
           && r.next.ttsRequestId >= s.ttsRequestId + 2
           && (open ==> r.sent != [] && r.sent[0] == State(Speaking) && r.sent[|r.sent| - 1] == InterviewEnd)
           && (!open ==> r.sent == []))
  {
    assert OnControl(s, EndInterview(env), open) == CloseInterview(s, InterviewThanks, open, env);
    ThanksNotBlank();
    CloseInterviewEffect(s, InterviewThanks, env, open);
  }

  /** `playback_complete` clears the speaking flag and tells the client the
      agent is idle; it neither touches the request id nor queues a turn. */
  lemma PlaybackCompleteEffect(s: Session, open: bool)
    ensures var r := OnControl(s, PlaybackComplete, open);
      && r.next == s.(isSpeakingTTS := false) && !r.queued
      && (open <==> r.sent == [State(Idle)])
  {
  }

  /** `debug_input` installs its text (or the empty string) as the final
      transcript and finalizes the turn as the end of speech would. */
  lemma DebugInputEffect(s: Session, text: Option<string>, open: bool)
    ensures var r := OnControl(s, DebugInput(text), open);
      && r.queued && !r.next.isSpeaking
      && r.next.finalTranscript == text.GetOr([])
      && r.next.ttsRequestId == s.ttsRequestId && r.next.messages == s.messages
      && r.sent == (if s.isSpeaking then SendIfOpen(open, [State(Thinking)]) else [])
  {
  }

  // ---------------------------------------------------------------------
  // handleUserTurn

  const EndMarker: string := "<END_INTERVIEW>"

  /** The search decision as `JSON.parse` leaves it: not JSON (the default
      `{ search: false }` is kept), `null` (reading `.search` throws), or an
      object with a truthiness for `search` and `query` when it is a string. */
  datatype Decision = NotJson | NullJson | Object(search: bool, query: Option<string>)

  /** An audio frame and the clock reading when it arrives. */
  datatype Arrival = Arrival(frame: Vad.Frame, at: int)

  /** The outcomes of the awaited calls of one turn: `None` for an LLM call
      that throws. `during` is the audio frame, if any, that the socket
      handler processes while the reply is being generated. */
  datatype TurnOracle = TurnOracle(
    decision: Option<Decision>,
    reply: Option<string>,
    during: Option<Arrival>,
    tts: TtsService.TtsEnv)

  /** The result of a turn: the session, the messages sent, the query
      passed to `webSearch`, if any, and whether the frame that arrived
      during the turn called `finalizeTurn`, queueing another turn. */
  datatype Turn = Turn(next: Session, sent: seq<ServerMessage>, searched: Option<string>, queued: bool)

  /** The interview path's reply clean-up: the first end marker, if any,
      is removed and the rest trimmed. */
  function StripEndMarker(reply: string): (r: (string, bool))
    ensures r.1 <==> Contains(reply, EndMarker)
    ensures !r.1 ==> r.0 == reply
    ensures r.1 ==> IsTrimmed(r.0)
    ensures r.1 ==> var k := IndexOf(reply, EndMarker).value;
      r.0 == Trim(reply[..k] + reply[k + |EndMarker|..])
  {
    if Contains(reply, EndMarker) then
      var k := IndexOf(reply, EndMarker).value;
      assert ReplaceFirst(reply, EndMarker, []) == reply[..k] + reply[k + |EndMarker|..];
      (Trim(ReplaceFirst(reply, EndMarker, [])), true)
    else (reply, false)
  }

  /** How a turn's later stages relate the session after the user message
      was taken (`s`) to the final one (`n`): the turn id stays, cleared
      buffers stay cleared, and the history gains at most the assistant's
      reply. */
  predicate Follows(s: Session, n: Session) {
    && n.turnId == s.turnId
    && (s.finalTranscript == [] && s.interimTranscript == [] ==>
          n.finalTranscript == [] && n.interimTranscript == [])
    && (n.messages == s.messages
        || (|n.messages| == |s.messages| + 1 && n.messages[..|s.messages|] == s.messages
            && n.messages[|s.messages|].role == Assistant))
  }

  /** Whether the frame arriving during the wait for the reply is a
      barge-in: the detector reports a speech start to a session not
      marked speaking. */
  predicate Interrupts(s: Session, o: TurnOracle) {
    o.during.Some? && Vad.Process(s.vad, o.during.value.frame).event == Vad.SpeechStart && !s.isSpeaking
  }

  /** The LLM call for the reply, with the audio handler possibly running
      on one frame while it is awaited. */
  function AwaitReply(s: Session, o: TurnOracle, open: bool): (r: Handled)
    ensures r.next.messages == s.messages && Follows(s, r.next)
    ensures o.during.None? ==> r == Handled(s, [], false)
    ensures o.during.Some? ==> && r.next.lastAudioTimestamp == o.during.value.at
                               && r.next.vad == Vad.Process(s.vad, o.during.value.frame).next
    ensures r.next.ttsRequestId == s.ttsRequestId + (if Interrupts(s, o) then 1 else 0)
    ensures Interrupts(s, o) ==> r.next.isSpeaking && r.next.vad.speaking && r.next.hasBargeIn && !r.queued
    ensures r.queued <==> o.during.Some? && s.isSpeaking
                          && Vad.Process(s.vad, o.during.value.frame).event == Vad.SpeechEnd
    ensures r.queued ==> !r.next.isSpeaking
  {
    match o.during
    case None => Handled(s, [], false)
    case Some(a) => OnAudio(s, a.frame, a.at, open)
  }

  /** What follows the stream of the reply: the interview ends when the
      reply carried the end marker and the socket is open, the metrics go
      out and the barge-in flag is reset. `st` is what the stream did. */
  function AfterStream(s: Session, st: TtsService.Streamed, reply: string, complete: bool, open: bool): (r: (Session, seq<ServerMessage>))
    ensures r.0.messages == s.messages && r.0.turnId == s.turnId
    ensures r.0.finalTranscript == s.finalTranscript && r.0.interimTranscript == s.interimTranscript
    ensures r.0.ttsRequestId == st.next.ttsRequestId && r.0.isSpeakingTTS == st.next.isSpeakingTTS
    ensures r.0.isInterviewActive == (s.isInterviewActive && !(complete && open))
    ensures open ==> && r.1 == [State(Speaking), TranscriptAssistant(reply)] + st.sent
                               + (if complete then [InterviewEnd] else []) + [Metrics(s.turnId, s.hasBargeIn)]
                     && !r.0.hasBargeIn
    ensures !open ==> r.1 == st.sent && r.0.hasBargeIn == s.hasBargeIn
  {
    var ends := complete && open;
    var s3 := s.(ttsRequestId := st.next.ttsRequestId, isSpeakingTTS := st.next.isSpeakingTTS,
      isInterviewActive := s.isInterviewActive && !ends);
    var s4 := if open then s3.(hasBargeIn := false) else s3;
    var sent := SendIfOpen(open, [State(Speaking), TranscriptAssistant(reply)]) + st.sent
      + (if ends then [InterviewEnd] else [])
      + SendIfOpen(open, [Metrics(s3.turnId, s3.hasBargeIn)]);
    (s4, sent)
  }

  /** Everything after the reply is known: the history gets the reply, the
      client the speaking state and the transcript, then the stream of the
      speech form of the reply and what follows it. */
  function Deliver(s: Session, reply: string, complete: bool, open: bool, env: TtsService.TtsEnv): (r: (Session, seq<ServerMessage>))
    ensures r.0.messages == s.messages + [ChatMessage(Assistant, reply)]
    ensures Follows(s, r.0)
    ensures r.0.isSpeaking == s.isSpeaking && r.0.vad == s.vad && r.0.lastAudioTimestamp == s.lastAudioTimestamp
  {
    DeliverSpeech(s, reply, SpeechFormatter.FormatForSpeech(Some(reply)), complete, open, env)
  }

  /** `Deliver` with the speech form of the reply given as `speech`. */
  function DeliverSpeech(s: Session, reply: string, speech: string, complete: bool, open: bool, env: TtsService.TtsEnv): (r: (Session, seq<ServerMessage>))
    ensures r.0.messages == s.messages + [ChatMessage(Assistant, reply)]
    ensures Follows(s, r.0)
  {
    var s1 := s.(messages := s.messages + [ChatMessage(Assistant, reply)]);
    assert s1.messages[..|s.messages|] == s.messages;
    AfterStream(s1, Speak(s1, speech, open, env).1, reply, complete, open)
  }

  /** What the turn does once the user message is taken: stop (an LLM
      call or the gate threw), or ask for the reply, after a search for
      `searched` when there is one. The interview path skips the decision. */
  datatype Plan = Stop | Reply(searched: Option<string>)

  /** The generic path's search decision and the gate on its query. */
  function PlanTurn(interview: bool, decision: Option<Decision>): (p: Plan)
    ensures p.Reply? && p.searched.Some? ==>
      !interview && decision == Some(Object(true, p.searched)) && ShouldTriggerSearch(p.searched.value)
    ensures p == Stop <==>
      !interview && (decision == None || decision == Some(NullJson) || decision == Some(Object(true, None)))
  {
    if interview then Reply(None)
    else match decision
      case None => Stop
      case Some(NullJson) => Stop
      case Some(NotJson) => Reply(None)
      case Some(Object(search, query)) =>
        if !search then Reply(None)
        else (match query
          case None => Stop
          case Some(q) => Reply(if ShouldTriggerSearch(q) then Some(q) else None))
  }

  /** The history after the user message is appended and the last
      `HistoryLimit` entries kept. */
  function UserHistory(s: Session): (h: seq<ChatMessage>)
    ensures 0 < |h| <= HistoryLimit
    ensures h[|h| - 1] == ChatMessage(User, Trim(s.finalTranscript))
  {
    Last(s.messages + [ChatMessage(User, Trim(s.finalTranscript))], HistoryLimit)
  }

  /** The session once a non-blank user message is taken. */
  function BeginTurn(s: Session): (r: Session)
    ensures r.turnId == s.turnId + 1 && r.finalTranscript == [] && r.interimTranscript == []
    ensures 0 < |r.messages| <= HistoryLimit && r.messages[|r.messages| - 1] == ChatMessage(User, Trim(s.finalTranscript))
    ensures && r.isSpeaking == s.isSpeaking && r.isInterviewActive == s.isInterviewActive
            && r.ttsRequestId == s.ttsRequestId && r.dynamicContext == s.dynamicContext
  {
    s.(finalTranscript := [], interimTranscript := [], turnId := s.turnId + 1, messages := UserHistory(s))
  }

  /** `handleUserTurn(session)`. */
  function HandleUserTurn(s: Session, o: TurnOracle, open: bool): (r: Turn)
    ensures r.next.finalTranscript == [] && r.next.interimTranscript == []
    ensures r.next.turnId == s.turnId + (if Trim(s.finalTranscript) == [] then 0 else 1)
    ensures r.queued ==> s.isSpeaking && !r.next.isSpeaking
  {
    if Trim(s.finalTranscript) == [] then
      Turn(s.(finalTranscript := [], interimTranscript := []), SendIfOpen(open, [State(Idle)]), None, false)
    else
      var s2 := BeginTurn(s);
      match PlanTurn(s2.isInterviewActive, o.decision)
      case Stop => Turn(s2, [], None, false)
      case Reply(searched) =>
        var w := AwaitReply(s2, o, open);
        match o.reply
        case None => Turn(w.next, w.sent, searched, w.queued)
        case Some(reply) =>
          var (text, complete) := if s2.isInterviewActive then StripEndMarker(reply) else (reply, false);
          var (s3, sent) := Deliver(w.next, text, complete, open, o.tts);
          Turn(s3, w.sent + sent, searched, w.queued)
  }

  // ---------------------------------------------------------------------
  // Properties of a turn

  /** A blank transcript only clears the buffers and sends "idle". */
  lemma BlankTurn(s: Session, o: TurnOracle, open: bool)
    requires AllSpace(s.finalTranscript)
    ensures HandleUserTurn(s, o, open) ==
      Turn(s.(finalTranscript := [], interimTranscript := []), SendIfOpen(open, [State(Idle)]), None, false)
  {
    TrimEmptyIff(s.finalTranscript);
  }

  /** The stages of a non-blank turn: the session taken by `BeginTurn` is
      followed to the end, the search is the one planned, and a stop ends
      the turn with nothing sent. */
  lemma TurnStages(s: Session, o: TurnOracle, open: bool)
    requires Trim(s.finalTranscript) != []
    ensures var r := HandleUserTurn(s, o, open); var s2 := BeginTurn(s);
      var p := PlanTurn(s2.isInterviewActive, o.decision);
      && Follows(s2, r.next)
      && r.searched == (if p.Reply? then p.searched else None)
      && (p == Stop ==> r == Turn(s2, [], None, false))
  {
    var s2 := BeginTurn(s);
    var r := HandleUserTurn(s, o, open);
    match PlanTurn(s2.isInterviewActive, o.decision)
    case Stop =>
    case Reply(searched) =>
      var w := AwaitReply(s2, o, open);
      match o.reply
      case None =>
      case Some(reply) =>
        var (text, complete) := if s2.isInterviewActive then StripEndMarker(reply) else (reply, false);
        var d := Deliver(w.next, text, complete, open, o.tts);
        assert r.next == d.0 && r.searched == searched;
        assert Follows(w.next, d.0);
  }

  /** Every turn leaves both transcript buffers empty. */
  lemma TurnClearsBuffers(s: Session, o: TurnOracle, open: bool)
    ensures var r := HandleUserTurn(s, o, open);
      r.next.finalTranscript == [] && r.next.interimTranscript == []
  {
    if Trim(s.finalTranscript) != [] {
      TurnStages(s, o, open);
    }
  }

  /** A non-blank turn bumps `turnId` and appends the user message to the
      capped history; the assistant reply, when one arrives, follows it, so
      the history holds at most 13 entries. */
  lemma TurnHistory(s: Session, o: TurnOracle, open: bool)
    requires !AllSpace(s.finalTranscript)
    ensures var r := HandleUserTurn(s, o, open); var h := UserHistory(s);
      && r.next.turnId == s.turnId + 1
      && (r.next.messages == h
          || (|r.next.messages| == |h| + 1 && r.next.messages[..|h|] == h
              && r.next.messages[|h|].role == Assistant))
      && |r.next.messages| <= HistoryLimit + 1
  {
    TrimEmptyIff(s.finalTranscript);
    var r := HandleUserTurn(s, o, open);
    assert Follows(BeginTurn(s), r.next) by { TurnStages(s, o, open); }
  }

  /** A search runs only for a decision object asking for one whose query
      passes the gate, and never on the interview path. */
  lemma SearchOnlyThroughGate(s: Session, o: TurnOracle, open: bool)
    ensures var r := HandleUserTurn(s, o, open);
      r.searched.Some? ==> !s.isInterviewActive && o.decision == Some(Object(true, r.searched))
                           && ShouldTriggerSearch(r.searched.value)
  {
    if Trim(s.finalTranscript) != [] {
      TurnStages(s, o, open);
    }
  }

  /** A decision asking for a search without a query string, a `null`
      decision, or a failed decision call ends the turn right after the user
      message, sending nothing. */
  lemma DecisionStops(s: Session, o: TurnOracle, open: bool)
    requires !AllSpace(s.finalTranscript) && !s.isInterviewActive
    requires o.decision == None || o.decision == Some(NullJson) || o.decision == Some(Object(true, None))
    ensures HandleUserTurn(s, o, open) == Turn(s.(finalTranscript := [], interimTranscript := [],
      turnId := s.turnId + 1, messages := UserHistory(s)), [], None, false)
  {
    TrimEmptyIff(s.finalTranscript);
    TurnStages(s, o, open);
  }

  /** Without interference a non-blank text's stream completes, with
      `tts_complete` for the next id last. */
  lemma StreamCompletes(text: string, s: TtsService.TtsState, open: bool, env: TtsService.TtsEnv)
    requires Trim(text) != []
    requires TtsService.Undisturbed(env, 0, |TtsService.SplitIntoSentences(text, TtsService.MaxChunkSize)|)
    ensures var r := TtsService.StreamTts(text, s, open, env);
      && r.completed && r.next == TtsService.TtsState(s.ttsRequestId + 1, true)
      && (open ==> r.sent != [] && r.sent[|r.sent| - 1] == TtsComplete(s.ttsRequestId + 1))
  {
    TtsService.StreamTtsChunks(text, s, open, env);
    TtsService.ChunksComplete(TtsService.SplitIntoSentences(text, TtsService.MaxChunkSize), s, open, env);
  }

  /** After a completed stream the session holds the stream's id, marked
      speaking, and the stream's `tts_complete` comes right before the
      metrics (and before `interview_end` when the interview completes). */
  lemma AfterCompleted(s: Session, st: TtsService.Streamed, reply: string, complete: bool, open: bool, id: nat)
    requires st.next == TtsService.TtsState(id, true)
    requires open ==> st.sent != [] && st.sent[|st.sent| - 1] == TtsComplete(id)
    ensures var r := AfterStream(s, st, reply, complete, open);
      && r.0.ttsRequestId == id && r.0.isSpeakingTTS
      && (open ==> |r.1| >= 4 && r.1[|r.1| - (if complete then 3 else 2)] == TtsComplete(id))
  {
    if open {
      var r := AfterStream(s, st, reply, complete, open);
      assert r.1[2 + |st.sent| - 1] == st.sent[|st.sent| - 1];
    }
  }


  /** What a delivery sends: "speaking" and the reply's transcript first,
      the metrics with the barge-in flag last (which it then resets), and
      nothing on a closed socket. */
  lemma DeliverShape(s: Session, reply: string, complete: bool, open: bool, env: TtsService.TtsEnv)
    ensures var r := Deliver(s, reply, complete, open, env);
      && r.0.ttsRequestId >= s.ttsRequestId
      && (open ==> && |r.1| >= 3 && r.1[0] == State(Speaking) && r.1[1] == TranscriptAssistant(reply)
                   && r.1[|r.1| - 1] == Metrics(s.turnId, s.hasBargeIn) && !r.0.hasBargeIn)
      && (!open ==> r.1 == [])
  {
    var s1 := s.(messages := s.messages + [ChatMessage(Assistant, reply)]);
    var speech := SpeechFormatter.FormatForSpeech(Some(reply));
    var st := TtsService.StreamTts(speech, TtsService.TtsState(s.ttsRequestId, s.isSpeakingTTS), open, env);
    assert Deliver(s, reply, complete, open, env) == AfterStream(s1, st, reply, complete, open) by {
      DeliverSpeechStream(s, reply, speech, complete, open, env);
    }
    AfterStreamShape(s1, st, reply, complete, open);
  }

  /** The messages around a stream. */
  lemma AfterStreamShape(s: Session, st: TtsService.Streamed, reply: string, complete: bool, open: bool)
    requires !open ==> st.sent == []
    ensures var r := AfterStream(s, st, reply, complete, open);
      && (open ==> && |r.1| >= 3 && r.1[0] == State(Speaking) && r.1[1] == TranscriptAssistant(reply)
                   && r.1[|r.1| - 1] == Metrics(s.turnId, s.hasBargeIn) && !r.0.hasBargeIn)
      && (!open ==> r.1 == [])
  {
  }


  /** The reply's stream, when nothing interferes with it, completes under
      the id one past the session's at delivery. */
  lemma DeliverCompletes(s: Session, reply: string, complete: bool, open: bool, env: TtsService.TtsEnv)
    requires var speech := SpeechFormatter.FormatForSpeech(Some(reply));
      speech != [] && TtsService.Undisturbed(env, 0, |TtsService.SplitIntoSentences(speech, TtsService.MaxChunkSize)|)
    ensures var r := Deliver(s, reply, complete, open, env);
      && r.0.ttsRequestId == s.ttsRequestId + 1 && r.0.isSpeakingTTS
      && (open ==> |r.1| >= 4 && r.1[|r.1| - (if complete then 3 else 2)] == TtsComplete(s.ttsRequestId + 1))
  {
    var speech := SpeechFormatter.FormatForSpeech(Some(reply));
    TrimOfTrimmed(speech);
    SpeechCompletes(s, reply, speech, complete, open, env);
  }

  lemma SpeechCompletes(s: Session, reply: string, speech: string, complete: bool, open: bool, env: TtsService.TtsEnv)
    requires Trim(speech) != []
    requires TtsService.Undisturbed(env, 0, |TtsService.SplitIntoSentences(speech, TtsService.MaxChunkSize)|)
    ensures var r := DeliverSpeech(s, reply, speech, complete, open, env);
      && r.0.ttsRequestId == s.ttsRequestId + 1 && r.0.isSpeakingTTS
      && (open ==> |r.1| >= 4 && r.1[|r.1| - (if complete then 3 else 2)] == TtsComplete(s.ttsRequestId + 1))
  {
    var s1 := s.(messages := s.messages + [ChatMessage(Assistant, reply)]);
    var ts := TtsService.TtsState(s.ttsRequestId, s.isSpeakingTTS);
    assert DeliverSpeech(s, reply, speech, complete, open, env)
      == AfterStream(s1, TtsService.StreamTts(speech, ts, open, env), reply, complete, open) by {
      DeliverSpeechStream(s, reply, speech, complete, open, env);
    }
    StreamThenAfter(s1, speech, ts, reply, complete, open, env);
  }

  /** A stream that completes, followed by what comes after it. */
  lemma StreamThenAfter(s: Session, speech: string, ts: TtsService.TtsState, reply: string, complete: bool, open: bool, env: TtsService.TtsEnv)
    requires Trim(speech) != []
    requires TtsService.Undisturbed(env, 0, |TtsService.SplitIntoSentences(speech, TtsService.MaxChunkSize)|)
    ensures var r := AfterStream(s, TtsService.StreamTts(speech, ts, open, env), reply, complete, open);
      && r.0.ttsRequestId == ts.ttsRequestId + 1 && r.0.isSpeakingTTS
      && (open ==> |r.1| >= 4 && r.1[|r.1| - (if complete then 3 else 2)] == TtsComplete(ts.ttsRequestId + 1))
  {
    var st := TtsService.StreamTts(speech, ts, open, env);
    assert st.completed && st.next == TtsService.TtsState(ts.ttsRequestId + 1, true)
      && (open ==> st.sent != [] && st.sent[|st.sent| - 1] == TtsComplete(ts.ttsRequestId + 1)) by {
      StreamCompletes(speech, ts, open, env);
    }
    AfterCompleted(s, st, reply, complete, open, ts.ttsRequestId + 1);
  }

  /** A delivery is the stream of the speech followed by what comes after. */
  lemma DeliverSpeechStream(s: Session, reply: string, speech: string, complete: bool, open: bool, env: TtsService.TtsEnv)
    ensures DeliverSpeech(s, reply, speech, complete, open, env)
      == AfterStream(s.(messages := s.messages + [ChatMessage(Assistant, reply)]),
           TtsService.StreamTts(speech, TtsService.TtsState(s.ttsRequestId, s.isSpeakingTTS), open, env),
           reply, complete, open)
  {
  }


  /** The generic path with a decision that is not JSON and a frame that
      the detector reports as a speech start arriving while the reply is
      generated: the frame is stamped and fed to the detector, the barge-in
      runs, and then the reply is delivered. */
  lemma BargeInTurn(s: Session, reply: string, o: TurnOracle, open: bool)
    requires !AllSpace(s.finalTranscript) && !s.isSpeaking && !s.isInterviewActive
    requires o.decision == Some(NotJson) && o.reply == Some(reply) && o.during.Some?
    requires Vad.Process(s.vad, o.during.value.frame).event == Vad.SpeechStart
    ensures var a := o.during.value;
      var w := BargeIn(BeginTurn(s).(lastAudioTimestamp := a.at, vad := Vad.Process(s.vad, a.frame).next), open);
      var d := Deliver(w.next, reply, false, open, o.tts);
      HandleUserTurn(s, o, open) == Turn(d.0, w.sent + d.1, None, false)
  {
    TrimEmptyIff(s.finalTranscript);
    var s2 := BeginTurn(s);
    var a := o.during.value;
    assert PlanTurn(s2.isInterviewActive, o.decision) == Reply(None);
    assert AwaitReply(s2, o, open)
      == BargeIn(s2.(lastAudioTimestamp := a.at, vad := Vad.Process(s.vad, a.frame).next), open);
  }

  /** A barge-in while the reply is generated does not suppress that reply:
      the stream starts afterwards under a fresh id, two past the id before
      the turn, and completes when nothing else interferes. The session is
      left marked speaking, with a speaking detector and the frame's time
      stamped, so the heartbeat cannot end the new turn within 800 ms of
      that frame. */
  lemma BargeInDuringReply(s: Session, reply: string, o: TurnOracle, open: bool)
    requires !AllSpace(s.finalTranscript) && !s.isSpeaking && !s.isInterviewActive
    requires o.decision == Some(NotJson) && o.reply == Some(reply) && o.during.Some?
    requires Vad.Process(s.vad, o.during.value.frame).event == Vad.SpeechStart
    requires var speech := SpeechFormatter.FormatForSpeech(Some(reply));
      speech != [] && TtsService.Undisturbed(o.tts, 0, |TtsService.SplitIntoSentences(speech, TtsService.MaxChunkSize)|)
    ensures var r := HandleUserTurn(s, o, open);
      && r.next.ttsRequestId == s.ttsRequestId + 2 && r.next.isSpeakingTTS
      && r.next.isSpeaking && r.next.vad.speaking && r.next.vad.silenceFrames == 0
      && r.next.lastAudioTimestamp == o.during.value.at && !r.queued
      && forall now :: now <= o.during.value.at + TurnEndSilenceMs ==> !HeartbeatDue(r.next, now)
  {
    var a := o.during.value;
    var s2 := BeginTurn(s).(lastAudioTimestamp := a.at, vad := Vad.Process(s.vad, a.frame).next);
    BargeInTurn(s, reply, o, open);
    BargeInThenDeliver(s2, reply, o.tts, open);
  }

  /** On an open socket such a turn sends "listening" and `barge_in` first. */
  lemma BargeInReplyOpens(s: Session, reply: string, o: TurnOracle)
    requires !AllSpace(s.finalTranscript) && !s.isSpeaking && !s.isInterviewActive
    requires o.decision == Some(NotJson) && o.reply == Some(reply) && o.during.Some?
    requires Vad.Process(s.vad, o.during.value.frame).event == Vad.SpeechStart
    ensures var r := HandleUserTurn(s, o, true);
      |r.sent| >= 2 && r.sent[0] == State(Listening) && r.sent[1] == Protocol.BargeIn
  {
    BargeInTurn(s, reply, o, true);
  }

  /** Such a turn ends, when the reply's stream is undisturbed, with the
      stream's `tts_complete` on the id two past the turn's start, just
      before the metrics. */
  lemma BargeInReplyMessages(s: Session, reply: string, o: TurnOracle)
    requires !AllSpace(s.finalTranscript) && !s.isSpeaking && !s.isInterviewActive
    requires o.decision == Some(NotJson) && o.reply == Some(reply) && o.during.Some?
    requires Vad.Process(s.vad, o.during.value.frame).event == Vad.SpeechStart
    requires var speech := SpeechFormatter.FormatForSpeech(Some(reply));
      speech != [] && TtsService.Undisturbed(o.tts, 0, |TtsService.SplitIntoSentences(speech, TtsService.MaxChunkSize)|)
    ensures var r := HandleUserTurn(s, o, true);
      |r.sent| >= 4 && r.sent[|r.sent| - 2] == TtsComplete(s.ttsRequestId + 2)
  {
    var a := o.during.value;
    BargeInTurn(s, reply, o, true);
    BargeInTail(s, BeginTurn(s).(lastAudioTimestamp := a.at, vad := Vad.Process(s.vad, a.frame).next), reply, o.tts);
  }

  /** The metrics that close such a turn report the barge-in, and the flag
      is then reset. */
  lemma BargeInReplyMetrics(s: Session, reply: string, o: TurnOracle)
    requires !AllSpace(s.finalTranscript) && !s.isSpeaking && !s.isInterviewActive
    requires o.decision == Some(NotJson) && o.reply == Some(reply) && o.during.Some?
    requires Vad.Process(s.vad, o.during.value.frame).event == Vad.SpeechStart
    requires var speech := SpeechFormatter.FormatForSpeech(Some(reply));
      speech != [] && TtsService.Undisturbed(o.tts, 0, |TtsService.SplitIntoSentences(speech, TtsService.MaxChunkSize)|)
    ensures var r := HandleUserTurn(s, o, true);
      r.sent != [] && r.sent[|r.sent| - 1] == Metrics(s.turnId + 1, true) && !r.next.hasBargeIn
  {
    var a := o.during.value;
    BargeInTurn(s, reply, o, true);
    BargeInTail(s, BeginTurn(s).(lastAudioTimestamp := a.at, vad := Vad.Process(s.vad, a.frame).next), reply, o.tts);
  }

  /** The end of a barge-in followed by the delivery, with the ids stated
      relative to the session before the turn. */
  lemma BargeInTail(s: Session, s2: Session, reply: string, tts: TtsService.TtsEnv)
    requires s2.ttsRequestId == s.ttsRequestId && s2.turnId == s.turnId + 1
    requires var speech := SpeechFormatter.FormatForSpeech(Some(reply));
      speech != [] && TtsService.Undisturbed(tts, 0, |TtsService.SplitIntoSentences(speech, TtsService.MaxChunkSize)|)
    ensures var w := BargeIn(s2, true);
      var d := Deliver(w.next, reply, false, true, tts);
      var sent := w.sent + d.1;
      && |sent| >= 4
      && sent[|sent| - 2] == TtsComplete(s.ttsRequestId + 2)
      && sent[|sent| - 1] == Metrics(s.turnId + 1, true)
      && !d.0.hasBargeIn
  {
    BargeInThenDeliver(s2, reply, tts, true);
  }

  /** A barge-in on the session `s2` and the delivery of `reply` after it. */
  lemma BargeInThenDeliver(s2: Session, reply: string, tts: TtsService.TtsEnv, open: bool)
    requires var speech := SpeechFormatter.FormatForSpeech(Some(reply));
      speech != [] && TtsService.Undisturbed(tts, 0, |TtsService.SplitIntoSentences(speech, TtsService.MaxChunkSize)|)
    ensures var w := BargeIn(s2, open);
      var d := Deliver(w.next, reply, false, open, tts);
      var sent := w.sent + d.1;
      && d.0.ttsRequestId == s2.ttsRequestId + 2 && d.0.isSpeakingTTS
      && (open ==> && |sent| >= 4 && sent[0] == State(Listening) && sent[1] == Protocol.BargeIn
                   && sent[|sent| - 2] == TtsComplete(s2.ttsRequestId + 2)
                   && sent[|sent| - 1] == Metrics(s2.turnId, true)
                   && !d.0.hasBargeIn)
  {
    var w := BargeIn(s2, open);
    var d := Deliver(w.next, reply, false, open, tts);
    var id := s2.ttsRequestId + 2;
    var m := Metrics(s2.turnId, true);
    assert d.0.ttsRequestId == id && d.0.isSpeakingTTS && (open ==> |d.1| >= 4 && d.1[|d.1| - 2] == TtsComplete(id)) by {
      DeliverCompletes(w.next, reply, false, open, tts);
    }
    assert open ==> |d.1| >= 3 && d.1[|d.1| - 1] == m && !d.0.hasBargeIn by {
      DeliverShape(w.next, reply, false, open, tts);
    }
    if open {
      AfterBargeIn(d.1, id, m);
    }
  }

  /** The barge-in's two messages before a delivery's. */
  lemma AfterBargeIn(d: seq<ServerMessage>, id: nat, last: ServerMessage)
    requires |d| >= 3 && d[|d| - 2] == TtsComplete(id) && d[|d| - 1] == last
    ensures var all := [State(Listening), Protocol.BargeIn] + d;
      && |all| >= 4 && all[0] == State(Listening) && all[1] == Protocol.BargeIn
      && all[|all| - 2] == TtsComplete(id) && all[|all| - 1] == last
  {
  }

  // ---------------------------------------------------------------------
  // Audio and heartbeat properties

  /** A speech start while not speaking is a barge-in: the session is
      marked speaking, the running stream's id is retired, both buffers are
      cleared, and "listening" is sent before "barge_in". */
  lemma SpeechStartBargesIn(s: Session, frame: Vad.Frame, now: int, open: bool)
    requires Vad.Process(s.vad, frame).event == Vad.SpeechStart && !s.isSpeaking
    ensures var r := OnAudio(s, frame, now, open);
      && r.next.isSpeaking && r.next.ttsRequestId == s.ttsRequestId + 1
      && !r.next.isSpeakingTTS && r.next.hasBargeIn
      && r.next.finalTranscript == [] && r.next.interimTranscript == []
      && !r.queued && r.sent == SendIfOpen(open, [State(Listening), Protocol.BargeIn])
  {
  }

  /** A speech end while speaking finalizes the turn. */
  lemma SpeechEndFinalizes(s: Session, frame: Vad.Frame, now: int, open: bool)
    requires Vad.Process(s.vad, frame).event == Vad.SpeechEnd && s.isSpeaking
    ensures var r := OnAudio(s, frame, now, open);
      r.queued && !r.next.isSpeaking && r.sent == SendIfOpen(open, [State(Thinking)])
  {
  }

  /** A heartbeat finalization clears the session's flag but not the
      detector's, so a loud frame right after it starts no new turn: no
      barge-in, nothing sent, the stream id untouched. */
  lemma HeartbeatThenLoud(s: Session, now: int, frame: Vad.Frame, later: int, open: bool)
    requires HeartbeatDue(s, now) && s.vad.speaking && Vad.IsLoud(Vad.Energy(frame))
    ensures var h := HeartbeatOne(s, now, open);
      var a := OnAudio(h.next, frame, later, open);
      && h.queued && a.next.vad.speaking
      && !a.next.isSpeaking && !a.queued && a.sent == []
      && a.next.ttsRequestId == s.ttsRequestId
  {
  }

  // ---------------------------------------------------------------------
  // The session as a sequential state machine

  /** A session with the number of `handleUserTurn` calls queued by
      `finalizeTurn` and `start_interview` that have not run yet. */
  datatype Engine = Engine(session: Session, pending: nat)

  datatype Event =
    | Frame(frame: Vad.Frame, now: int)
    | Tick(now: int)
    | Message(control: Control)
    | TurnDue(oracle: TurnOracle)

  datatype Stepped = Stepped(next: Engine, sent: seq<ServerMessage>)

  function Queue(e: Engine, h: Handled): (r: Stepped)
    ensures r.next.session == h.next && r.sent == h.sent
    ensures r.next.pending == e.pending + (if h.queued then 1 else 0)
  {
    Stepped(Engine(h.next, e.pending + (if h.queued then 1 else 0)), h.sent)
  }

  /** One event; a `TurnDue` runs the oldest queued turn, if any. */
  function Step(e: Engine, ev: Event, open: bool): (r: Stepped)
    ensures ev.TurnDue? && e.pending == 0 ==> r == Stepped(e, [])
    ensures r.next.pending <= e.pending + 1
    ensures r.next.pending < e.pending ==> ev.TurnDue? && r.next.pending == e.pending - 1
    ensures !ev.TurnDue? ==> r.next.session.messages == e.session.messages
                             && r.next.session.turnId == e.session.turnId
  {
    match ev
    case Frame(frame, now) => Queue(e, OnAudio(e.session, frame, now, open))
    case Tick(now) => Queue(e, HeartbeatOne(e.session, now, open))
    case Message(c) => Queue(e, OnControl(e.session, c, open))
    case TurnDue(o) =>
      if e.pending == 0 then Stepped(e, [])
      else
        var t := HandleUserTurn(e.session, o, open);
        Stepped(Engine(t.next, e.pending - 1 + (if t.queued then 1 else 0)), t.sent)
  }

  function SpeakingCount(e: Engine): nat {
    if e.session.isSpeaking then 1 else 0
  }

  /** 1 when the event is a frame or tick that called `finalizeTurn`, or a
      turn during which an arriving frame did. */
  function VadTurn(e: Engine, ev: Event, open: bool): nat {
    if (ev.Frame? || ev.Tick?) && Step(e, ev, open).next.pending > e.pending then 1
    else if ev.TurnDue? && e.pending > 0 && HandleUserTurn(e.session, ev.oracle, open).queued then 1
    else 0
  }

  /** 1 when the event started a speaking period. */
  function Started(e: Engine, ev: Event, open: bool): nat {
    if !e.session.isSpeaking && Step(e, ev, open).next.session.isSpeaking then 1 else 0
  }

  /** A frame or tick calls `finalizeTurn` only by clearing the speaking
      flag of a speaking session. */
  lemma StepAccount(e: Engine, ev: Event, open: bool)
    ensures VadTurn(e, ev, open) + SpeakingCount(Step(e, ev, open).next) <= Started(e, ev, open) + SpeakingCount(e)
  {
  }

  datatype Traced = Traced(last: Engine, sent: seq<ServerMessage>, vadTurns: nat, starts: nat)

  /** Feeds the events one by one, counting turns finalized by frames and
      ticks and speaking periods started. */
  function RunEvents(e: Engine, evs: seq<Event>, open: bool): (r: Traced)
    ensures r.vadTurns <= |evs| && r.starts <= |evs|
    ensures r.last.pending <= e.pending + |evs|
    decreases |evs|
  {
    if evs == [] then Traced(e, [], 0, 0)
    else
      var st := Step(e, evs[0], open);
      var rest := RunEvents(st.next, evs[1..], open);
      Traced(rest.last, st.sent + rest.sent,
        VadTurn(e, evs[0], open) + rest.vadTurns, Started(e, evs[0], open) + rest.starts)
  }

  /** Frames and ticks finalize at most one turn per speaking period: from
      a silent session, never more finalizations than speech starts. */
  lemma {:induction false} OneFinalizationPerPeriod(e: Engine, evs: seq<Event>, open: bool)
    ensures var r := RunEvents(e, evs, open);
      r.vadTurns + SpeakingCount(r.last) <= r.starts + SpeakingCount(e)
    decreases |evs|
  {
    if evs != [] {
      StepAccount(e, evs[0], open);
      OneFinalizationPerPeriod(Step(e, evs[0], open).next, evs[1..], open);
    }
  }

  // ---------------------------------------------------------------------
  // POST /admin/context

  datatype AdminReply = BadRequest | NotFound | Updated(version: nat)

  datatype Admin = Admin(registry: Registry, reply: AdminReply)

  /** The route's checks: a missing or empty id or content is a 400, an
      unknown id a 404; otherwise the context is replaced by the trimmed
      content, even when that is empty, and the new version returned. */
  function AdminContext(reg: Registry, sessionId: Option<string>, content: Option<string>): (r: Admin)
    ensures r.reply == BadRequest <==> sessionId.GetOr([]) == [] || content.GetOr([]) == []
    ensures r.reply == NotFound <==>
      sessionId.GetOr([]) != [] && content.GetOr([]) != [] && sessionId.value !in reg
    ensures r.reply.Updated? ==> var id := sessionId.value;
      && id in reg && r.registry.Keys == reg.Keys
      && r.registry[id] == UpdateContextRaw(reg[id], content.value)
      && r.reply.version == reg[id].contextVersion + 1
      && forall k :: k in reg && k != id ==> r.registry[k] == reg[k]
    ensures !r.reply.Updated? ==> r.registry == reg
  {
    if sessionId.GetOr([]) == [] || content.GetOr([]) == [] then Admin(reg, BadRequest)
    else
      var id := sessionId.value;
      match GetSession(reg, id)
      case None => Admin(reg, NotFound)
      case Some(s) =>
        var s1 := UpdateContextRaw(s, content.value);
        Admin(reg[id := s1], Updated(s1.contextVersion))
  }

  /** The admin route's replacement, without the blank check. */
  function UpdateContextRaw(s: Session, content: string): (r: Session)
  {
    s.(dynamicContext := [ChatMessage(System, Trim(content))], contextVersion := s.contextVersion + 1)
  }

  /** For non-blank content the admin route and `context_update` agree. */
  lemma AdminAgreesWithSocket(reg: Registry, id: string, content: string, open: bool)
    requires id in reg && id != [] && !AllSpace(content)
    ensures var r := AdminContext(reg, Some(id), Some(content));
      r.reply.Updated? && r.registry[id] == OnControl(reg[id], ContextUpdate(Some(content)), open).next
  {
    TrimEmptyIff(content);
    assert OnControl(reg[id], ContextUpdate(Some(content)), open).next == UpdateContextRaw(reg[id], content);
  }

  /** Blank but non-empty content is accepted by the admin route (it
      installs an empty system message) while `context_update` ignores it. */
  lemma AdminAcceptsBlank(reg: Registry, id: string, content: string, open: bool)
    requires id in reg && id != [] && content != [] && AllSpace(content)
    ensures var r := AdminContext(reg, Some(id), Some(content));
      && r.reply == Updated(reg[id].contextVersion + 1)
      && r.registry[id].dynamicContext == [ChatMessage(System, [])]
      && OnControl(reg[id], ContextUpdate(Some(content)), open).next == reg[id]
  {
    TrimEmptyIff(content);
    assert Some(content).GetOr([]) != [];
  }
}
