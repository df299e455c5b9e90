/** The per-connection session record and the id-to-session registry. */
module Sessions {
  import opened Basics
  import opened Protocol
  import Vad
  import Noise

  /** The fields of a session the turn engine reads or writes. Socket
      handles, timestamps used only for latency metrics, and the unused
      `audioBuffer`/`currentTurnAudio`/`context` fields are not modelled.
      `debounceTimer` is `None` for JavaScript `null`. */
  datatype Session = Session(
    sessionId: string,
    isSpeaking: bool,
    lastAudioTimestamp: int,
    noise: Noise.Suppressor,
    vad: Vad.Detector,
    messages: seq<ChatMessage>,
    interimTranscript: string,
    finalTranscript: string,
    dynamicContext: seq<ChatMessage>,
    contextVersion: nat,
    isSpeakingTTS: bool,
    ttsRequestId: nat,
    turnId: nat,
    hasBargeIn: bool,
    isInterviewActive: bool,
    isProcessingTurn: bool,
    debounceTimer: Option<nat>)

  /** `new Session(id)` at clock reading `now`. */
  function NewSession(id: string, now: int): (s: Session)
    ensures s.sessionId == id && s.lastAudioTimestamp == now
    ensures !s.isSpeaking && s.interimTranscript == [] && s.finalTranscript == [] && s.messages == []
    ensures s.ttsRequestId == 0 && s.contextVersion == 0 && s.turnId == 0
    ensures s.dynamicContext == [] && !s.isSpeakingTTS && !s.hasBargeIn && !s.isInterviewActive
    ensures !s.isProcessingTurn && s.debounceTimer == None
    ensures !s.vad.speaking && s.vad.silenceFrames == 0
    ensures s.noise.noiseFloor == Noise.InitialFloor
  {
    Session(id, false, now, Noise.NewSuppressor(), Vad.NewDetector(),
      [], [], [], [], 0, false, 0, 0, false, false, false, None)
  }

  /** The `SessionManager`'s map from session id to session. */
  type Registry = map<string, Session>

  datatype Created = Created(registry: Registry, session: Session)

  /** `createSession`, with the `randomUUID()` result supplied as `id`. */
  function CreateSession(reg: Registry, id: string, now: int): (r: Created)
    ensures r.session == NewSession(id, now) && r.session.sessionId == id
    ensures id in r.registry && r.registry[id] == r.session
    ensures r.registry.Keys == reg.Keys + {id}
    ensures forall k :: k in reg && k != id ==> k in r.registry && r.registry[k] == reg[k]
    ensures id !in reg ==> |r.registry| == |reg| + 1
  {
    var s := NewSession(id, now);
    Created(reg[id := s], s)
  }

  /** `getSession`: the registered session, or `None` (`undefined`). */
  function GetSession(reg: Registry, id: string): (r: Option<Session>)
    ensures r.Some? <==> id in reg
    ensures r.Some? ==> r.value == reg[id]
  {
    if id in reg then Some(reg[id]) else None
  }

  /** `getAllSessions`: the registered sessions (iteration order is not
      modelled). */
  function GetAllSessions(reg: Registry): (r: set<Session>)
    ensures forall id :: id in reg ==> reg[id] in r
    ensures forall s :: s in r ==> exists id :: id in reg && reg[id] == s
  {
    set id | id in reg :: reg[id]
  }

  /** `deleteSession`; deleting an absent id changes nothing. */
  function DeleteSession(reg: Registry, id: string): (r: Registry)
    ensures id !in r
    ensures r.Keys == reg.Keys - {id}
    ensures forall k :: k in r ==> r[k] == reg[k]
    ensures id !in reg ==> r == reg
  {
    reg - {id}
  }

  /** A session created and then deleted is no longer found, and every
      other session is as before. */
  lemma CreateThenDelete(reg: Registry, id: string, now: int)
    ensures var r := DeleteSession(CreateSession(reg, id, now).registry, id);
      GetSession(r, id) == None && r == reg - {id}
  {
  }

  /** Creating under a fresh id and deleting it restores the registry. */
  lemma CreateDeleteRestores(reg: Registry, id: string, now: int)
    requires id !in reg
    ensures DeleteSession(CreateSession(reg, id, now).registry, id) == reg
  {
  }

  /** Every session registered under a fresh id is found again by that id. */
  lemma CreateThenGet(reg: Registry, id: string, now: int)
    ensures GetSession(CreateSession(reg, id, now).registry, id) == Some(NewSession(id, now))
  {
  }
}
