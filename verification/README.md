# Voice agent turn-taking core in Dafny

This project models the core of a real-time voice agent. The browser streams
microphone audio to a Node.js backend over a WebSocket. The backend does the
following with it:

- It detects speech with an energy-based voice-activity detector (VAD) and a
  noise gate.
- It forwards the audio to a streaming recogniser, whose final results are
  cleaned and collected into the user's turn.
- It closes the turn when the detector reports the end of speech (the ninth
  quiet frame in a row), or, as a fallback, when the user is marked speaking
  and no audio frame at all has arrived for more than 800 ms. It then asks an
  LLM whether to search the web (behind a keyword gate), asks for a reply,
  and formats that reply for speech.
- It streams the reply back sentence by sentence as synthesised audio. Each
  stream carries a request id that a barge-in bumps, which cuts off the
  stale audio.

The browser plays those sentences in index order, keeps a transcript and
metrics, and runs a two-minute interview countdown.

Everything is modelled with immutable datatypes and pure functions. Loops
over samples are methods with invariants. The parts the code only calls
(LLM replies, the search decision, the Tavily fetch, each synthesis HTTPS
request, audio decoding, the clock) are parameters: oracle values or
functions.

Modules, each following one source file:

| module | file | models |
|---|---|---|
| `Basics` | basics.dfy | `Option`, bytes, `slice(0, n)` and `slice(-n)` |
| `Text` | text.dfy | the JavaScript string primitives the code uses: `trim`, `\s`, ASCII `toLowerCase`, `replace(/\s+/g, " ")`, `split(/\s+/)`, `includes`, decimal digits |
| `Protocol` | protocol.dfy | the JSON messages the server sends and the chat history records |
| `Vad` | vad.dfy | `backend/audio/vad.js` |
| `Noise` | noise.dfy | `backend/audio/noise.js` |
| `AudioManager` | audio_manager.dfy | `float32ToPCM16` of `voice-ui/lib/audioManager.ts` |
| `TranscriptHelper` | transcript_helper.dfy | `cleanTranscript` |
| `Stt` | stt.dfy | the recogniser message handler of `backend/stt/sttService.js` |
| `Sessions` | sessions.dfy | `Session` and `SessionManager` |
| `TtsService` | tts_service.dfy | `splitIntoSentences`, `generateWAV`, `streamTTS` |
| `SpeechFormatter` | speech_formatter.dfy | `formatForSpeech` and `numberToWords` |
| `WebSearch` | web_search.dfy | `webSearch` |
| `Server` | server.dfy | `shouldTriggerSearch`, `handleUserTurn`, `finalizeTurn`, the WebSocket control and audio handler, the silence heartbeat, `POST /admin/context` |
| `TtsPlayer` | tts_player.dfy | the browser's sentence player |
| `VoiceAgent` | voice_agent.dfy | the `handleMessage` reducer and `disconnect` of `useVoiceAgent` |
| `InterviewTimer` | interview_timer.dfy | `useInterviewTimer` |

## Concurrency

Concurrency is modelled as a sequential engine. The socket handler runs one
event at a time. `finalizeTurn` marks a turn as pending, and the turn itself
(`handleUserTurn`) runs as a later step. The only interleaving modelled
inside a turn is one audio frame arriving while the LLM reply is awaited,
an oracle value. It goes through the audio handler like any other frame: it
stamps the audio time, advances the detector, and barges in or finalises
as the detector's event says. Request-id bumps that land while a sentence is being
synthesised are an oracle of the stream (`duringGen`).

## Model

| member | source | states |
|---|---|---|
| Vad.NewDetector | backend/audio/vad.js:2-7 | a new detector is silent with no quiet frames counted |
| Vad.Int16Le | backend/audio/vad.js:21 | `readInt16LE` yields a value in the 16-bit signed range that agrees with `lo + 256*hi` modulo 2^16 |
| Vad.DecodePcm16 | backend/audio/vad.js:17-22 | an n-byte buffer decodes to floor(n/2) samples, each in [-1, 32767/32768] |
| Vad.DecodeAt | backend/audio/vad.js:17-22 | sample i is the i-th little-endian byte pair read as a signed 16-bit value and divided by 32768 |
| Vad.MeanSquare | backend/audio/vad.js:27-31 | frame energy is never negative, and an empty frame has energy 0 (the `\|\| 1` divisor guard) |
| Vad.ComputeEnergy | backend/audio/vad.js:27-31 | the summing loop computes exactly the mean squared amplitude |
| Vad.StepEnergy | backend/audio/vad.js:33-47 | a loud frame resets the quiet counter and emits `speech_start` exactly when the detector was silent; a quiet frame counts up and emits `speech_end` exactly when speaking and the count passes 8, and nothing else is emitted |
| Vad.Run | backend/audio/vad.js:14-48 | processing a frame sequence yields one event per frame |
| Vad.RunIsBracketed | backend/audio/vad.js:33-47 | over any frame sequence, starts and ends strictly alternate, consistent with the initial state, and the final speaking flag is the one the last event implies |
| Vad.Hangover | backend/audio/vad.js:39-44 | while speaking, up to 8 quiet frames in total produce no event and keep the detector speaking |
| Vad.RunQuiet | backend/audio/vad.js:39-45 | quiet frames on a silent detector produce no event and only count up |
| Vad.RunLoud | backend/audio/vad.js:33-38 | loud frames on a speaking detector produce no event and hold the counter at zero |
| Vad.RunAppend | backend/audio/vad.js:14-48 | processing two frame sequences back to back is the same as processing their concatenation |
| Vad.Scenario | backend/audio/vad.js:33-47 | 3 quiet, 4 loud and 9 quiet frames give one `speech_start` on the 4th frame and one `speech_end` on the 9th quiet frame |
| Noise.NewSuppressor | backend/audio/noise.js:2-5 | the noise floor starts at 0.001 |
| Noise.Zeros | backend/audio/noise.js:18 | a new `Float32Array(n)` is n zeros |
| Noise.Suppress | backend/audio/noise.js:7-22 | the floor moves to 0.95·floor + 0.05·energy; the frame keeps its length; it is silenced when its energy is below 1.2 times the new floor and passed through unchanged otherwise |
| Noise.FloorBetween | backend/audio/noise.js:14-15 | the new floor lies between the old floor and the frame energy |
| Noise.GateIff | backend/audio/noise.js:17-21 | with a positive floor, the output is all zeros if and only if the energy is below the gate |
| Noise.ZeroEnergy | backend/audio/noise.js:8-12 | an all-zero frame has energy 0 |
| Noise.FloorStaysPositive | backend/audio/noise.js:14-15 | the floor stays positive over any sequence of frames |
| AudioManager.Clamp | voice-ui/lib/audioManager.ts:54 | samples are clamped into [-1, 1], and samples already inside are kept |
| AudioManager.Truncate | voice-ui/lib/audioManager.ts:55 | the `setInt16` conversion truncates toward zero |
| AudioManager.Pcm16Value | voice-ui/lib/audioManager.ts:54-55 | every encoded sample is in the 16-bit signed range and keeps the sign of the clamped sample |
| AudioManager.EncodeInt16 | voice-ui/lib/audioManager.ts:55 | the two little-endian bytes read back through the server's `readInt16LE` as the same value |
| AudioManager.Float32ToPcm16 | voice-ui/lib/audioManager.ts:48-59 | two bytes per sample, and the server's decoder reads back each encoded sample divided by 32768: the client's encoder and the detector's decoder agree |
| AudioManager.Extremes | voice-ui/lib/audioManager.ts:54-55 | -1 encodes as -32768 and 1 as 32767, values beyond are clamped, and 0 encodes as 0 |
| AudioManager.Asymmetric | voice-ui/lib/audioManager.ts:55 | negative and positive halves scale differently: -0.5 gives -16384 and 0.5 gives 16383 |
| TranscriptHelper.StripTrailingPunct | backend/utils/transcriptHelper.js:12 | the result is a prefix that does not end in `.,!?;:` |
| TranscriptHelper.TrailingPunctDropped | backend/utils/transcriptHelper.js:12 | only punctuation characters are removed from the end |
| TranscriptHelper.StripLeadingPunct | backend/utils/transcriptHelper.js:13 | the result is a suffix that does not start with `.,!?;:` |
| TranscriptHelper.LeadingPunctDropped | backend/utils/transcriptHelper.js:13 | only punctuation characters are removed from the start |
| TranscriptHelper.StripEdgePunct | backend/utils/transcriptHelper.js:12-13 | the result is an infix with no punctuation at either edge |
| TranscriptHelper.EdgePunctDropped | backend/utils/transcriptHelper.js:12-13 | everything removed at either edge is punctuation |
| TranscriptHelper.CleanTranscript | backend/utils/transcriptHelper.js:5-6 | a missing or empty transcript cleans to "" |
| TranscriptHelper.CleanShape | backend/utils/transcriptHelper.js:8-13 | a cleaned transcript has no upper-case letter, no run of white space and no punctuation at either edge |
| TranscriptHelper.NormalizedShape | backend/utils/transcriptHelper.js:9-11 | after trim, lower-case and collapse there is no upper case and no run of white space |
| TranscriptHelper.CleanIsInfix | backend/utils/transcriptHelper.js:8-13 | the result is the normalised text with only edge punctuation cut off |
| TranscriptHelper.CleanOfText | backend/utils/transcriptHelper.js:8-13 | cleaning a non-empty text is edge-punctuation stripping of its normalised form |
| TranscriptHelper.NoWordReplacement | backend/utils/transcriptHelper.js:1-13 | the non-space characters of the result are those of the lower-cased input minus the edge punctuation: no word is replaced |
| TranscriptHelper.LowerTrimKeepsNonSpace | backend/utils/transcriptHelper.js:9-10 | trimming and lower-casing keep the non-space characters of the lower-cased input |
| TranscriptHelper.CleanKeepsClean | backend/utils/transcriptHelper.js:5-14 | text that is already trimmed, lower-case, single-blank and free of edge punctuation is returned unchanged |
| TranscriptHelper.NormalizedFixed | backend/utils/transcriptHelper.js:9-11 | normalisation leaves already-normalised text unchanged |
| TranscriptHelper.PuneIsKept | backend/utils/transcriptHelper.js:1-4 | "pune" stays "pune" (no phonetic correction) |
| TranscriptHelper.EdgeBlankRemains | backend/utils/transcriptHelper.js:11-12 | collapse runs before the punctuation strip, so "x ." cleans to "x " with a trailing blank |
| TranscriptHelper.CleanNotIdempotent | backend/utils/transcriptHelper.js:5-14 | consequently cleaning twice differs from cleaning once: "x ." gives "x " and then "x" |
| Stt.OnMessage | backend/stt/sttService.js:21-54 | unparseable messages and transcripts under 2 characters change nothing; interim results replace the interim buffer and are echoed as interim; final results clear the interim buffer, set the final buffer to the trimmed join of the old buffer, a blank and the cleaned text, and echo the cleaned text; other `is_final` values and finals that clean to the empty string change nothing; nothing is sent on a closed socket |
| Stt.FinalIsAppendOnly | backend/stt/sttService.js:37-42 | the final buffer only grows: the old buffer stays a prefix and the buffer stays trimmed |
| Stt.FinalKeepsWords | backend/stt/sttService.js:39-41 | the non-space characters of the final buffer are the old ones followed by those of the cleaned final result, when one is appended |
| Stt.InterimReplaceOnly | backend/stt/sttService.js:28-42 | the interim buffer is kept, replaced by the new transcript or cleared, and it changes only for a parseable, relevant message |
| Stt.AppendClean | backend/stt/sttService.js:41 | appending with a blank and trimming joins two trimmed texts with exactly one blank |
| Stt.AppendsUnchanged | backend/stt/sttService.js:39-42 | a final result that is already clean is appended as is and clears the interim buffer |
| Stt.AppendWord | backend/stt/sttService.js:39-42 | a plain lower-case word is appended after one blank, or becomes the buffer when it was empty |
| Stt.InterimKeepsFinal | backend/stt/sttService.js:28-30 | an interim result leaves the final buffer alone |
| Stt.InterimThenFinals | backend/stt/sttService.js:28-42 | an interim result followed by two final words leaves exactly the two words appended and no interim text |
| Stt.PunThenPune | backend/stt/sttService.js:28-42 | interim "pun" then final "pune" commits "pune" |
| Stt.GalentinesDay | backend/stt/sttService.js:28-42 | after "pune", interim "galen", final "galentine's" and final "day" give "pune galentine's day" |
| Sessions.NewSession | backend/sessions/Session.js:6-43 | a new session is idle: empty buffers, history and context, counters at 0, flags off, no timer, a silent detector and a fresh noise floor |
| Sessions.CreateSession | backend/sessions/SessionManager.js:9-14 | the new session is registered under its id and every other entry is kept |
| Sessions.GetSession | backend/sessions/SessionManager.js:16-18 | the lookup finds a session exactly when the id is registered |
| Sessions.GetAllSessions | backend/sessions/SessionManager.js:19-21 | the result holds exactly the registered sessions |
| Sessions.DeleteSession | backend/sessions/SessionManager.js:23-25 | the id is gone, every other entry is kept, and deleting an unknown id changes nothing |
| Sessions.CreateThenGet | backend/sessions/SessionManager.js:9-18 | a created session can be looked up |
| Sessions.CreateThenDelete | backend/sessions/SessionManager.js:9-25 | create then delete leaves the registry minus that id |
| Sessions.CreateDeleteRestores | backend/sessions/SessionManager.js:9-25 | create then delete of a fresh id restores the registry |
| Server.AnyContained | backend/server.js:164 | some keyword occurs in the text if and only if the result is true |
| Server.ContentWords | backend/server.js:169 | the filter keeps exactly the tokens that are not stop words, each as many times as it occurs, so a repeated word counts twice towards the two-word minimum |
| Server.ContentWordsAppend | backend/server.js:169 | the filter keeps the tokens' order: filtering a concatenation concatenates the filtered parts |
| Server.ShouldTriggerSearch | backend/server.js:150-172 | a search is triggered only when a keyword occurs, no skip pattern matches, and at least two content tokens remain |
| Server.FollowUpIff | backend/server.js:158 | the unanchored "what about the" pattern matches if and only if some suffix is the phrase followed by letters only |
| Server.SearchIgnoresCase | backend/server.js:151 | the gate gives the same answer for a query and its lower-cased form |
| Server.DefinitionalSkipped | backend/server.js:154-160 | "what is", "explain" or "is" followed by one word of letters never searches, in any letter case |
| Server.FollowUpSkipped | backend/server.js:158-160 | anything ending in "what about the" and one word of letters never searches |
| Server.BargeIn | backend/server.js:520-548 | speech start marks the user speaking, bumps the request id, stops playback, sets the barge-in flag, clears both buffers, and sends `listening` and `barge_in` |
| Server.FinalizeStart | backend/server.js:568-589 | `finalizeTurn` always queues a turn and clears the speaking flag; only a speaking session sends `thinking` |
| Server.OnAudio | backend/server.js:511-552 | each frame stamps the audio time and advances the detector |
| Vad.Process | backend/audio/vad.js:33-47 | a frame emits `speech_start` exactly when it is loud and the detector silent, and `speech_end` exactly when it is the ninth quiet frame in a row of a speaking detector; afterwards the detector is speaking exactly when the frame was loud, or it was speaking and did not just stop |
| Server.SpeechStartBargesIn | backend/server.js:520-548 | a `speech_start` on a non-speaking session has the barge-in effects and queues no turn |
| Server.SpeechEndFinalizes | backend/server.js:550-552 | a `speech_end` on a speaking session finalises the turn and sends `thinking` |
| Server.HeartbeatOne | backend/server.js:596-607 | a session is finalised exactly when it is marked speaking and no audio frame, loud or quiet, has arrived for more than 800 ms; otherwise nothing changes |
| Server.Heartbeat | backend/server.js:596-607 | the sweep finalises exactly the due sessions and leaves every other session unchanged |
| Server.HeartbeatOnce | backend/server.js:596-607 | a second sweep at the same time finalises nothing: a turn is not closed twice |
| Server.HeartbeatThenLoud | backend/server.js:596-607 | after the heartbeat closes a turn in the middle of detected speech, further loud frames raise no new `speech_start` and no turn |
| Server.StepAccount | backend/server.js:511-607 | each event finalises at most as many detector-driven turns as it starts speaking periods |
| Server.OneFinalizationPerPeriod | backend/server.js:511-607 | over any run of frames, heartbeats and controls, detector and heartbeat turns never outnumber the speaking periods started |
| Server.Step | backend/server.js:511-607 | running a queued turn with none pending does nothing; the pending count grows by at most one per event and falls only when a turn runs, by one; only turns change the history and the turn id |
| Server.RunEvents | backend/server.js:511-607 | a run of n events counts at most n finalisations and n speech starts and leaves at most n more turns pending |
| Server.ContextUpdateEffect | backend/server.js:415-427 | non-blank context replaces the dynamic context with its trimmed text and bumps the version; missing or blank context changes nothing; nothing is sent |
| Server.DebugInputEffect | backend/server.js:429-432 | debug text becomes the final transcript and a turn is queued |
| Server.PlaybackCompleteEffect | backend/server.js:434-441 | playback completion clears the speaking-TTS flag and sends `idle` exactly when the socket is open |
| Server.StartInterviewEffect | backend/server.js:444-475 | starting an interview twice does nothing; otherwise the interview becomes active, the greeting is queued as the user's turn, and the default context is used only when none is set |
| Server.ThanksNotBlank | backend/server.js:497-501 | the closing words are not blank, so they are always spoken |
| Server.CloseInterviewEffect | backend/server.js:478-506 | closing an active interview deactivates it, bumps the request id at least twice, speaks, and sends `speaking` first and `interview_end` last; an inactive one is left alone |
| Server.CloseSpeaks | backend/server.js:484-505 | closing an active interview sends `speaking`, then the stream of the closing words on a bumped id, then `interview_end` |
| Server.EndInterviewEffect | backend/server.js:478-506 | `end_interview` has the closing effects and queues no turn |
| Server.UpdateContext | backend/server.js:415-427 | the session either stays as it was or gets a single system context with non-empty trimmed text and a version one higher; nothing else changes |
| Server.OnControl | backend/server.js:411-508 | no control message touches the history or the turn id; a turn is queued exactly for `debug_input` and for `start_interview` outside an interview; only `end_interview` can change the request id; unknown types change nothing |
| Server.CloseInterview | backend/server.js:478-506 | afterwards no interview is active and no turn is queued; closing an active interview retires the request id; without an interview nothing changes |
| Server.Speak | backend/tts/ttsService.js:105-110 | the session takes over the stream's request id and speaking flag; blank text changes nothing and sends nothing, other text flags speaking under a newer id |
| Server.StripEndMarker | backend/server.js:224-227 | the end marker is reported exactly when the reply contains it; otherwise the reply is kept; with the marker, the result is the reply with its first occurrence of the marker cut out, then trimmed |
| Server.AwaitReply | backend/server.js:511-552 | waiting for the reply keeps the history; a frame arriving meanwhile stamps its time and advances the detector; it bumps the request id, once, exactly when the detector reports a speech start to a session not marked speaking, and then leaves the session and the detector speaking; it queues a turn exactly when the detector reports a speech end to a speaking session; without a frame nothing changes |
| Server.UserHistory | backend/server.js:202-207 | the history ends with the trimmed user text and holds at most 12 entries |
| Server.BeginTurn | backend/server.js:179-207 | taking the user message clears both buffers, bumps the turn id, ends the history with the trimmed user text within 12 entries, and keeps the speaking flags, the interview flag, the request id and the context |
| Server.HandleUserTurn | backend/server.js:178-377 | every turn leaves both buffers empty and bumps the turn id exactly when the transcript is not blank; a turn queues another only when a frame during it ended the user's speech, which leaves the session not speaking |
| Server.PlanTurn | backend/server.js:286-304 | a search happens only outside an interview, on a `search: true` decision with a query that passes the gate; the turn stops without a reply exactly on a failed decision call, `null`, or `search: true` without a query; a decision that is not JSON counts as `search: false` and goes on to the reply |
| Server.AfterStream | backend/server.js:345-373 | after streaming, an open socket gets `speaking`, the assistant transcript, the audio, `interview_end` when the interview completed, and the metrics of this turn, and the barge-in flag is reset; a closed socket gets nothing more |
| Server.Deliver | backend/server.js:338-349 | delivering a reply appends exactly one assistant entry to the history and leaves the speaking flag, the detector and the audio time alone |
| Server.DeliverSpeech | backend/server.js:338-349 | delivering formatted speech appends exactly one assistant entry to the history |
| Server.DeliverSpeechStream | backend/server.js:338-349 | delivery is the history update, then the stream of the formatted speech, then the follow-up messages |
| Server.DeliverShape | backend/server.js:345-373 | on an open socket a delivery starts with `speaking` and the transcript and ends with the metrics; a closed socket gets nothing |
| Server.AfterStreamShape | backend/server.js:236-265 | the interview path sends `speaking` and the transcript first and the metrics last |
| Server.StreamCompletes | backend/tts/ttsService.js:105-168 | an undisturbed non-blank stream completes on the bumped id and ends with `tts_complete` of that id |
| Server.AfterCompleted | backend/server.js:242-265 | after a completed stream, `tts_complete` is followed only by the optional `interview_end` and the metrics |
| Server.StreamThenAfter | backend/server.js:349-373 | an undisturbed stream followed by the follow-up messages ends with `tts_complete` and the metrics |
| Server.DeliverCompletes | backend/server.js:338-373 | an undisturbed delivery bumps the id once and ends with `tts_complete` of that id and the metrics |
| Server.SpeechCompletes | backend/server.js:338-373 | the same for already formatted speech |
| Server.BlankTurn | backend/server.js:179-192 | a blank transcript clears both buffers, sends `idle` and changes nothing else |
| Server.TurnClearsBuffers | backend/server.js:179-183 | every turn leaves both transcript buffers empty |
| Server.TurnStages | backend/server.js:178-377 | a non-blank turn runs the plan the decision selects, searches only as planned, and stops right after the history update when the plan says stop |
| Server.TurnHistory | backend/server.js:198-207 | a turn increments the turn id and leaves the user history, possibly followed by one assistant entry, at most 13 entries |
| Server.SearchOnlyThroughGate | backend/server.js:297-304 | a turn searches only outside an interview, on a `search: true` decision whose query passes the keyword gate |
| Server.DecisionStops | backend/server.js:286-293 | a failed decision call, `null`, or `search: true` without a query ends the turn after the history update, with nothing sent |
| Server.BargeInTurn | backend/server.js:511-548 | a frame that the detector reports as a speech start, arriving while the reply is awaited, is stamped and fed to the detector, the barge-in runs, and the reply is then delivered on the newer id |
| Server.BargeInDuringReply | backend/server.js:334-349 | after such a barge-in the undisturbed reply plays on an id two past the turn's start; the session stays marked speaking, with a speaking detector, no quiet frames counted and the frame's time, so no heartbeat closes the new utterance within 800 ms of that frame |
| Server.BargeInReplyOpens | backend/server.js:520-548 | the client then sees `listening` and `barge_in` first |
| Server.BargeInReplyMessages | backend/server.js:345-373 | when the reply's stream is undisturbed, the last messages but one is `tts_complete` of the id two past the turn's start |
| Server.BargeInReplyMetrics | backend/server.js:351-373 | the last message is then the turn's metrics flagged as a barge-in, after which the flag is reset |
| Server.BargeInThenDeliver | backend/server.js:520-548 | a barge-in followed by an undisturbed delivery bumps the id twice and reports the barge-in in the metrics |
| Server.AdminContext | backend/server.js:62-77 | a missing or empty id or content gives 400, an unknown session 404, and otherwise the context is replaced, the version bumped and returned, and every other session is kept |
| Server.AdminAgreesWithSocket | backend/server.js:62-77 | for non-blank content, the admin route and the socket's `context_update` leave the session in the same state |
| Server.AdminAcceptsBlank | backend/server.js:64-76 | white-space content is accepted by the admin route (an empty system context and a new version), but ignored by the socket |
| TtsService.SentenceMatches | backend/tts/ttsService.js:18 | every match of the sentence pattern is a run of non-terminators followed by a run of `.!?` |
| TtsService.SplitIntoSentences | backend/tts/ttsService.js:16-38 | the split always yields at least one chunk |
| TtsService.Pack | backend/tts/ttsService.js:22-35 | packing yields at most one chunk more than there are sentences, each chunk trimmed |
| TtsService.PackJoins | backend/tts/ttsService.js:22-35 | packing loses and reorders nothing: the chunks joined by blanks are the current chunk and the trimmed sentences joined by blanks |
| TtsService.SplitJoins | backend/tts/ttsService.js:16-38 | when the pattern matches, the chunks joined by blanks are exactly the trimmed sentences joined by blanks |
| TtsService.SentenceNotBlank | backend/tts/ttsService.js:18-23 | a matched sentence never trims to nothing |
| TtsService.PackFits | backend/tts/ttsService.js:25-30 | every packed chunk fits the size, with its joining blank, or is a single long sentence |
| TtsService.SplitFits | backend/tts/ttsService.js:16-38 | every chunk has at most max+1 characters or is one trimmed sentence |
| TtsService.NoTerminator | backend/tts/ttsService.js:37 | text without `.!?` is sent as one chunk: trimmed, or as is when blank |
| TtsService.TailDropped | backend/tts/ttsService.js:18 | text after the last terminator matches nothing and is never spoken |
| TtsService.TryFrom | backend/tts/ttsService.js:47-91 | retrying from attempt a returns the first attempt that succeeds, or fails only when every remaining attempt fails |
| TtsService.GenerateWav | backend/tts/ttsService.js:46-97 | the audio is that of the first successful attempt, and the call fails if and only if all attempts fail |
| TtsService.AttemptsBounded | backend/tts/ttsService.js:47 | at least one and at most retries+1 requests are made |
| TtsService.StreamLoop | backend/tts/ttsService.js:117-168 | the id never goes back; the loop completes only when the id stayed the captured one; a closed socket is sent nothing; otherwise the messages are the chunks in order, then `tts_complete` if completed |
| TtsService.StreamTts | backend/tts/ttsService.js:105-113 | blank text does nothing; otherwise speaking is flagged and the id is bumped, exactly once when the stream completes |
| TtsService.StreamChunks | backend/tts/ttsService.js:109-168 | streaming bumps the id and flags speaking, and sends nothing on a closed socket |
| TtsService.StreamTtsChunks | backend/tts/ttsService.js:113 | non-blank text is streamed as its sentence chunks |
| TtsService.ChunksDeliver | backend/tts/ttsService.js:117-168 | on an open socket the chunks are delivered in order under the new id |
| TtsService.StreamDelivers | backend/tts/ttsService.js:105-168 | the same for the whole `streamTTS` call on non-blank text |
| TtsService.UndisturbedCompletes | backend/tts/ttsService.js:117-168 | without id bumps or failures, every remaining chunk is sent, followed by `tts_complete` |
| TtsService.BumpCuts | backend/tts/ttsService.js:134-138 | an id bump during synthesis of chunk k drops that chunk and everything after it, and the stream does not complete |
| TtsService.FailureEnds | backend/tts/ttsService.js:170-172 | a chunk whose attempts all fail ends the stream after the chunks before it, without `tts_complete` |
| TtsService.ChunksComplete | backend/tts/ttsService.js:162-168 | an undisturbed stream completes and ends with `tts_complete` of the new id |
| TtsService.StaleSendsNothing | backend/tts/ttsService.js:119-122 | a loop whose captured id is stale sends nothing |
| SpeechFormatter.NumberWord | backend/utils/speechFormatter.js:1-5 | a table word exists exactly for 0 to 20 and the round tens below 100 |
| SpeechFormatter.NumberToWords | backend/utils/speechFormatter.js:7-14 | every number has a non-empty spoken form |
| SpeechFormatter.TableWord | backend/utils/speechFormatter.js:1-5 | every table entry is a non-empty word of lower-case letters |
| SpeechFormatter.NumberToWordsShape | backend/utils/speechFormatter.js:7-14 | below 100 the spoken form is made of lower-case letters and blanks; from 100 on it is the decimal digits of the number |
| SpeechFormatter.WordsEdges | backend/utils/speechFormatter.js:7-14 | the spoken form below 100 has no blank at either end |
| SpeechFormatter.Compound | backend/utils/speechFormatter.js:10-11 | 21 to 99 off the tens are said as tens word, blank, units word |
| SpeechFormatter.FormatForSpeech | backend/utils/speechFormatter.js:20-86 | missing or empty text gives ""; the result is always trimmed |
| SpeechFormatter.MarkupStages | backend/utils/speechFormatter.js:26-31 | the markdown passes run in source order |
| SpeechFormatter.FormatStages | backend/utils/speechFormatter.js:20-86 | the formatter is the markdown passes, then the spoken-form passes, then trim |
| SpeechFormatter.RewriteUntouched | backend/utils/speechFormatter.js:26-82 | a pass whose pattern cannot start anywhere leaves the text unchanged |
| SpeechFormatter.ApplyPlain | backend/utils/speechFormatter.js:26-82 | plain text passes through every rewrite unchanged |
| SpeechFormatter.ApplyPasses | backend/utils/speechFormatter.js:26-82 | a run of passes leaves text made only of plain characters unchanged |
| SpeechFormatter.MarkupUntouched | backend/utils/speechFormatter.js:26-31 | text without markdown characters, brackets, `!` or newlines is not changed by the markdown passes |
| SpeechFormatter.PlainOnlyTrimmed | backend/utils/speechFormatter.js:20-86 | plain text is only trimmed |
| SpeechFormatter.SpokenAs | backend/utils/speechFormatter.js:20-86 | markdown-free text that the spoken passes turn into trimmed text t formats to t |
| SpeechFormatter.DigitsUnmatched | backend/utils/speechFormatter.js:36-64 | bare digits, or digits with `%`, are not touched by the decimal, temperature, degree, and (for bare digits) percent and rupee passes |
| SpeechFormatter.PercentMatch | backend/utils/speechFormatter.js:55-58 | the percent pass rewrites "d%" to the spoken digits and " percent" |
| SpeechFormatter.PercentSpoken | backend/utils/speechFormatter.js:55-58 | "d%" below 100 is spoken as its number words and " percent" |
| SpeechFormatter.PercentPasses | backend/utils/speechFormatter.js:36-82 | all spoken passes together turn "d%" below 100 into number words and " percent" |
| SpeechFormatter.DollarsMatch | backend/utils/speechFormatter.js:65-68 | the dollar pass rewrites "$d" to the spoken digits and " dollars" |
| SpeechFormatter.DollarsSpoken | backend/utils/speechFormatter.js:65-68 | "$d" below 100 is spoken as its number words and " dollars" |
| SpeechFormatter.DollarsPasses | backend/utils/speechFormatter.js:36-82 | all spoken passes together turn "$d" below 100 into number words and " dollars" |
| SpeechFormatter.DigitWordsShape | backend/utils/speechFormatter.js:39 | the fractional digits spoken one by one form a non-empty run of lower-case words separated by single blanks, with no blank at either end |
| SpeechFormatter.DecimalsMatch | backend/utils/speechFormatter.js:35-41 | the decimal pass rewrites "d.f" to the whole part as it is spoken, " point ", and each fractional digit's word, joined by single blanks |
| SpeechFormatter.DecimalsRewrite | backend/utils/speechFormatter.js:35-41 | a text that is exactly two digit runs around a period is replaced as a whole by the words for those two runs |
| SpeechFormatter.DecimalsPasses | backend/utils/speechFormatter.js:35-82 | all spoken passes together turn "d.f" with d below 100 into d's number words, " point ", and the digit words of f, which no later pass changes |
| SpeechFormatter.DecimalsSpoken | backend/utils/speechFormatter.js:35-41 | a number below 100 with a fractional part is spoken as its number words, "point", then each fractional digit's word, separated by single blanks |
| SpeechFormatter.TwentyPointSix | backend/utils/speechFormatter.js:35 | "20.6" is spoken as "twenty point six" |
| SpeechFormatter.ZeroPointOneTwo | backend/utils/speechFormatter.js:38-39 | "0.12" is spoken as "zero point one two": fractional digits one at a time, not as a number |
| SpeechFormatter.ReplacementChars | backend/utils/speechFormatter.js:26-82 | every replacement is made of lower-case letters, blanks, digits and dots, except a link's label, which is part of the input |
| SpeechFormatter.RewriteKeeps | backend/utils/speechFormatter.js:26-82 | a character property that every input character and every replacement character have survives a pass |
| SpeechFormatter.RewriteRemoves | backend/utils/speechFormatter.js:26-31 | a pass that matches at every character lacking a property removes all such characters |
| SpeechFormatter.ApplyKeeps | backend/utils/speechFormatter.js:36-82 | such a property survives any sequence of passes |
| SpeechFormatter.StripMarkupQuiet | backend/utils/speechFormatter.js:26-31 | after the markdown passes no markdown character and no newline remains |
| SpeechFormatter.SpeechPassesQuiet | backend/utils/speechFormatter.js:36-82 | the spoken-form passes do not bring them back |
| SpeechFormatter.NoMarkdownNoNewline | backend/utils/speechFormatter.js:20-86 | text sent to synthesis never contains a markdown character (`*`, `_`, `#`, backtick, `~`, `>`) or a newline |
| WebSearch.NormalizeAll | backend/tools/webSearch.js:48-53 | one normalised result per raw entry, in order |
| WebSearch.Normalize | backend/tools/webSearch.js:48-53 | the snippet is the placeholder exactly when the content is missing, empty, or trims to the placeholder; a present title or url is kept, trimmed |
| WebSearch.KeepSnippets | backend/tools/webSearch.js:54 | the filter never adds results |
| WebSearch.Search | backend/tools/webSearch.js:5-69 | at most five results are returned |
| WebSearch.NoResults | backend/tools/webSearch.js:6-45 | a missing or empty key, a thrown fetch, a non-OK status, and missing or empty results each give no results |
| WebSearch.KeptIff | backend/tools/webSearch.js:49-54 | an entry survives the filter if and only if it has content that does not trim to the placeholder |
| WebSearch.MapFilterIsSurvivors | backend/tools/webSearch.js:48-54 | map then filter equals the independent definition of the surviving entries |
| WebSearch.ResultsAreFirstSurvivors | backend/tools/webSearch.js:48-56 | on success the results are the first min(5, n) surviving entries, in their original order |
| WebSearch.SurvivorsHaveContent | backend/tools/webSearch.js:48-54 | no returned result carries the placeholder snippet, and each comes from an entry with content |
| WebSearch.NormalizedTrimmed | backend/tools/webSearch.js:49-53 | title, snippet and source are always trimmed |
| TtsPlayer.Insert | voice-ui/lib/ttsPlayer.ts:50-51 | push-and-sort adds exactly one entry |
| TtsPlayer.InsertSplits | voice-ui/lib/ttsPlayer.ts:50-51 | the stable sort puts the new sentence after every queued sentence with an index not larger than its own, and the others keep their order |
| TtsPlayer.InsertSorted | voice-ui/lib/ttsPlayer.ts:50-51 | an ordered queue stays ordered, and its head is the smaller of the old head and the new sentence |
| TtsPlayer.InsertMember | voice-ui/lib/ttsPlayer.ts:50-51 | every entry after the insertion is the new sentence or an old one |
| TtsPlayer.InsertHolds | voice-ui/lib/ttsPlayer.ts:50-51 | the queue after the insertion is the old queue plus the new sentence, as a multiset |
| TtsPlayer.PlayNext | voice-ui/lib/ttsPlayer.ts:64-90 | an idle player with a queue starts the head and keeps the request; otherwise nothing changes |
| TtsPlayer.HandleFullAudio | voice-ui/lib/ttsPlayer.ts:21-55 | audio of another request than the current one changes nothing; otherwise its request becomes current; audio that does not decode changes nothing else; a playing sentence keeps playing |
| TtsPlayer.OnEnded | voice-ui/lib/ttsPlayer.ts:76-86 | completion is signalled exactly when nothing waits, and the player is then back in its initial state; otherwise the head of the queue plays under the same request |
| TtsPlayer.StopAll | voice-ui/lib/ttsPlayer.ts:92-100 | stopping returns the player to its initial state |
| TtsPlayer.DropsOtherRequest | voice-ui/lib/ttsPlayer.ts:27-30 | audio of another request than the current one changes nothing |
| TtsPlayer.AdoptsRequest | voice-ui/lib/ttsPlayer.ts:33-35 | otherwise its request becomes current, even when the audio then fails to decode |
| TtsPlayer.AcceptedIsHeld | voice-ui/lib/ttsPlayer.ts:37-55 | accepted audio that decodes is held on top of everything held before, and the player is playing |
| TtsPlayer.EventsKeepValid | voice-ui/lib/ttsPlayer.ts:21-100 | audio arrival, the end of a sentence, and stop keep the queue ordered and the playing flag consistent, with nothing waiting while idle |
| TtsPlayer.PlaysLowestIndex | voice-ui/lib/ttsPlayer.ts:64-70 | the sentence that starts has the smallest index waiting |
| TtsPlayer.EndedAdvances | voice-ui/lib/ttsPlayer.ts:76-86 | at the end of a sentence the next one plays under the same request, or, when none waits, the player resets and signals completion; exactly the finished sentence leaves |
| TtsPlayer.StopThenAnyRequest | voice-ui/lib/ttsPlayer.ts:92-100 | after a stop, audio of any request is accepted and played |
| VoiceAgent.StopPlayer | voice-ui/hooks/useVoiceAgent.ts:33 | stopping keeps the presence of the player |
| VoiceAgent.AddUser | voice-ui/hooks/useVoiceAgent.ts:38-48 | the transcript grows by at most one line, ends with the new user line, and keeps every line before the old last one |
| VoiceAgent.AddAssistant | voice-ui/hooks/useVoiceAgent.ts:50-60 | the transcript grows by at most one line, ends with the new assistant line, and keeps every line before the old last one |
| VoiceAgent.AddMetrics | voice-ui/hooks/useVoiceAgent.ts:62-66 | the new entry comes first and at most 10 entries are kept |
| VoiceAgent.HandleMessage | voice-ui/hooks/useVoiceAgent.ts:27-93 | the interview-ended callback fires exactly for `interview_end`, which, like `tts_complete`, leaves the state unchanged; only transcript messages change the transcript, which never shrinks; only metrics messages change the metrics; no message changes the connection flag |
| VoiceAgent.HandleAll | voice-ui/hooks/useVoiceAgent.ts:27-93 | over n messages the callback fires at most n times, the connection flag is kept and the transcript never shrinks |
| VoiceAgent.UserLineEffect | voice-ui/hooks/useVoiceAgent.ts:38-48 | a user line replaces a trailing interim user line and is appended otherwise; the rest is kept |
| VoiceAgent.AssistantLineEffect | voice-ui/hooks/useVoiceAgent.ts:50-60 | an assistant line replaces a trailing assistant line and is appended otherwise; the rest is kept |
| VoiceAgent.TranscriptOnlyGrows | voice-ui/hooks/useVoiceAgent.ts:38-60 | no message shortens the transcript or changes any line but the last |
| VoiceAgent.MessageKeepsTranscript | voice-ui/hooks/useVoiceAgent.ts:38-60 | the transcript keeps having non-empty lines, no two assistant lines in a row, and no interim user line followed by a user line |
| VoiceAgent.MetricsNewestFirst | voice-ui/hooks/useVoiceAgent.ts:62-66 | the new entry comes first, followed by the previous entries, keeping at most 10 |
| VoiceAgent.MessageKeepsValid | voice-ui/hooks/useVoiceAgent.ts:27-93 | every message keeps the transcript, the metrics bound and the player state valid |
| VoiceAgent.RunKeepsValid | voice-ui/hooks/useVoiceAgent.ts:27-93 | so does any sequence of messages, and the interview-ended callback fires once per `interview_end` message |
| VoiceAgent.BargeInSilences | voice-ui/hooks/useVoiceAgent.ts:29-71 | `barge_in`, `listening` and `thinking` stop playback |
| VoiceAgent.OtherStatesKeepPlayer | voice-ui/hooks/useVoiceAgent.ts:29-36 | `speaking` and `idle` only set the state |
| VoiceAgent.StaleAudioIgnored | voice-ui/hooks/useVoiceAgent.ts:73-77 | audio of a stale request leaves the whole UI state unchanged |
| VoiceAgent.SessionIdShown | voice-ui/hooks/useVoiceAgent.ts:83-86 | `session_started` shows its id, or no id when it is empty |
| VoiceAgent.InterviewEndOnly | voice-ui/hooks/useVoiceAgent.ts:88-91 | the interview-ended callback fires exactly for `interview_end`, which changes no state |
| VoiceAgent.Disconnect | voice-ui/hooks/useVoiceAgent.ts:151-167 | disconnecting drops the player and the connection and goes idle, but keeps the transcript, the metrics and the session id |
| InterviewTimer.Init | voice-ui/hooks/useInterviewTimer.ts:11-16 | the timer starts stopped, unexpired, at the full duration |
| InterviewTimer.Start | voice-ui/hooks/useInterviewTimer.ts:21-25 | the timer runs afterwards from the count where it stood; a running timer is unchanged, a stopped one has its expiry latch cleared |
| InterviewTimer.Tick | voice-ui/hooks/useInterviewTimer.ts:41-55 | a tick keeps the running flag and a stopped timer ignores it; `onExpire` is scheduled exactly when a running, unexpired timer stands at 1 second or less, and the count then reads zero with the latch set; otherwise a running timer loses one second |
| InterviewTimer.FormatTime | voice-ui/hooks/useInterviewTimer.ts:65 | the display has at least four characters; under ten minutes it is one minute digit, a colon and two seconds characters |
| InterviewTimer.StartEffect | voice-ui/hooks/useInterviewTimer.ts:21-25 | starting a running timer does nothing; otherwise it runs from where it stood with the expiry latch cleared |
| InterviewTimer.Stop | voice-ui/hooks/useInterviewTimer.ts:27-33 | stopping keeps the count and the latch |
| InterviewTimer.StoppedIgnoresTicks | voice-ui/hooks/useInterviewTimer.ts:41-55 | a stopped timer ignores the interval |
| InterviewTimer.CountsDown | voice-ui/hooks/useInterviewTimer.ts:44-53 | while the count stays positive each tick takes one second off and nothing fires |
| InterviewTimer.FiresAtMostOnce | voice-ui/hooks/useInterviewTimer.ts:46-50 | `onExpire` fires at most once, and not at all once the latch is set |
| InterviewTimer.ExpiresOnTime | voice-ui/hooks/useInterviewTimer.ts:46-51 | a started d-second timer fires exactly once within d ticks and then reads zero |
| InterviewTimer.TicksSnoc | voice-ui/hooks/useInterviewTimer.ts:41-55 | n+1 ticks are n ticks followed by one |
| InterviewTimer.CountsBelowZero | voice-ui/hooks/useInterviewTimer.ts:52-53 | after expiry a running timer keeps counting down below zero |
| InterviewTimer.JsRem | voice-ui/hooks/useInterviewTimer.ts:65 | `%` takes the sign of the dividend and is smaller than the divisor in magnitude |
| InterviewTimer.FormatReadsBack | voice-ui/hooks/useInterviewTimer.ts:65 | a non-negative count displays as minutes, a colon and two digits of seconds that read back as the count |
| InterviewTimer.FullInterviewDisplay | voice-ui/app/interview/page.tsx:11 | the two-minute interview starts at "2:00" |
| InterviewTimer.NegativeDisplay | voice-ui/hooks/useInterviewTimer.ts:46-65 | a running 1-second timer ticked twice fires once and then displays "-1:-1" |
| InterviewTimer.ClampedStaysDisplayable | voice-ui/hooks/useInterviewTimer.ts:46-53 | the corrected countdown never goes below zero and still fires at most once |
| InterviewTimer.ClampedAgreesWhilePositive | voice-ui/hooks/useInterviewTimer.ts:44-53 | the corrected countdown agrees with the original until the original would go below zero |
| Text.Trim | backend/utils/transcriptHelper.js:9 | the result has no white space at either end and is no longer than the input |
| Text.TrimInfix | backend/utils/transcriptHelper.js:9 | trimming removes only white space, from both ends |
| Text.TrimEmptyIff | backend/server.js:185 | a text trims to nothing if and only if it is all white space |
| Text.ToLower | backend/utils/transcriptHelper.js:10 | lower-casing keeps the length |
| Text.ToLowerShape | backend/utils/transcriptHelper.js:10 | it leaves no ASCII upper-case letter and keeps every white-space position |
| Text.CollapseSpaces | backend/utils/transcriptHelper.js:11 | collapsing is empty exactly when the input is |
| Text.CollapseNoRuns | backend/utils/transcriptHelper.js:11 | after collapsing there is no run of two white-space characters |
| Text.CollapseIdempotent | backend/utils/transcriptHelper.js:11 | collapsing twice is collapsing once |
| Text.CollapseNonSpace | backend/utils/transcriptHelper.js:11 | collapsing keeps every non-space character, in order |
| Text.IndexOf | backend/server.js:226 | a match position is found if and only if the pattern occurs, and it is the first occurrence |
| Text.IndexOfFirst | backend/server.js:226 | an occurrence with none before it is the position found |
| Text.ReplaceFirst | backend/server.js:226 | a text without the pattern is unchanged; otherwise exactly one occurrence is swapped for the replacement |
| Text.ReplaceFirstAt | backend/server.js:226 | the occurrence replaced is the first one, and the text around it is kept |
| Text.SplitWs | backend/server.js:169 | splitting yields at least one token, no token contains white space, and only the first and the last token can be empty |
| Text.NatToString | backend/utils/speechFormatter.js:13 | `String(n)` is a non-empty digit string that reads back as n |
| Basics.LastSuffix | backend/server.js:205-207 | `slice(-12)` keeps a suffix of the history |

## Left out

- Strings are sequences of code points. JavaScript's `.length` counts UTF-16 code units, so the 2-character transcript threshold and the chunk size differ for text outside the Basic Multilingual Plane.
- `toLowerCase` is modelled on ASCII letters only. Full Unicode case mapping is out of scope. (The `\s` class is the full set of ECMAScript white-space and line-terminator characters.)
- Samples are exact real numbers, not 32-bit floats. The rounding of `Float32Array` is not modelled.
- Session ids come from `randomUUID` and are a parameter. Clock readings (`Date.now()`) are parameters too.
- The latency metrics (timestamps and durations), the log lines and the LLM prompts are not modelled. The metrics message carries only the turn id and the barge-in flag.
- The LLM calls (the search decision, the reply, the interview reply) are oracles. The model covers what the turn does with their answers, including decision text that is not JSON, which counts as `search: false`.
- The Tavily HTTP exchange, including the 4-second abort, is an outcome value. The search query's use in the reply prompt is not modelled.
- Each synthesis HTTPS request is an oracle per sentence and attempt. WAV header bytes and base64 encoding are out of scope.
- The recogniser's own WebSocket, audio forwarding to it, and its reconnection are out of scope. Only its message handler is modelled.
- JSON parsing of client messages is out of scope. A message is a datatype value, and binary frames are audio.
- The browser's AudioContext, `decodeAudioData` and base64 decoding are out of scope. Whether a sentence decodes is a flag.
- A stale `onended` from a source that `stopAll` already stopped is not modelled.
- The `await` inside `handleFullAudio` is treated as atomic with the request check that precedes it.
- Inside a turn, one audio frame is modelled, arriving while the LLM reply is awaited. Frames during the other `await`s of `handleUserTurn` (the search decision, the search, the stream) are not modelled, except as request-id bumps during synthesis. A frame during the wait that ends the user's speech queues another turn, which the engine runs after this one rather than concurrently.
- TtsService.StreamChunks: a request-id bump that lands while a sentence is synthesised (`duringGen`) changes only the id. The handlers that bump it in the source also clear `isSpeakingTTS` (barge-in and `end_interview`), and a barge-in also sets the barge-in flag and marks the user speaking. So after a stream cut this way the model still has `isSpeakingTTS` set, and Server.AfterStream sends metrics without the barge-in flag; the handler's own effects on the session are not replayed into the turn.
- The heartbeat is a sweep at a given time. The 200 ms `setInterval` itself, the keep-alive self-ping, and socket close handling beyond deletion are out of scope.
- The client's `connect`, `sendContextUpdate` and the other send helpers are out of scope, as are the microphone recorder, the React components, the playback page, the express routes other than `/admin/context`, and the video services.
- Server.ShouldTriggerSearch: the contract states the conditions a triggered search needs. The converse (a keyword, two content tokens and no skip pattern always trigger) is the body itself and is not restated.
- VoiceAgent.HandleMessage: `tts_complete` calls `markBackendDone`, which the player does not define. The model treats the message as a no-op, which is its effect before the call throws.

## Findings

| source | as written | input that shows it | evidently intended | confidence | as-written member | corrected member |
|---|---|---|---|---|---|---|
| voice-ui/hooks/useInterviewTimer.ts:46-53 | after expiry the interval keeps subtracting one second, because the interview page never stops the timer, and the display shows a negative minute and second | a running timer at 1 second, ticked twice: `onExpire` fires once, then the count is -1 and `formattedTime` is "-1:-1" | the count stays at zero once expired, showing "0:00" | not executed | InterviewTimer.NegativeDisplay | InterviewTimer.ClampedStaysDisplayable |

Related behaviours, which are modelled as written and are not findings:

- `POST /admin/context` accepts white-space content and installs an empty system context. The socket's `context_update` ignores the same content (Server.AdminAcceptsBlank).
- `cleanTranscript` collapses white space before it strips punctuation, so "x ." keeps a trailing blank. Cleaning twice is therefore not the same as cleaning once (TranscriptHelper.CleanNotIdempotent).
