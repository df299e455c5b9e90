/** The reply dispatcher: sentence chunking, the bounded synthesis retry and
    the epoch-checked streaming loop. The synthesis HTTPS request is an
    oracle; so are the `ttsRequestId` increments other handlers make while
    the loop is suspended. */
module TtsService {
  import opened Basics
  import opened Text
  import opened Protocol

  const MaxChunkSize: nat := 250
  const Retries: nat := 2

  // ---------------------------------------------------------------------
  // splitIntoSentences

  /** The sentence terminators of `/[^.!?]+[.!?]+/g`. */
  predicate IsTerm(c: char) {
    c == '.' || c == '!' || c == '?'
  }

  /** The longest prefix without a terminator. */
  function NonTermRun(s: string): (r: string)
    ensures |r| <= |s| && r == s[..|r|]
    ensures forall i :: 0 <= i < |r| ==> !IsTerm(r[i])
    ensures |r| < |s| ==> IsTerm(s[|r|])
  {
    if s == [] || IsTerm(s[0]) then [] else [s[0]] + NonTermRun(s[1..])
  }

  /** The longest prefix of terminators. */
  function TermRun(s: string): (r: string)
    ensures |r| <= |s| && r == s[..|r|]
    ensures forall i :: 0 <= i < |r| ==> IsTerm(r[i])
    ensures |r| < |s| ==> !IsTerm(s[|r|])
  {
    if s == [] || !IsTerm(s[0]) then [] else [s[0]] + TermRun(s[1..])
  }

  /** A match of `[^.!?]+[.!?]+`: non-terminators, then terminators only. */
  ghost predicate IsSentence(x: string) {
    && x != [] && !IsTerm(x[0]) && IsTerm(x[|x| - 1])
    && forall i, j :: 0 <= i < j < |x| && IsTerm(x[i]) ==> IsTerm(x[j])
  }

  /** `text.match(/[^.!?]+[.!?]+/g)` as a list (empty for `null`): each
      match is a maximal run of non-terminators followed by its maximal run
      of terminators; terminators with nothing before them are skipped and
      a trailing run without a terminator is not matched. */
  function SentenceMatches(s: string): (r: seq<string>)
    ensures forall k :: 0 <= k < |r| ==> IsSentence(r[k])
    decreases |s|
  {
    if s == [] then []
    else if IsTerm(s[0]) then SentenceMatches(s[1..])
    else
      var a := NonTermRun(s);
      if |a| == |s| then []
      else
        var b := TermRun(s[|a|..]);
        var x := a + b;
        assert x[|x| - 1] == b[|b| - 1];
        [x] + SentenceMatches(s[|x|..])
  }

  /** The chunking loop: `cur` is `currentChunk`; a sentence joins the
      current chunk after one blank unless that would exceed `max` (and the
      chunk is non-empty), in which case the chunk is emitted. */
  function Pack(sentences: seq<string>, cur: string, max: nat): (r: seq<string>)
    ensures |r| <= |sentences| + 1
    ensures forall k :: 0 <= k < |r| ==> IsTrimmed(r[k])
    decreases |sentences|
  {
    if sentences == [] then
      if Trim(cur) != [] then [Trim(cur)] else []
    else
      var t := Trim(sentences[0]);
      if |cur| + |t| > max && |cur| > 0 then [Trim(cur)] + Pack(sentences[1..], t, max)
      else Pack(sentences[1..], cur + (if cur != [] then " " else "") + t, max)
  }

  /** `splitIntoSentences(text, max)`. */
  function SplitIntoSentences(text: string, max: nat): (r: seq<string>)
    ensures |r| >= 1
  {
    var m := SentenceMatches(text);
    var sentences := if m == [] then [text] else m;
    var chunks := Pack(sentences, [], max);
    if chunks == [] then [text] else chunks
  }

  /** Each element trimmed, in order. */
  function TrimAll(xs: seq<string>): (r: seq<string>)
    ensures |r| == |xs|
    ensures forall k :: 0 <= k < |r| ==> r[k] == Trim(xs[k])
  {
    if xs == [] then [] else [Trim(xs[0])] + TrimAll(xs[1..])
  }

  /** Pieces joined with single blanks. */
  function JoinBlank(parts: seq<string>): string {
    if parts == [] then []
    else if |parts| == 1 then parts[0]
    else parts[0] + " " + JoinBlank(parts[1..])
  }

  lemma JoinBlankCons(a: string, parts: seq<string>)
    ensures JoinBlank([a] + parts) == if parts == [] then a else a + " " + JoinBlank(parts)
  {
    assert ([a] + parts)[1..] == parts;
  }

  ghost predicate NoneBlank(xs: seq<string>) {
    forall k :: 0 <= k < |xs| ==> Trim(xs[k]) != []
  }

  /** The chunks packed from a non-empty trimmed `cur` and sentences that do
      not trim to nothing, joined with blanks, are `cur` and the trimmed
      sentences joined with blanks. */
  lemma {:induction false} PackJoins(sentences: seq<string>, cur: string, max: nat)
    requires cur != [] && IsTrimmed(cur) && NoneBlank(sentences)
    ensures Pack(sentences, cur, max) != []
    ensures JoinBlank(Pack(sentences, cur, max)) == JoinBlank([cur] + TrimAll(sentences))
    decreases |sentences|
  {
    TrimOfTrimmed(cur);
    if sentences == [] {
      assert Pack(sentences, cur, max) == [cur];
      assert [cur] + TrimAll(sentences) == [cur];
    } else {
      var t := Trim(sentences[0]);
      var rest := sentences[1..];
      var tr := TrimAll(rest);
      NoneBlankTail(sentences);
      assert TrimAll(sentences) == [t] + tr;
      JoinBlankCons(t, tr);
      JoinBlankCons(cur, [t] + tr);
      var want := cur + " " + JoinBlank([t] + tr);
      assert JoinBlank([cur] + TrimAll(sentences)) == want;
      if |cur| + |t| > max {
        var p := Pack(rest, t, max);
        assert Pack(sentences, cur, max) == [cur] + p;
        PackJoins(rest, t, max);
        JoinBlankCons(cur, p);
        assert JoinBlank([cur] + p) == cur + " " + JoinBlank(p);
        assert JoinBlank(p) == JoinBlank([t] + tr);
        assert JoinBlank(Pack(sentences, cur, max)) == want;
      } else {
        var c2 := cur + " " + t;
        assert Pack(sentences, cur, max) == Pack(rest, c2, max);
        JoinTrimmed(cur, t);
        PackJoins(rest, c2, max);
        JoinBlankCons(c2, tr);
        assert JoinBlank(Pack(sentences, cur, max)) == JoinBlank([c2] + tr);
        if tr != [] {
          BlankAssoc(cur, t, JoinBlank(tr));
        }
      }
    }
  }

  lemma BlankAssoc(a: string, b: string, c: string)
    ensures a + " " + b + " " + c == a + " " + (b + " " + c)
  {
  }

  /** Packing from an empty chunk: the same join over the trimmed sentences. */
  lemma {:induction false} PackJoinsFromEmpty(sentences: seq<string>, max: nat)
    requires sentences != [] && NoneBlank(sentences)
    ensures Pack(sentences, [], max) != []
    ensures JoinBlank(Pack(sentences, [], max)) == JoinBlank(TrimAll(sentences))
  {
    var t := Trim(sentences[0]);
    var rest := sentences[1..];
    assert [] + [] + t == t;
    assert Pack(sentences, [], max) == Pack(rest, t, max);
    PackJoins(rest, t, max);
    assert TrimAll(sentences) == [t] + TrimAll(rest);
  }

  /** Splitting loses, adds and reorders nothing: the chunks joined with
      single blanks are the trimmed sentence matches joined with single
      blanks. */
  lemma SplitJoins(text: string, max: nat)
    requires SentenceMatches(text) != []
    ensures JoinBlank(SplitIntoSentences(text, max)) == JoinBlank(TrimAll(SentenceMatches(text)))
  {
    var m := SentenceMatches(text);
    forall k | 0 <= k < |m| ensures Trim(m[k]) != [] {
      SentenceNotBlank(m[k]);
    }
    PackJoinsFromEmpty(m, max);
  }

  /** A sentence match ends in a terminator, so it never trims to nothing. */
  lemma SentenceNotBlank(x: string)
    requires IsSentence(x)
    ensures Trim(x) != []
  {
    var k := |x| - 1;
    assert !IsSpace(x[k]);
    TrimEmptyIff(x);
  }

  /** A chunk is either at most one character over the limit (the joining
      blank) or one trimmed sentence on its own. */
  ghost predicate Fits(c: string, max: nat, pool: seq<string>) {
    |c| <= max + 1 || c in pool
  }

  ghost predicate AllFit(chunks: seq<string>, max: nat, pool: seq<string>) {
    forall k :: 0 <= k < |chunks| ==> Fits(chunks[k], max, pool)
  }

  ghost predicate TrimsIn(sentences: seq<string>, pool: seq<string>) {
    forall k :: 0 <= k < |sentences| ==> Trim(sentences[k]) in pool
  }

  lemma AllFitCons(c: string, chunks: seq<string>, max: nat, pool: seq<string>)
    requires Fits(c, max, pool) && AllFit(chunks, max, pool)
    ensures AllFit([c] + chunks, max, pool)
  {
    forall k | 0 <= k < |[c] + chunks| ensures Fits(([c] + chunks)[k], max, pool) {
      if k > 0 {
        assert ([c] + chunks)[k] == chunks[k - 1];
      }
    }
  }

  lemma TrimsInTail(sentences: seq<string>, pool: seq<string>)
    requires sentences != [] && TrimsIn(sentences, pool)
    ensures Trim(sentences[0]) in pool && TrimsIn(sentences[1..], pool)
  {
    forall k | 0 <= k < |sentences| - 1 ensures Trim(sentences[1..][k]) in pool {
      assert sentences[1..][k] == sentences[k + 1];
    }
  }

  lemma NoneBlankTail(sentences: seq<string>)
    requires sentences != [] && NoneBlank(sentences)
    ensures Trim(sentences[0]) != [] && NoneBlank(sentences[1..])
  {
    forall k | 0 <= k < |sentences| - 1 ensures Trim(sentences[1..][k]) != [] {
      assert sentences[1..][k] == sentences[k + 1];
    }
  }

  lemma {:induction false} PackFits(sentences: seq<string>, cur: string, max: nat, pool: seq<string>)
    requires IsTrimmed(cur) && Fits(cur, max, pool) && TrimsIn(sentences, pool) && NoneBlank(sentences)
    ensures AllFit(Pack(sentences, cur, max), max, pool)
    decreases |sentences|
  {
    TrimOfTrimmed(cur);
    if sentences == [] {
      if cur != [] {
        assert Pack(sentences, cur, max) == [cur];
      } else {
        assert Pack(sentences, cur, max) == [];
      }
    } else {
      var t := Trim(sentences[0]);
      var rest := sentences[1..];
      TrimsInTail(sentences, pool);
      NoneBlankTail(sentences);
      if |cur| + |t| > max && |cur| > 0 {
        assert Pack(sentences, cur, max) == [cur] + Pack(rest, t, max);
        PackFits(rest, t, max, pool);
        AllFitCons(cur, Pack(rest, t, max), max, pool);
      } else if cur == [] {
        assert cur + [] + t == t;
        assert Pack(sentences, cur, max) == Pack(rest, t, max);
        PackFits(rest, t, max, pool);
      } else {
        var c2 := cur + " " + t;
        assert Pack(sentences, cur, max) == Pack(rest, c2, max);
        JoinTrimmed(cur, t);
        PackFits(rest, c2, max, pool);
      }
    }
  }

  /** Every chunk is at most `max + 1` characters long unless it is a
      single trimmed sentence. */
  lemma SplitFits(text: string, max: nat)
    requires SentenceMatches(text) != []
    ensures var pool := TrimAll(SentenceMatches(text)); var r := SplitIntoSentences(text, max);
      forall k :: 0 <= k < |r| ==> |r[k]| <= max + 1 || r[k] in pool
  {
    var m := SentenceMatches(text);
    var pool := TrimAll(m);
    forall k | 0 <= k < |m| ensures Trim(m[k]) in pool && Trim(m[k]) != [] {
      assert pool[k] == Trim(m[k]);
      SentenceNotBlank(m[k]);
    }
    PackJoinsFromEmpty(m, max);
    PackFits(m, [], max, pool);
    assert SplitIntoSentences(text, max) == Pack(m, [], max);
  }

  /** Text without any terminator is spoken as one trimmed chunk (or as
      itself when it is blank). */
  lemma NoTerminator(text: string, max: nat)
    requires forall i :: 0 <= i < |text| ==> !IsTerm(text[i])
    ensures SplitIntoSentences(text, max) == if Trim(text) == [] then [text] else [Trim(text)]
  {
    NoTermNoMatch(text);
    var t := Trim(text);
    assert [] + [] + t == t;
    assert Pack([text], [], max) == Pack([], t, max);
    TrimOfTrimmed(t);
  }

  lemma {:induction false} NoTermNoMatch(s: string)
    requires forall i :: 0 <= i < |s| ==> !IsTerm(s[i])
    ensures SentenceMatches(s) == []
  {
    if s != [] {
      var a := NonTermRun(s);
      assert |a| == |s|;
    }
  }

  /** Text after the last terminator is never spoken: appending terminator-
      free text to a string that is empty or ends in a terminator leaves
      the matches unchanged. */
  lemma {:induction false} TailDropped(p: string, u: string)
    requires p == [] || IsTerm(p[|p| - 1])
    requires forall i :: 0 <= i < |u| ==> !IsTerm(u[i])
    ensures SentenceMatches(p + u) == SentenceMatches(p)
    decreases |p|
  {
    var s := p + u;
    if p == [] {
      assert s == u;
      NoTermNoMatch(u);
    } else if IsTerm(p[0]) {
      assert s[1..] == p[1..] + u;
      TailDropped(p[1..], u);
    } else {
      var a := NonTermRun(p);
      NonTermRunOfPrefix(p, u);
      var b := TermRun(p[|a|..]);
      TermRunOfPrefix(p[|a|..], u);
      DropOfAppend(p, u, |a|);
      var x := a + b;
      DropOfAppend(p, u, |x|);
      TailDropped(p[|x|..], u);
    }
  }

  lemma {:induction false} NonTermRunOfPrefix(p: string, u: string)
    requires p != [] && IsTerm(p[|p| - 1])
    ensures NonTermRun(p + u) == NonTermRun(p) && |NonTermRun(p)| < |p|
    decreases |p|
  {
    if !IsTerm(p[0]) {
      assert (p + u)[1..] == p[1..] + u;
      NonTermRunOfPrefix(p[1..], u);
    }
  }

  lemma {:induction false} TermRunOfPrefix(p: string, u: string)
    requires p != [] && IsTerm(p[|p| - 1])
    requires forall i :: 0 <= i < |u| ==> !IsTerm(u[i])
    ensures TermRun(p + u) == TermRun(p)
    decreases |p|
  {
    if IsTerm(p[0]) && |p| > 1 {
      assert (p + u)[1..] == p[1..] + u;
      TermRunOfPrefix(p[1..], u);
    } else if IsTerm(p[0]) {
      assert (p + u)[1..] == u;
      assert u == [] || !IsTerm(u[0]);
    }
  }

  // ---------------------------------------------------------------------
  // generateWAV

  /** Outcome of one synthesis request: the WAV bytes, or a failure (non-200
      status, socket error or the 5 s timeout). */
  type Attempts = nat -> Option<seq<Byte>>

  datatype Wav = Got(audio: seq<Byte>, attempt: nat) | Failed

  /** The retry loop from attempt `a` on: the first success wins; the
      failure of attempt `retries` is rethrown. */
  function TryFrom(outcome: Attempts, a: nat, retries: nat): (r: Wav)
    requires a <= retries
    ensures r.Got? ==> a <= r.attempt <= retries && outcome(r.attempt) == Some(r.audio)
    ensures r.Got? ==> forall k :: a <= k < r.attempt ==> outcome(k) == None
    ensures r.Failed? ==> forall k :: a <= k <= retries ==> outcome(k) == None
    decreases retries - a
  {
    match outcome(a)
    case Some(w) => Got(w, a)
    case None => if a == retries then Failed else TryFrom(outcome, a + 1, retries)
  }

  /** `generateWAV(text, retries)`: at most `retries + 1` attempts. */
  function GenerateWav(outcome: Attempts, retries: nat): (r: Wav)
    ensures r.Got? ==> r.attempt <= retries && outcome(r.attempt) == Some(r.audio)
    ensures r.Got? ==> forall k :: 0 <= k < r.attempt ==> outcome(k) == None
    ensures r.Failed? <==> forall k :: 0 <= k <= retries ==> outcome(k) == None
  {
    TryFrom(outcome, 0, retries)
  }

  /** Number of requests made: the successful attempt and the failed ones
      before it, or all `retries + 1` when every one fails. */
  function AttemptsMade(w: Wav, retries: nat): nat {
    match w
    case Got(_, a) => a + 1
    case Failed => retries + 1
  }

  lemma AttemptsBounded(outcome: Attempts, retries: nat)
    ensures 1 <= AttemptsMade(GenerateWav(outcome, retries), retries) <= retries + 1
  {
  }

  // ---------------------------------------------------------------------
  // streamTTS

  /** The environment of one stream: the synthesis outcome of segment `i`
      at attempt `a`, and how many times other handlers increment
      `ttsRequestId` while segment `i` is being synthesised (`duringGen`)
      and during the 50 ms pause after it (`duringPause`). */
  datatype TtsEnv = TtsEnv(
    wav: nat -> Attempts,
    duringGen: nat -> nat,
    duringPause: nat -> nat)

  /** The outcomes of all attempts for segment `i`. */
  function SegmentAttempts(env: TtsEnv, i: nat): Attempts {
    env.wav(i)
  }

  /** `id` is the session's `ttsRequestId` when the stream returns; `sent`
      are the messages it sent; `completed` says that the final check
      passed (and `tts_complete` was sent if the socket is open). */
  datatype StreamResult = StreamResult(id: nat, sent: seq<ServerMessage>, completed: bool)

  /** `m` is the `tts_audio_full` for segment `index` of `total` in stream `id`. */
  predicate IsSegment(m: ServerMessage, index: nat, total: nat, id: nat) {
    m.TtsAudioFull? && m.index == index && m.total == total && m.requestId == id
  }

  ghost predicate SegmentsFrom(sent: seq<ServerMessage>, from: nat, total: nat, id: nat) {
    && from + |sent| <= total
    && forall j :: 0 <= j < |sent| ==> IsSegment(sent[j], from + j, total, id)
  }

  /** What a stream may send from segment `from` on: consecutive segments,
      and `tts_complete` after the last one only when it completed. */
  ghost predicate Delivers(sent: seq<ServerMessage>, from: nat, total: nat, id: nat, completed: bool) {
    if completed then
      && sent != [] && sent[|sent| - 1] == TtsComplete(id)
      && from + |sent| - 1 == total && SegmentsFrom(sent[..|sent| - 1], from, total, id)
    else SegmentsFrom(sent, from, total, id)
  }

  /** The loop from segment `i`, with `g` the session's current
      `ttsRequestId` and `captured` the stream's own id. */
  function StreamLoop(chunks: seq<string>, i: nat, captured: nat, g: nat, open: bool, env: TtsEnv): (r: StreamResult)
    requires i <= |chunks| && captured <= g
    ensures r.id >= g
    ensures r.completed ==> r.id == captured && g == captured
    ensures !open ==> r.sent == []
    ensures open ==> Delivers(r.sent, i, |chunks|, captured, r.completed)
    decreases |chunks| - i
  {
    if i == |chunks| then
      if g == captured then StreamResult(g, SendIfOpen(open, [TtsComplete(captured)]), true)
      else StreamResult(g, [], false)
    else if g != captured then StreamResult(g, [], false)
    else
      var g1 := g + env.duringGen(i);
      match GenerateWav(SegmentAttempts(env, i), Retries)
      case Failed => StreamResult(g1, [], false)
      case Got(audio, _) =>
        if g1 != captured then StreamResult(g1, [], false)
        else
          var seg := TtsAudioFull(audio, i, |chunks|, captured);
          var rest := StreamLoop(chunks, i + 1, captured, g1 + env.duringPause(i), open, env);
          var sent := SendIfOpen(open, [seg]) + rest.sent;
          assert open ==> sent[1..] == rest.sent;
          assert open && rest.completed ==> sent[..|sent| - 1] == SendIfOpen(open, [seg]) + rest.sent[..|rest.sent| - 1];
          StreamResult(rest.id, sent, rest.completed)
  }

  /** The session fields a stream touches. */
  datatype TtsState = TtsState(ttsRequestId: nat, isSpeakingTTS: bool)

  datatype Streamed = Streamed(next: TtsState, sent: seq<ServerMessage>, completed: bool)

  /** `streamTTS(text, session, ws)`: blank text returns at once; otherwise
      the stream captures `ttsRequestId + 1` as its id and stores it. */
  function StreamTts(text: string, s: TtsState, open: bool, env: TtsEnv): (r: Streamed)
    ensures Trim(text) == [] ==> r == Streamed(s, [], false)
    ensures Trim(text) != [] ==> r.next.isSpeakingTTS && r.next.ttsRequestId >= s.ttsRequestId + 1
    ensures r.completed ==> r.next.ttsRequestId == s.ttsRequestId + 1
    ensures !open ==> r.sent == []
  {
    if Trim(text) == [] then Streamed(s, [], false)
    else StreamChunks(SplitIntoSentences(text, MaxChunkSize), s, open, env)
  }

  /** The non-blank branch of `streamTTS`, over the chunks of the text. */
  function StreamChunks(chunks: seq<string>, s: TtsState, open: bool, env: TtsEnv): (r: Streamed)
    ensures r.next.isSpeakingTTS && r.next.ttsRequestId >= s.ttsRequestId + 1
    ensures r.completed ==> r.next.ttsRequestId == s.ttsRequestId + 1
    ensures !open ==> r.sent == []
  {
    var captured := s.ttsRequestId + 1;
    var l := StreamLoop(chunks, 0, captured, captured, open, env);
    Streamed(TtsState(l.id, true), l.sent, l.completed)
  }

  /** A non-blank text is streamed chunk by chunk. */
  lemma StreamTtsChunks(text: string, s: TtsState, open: bool, env: TtsEnv)
    requires Trim(text) != []
    ensures StreamTts(text, s, open, env) == StreamChunks(SplitIntoSentences(text, MaxChunkSize), s, open, env)
  {
  }

  lemma ChunksDeliver(chunks: seq<string>, s: TtsState, open: bool, env: TtsEnv)
    ensures var r := StreamChunks(chunks, s, open, env);
      open ==> Delivers(r.sent, 0, |chunks|, s.ttsRequestId + 1, r.completed)
  {
  }

  /** A stream sends, in order, the segments of the text's chunks under
      the session's next id, and `tts_complete` after the last one exactly
      when it completed. */
  lemma StreamDelivers(text: string, s: TtsState, open: bool, env: TtsEnv)
    ensures var r := StreamTts(text, s, open, env);
      open && Trim(text) != [] ==>
        Delivers(r.sent, 0, |SplitIntoSentences(text, MaxChunkSize)|, s.ttsRequestId + 1, r.completed)
  {
    if open && Trim(text) != [] {
      var chunks := SplitIntoSentences(text, MaxChunkSize);
      var r := StreamChunks(chunks, s, open, env);
      assert Delivers(r.sent, 0, |chunks|, s.ttsRequestId + 1, r.completed) by {
        ChunksDeliver(chunks, s, open, env);
      }
      StreamTtsChunks(text, s, open, env);
    }
  }

  /** No interference between `i` and the end: no increments and every
      segment synthesised within the retry budget. */
  ghost predicate Undisturbed(env: TtsEnv, i: nat, n: nat) {
    forall j :: i <= j < n ==>
      env.duringGen(j) == 0 && env.duringPause(j) == 0
      && GenerateWav(SegmentAttempts(env, j), Retries).Got?
  }

  /** Without interference every remaining segment is sent, in order, and
      the stream completes with its id still current. */
  lemma {:induction false} UndisturbedCompletes(chunks: seq<string>, i: nat, captured: nat, open: bool, env: TtsEnv)
    requires i <= |chunks| && Undisturbed(env, i, |chunks|)
    ensures var r := StreamLoop(chunks, i, captured, captured, open, env);
      r.completed && r.id == captured && (open ==> |r.sent| == |chunks| - i + 1)
    decreases |chunks| - i
  {
    if i < |chunks| {
      assert GenerateWav(SegmentAttempts(env, i), Retries).Got?;
      UndisturbedCompletes(chunks, i + 1, captured, open, env);
    }
  }

  /** An increment while segment `k` is synthesised cuts the stream: exactly
      the segments before `k` are sent and `tts_complete` is not. */
  lemma {:induction false} BumpCuts(chunks: seq<string>, i: nat, k: nat, captured: nat, open: bool, env: TtsEnv)
    requires i <= k < |chunks| && Undisturbed(env, i, k)
    requires env.duringGen(k) > 0 && GenerateWav(SegmentAttempts(env, k), Retries).Got?
    ensures var r := StreamLoop(chunks, i, captured, captured, open, env);
      !r.completed && r.id > captured && (open ==> |r.sent| == k - i)
    decreases k - i
  {
    if i < k {
      assert GenerateWav(SegmentAttempts(env, i), Retries).Got?;
      BumpCuts(chunks, i + 1, k, captured, open, env);
    }
  }

  /** A synthesis failure at segment `k` ends the stream without
      `tts_complete`, after the segments before `k`. */
  lemma {:induction false} FailureEnds(chunks: seq<string>, i: nat, k: nat, captured: nat, open: bool, env: TtsEnv)
    requires i <= k < |chunks| && Undisturbed(env, i, k)
    requires GenerateWav(SegmentAttempts(env, k), Retries).Failed?
    ensures var r := StreamLoop(chunks, i, captured, captured, open, env);
      !r.completed && (open ==> |r.sent| == k - i)
    decreases k - i
  {
    if i < k {
      assert GenerateWav(SegmentAttempts(env, i), Retries).Got?;
      FailureEnds(chunks, i + 1, k, captured, open, env);
    }
  }

  /** A non-blank text streamed without interference completes under the
      freshly captured id, and `tts_complete` is the last message sent. */
  /** Without interference the chunks' stream completes under the
      session's next id, with `tts_complete` last. */
  lemma ChunksComplete(chunks: seq<string>, s: TtsState, open: bool, env: TtsEnv)
    requires Undisturbed(env, 0, |chunks|)
    ensures var r := StreamChunks(chunks, s, open, env);
      && r.completed && r.next == TtsState(s.ttsRequestId + 1, true)
      && (open ==> r.sent != [] && r.sent[|r.sent| - 1] == TtsComplete(s.ttsRequestId + 1))
  {
    UndisturbedCompletes(chunks, 0, s.ttsRequestId + 1, open, env);
  }

  /** Once the session's id has moved past the stream's, nothing is sent. */
  lemma StaleSendsNothing(chunks: seq<string>, i: nat, captured: nat, g: nat, open: bool, env: TtsEnv)
    requires i <= |chunks| && captured < g
    ensures StreamLoop(chunks, i, captured, g, open, env) == StreamResult(g, [], false)
  {
  }
}
