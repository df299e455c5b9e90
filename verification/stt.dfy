/** The streaming recogniser's message handler: interim results replace
    the interim buffer, cleaned final results are appended to the final
    buffer, and both are echoed to the client while its socket is open. */
module Stt {
  import opened Basics
  import opened Text
  import opened TranscriptHelper
  import opened Protocol

  /** `response.is_final`, compared with `=== false` and `=== true`; any
      other value (missing, a string, ...) is `FinalOther`. */
  datatype FinalFlag = FinalFalse | FinalTrue | FinalOther

  /** A recogniser message after `JSON.parse`; `Unparseable` is the parse
      error that the handler catches. `transcript` is
      `channel.alternatives[0].transcript`, `None` when any link is missing. */
  datatype RecognizerMessage =
    | Unparseable
    | Parsed(transcript: Option<string>, isFinal: FinalFlag)

  /** The session's two transcript buffers. */
  datatype Buffers = Buffers(interim: string, final: string)

  datatype SttStep = SttStep(next: Buffers, sent: seq<ServerMessage>)

  /** `transcript || ""`. */
  function TranscriptOf(m: RecognizerMessage): string {
    if m.Unparseable? then "" else m.transcript.GetOr("")
  }

  /** Messages the handler drops before looking at `is_final`. */
  predicate Ignored(m: RecognizerMessage) {
    m.Unparseable? || |TranscriptOf(m)| < 2
  }

  /** The cleaned text of an accepted final result. */
  function CleanedFinal(m: RecognizerMessage): string {
    CleanTranscript(Some(TranscriptOf(m)))
  }

  /** A final result whose cleaned text is non-empty: the only case that
      touches the final buffer. */
  predicate AppendsFinal(m: RecognizerMessage) {
    !Ignored(m) && m.isFinal == FinalTrue && |CleanedFinal(m)| > 0
  }

  /** The `socket.on("message")` handler body. */
  function OnMessage(b: Buffers, m: RecognizerMessage, open: bool): (r: SttStep)
    ensures Ignored(m) ==> r == SttStep(b, [])
    ensures !Ignored(m) && m.isFinal == FinalFalse ==>
      r.next == Buffers(TranscriptOf(m), b.final)
      && r.sent == SendIfOpen(open, [TranscriptUser(TranscriptOf(m), true)])
    ensures AppendsFinal(m) ==>
      && r.next.interim == [] && r.next.final == Trim(b.final + " " + CleanedFinal(m))
      && r.sent == SendIfOpen(open, [TranscriptUser(CleanedFinal(m), false)])
    ensures m.Parsed? && m.isFinal == FinalOther ==> r == SttStep(b, [])
    ensures m.Parsed? && m.isFinal == FinalTrue && !AppendsFinal(m) ==> r == SttStep(b, [])
  {
    if Ignored(m) then SttStep(b, [])
    else
      var t := TranscriptOf(m);
      match m.isFinal
      case FinalFalse =>
        SttStep(Buffers(t, b.final), SendIfOpen(open, [TranscriptUser(t, true)]))
      case FinalTrue =>
        var c := CleanTranscript(Some(t));
        if |c| == 0 then SttStep(b, [])
        else SttStep(Buffers([], Trim(b.final + " " + c)), SendIfOpen(open, [TranscriptUser(c, false)]))
      case FinalOther => SttStep(b, [])
  }

  /** The final buffer is append-only: a trimmed final buffer survives as a
      prefix of the next one, which is trimmed again. */
  lemma {:induction false} FinalIsAppendOnly(b: Buffers, m: RecognizerMessage, open: bool)
    requires IsTrimmed(b.final)
    ensures var f := OnMessage(b, m, open).next.final;
      |b.final| <= |f| && f[..|b.final|] == b.final && IsTrimmed(f)
  {
    if AppendsFinal(m) && b.final != [] {
      var c := CleanedFinal(m);
      assert OnMessage(b, m, open).next.final == Trim(b.final + " " + c);
      Concat3(b.final, " ", c);
      TrimKeepsPrefix(b.final, " " + c);
    }
  }

  /** No recognised word is lost or altered when appended: the non-blank
      characters of the new final buffer are the old ones followed by
      those of the cleaned text. */
  lemma {:induction false} FinalKeepsWords(b: Buffers, m: RecognizerMessage, open: bool)
    ensures var f := OnMessage(b, m, open).next.final;
      NonSpace(f) == NonSpace(b.final) + (if AppendsFinal(m) then NonSpace(CleanedFinal(m)) else [])
  {
    if AppendsFinal(m) {
      var c := CleanedFinal(m);
      assert OnMessage(b, m, open).next.final == Trim(b.final + " " + c);
      JoinKeepsNonSpace(b.final, c);
    } else {
      assert OnMessage(b, m, open).next.final == b.final;
    }
  }

  /** The interim buffer is replace-only: after a message it holds the
      old interim text, the raw interim result, or nothing. */
  lemma InterimReplaceOnly(b: Buffers, m: RecognizerMessage, open: bool)
    ensures var i := OnMessage(b, m, open).next.interim;
      i == b.interim || i == TranscriptOf(m) || i == []
    ensures var i := OnMessage(b, m, open).next.interim;
      i != b.interim ==> !Ignored(m) && m.isFinal != FinalOther
  {
  }

  /** Appending a clean word `c` to a trimmed buffer joins them with one
      blank (or yields `c` alone when the buffer is empty). */
  lemma {:induction false} AppendClean(f: string, c: string)
    requires IsTrimmed(f) && c != [] && IsTrimmed(c)
    ensures Trim(f + " " + c) == if f == [] then c else f + " " + c
  {
    var s := f + " " + c;
    assert s[|s| - 1] == c[|c| - 1];
    if f == [] {
      assert s == " " + c;
      TrimStartStep(s);
      assert s[1..] == c;
      TrimKeeps(c);
      TrimKeeps(s);
      assert TrimEnd(c) == c;
    } else {
      assert s[0] == f[0];
      TrimKeeps(s);
    }
  }

  /** Lower-case ASCII letters and the apostrophe. */
  predicate IsWordChar(c: char) {
    'a' <= c <= 'z' || c == '\''
  }

  lemma WordCharIsPlain(c: char)
    requires IsWordChar(c)
    ensures !IsSpace(c) && !IsUpperAscii(c) && !IsPunct(c)
  {
  }

  /** A non-empty string of word characters is already clean. */
  lemma WordIsClean(w: string)
    requires |w| >= 2
    requires forall i :: 0 <= i < |w| ==> IsWordChar(w[i])
    ensures CleanTranscript(Some(w)) == w && IsTrimmed(w)
  {
    forall i | 0 <= i < |w|
      ensures !IsSpace(w[i]) && !IsUpperAscii(w[i]) && !IsPunct(w[i])
    {
      WordCharIsPlain(w[i]);
    }
    assert NoUpper(w) && NoSpaceRuns(w) && OnlyBlanks(w);
    CleanKeepsClean(w);
  }

  /** A final result that cleaning leaves unchanged is appended as is. */
  lemma AppendsUnchanged(b: Buffers, w: string, open: bool)
    requires CleanTranscript(Some(w)) == w && |w| >= 2
    ensures OnMessage(b, Parsed(Some(w), FinalTrue), open).next
      == Buffers([], Trim(b.final + " " + w))
  {
  }

  /** A final result made of at least two word characters is appended to
      a trimmed final buffer verbatim, after one blank. */
  lemma AppendWord(b: Buffers, w: string, open: bool)
    requires IsTrimmed(b.final) && |w| >= 2
    requires forall i :: 0 <= i < |w| ==> IsWordChar(w[i])
    ensures OnMessage(b, Parsed(Some(w), FinalTrue), open).next
      == Buffers([], if b.final == [] then w else b.final + " " + w)
  {
    WordIsClean(w);
    AppendsUnchanged(b, w, open);
    AppendClean(b.final, w);
  }

  /** Interim "pun" and then final "pune" on fresh buffers leave the final
      buffer "pune" and the interim buffer empty. */
  lemma PunThenPune(open: bool)
    ensures var s1 := OnMessage(Buffers([], []), Parsed(Some("pun"), FinalFalse), open).next;
      s1 == Buffers("pun", [])
      && OnMessage(s1, Parsed(Some("pune"), FinalTrue), open).next == Buffers([], "pune")
  {
    AppendWord(Buffers("pun", []), "pune", open);
  }

  /** An interim result followed by two one-word finals extends a
      non-empty trimmed final buffer by both words, each after one blank. */
  lemma InterimThenFinals(f: string, x: string, g: string, d: string, open: bool)
    requires f != [] && IsTrimmed(f) && |x| >= 2
    requires |g| >= 2 && forall i :: 0 <= i < |g| ==> IsWordChar(g[i])
    requires |d| >= 2 && forall i :: 0 <= i < |d| ==> IsWordChar(d[i])
    ensures var s1 := OnMessage(Buffers([], f), Parsed(Some(x), FinalFalse), open).next;
      var s2 := OnMessage(s1, Parsed(Some(g), FinalTrue), open).next;
      var s3 := OnMessage(s2, Parsed(Some(d), FinalTrue), open).next;
      s3 == Buffers([], f + " " + g + " " + d)
  {
    var s1 := Buffers(x, f);
    var s2 := Buffers([], f + " " + g);
    WordIsClean(g);
    JoinTrimmed(f, g);
    InterimKeepsFinal(Buffers([], f), x, open);
    AppendWord(s1, g, open);
    AppendWord(s2, d, open);
  }

  /** An interim result only replaces the interim buffer. */
  lemma InterimKeepsFinal(b: Buffers, x: string, open: bool)
    requires |x| >= 2
    ensures OnMessage(b, Parsed(Some(x), FinalFalse), open).next == Buffers(x, b.final)
  {
  }

  /** With final buffer "pune", an interim "galen" and the finals
      "galentine's" and "day" accumulate to "pune galentine's day"
      (written as a concatenation below). */
  lemma GalentinesDay(open: bool)
    ensures var s1 := OnMessage(Buffers([], "pune"), Parsed(Some("galen"), FinalFalse), open).next;
      var s2 := OnMessage(s1, Parsed(Some("galentine's"), FinalTrue), open).next;
      var s3 := OnMessage(s2, Parsed(Some("day"), FinalTrue), open).next;
      s3 == Buffers([], "pune" + " " + "galentine's" + " " + "day")
  {
    var g := "galentine's";
    var d := "day";
    assert IsTrimmed("pune");
    assert forall i :: 0 <= i < |g| ==> IsWordChar(g[i]);
    assert forall i :: 0 <= i < |d| ==> IsWordChar(d[i]);
    InterimThenFinals("pune", "galen", g, d, open);
  }
}
