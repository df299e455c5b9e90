/** `cleanTranscript`: light normalisation of a final recogniser result.
    Trim, ASCII lower-case, collapse white space, then strip a trailing and
    a leading run of `.,!?;:`; no word is ever replaced. */
module TranscriptHelper {
  import opened Basics
  import opened Text

  predicate IsPunct(c: char) {
    c == '.' || c == ',' || c == '!' || c == '?' || c == ';' || c == ':'
  }

  predicate AllPunct(s: string) {
    forall i :: 0 <= i < |s| ==> IsPunct(s[i])
  }

  /** `replace(/[.,!?;:]+$/g, "")`: removes the maximal punctuation suffix. */
  function StripTrailingPunct(s: string): (r: string)
    ensures |r| <= |s| && r == s[..|r|]
    ensures r == [] || !IsPunct(r[|r| - 1])
  {
    if s == [] || !IsPunct(s[|s| - 1]) then s else StripTrailingPunct(s[..|s| - 1])
  }

  /** What `StripTrailingPunct` removes is punctuation. */
  lemma {:induction false} TrailingPunctDropped(s: string)
    ensures AllPunct(s[|StripTrailingPunct(s)|..])
    decreases |s|
  {
    if s != [] && IsPunct(s[|s| - 1]) {
      var p := s[..|s| - 1];
      TrailingPunctDropped(p);
      var k := |StripTrailingPunct(s)|;
      assert s[k..] == p[k..] + [s[|s| - 1]];
    }
  }

  /** `replace(/^[.,!?;:]+/g, "")`: removes the maximal punctuation prefix. */
  function StripLeadingPunct(s: string): (r: string)
    ensures |r| <= |s| && r == s[|s| - |r|..]
    ensures r == [] || !IsPunct(r[0])
  {
    if s == [] || !IsPunct(s[0]) then s else StripLeadingPunct(s[1..])
  }

  /** What `StripLeadingPunct` removes is punctuation. */
  lemma {:induction false} LeadingPunctDropped(s: string)
    ensures AllPunct(s[..|s| - |StripLeadingPunct(s)|])
    decreases |s|
  {
    if s != [] && IsPunct(s[0]) {
      LeadingPunctDropped(s[1..]);
      var k := |s| - |StripLeadingPunct(s)|;
      assert s[..k] == [s[0]] + s[1..][..k - 1];
    }
  }

  /** The text after trimming, lower-casing and collapsing white space. */
  function Normalized(t: string): string {
    CollapseSpaces(ToLower(Trim(t)))
  }

  /** Both punctuation strips: the infix of `c` left after cutting a
      punctuation run from each end. */
  function StripEdgePunct(c: string): (r: string)
    ensures var k := |StripTrailingPunct(c)|; |r| <= k <= |c| && r == c[k - |r|..k]
    ensures r == [] || (!IsPunct(r[0]) && !IsPunct(r[|r| - 1]))
  {
    var u := StripTrailingPunct(c);
    var r := StripLeadingPunct(u);
    assert r != [] ==> r[|r| - 1] == u[|u| - 1];
    SliceOfPrefix(c, |u| - |r|, |u|);
    r
  }

  /** What `StripEdgePunct` cuts off is punctuation. */
  lemma {:induction false} EdgePunctDropped(c: string)
    ensures var k := |StripTrailingPunct(c)|; var r := StripEdgePunct(c);
      AllPunct(c[..k - |r|]) && AllPunct(c[k..])
  {
    var u := StripTrailingPunct(c);
    var r := StripLeadingPunct(u);
    TrailingPunctDropped(c);
    LeadingPunctDropped(u);
    assert c[..|u| - |r|] == u[..|u| - |r|];
  }

  /** A slice of a string without upper-case letters or white-space runs
      has neither. */
  lemma {:induction false} InfixKeepsShape(c: string, lo: nat, hi: nat)
    requires lo <= hi <= |c|
    requires NoSpaceRuns(c) && NoUpper(c)
    ensures NoSpaceRuns(c[lo..hi]) && NoUpper(c[lo..hi])
  {
    var r := c[lo..hi];
    assert forall i :: 0 <= i < |r| ==> r[i] == c[lo + i];
    forall i, j | 0 <= i < j < |r| && j == i + 1 ensures !(IsSpace(r[i]) && IsSpace(r[j])) {
      assert r[i] == c[lo + i] && r[j] == c[lo + j];
    }
  }

  /** `cleanTranscript`; `None` stands for a missing value. */
  function CleanTranscript(text: Option<string>): (r: string)
    ensures text.None? || |text.value| == 0 ==> |r| == 0
  {
    match text
    case None => ""
    case Some(t) => if |t| == 0 then "" else StripEdgePunct(Normalized(t))
  }

  /** The cleaned text has no upper-case ASCII letter, no two consecutive
      white-space characters, and neither starts nor ends with punctuation. */
  lemma {:induction false} CleanShape(text: Option<string>)
    ensures NoUpper(CleanTranscript(text))
    ensures NoSpaceRuns(CleanTranscript(text))
    ensures var r := CleanTranscript(text); r == [] || (!IsPunct(r[0]) && !IsPunct(r[|r| - 1]))
  {
    if text.Some? && |text.value| > 0 {
      CleanOfText(text.value);
      NormalizedShape(text.value);
      var c := Normalized(text.value);
      var r := StripEdgePunct(c);
      var hi := |StripTrailingPunct(c)|;
      InfixKeepsShape(c, hi - |r|, hi);
    }
  }

  lemma {:induction false} NormalizedShape(t: string)
    ensures NoUpper(Normalized(t)) && NoSpaceRuns(Normalized(t))
  {
    var l := ToLower(Trim(t));
    ToLowerShape(Trim(t));
    CollapseNoRuns(l);
    CollapseNoUpper(l);
  }

  /** The cleaned text is the normalised text with only edge punctuation
      cut off: `Normalized(t) == p + r + q` with `p` and `q` punctuation. */
  lemma {:induction false} CleanIsInfix(t: string)
    requires |t| > 0
    ensures var c := Normalized(t); var u := StripTrailingPunct(c);
      var r := CleanTranscript(Some(t));
      && |r| <= |u| <= |c|
      && c == c[..|u| - |r|] + r + c[|u|..]
      && AllPunct(c[..|u| - |r|]) && AllPunct(c[|u|..])
  {
    var c := Normalized(t);
    var u := StripTrailingPunct(c);
    var r := StripEdgePunct(c);
    CleanOfText(t);
    EdgePunctDropped(c);
    Slices3(c, |u| - |r|, |u|);
  }

  lemma CleanOfText(t: string)
    requires |t| > 0
    ensures CleanTranscript(Some(t)) == StripEdgePunct(Normalized(t))
  {
  }

  /** No word replacement: the non-blank characters of the lower-cased input
      are, in order, some punctuation, the non-blank characters of the
      result, and some punctuation. */
  lemma {:induction false} NoWordReplacement(t: string)
    requires |t| > 0
    ensures var c := Normalized(t); var u := StripTrailingPunct(c);
      var r := CleanTranscript(Some(t));
      && |r| <= |u| <= |c|
      && NonSpace(ToLower(t)) == c[..|u| - |r|] + NonSpace(r) + c[|u|..]
  {
    var c := Normalized(t);
    var u := StripTrailingPunct(c);
    var r := StripEdgePunct(c);
    CleanOfText(t);
    CleanIsInfix(t);
    var p := c[..|u| - |r|];
    var q := c[|u|..];
    calc {
      NonSpace(ToLower(t));
      { LowerTrimKeepsNonSpace(t); }
      NonSpace(ToLower(Trim(t)));
      { CollapseNonSpace(ToLower(Trim(t))); }
      NonSpace(c);
      NonSpace(p + r + q);
      { NonSpaceOfPunctPadded(p, r, q); }
      p + NonSpace(r) + q;
    }
  }

  /** Punctuation is not white space, so it survives `NonSpace` untouched. */
  lemma {:induction false} NonSpaceOfPunctPadded(p: string, r: string, q: string)
    requires AllPunct(p) && AllPunct(q)
    ensures NonSpace(p + r + q) == p + NonSpace(r) + q
  {
    NonSpaceAppend(p + r, q);
    NonSpaceAppend(p, r);
    NonSpaceOfPunct(p);
    NonSpaceOfPunct(q);
  }

  lemma {:induction false} NonSpaceOfPunct(s: string)
    requires AllPunct(s)
    ensures NonSpace(s) == s
    decreases |s|
  {
    if s != [] {
      NonSpaceOfPunct(s[1..]);
      assert s == [s[0]] + s[1..];
    }
  }

  /** Trimming before lower-casing loses only white space. */
  lemma {:induction false} LowerTrimKeepsNonSpace(t: string)
    ensures NonSpace(ToLower(Trim(t))) == NonSpace(ToLower(t))
  {
    var k := LeadingSpaces(t);
    var m := Trim(t);
    var a := t[..k];
    var b := t[k + |m|..];
    TrimPadding(t);
    ToLowerAppend(a + m, b);
    ToLowerAppend(a, m);
    ToLowerShape(a);
    ToLowerShape(b);
    assert AllSpace(ToLower(a)) && AllSpace(ToLower(b));
    NonSpaceOfPadded(ToLower(a), ToLower(m), ToLower(b));
  }

  /** Text that is already clean (trimmed, lower-case, single blanks, no
      edge punctuation) comes back unchanged. */
  lemma {:induction false} CleanKeepsClean(s: string)
    requires |s| > 0 && IsTrimmed(s) && NoSpaceRuns(s) && OnlyBlanks(s)
    requires NoUpper(s)
    requires !IsPunct(s[0]) && !IsPunct(s[|s| - 1])
    ensures CleanTranscript(Some(s)) == s
  {
    NormalizedFixed(s);
    assert StripTrailingPunct(s) == s;
    assert StripLeadingPunct(s) == s;
    CleanOfText(s);
  }

  /** The city name "pune" is returned as is. */
  lemma {:induction false} PuneIsKept()
    ensures CleanTranscript(Some("pune")) == "pune"
  {
    var s := "pune";
    assert forall i :: 0 <= i < |s| ==> !IsSpace(s[i]) && !IsUpperAscii(s[i]);
    assert NoUpper(s) && NoSpaceRuns(s) && OnlyBlanks(s);
    CleanKeepsClean(s);
  }

  /** The result is not always trimmed: cutting a trailing period can
      expose a blank, as in "a ." for any word character `x`. */
  lemma {:induction false} EdgeBlankRemains(x: char)
    requires !IsSpace(x) && !IsUpperAscii(x) && !IsPunct(x)
    ensures CleanTranscript(Some([x, ' ', '.'])) == [x, ' ']
  {
    var s := [x, ' ', '.'];
    var b := [x, ' '];
    assert Normalized(s) == s by {
      assert NoUpper(s) && OnlyBlanks(s) && NoSpaceRuns(s);
      NormalizedFixed(s);
    }
    assert StripTrailingPunct(s) == b by {
      TrailingPunctStep(s);
      assert s[..|s| - 1] == b;
      PunctKeeps(b);
    }
    assert StripLeadingPunct(b) == b by {
      PunctKeeps(b);
    }
    CleanOfText(s);
  }

  /** Nor is it a fixed point: a second pass removes that blank. */
  lemma {:induction false} CleanNotIdempotent(x: char)
    requires !IsSpace(x) && !IsUpperAscii(x) && !IsPunct(x)
    ensures CleanTranscript(Some(CleanTranscript(Some([x, ' ', '.'])))) == [x]
  {
    EdgeBlankRemains(x);
    var b := [x, ' '];
    var a := [x];
    assert TrimStart(b) == b by {
      TrimKeeps(b);
    }
    assert TrimEnd(b) == a by {
      TrimEndStep(b);
      assert b[..|b| - 1] == a;
      TrimKeeps(a);
    }
    assert Trim(b) == a;
    assert Normalized(b) == a by {
      assert NoUpper(a) && OnlyBlanks(a) && NoSpaceRuns(a);
      ToLowerFixed(a);
      CollapseFixed(a);
    }
    assert StripEdgePunct(a) == a by {
      PunctKeeps(a);
    }
    CleanOfText(b);
  }

  /** One step of `StripTrailingPunct` past a trailing punctuation mark. */
  lemma TrailingPunctStep(s: string)
    requires s != [] && IsPunct(s[|s| - 1])
    ensures StripTrailingPunct(s) == StripTrailingPunct(s[..|s| - 1])
  {
  }

  /** Strings that do not start (end) with punctuation are left alone by
      the leading (trailing) strip. */
  lemma PunctKeeps(s: string)
    ensures s == [] || !IsPunct(s[0]) ==> StripLeadingPunct(s) == s
    ensures s == [] || !IsPunct(s[|s| - 1]) ==> StripTrailingPunct(s) == s
  {
  }

  lemma {:induction false} NormalizedFixed(s: string)
    requires IsTrimmed(s) && NoUpper(s) && OnlyBlanks(s) && NoSpaceRuns(s)
    ensures Normalized(s) == s
  {
    TrimOfTrimmed(s);
    ToLowerFixed(s);
    CollapseFixed(s);
  }
}
