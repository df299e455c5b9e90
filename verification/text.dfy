/** The JavaScript string primitives the system relies on: `trim`, the `\s`
    class, ASCII `toLowerCase`, `split(/\s+/)`, `includes`, decimal digits. */
module Text {
  import opened Basics

  /** The characters JavaScript's `\s` and `String.prototype.trim` treat as
      white space: WhiteSpace and LineTerminator of ECMA-262. */
  predicate IsSpace(c: char) {
    || c == ' ' || c == '\t' || c == '\n' || c == '\r' || c == '\U{000B}' || c == '\U{000C}'
    || c == '\U{00A0}' || c == '\U{1680}' || ('\U{2000}' <= c <= '\U{200A}')
    || c == '\U{2028}' || c == '\U{2029}' || c == '\U{202F}' || c == '\U{205F}'
    || c == '\U{3000}' || c == '\U{FEFF}'
  }

  ghost predicate AllSpace(s: string) {
    forall i :: 0 <= i < |s| ==> IsSpace(s[i])
  }

  /** Neither the first nor the last character is white space. */
  predicate IsTrimmed(s: string) {
    s == [] || (!IsSpace(s[0]) && !IsSpace(s[|s| - 1]))
  }

  /** Removes leading white space. */
  function TrimStart(s: string): (r: string)
    ensures |r| <= |s|
    ensures s != [] && IsSpace(s[0]) ==> |r| < |s|
    ensures r == [] || !IsSpace(r[0])
  {
    if s == [] || !IsSpace(s[0]) then s else TrimStart(s[1..])
  }

  /** `TrimStart` keeps a suffix of its argument. */
  lemma {:induction false} TrimStartSuffix(s: string)
    ensures TrimStart(s) == s[|s| - |TrimStart(s)|..]
    decreases |s|
  {
    if s != [] && IsSpace(s[0]) {
      TrimStartSuffix(s[1..]);
      assert s[1..][|s| - 1 - |TrimStart(s)|..] == s[|s| - |TrimStart(s)|..];
    }
  }

  /** What `TrimStart` removes is white space. */
  lemma {:induction false} TrimStartDropsSpace(s: string)
    ensures AllSpace(s[..|s| - |TrimStart(s)|])
    decreases |s|
  {
    if s != [] && IsSpace(s[0]) {
      TrimStartDropsSpace(s[1..]);
      var k := |s| - |TrimStart(s)|;
      assert s[..k] == [s[0]] + s[1..][..k - 1];
    }
  }

  /** Removes trailing white space. */
  function TrimEnd(s: string): (r: string)
    ensures |r| <= |s|
    ensures r == [] || !IsSpace(r[|r| - 1])
  {
    if s == [] || !IsSpace(s[|s| - 1]) then s else TrimEnd(s[..|s| - 1])
  }

  /** `TrimEnd` keeps a prefix of its argument. */
  lemma {:induction false} TrimEndPrefix(s: string)
    ensures TrimEnd(s) == s[..|TrimEnd(s)|]
    decreases |s|
  {
    if s != [] && IsSpace(s[|s| - 1]) {
      TrimEndPrefix(s[..|s| - 1]);
      assert s[..|s| - 1][..|TrimEnd(s)|] == s[..|TrimEnd(s)|];
    }
  }

  /** What `TrimEnd` removes is white space. */
  lemma {:induction false} TrimEndDropsSpace(s: string)
    ensures AllSpace(s[|TrimEnd(s)|..])
    decreases |s|
  {
    if s != [] && IsSpace(s[|s| - 1]) {
      var p := s[..|s| - 1];
      TrimEndDropsSpace(p);
      var k := |TrimEnd(s)|;
      assert s[k..] == p[k..] + [s[|s| - 1]];
    }
  }

  /** Number of leading white-space characters. */
  function LeadingSpaces(s: string): (k: nat)
    ensures k <= |s|
  {
    |s| - |TrimStart(s)|
  }

  /** `String.prototype.trim`: white space removed at both ends (see
      `TrimPadding` for where the result sits inside `s`). */
  function Trim(s: string): (r: string)
    ensures IsTrimmed(r)
    ensures |r| <= |s|
  {
    var t := TrimStart(s);
    var r := TrimEnd(t);
    TrimEndPrefix(t);
    assert r != [] ==> r[0] == t[0];
    r
  }

  /** The trim is empty exactly when the string is all white space. */
  lemma {:induction false} TrimEmptyIff(s: string)
    ensures Trim(s) == [] <==> AllSpace(s)
  {
    TrimPadding(s);
    var k := LeadingSpaces(s);
    var m := Trim(s);
    if m != [] {
      assert s[k] == m[0];
    }
  }

  lemma {:induction false} TrimInfix(s: string)
    ensures var k := LeadingSpaces(s); var r := Trim(s);
      && k + |r| <= |s|
      && r == s[k..k + |r|]
      && AllSpace(s[..k])
      && AllSpace(s[k + |r|..])
  {
    var t := TrimStart(s);
    var k := LeadingSpaces(s);
    var r := TrimEnd(t);
    TrimStartSuffix(s);
    TrimEndPrefix(t);
    TrimStartDropsSpace(s);
    TrimEndDropsSpace(t);
    assert s[k..] == t;
    assert s[k + |r|..] == t[|r|..];
  }

  /** A string is its trim padded with white space on both sides. */
  lemma {:induction false} TrimPadding(s: string)
    ensures var m := Trim(s); var k := LeadingSpaces(s);
      && k + |m| <= |s|
      && m == s[k..k + |m|]
      && s == s[..k] + m + s[k + |m|..]
      && AllSpace(s[..k]) && AllSpace(s[k + |m|..])
  {
    var k := LeadingSpaces(s);
    var m := Trim(s);
    TrimInfix(s);
    Slices3(s, k, k + |m|);
  }

  /** One step of `TrimEnd` past a trailing white-space character. */
  lemma TrimEndStep(s: string)
    requires s != [] && IsSpace(s[|s| - 1])
    ensures TrimEnd(s) == TrimEnd(s[..|s| - 1])
  {
  }

  /** Strings that do not start (end) with white space are their own
      `TrimStart` (`TrimEnd`). */
  lemma TrimKeeps(s: string)
    ensures s == [] || !IsSpace(s[0]) ==> TrimStart(s) == s
    ensures s == [] || !IsSpace(s[|s| - 1]) ==> TrimEnd(s) == s
  {
  }

  /** One step of `TrimStart` past a leading white-space character. */
  lemma TrimStartStep(s: string)
    requires s != [] && IsSpace(s[0])
    ensures TrimStart(s) == TrimStart(s[1..])
  {
  }

  /** A white-space-only suffix is impossible once a later character is
      not white space. */
  lemma NotAllSpace(s: string, a: nat, j: nat)
    requires a <= j < |s| && !IsSpace(s[j])
    ensures !AllSpace(s[a..])
  {
    assert s[a..][j - a] == s[j];
  }

  /** Trimming removes only white space. */
  lemma {:induction false} TrimKeepsNonSpace(s: string)
    ensures NonSpace(Trim(s)) == NonSpace(s)
  {
    var k := LeadingSpaces(s);
    var m := Trim(s);
    TrimPadding(s);
    NonSpaceOfPadded(s[..k], m, s[k + |m|..]);
  }

  /** White space between two strings contributes no non-blank
      characters. */
  lemma {:induction false} NonSpaceAcross(f: string, sp: string, c: string)
    requires AllSpace(sp)
    ensures NonSpace(f + sp + c) == NonSpace(f) + NonSpace(c)
  {
    NonSpaceAppend(f + sp, c);
    NonSpaceAppend(f, sp);
    NonSpaceOfAllSpace(sp);
    assert NonSpace(f) + NonSpace(sp) == NonSpace(f);
  }

  lemma BlankIsSpace()
    ensures AllSpace(" ")
  {
  }

  /** Joining two strings with a blank and trimming adds or drops no
      non-blank character. */
  lemma {:induction false} JoinKeepsNonSpace(f: string, c: string)
    ensures NonSpace(Trim(f + " " + c)) == NonSpace(f) + NonSpace(c)
  {
    TrimKeepsNonSpace(f + " " + c);
    BlankIsSpace();
    NonSpaceAcross(f, " ", c);
  }

  /** Two non-empty trimmed strings joined by a blank are trimmed. */
  lemma JoinTrimmed(f: string, g: string)
    requires f != [] && g != [] && IsTrimmed(f) && IsTrimmed(g)
    ensures IsTrimmed(f + " " + g)
  {
    var s := f + " " + g;
    assert s[0] == f[0] && s[|s| - 1] == g[|g| - 1];
  }

  /** Trimming `f + g` keeps a trimmed, non-empty prefix `f` in place. */
  lemma {:induction false} TrimKeepsPrefix(f: string, g: string)
    requires f != [] && IsTrimmed(f)
    ensures |f| <= |Trim(f + g)| && Trim(f + g)[..|f|] == f
  {
    var s := f + g;
    var r := Trim(s);
    TrimInfix(s);
    TrimKeeps(s);
    assert LeadingSpaces(s) == 0;
    if |r| < |f| {
      NotAllSpace(s, |r|, |f| - 1);
    } else {
      assert r == s[..|r|];
      assert s[..|r|][..|f|] == f;
    }
  }

  /** A string with no white space at either end is its own trim. */
  lemma TrimOfTrimmed(s: string)
    requires IsTrimmed(s)
    ensures Trim(s) == s
  {
    assert TrimStart(s) == s;
  }

  predicate IsUpperAscii(c: char) {
    'A' <= c <= 'Z'
  }

  /** No upper-case ASCII letter anywhere. */
  ghost predicate NoUpper(s: string) {
    forall i :: 0 <= i < |s| ==> !IsUpperAscii(s[i])
  }

  function LowerChar(c: char): (d: char)
    ensures !IsUpperAscii(d)
    ensures IsSpace(d) <==> IsSpace(c)
    ensures !IsUpperAscii(c) ==> d == c
  {
    if IsUpperAscii(c) then (c as int + 32) as char else c
  }

  /** `toLowerCase` restricted to ASCII letters, character by character. */
  function ToLower(s: string): (r: string)
    ensures |r| == |s|
  {
    seq(|s|, i requires 0 <= i < |s| => LowerChar(s[i]))
  }

  /** Lower-casing leaves no upper-case letter and keeps white space where
      it was. */
  lemma {:induction false} ToLowerShape(s: string)
    ensures NoUpper(ToLower(s))
    ensures forall i :: 0 <= i < |s| ==> (IsSpace(ToLower(s)[i]) <==> IsSpace(s[i]))
  {
    forall i | 0 <= i < |s| ensures ToLower(s)[i] == LowerChar(s[i]) {
    }
  }

  /** A string without upper-case letters is its own lower-case form. */
  lemma ToLowerFixed(s: string)
    requires NoUpper(s)
    ensures ToLower(s) == s
  {
  }

  /** Lower-casing works character by character, so it distributes over
      concatenation. */
  lemma {:induction false} ToLowerAppend(a: string, b: string)
    ensures ToLower(a + b) == ToLower(a) + ToLower(b)
  {
    var l := ToLower(a + b);
    var r := ToLower(a) + ToLower(b);
    forall i | 0 <= i < |l| ensures l[i] == r[i] {
      if i < |a| {
        assert (a + b)[i] == a[i];
      } else {
        assert (a + b)[i] == b[i - |a|];
      }
    }
  }

  /** The string with all white space removed. */
  function NonSpace(s: string): string {
    if s == [] then []
    else if IsSpace(s[0]) then NonSpace(s[1..])
    else [s[0]] + NonSpace(s[1..])
  }

  lemma {:induction false} NonSpaceAppend(a: string, b: string)
    ensures NonSpace(a + b) == NonSpace(a) + NonSpace(b)
    decreases |a|
  {
    if a == [] {
      assert a + b == b;
    } else {
      assert (a + b)[0] == a[0];
      assert (a + b)[1..] == a[1..] + b;
      NonSpaceAppend(a[1..], b);
    }
  }

  lemma {:induction false} NonSpaceOfAllSpace(a: string)
    requires AllSpace(a)
    ensures NonSpace(a) == []
    decreases |a|
  {
    if a != [] {
      NonSpaceOfAllSpace(a[1..]);
    }
  }

  /** White space around a string contributes no non-blank characters. */
  lemma {:induction false} NonSpaceOfPadded(a: string, m: string, b: string)
    requires AllSpace(a) && AllSpace(b)
    ensures NonSpace(a + m + b) == NonSpace(m)
  {
    NonSpaceAppend(a + m, b);
    NonSpaceAppend(a, m);
    NonSpaceOfAllSpace(a);
    NonSpaceOfAllSpace(b);
  }

  /** No two consecutive white-space characters. */
  ghost predicate NoSpaceRuns(s: string) {
    forall i, j :: 0 <= i < j < |s| && j == i + 1 ==> !(IsSpace(s[i]) && IsSpace(s[j]))
  }

  /** The only white-space character present is the plain blank. */
  ghost predicate OnlyBlanks(s: string) {
    forall i :: 0 <= i < |s| && IsSpace(s[i]) ==> s[i] == ' '
  }

  /** `replace(/\s+/g, " ")`: each maximal white-space run becomes one blank. */
  function CollapseSpaces(s: string): (r: string)
    ensures r == [] <==> s == []
    decreases |s|
  {
    if s == [] then []
    else if IsSpace(s[0]) then " " + CollapseSpaces(TrimStart(s))
    else [s[0]] + CollapseSpaces(s[1..])
  }

  /** Collapsing leaves no two white-space characters in a row. */
  lemma {:induction false} CollapseNoRuns(s: string)
    ensures NoSpaceRuns(CollapseSpaces(s))
    decreases |s|
  {
    if s == [] {
    } else if IsSpace(s[0]) {
      var t := TrimStart(s);
      CollapseNoRuns(t);
      if t != [] {
        CollapseHead(t);
      }
      assert CollapseSpaces(s) == [' '] + CollapseSpaces(t);
      NoRunsCons(' ', CollapseSpaces(t));
    } else {
      CollapseNoRuns(s[1..]);
      assert CollapseSpaces(s) == [s[0]] + CollapseSpaces(s[1..]);
      NoRunsCons(s[0], CollapseSpaces(s[1..]));
    }
  }

  lemma {:induction false} NoRunsCons(c: char, rest: string)
    requires NoSpaceRuns(rest)
    requires !IsSpace(c) || rest == [] || !IsSpace(rest[0])
    ensures NoSpaceRuns([c] + rest)
  {
    var r := [c] + rest;
    forall i, j | 0 <= i < j < |r| && j == i + 1 ensures !(IsSpace(r[i]) && IsSpace(r[j])) {
      if i > 0 {
        assert r[i] == rest[i - 1] && r[j] == rest[i];
      }
    }
  }

  /** Every white-space character left by collapsing is a plain blank. */
  lemma {:induction false} CollapseBlanks(s: string)
    ensures OnlyBlanks(CollapseSpaces(s))
    decreases |s|
  {
    if s == [] {
    } else if IsSpace(s[0]) {
      var t := TrimStart(s);
      CollapseBlanks(t);
      BlanksCons(' ', CollapseSpaces(t));
    } else {
      CollapseBlanks(s[1..]);
      BlanksCons(s[0], CollapseSpaces(s[1..]));
    }
  }

  lemma {:induction false} BlanksCons(c: char, rest: string)
    requires c == ' ' || !IsSpace(c)
    requires OnlyBlanks(rest)
    ensures OnlyBlanks([c] + rest)
  {
    var r := [c] + rest;
    forall i | 0 <= i < |r| && IsSpace(r[i]) ensures r[i] == ' ' {
      if i > 0 {
        assert r[i] == rest[i - 1];
      }
    }
  }

  /** A string that is already collapsed is left unchanged; with
      `CollapseNoRuns` and `CollapseBlanks` this makes collapsing idempotent. */
  lemma {:induction false} CollapseFixed(s: string)
    requires NoSpaceRuns(s) && OnlyBlanks(s)
    ensures CollapseSpaces(s) == s
    decreases |s|
  {
    if s != [] {
      var tail := s[1..];
      assert NoSpaceRuns(tail) by {
        forall i, j | 0 <= i < j < |tail| && j == i + 1 ensures !(IsSpace(tail[i]) && IsSpace(tail[j])) {
          assert tail[i] == s[i + 1] && tail[j] == s[j + 1];
        }
      }
      assert OnlyBlanks(tail) by {
        forall i | 0 <= i < |tail| && IsSpace(tail[i]) ensures tail[i] == ' ' {
          assert tail[i] == s[i + 1];
        }
      }
      CollapseFixed(tail);
      if IsSpace(s[0]) {
        if tail != [] {
          assert !IsSpace(s[1]);
        }
        assert TrimStart(s) == tail;
        assert s == [' '] + tail;
      } else {
        assert s == [s[0]] + tail;
      }
    }
  }

  lemma {:induction false} CollapseIdempotent(s: string)
    ensures CollapseSpaces(CollapseSpaces(s)) == CollapseSpaces(s)
  {
    CollapseNoRuns(s);
    CollapseBlanks(s);
    CollapseFixed(CollapseSpaces(s));
  }

  lemma {:induction false} CollapseHead(s: string)
    requires s != [] && !IsSpace(s[0])
    ensures CollapseSpaces(s)[0] == s[0]
  {
  }

  /** Collapsing keeps the non-blank characters, in order. */
  lemma {:induction false} CollapseNonSpace(s: string)
    ensures NonSpace(CollapseSpaces(s)) == NonSpace(s)
    decreases |s|
  {
    if s == [] {
    } else if IsSpace(s[0]) {
      var t := TrimStart(s);
      CollapseNonSpace(t);
      var rest := CollapseSpaces(t);
      assert NonSpace(s) == NonSpace(t) by {
        TrimStartSuffix(s);
        TrimStartDropsSpace(s);
        assert s == s[..|s| - |t|] + t;
        NonSpaceAppend(s[..|s| - |t|], t);
        NonSpaceOfAllSpace(s[..|s| - |t|]);
      }
      assert (" " + rest)[1..] == rest;
    } else {
      CollapseNonSpace(s[1..]);
      var rest := CollapseSpaces(s[1..]);
      assert ([s[0]] + rest)[1..] == rest;
    }
  }

  /** Collapsing introduces no upper-case letter. */
  lemma {:induction false} CollapseNoUpper(s: string)
    requires NoUpper(s)
    ensures NoUpper(CollapseSpaces(s))
    decreases |s|
  {
    if s == [] {
    } else if IsSpace(s[0]) {
      var t := TrimStart(s);
      TrimStartSuffix(s);
      assert forall i :: 0 <= i < |t| ==> t[i] == s[|s| - |t| + i];
      CollapseNoUpper(t);
      assert CollapseSpaces(s) == " " + CollapseSpaces(t);
    } else {
      CollapseNoUpper(s[1..]);
      assert CollapseSpaces(s) == [s[0]] + CollapseSpaces(s[1..]);
    }
  }

  /** A non-blank last character survives collapsing. */
  lemma {:induction false} CollapseLast(s: string)
    requires s != [] && !IsSpace(s[|s| - 1])
    ensures var r := CollapseSpaces(s); r != [] && r[|r| - 1] == s[|s| - 1]
    decreases |s|
  {
    if IsSpace(s[0]) {
      var t := TrimStart(s);
      TrimStartSuffix(s);
      TrimStartDropsSpace(s);
      assert t != [] && t[|t| - 1] == s[|s| - 1];
      CollapseLast(t);
    } else if |s| > 1 {
      CollapseLast(s[1..]);
    }
  }

  /** Splits at maximal white-space runs, like `split(/\s+/)`; leading or
      trailing white space yields an empty first or last token, and the
      empty string yields one empty token. */
  function SplitWs(s: string): (r: seq<string>)
    ensures |r| >= 1
    ensures forall k, i :: 0 <= k < |r| && 0 <= i < |r[k]| ==> !IsSpace(r[k][i])
    ensures forall k :: 0 < k < |r| - 1 ==> r[k] != []
    decreases |s|
  {
    var t := TakeNonSpace(s);
    if |t| == |s| then [s]
    else
      var rest := TrimStart(s[|t|..]);
      [t] + SplitWs(rest)
  }

  /** The longest prefix without white space. */
  function TakeNonSpace(s: string): (r: string)
    ensures |r| <= |s| && r == s[..|r|]
    ensures forall i :: 0 <= i < |r| ==> !IsSpace(r[i])
    ensures |r| < |s| ==> IsSpace(s[|r|])
  {
    if s == [] || IsSpace(s[0]) then [] else [s[0]] + TakeNonSpace(s[1..])
  }

  predicate StartsWith(s: string, p: string) {
    |p| <= |s| && s[..|p|] == p
  }

  /** `s.includes(p)`. */
  predicate Contains(s: string, p: string)
    decreases |s|
  {
    StartsWith(s, p) || (s != [] && Contains(s[1..], p))
  }

  lemma {:induction false} ContainsAt(s: string, p: string, k: nat)
    requires k + |p| <= |s| && s[k..k + |p|] == p
    ensures Contains(s, p)
    decreases k
  {
    if k > 0 {
      assert s[1..][k - 1..k - 1 + |p|] == p;
      ContainsAt(s[1..], p, k - 1);
    }
  }

  /** `s.indexOf(p)`: the first position at which `p` occurs. */
  function IndexOf(s: string, p: string): (r: Option<nat>)
    ensures r.Some? <==> Contains(s, p)
    ensures r.Some? ==> r.value + |p| <= |s| && s[r.value..r.value + |p|] == p
    ensures r.Some? ==> forall j :: 0 <= j < r.value ==> !StartsWith(s[j..], p)
    decreases |s|
  {
    if StartsWith(s, p) then Some(0)
    else if s == [] then None
    else match IndexOf(s[1..], p)
      case Some(k) =>
        assert s[1..][k..k + |p|] == s[k + 1..k + 1 + |p|];
        assert forall j :: 1 <= j < k + 1 ==> s[j..] == s[1..][j - 1..];
        Some(k + 1)
      case None => None
  }

  /** An occurrence with none before it is the one `IndexOf` finds. */
  lemma {:induction false} IndexOfFirst(s: string, p: string, k: nat)
    requires k + |p| <= |s| && s[k..k + |p|] == p
    requires forall j :: 0 <= j < k ==> !StartsWith(s[j..], p)
    ensures IndexOf(s, p) == Some(k)
  {
    ContainsAt(s, p, k);
    var i := IndexOf(s, p).value;
    assert StartsWith(s[i..], p) by { assert s[i..][..|p|] == s[i..i + |p|]; }
    assert StartsWith(s[k..], p) by { assert s[k..][..|p|] == s[k..k + |p|]; }
  }

  /** `s.replace(p, by)` with a string pattern: only the first occurrence
      is replaced. */
  function ReplaceFirst(s: string, p: string, repl: string): (r: string)
    ensures !Contains(s, p) ==> r == s
    ensures Contains(s, p) ==> |r| == |s| - |p| + |repl|
  {
    match IndexOf(s, p)
    case None => s
    case Some(k) => s[..k] + repl + s[k + |p|..]
  }

  /** Replacing the first occurrence: whatever occurs before the earliest
      match of `p` is kept, the match becomes `repl`, the rest is kept. */
  lemma ReplaceFirstAt(s: string, p: string, repl: string, k: nat)
    requires k + |p| <= |s| && s[k..k + |p|] == p
    requires forall j :: 0 <= j < k ==> !StartsWith(s[j..], p)
    ensures ReplaceFirst(s, p, repl) == s[..k] + repl + s[k + |p|..]
  {
    IndexOfFirst(s, p, k);
  }

  predicate IsDigit(c: char) {
    '0' <= c <= '9'
  }

  predicate AllDigits(s: string) {
    forall i :: 0 <= i < |s| ==> IsDigit(s[i])
  }

  /** `parseInt` of a string of ASCII digits. */
  function DigitsValue(d: string): nat
    requires AllDigits(d)
  {
    if d == [] then 0 else DigitsValue(d[..|d| - 1]) * 10 + (d[|d| - 1] as int - '0' as int)
  }

  function DigitChar(n: nat): (c: char)
    requires n < 10
    ensures IsDigit(c)
  {
    ('0' as int + n) as char
  }

  /** `n.toString()` for a natural number. */
  function NatToString(n: nat): (r: string)
    ensures r != [] && AllDigits(r)
    ensures DigitsValue(r) == n
  {
    if n < 10 then [DigitChar(n)]
    else
      var p := NatToString(n / 10);
      var r := p + [DigitChar(n % 10)];
      assert r[..|r| - 1] == p;
      r
  }

  function Join(parts: seq<string>, sep: string): (r: string)
  {
    if parts == [] then []
    else if |parts| == 1 then parts[0]
    else parts[0] + sep + Join(parts[1..], sep)
  }
}
