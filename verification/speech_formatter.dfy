/** Reply text shaping before synthesis: markdown removal, spoken numbers,
    list-marker removal and trimming. Each regular expression of the
    formatter is hand-coded as a matcher that is tried at every position,
    left to right, the way `String.prototype.replace` with the `g` flag
    scans its input. */
module SpeechFormatter {
  import opened Basics
  import opened Text

  // ---------------------------------------------------------------------
  // numberToWords

  /** The `numWords` table from 0 to 20. */
  const SmallWords: seq<string> := ["zero", "one", "two", "three", "four",
    "five", "six", "seven", "eight", "nine", "ten", "eleven", "twelve",
    "thirteen", "fourteen", "fifteen", "sixteen", "seventeen", "eighteen",
    "nineteen", "twenty"]

  /** The `numWords` table's tens from 30 to 90. */
  const TensWords: seq<string> := ["thirty", "forty", "fifty", "sixty",
    "seventy", "eighty", "ninety"]

  /** A lookup in the `numWords` table. */
  function NumberWord(n: nat): (r: Option<string>)
    ensures r.Some? <==> n <= 20 || (n < 100 && n % 10 == 0)
  {
    if n <= 20 then Some(SmallWords[n])
    else if n < 100 && n % 10 == 0 then Some(TensWords[n / 10 - 3])
    else None
  }

  /** `numberToWords(n)` for a non-negative integer. */
  function NumberToWords(n: nat): (r: string)
    ensures r != []
  {
    match NumberWord(n)
    case Some(w) => w
    case None =>
      if n < 100 then NumberWord(n / 10 * 10).value + " " + NumberWord(n % 10).value
      else NatToString(n)
  }

  /** Lower-case ASCII letters and blanks: a number spoken as words. */
  predicate IsWordsChar(c: char) {
    'a' <= c <= 'z' || c == ' '
  }

  ghost predicate AllWordsChars(s: string) {
    forall i :: 0 <= i < |s| ==> IsWordsChar(s[i])
  }

  /** A table word is lower-case letters with no blank at either end. */
  predicate IsTableWord(w: string) {
    && w != [] && w[0] != ' ' && w[|w| - 1] != ' '
    && forall i :: 0 <= i < |w| ==> 'a' <= w[i] <= 'z'
  }

  lemma SmallWordsWellFormed()
    ensures forall i :: 0 <= i < |SmallWords| ==> IsTableWord(SmallWords[i])
  {
  }

  lemma TensWordsWellFormed()
    ensures forall i :: 0 <= i < |TensWords| ==> IsTableWord(TensWords[i])
  {
  }

  lemma TableWord(n: nat)
    requires NumberWord(n).Some?
    ensures IsTableWord(NumberWord(n).value)
  {
    if n <= 20 {
      SmallWordsWellFormed();
    } else {
      TensWordsWellFormed();
    }
  }

  /** Every word of the table is lower-case letters. */
  lemma TableWordsChars(n: nat)
    requires NumberWord(n).Some?
    ensures AllWordsChars(NumberWord(n).value)
  {
    TableWord(n);
  }

  /** Below 100 a number is spoken in words; from 100 on it stays in
      digits, and reading those digits back gives the number. */
  lemma NumberToWordsShape(n: nat)
    ensures n < 100 ==> AllWordsChars(NumberToWords(n))
    ensures n >= 100 ==> AllDigits(NumberToWords(n)) && DigitsValue(NumberToWords(n)) == n
  {
    if NumberWord(n).None? && n < 100 {
      TableWordsChars(n / 10 * 10);
      TableWordsChars(n % 10);
    } else if n < 100 {
      TableWordsChars(n);
    }
  }

  lemma TableWordEdges(n: nat)
    requires NumberWord(n).Some?
    ensures var w := NumberWord(n).value; w != [] && w[0] != ' ' && w[|w| - 1] != ' '
  {
    TableWord(n);
  }

  /** A number below 100 spoken in words neither starts nor ends with a
      blank. */
  lemma WordsEdges(n: nat)
    requires n < 100
    ensures var w := NumberToWords(n); w[0] != ' ' && w[|w| - 1] != ' '
  {
    if NumberWord(n).None? {
      TableWordEdges(n / 10 * 10);
      TableWordEdges(n % 10);
    } else {
      TableWordEdges(n);
    }
  }

  /** 21 to 99 except the tens: the tens word, a blank, the units word. */
  lemma Compound(n: nat)
    requires 20 < n < 100 && n % 10 != 0
    ensures NumberWord(n / 10 * 10).Some? && NumberWord(n % 10).Some?
    ensures NumberToWords(n) == NumberWord(n / 10 * 10).value + " " + NumberWord(n % 10).value
  {
  }

  /** `parseInt(d) < 100 ? numberToWords(d) : d` for a run of digits. */
  function Spoken(d: string): (r: string)
    requires AllDigits(d)
  {
    if DigitsValue(d) < 100 then NumberToWords(DigitsValue(d)) else d
  }

  /** Fractional digits, each spoken on its own, joined by blanks. */
  function DigitWords(d: string): (r: string)
    requires AllDigits(d)
  {
    if d == [] then []
    else
      var w := NumberToWords(d[0] as int - '0' as int);
      if |d| == 1 then w else w + " " + DigitWords(d[1..])
  }

  /** The decimals pass's replacement: the whole part as `Spoken` gives
      it, "point", and the fractional digits one by one. */
  function DecimalWords(before: string, after: string): string
    requires AllDigits(before) && AllDigits(after)
  {
    Spoken(before) + " point " + DigitWords(after)
  }

  // ---------------------------------------------------------------------
  // Character classes

  /** The characters `[*_#`~>]` removes. */
  predicate IsMarkdown(c: char) {
    c == '*' || c == '_' || c == '#' || c == '`' || c == '~' || c == '>'
  }

  /** `\w`: ASCII letters, digits and the underscore. */
  predicate IsRegexWordChar(c: char) {
    ('a' <= c <= 'z') || ('A' <= c <= 'Z') || IsDigit(c) || c == '_'
  }

  /** Line terminators, after which `^` matches in multiline mode. */
  predicate IsLineTerminator(c: char) {
    c == '\n' || c == '\r' || c == '\U{2028}' || c == '\U{2029}'
  }

  predicate AtLineStart(prev: Option<char>) {
    prev.None? || IsLineTerminator(prev.value)
  }

  /** The longest prefix satisfying `IsDigit` (`\d+` is greedy). */
  function DigitRun(s: string): (r: string)
    ensures |r| <= |s| && r == s[..|r|] && AllDigits(r)
    ensures |r| < |s| ==> !IsDigit(s[|r|])
  {
    if s == [] || !IsDigit(s[0]) then [] else [s[0]] + DigitRun(s[1..])
  }

  /** The longest prefix of white space (`\s+`). */
  function SpaceRun(s: string): (r: string)
    ensures |r| <= |s| && r == s[..|r|]
    ensures forall i :: 0 <= i < |r| ==> IsSpace(r[i])
  {
    if s == [] || !IsSpace(s[0]) then [] else [s[0]] + SpaceRun(s[1..])
  }

  /** The longest prefix of one repeated character. */
  function CharRun(s: string, c: char): (r: nat)
    ensures r <= |s|
    ensures forall i :: 0 <= i < r ==> s[i] == c
  {
    if s == [] || s[0] != c then 0 else 1 + CharRun(s[1..], c)
  }

  /** Position of the first `c` in `s`. */
  function IndexOfChar(s: string, c: char): (r: Option<nat>)
    ensures r.Some? ==> r.value < |s| && s[r.value] == c
    ensures r.Some? ==> forall i :: 0 <= i < r.value ==> s[i] != c
    ensures r.None? ==> forall i :: 0 <= i < |s| ==> s[i] != c
  {
    if s == [] then None
    else if s[0] == c then Some(0)
    else match IndexOfChar(s[1..], c)
      case Some(k) => Some(k + 1)
      case None => None
  }

  // ---------------------------------------------------------------------
  // The passes

  /** The replace calls of `formatForSpeech`, in order. */
  datatype Pass =
    | MarkdownChars   // /[*_#`~>]/g -> ""
    | Links           // /\[([^\]]+)\]\([^)]+\)/g -> "$1"
    | Images          // /!\[([^\]]*)\]\([^)]+\)/g -> ""
    | NewlineRuns     // /(\n){2,}/g -> ". "
    | Newlines        // /\n/g -> ". "
    | Decimals        // /(\d+)\.(\d+)/g
    | Temperatures    // /(\d+)(°|deg| degrees)?\s?([CcFf])\b/g
    | Degrees         // /(\d+)°\b/g
    | Percents        // /(\d+)%/g
    | Rupees          // /₹(\d+)/g
    | Dollars         // /\$(\d+)/g
    | Ranges          // /(\d+)[–-–](\d+)/g, an en dash only
    | ListNumbers     // /^\d+\.\s+/gm -> ""
    | ListBullets     // /^[-*+]\s+/gm -> ""
    | Ellipses        // /\.{2,}/g -> "..."

  /** The passes after markdown and line-break removal. */
  const SpeechPasses: seq<Pass> := [Decimals, Temperatures, Degrees, Percents,
    Rupees, Dollars, Ranges, ListNumbers, ListBullets, Ellipses]

  /** Markdown characters, links, images and line breaks, in that order. */
  const MarkupPasses: seq<Pass> := [MarkdownChars, Links, Images, NewlineRuns, Newlines]

  /** A match at the current position: how many characters it consumes
      and what replaces them. */
  datatype Match = Match(len: nat, repl: string)

  /** `[CcFf]\b` at the start of `x`. */
  predicate ScaleAt(x: string) {
    && x != [] && (x[0] == 'C' || x[0] == 'c' || x[0] == 'F' || x[0] == 'f')
    && (|x| == 1 || !IsRegexWordChar(x[1]))
  }

  function ScaleWords(c: char): string {
    if c == 'c' || c == 'C' then "degrees celsius" else "degrees fahrenheit"
  }

  /** `(°|deg| degrees)?\s?([CcFf])\b` after the digits, trying the group's
      alternatives in order and then skipping it, and for each the blank
      before the absent blank; the result is the length consumed and the
      scale letter. */
  function TemperatureTail(rest: string): (r: Option<(nat, char)>)
    ensures r.Some? ==> 0 < r.value.0 <= |rest|
  {
    var units := ["°", "deg", " degrees", ""];
    TemperatureTailFrom(rest, units, 0)
  }

  function TemperatureTailFrom(rest: string, units: seq<string>, k: nat): (r: Option<(nat, char)>)
    requires k <= |units|
    ensures r.Some? ==> 0 < r.value.0 <= |rest|
    decreases |units| - k
  {
    if k == |units| then None
    else
      var u := units[k];
      if StartsWith(rest, u) then
        var after := rest[|u|..];
        if after != [] && IsSpace(after[0]) && ScaleAt(after[1..]) then Some((|u| + 2, after[1]))
        else if ScaleAt(after) then Some((|u| + 1, after[0]))
        else TemperatureTailFrom(rest, units, k + 1)
      else TemperatureTailFrom(rest, units, k + 1)
  }

  /** The pass's regular expression tried at the start of `s`, where `prev`
      is the character before that position in the pass's input. */
  function TryAt(p: Pass, prev: Option<char>, s: string): (r: Option<Match>)
    requires s != []
    ensures r.Some? ==> 0 < r.value.len <= |s|
  {
    var d := DigitRun(s);
    match p
    case MarkdownChars => if IsMarkdown(s[0]) then Some(Match(1, [])) else None
    case Links =>
      if s[0] != '[' then None
      else (match IndexOfChar(s[1..], ']')
        case None => None
        case Some(k) =>
          if k == 0 || k + 2 >= |s| || s[k + 2] != '(' then None
          else (match IndexOfChar(s[k + 3..], ')')
            case None => None
            case Some(e) => if e == 0 then None else Some(Match(k + e + 4, s[1..k + 1]))))
    case Images =>
      if |s| < 2 || s[0] != '!' || s[1] != '[' then None
      else (match IndexOfChar(s[2..], ']')
        case None => None
        case Some(k) =>
          if k + 3 >= |s| || s[k + 3] != '(' then None
          else (match IndexOfChar(s[k + 4..], ')')
            case None => None
            case Some(e) => if e == 0 then None else Some(Match(k + e + 5, []))))
    case NewlineRuns =>
      var n := CharRun(s, '\n');
      if n >= 2 then Some(Match(n, ". ")) else None
    case Newlines => if s[0] == '\n' then Some(Match(1, ". ")) else None
    case Decimals =>
      if d == [] || |d| + 1 >= |s| || s[|d|] != '.' then None
      else
        var f := DigitRun(s[|d| + 1..]);
        if f == [] then None
        else Some(Match(|d| + 1 + |f|, DecimalWords(d, f)))
    case Temperatures =>
      if d == [] then None
      else (match TemperatureTail(s[|d|..])
        case None => None
        case Some((n, c)) => Some(Match(|d| + n, Spoken(d) + " " + ScaleWords(c))))
    case Degrees =>
      if d == [] || |d| + 1 >= |s| || s[|d|] != '°' || !IsRegexWordChar(s[|d| + 1]) then None
      else Some(Match(|d| + 1, Spoken(d) + " degrees"))
    case Percents =>
      if d == [] || |d| >= |s| || s[|d|] != '%' then None
      else Some(Match(|d| + 1, Spoken(d) + " percent"))
    case Rupees =>
      if s[0] != '₹' then None
      else
        var n := DigitRun(s[1..]);
        if n == [] then None else Some(Match(1 + |n|, Spoken(n) + " rupees"))
    case Dollars =>
      if s[0] != '$' then None
      else
        var n := DigitRun(s[1..]);
        if n == [] then None else Some(Match(1 + |n|, Spoken(n) + " dollars"))
    case Ranges =>
      if d == [] || |d| >= |s| || s[|d|] != '–' then None
      else
        var h := DigitRun(s[|d| + 1..]);
        if h == [] then None else Some(Match(|d| + 1 + |h|, Spoken(d) + " to " + Spoken(h)))
    case ListNumbers =>
      if !AtLineStart(prev) || d == [] || |d| >= |s| || s[|d|] != '.' then None
      else
        var w := SpaceRun(s[|d| + 1..]);
        if w == [] then None else Some(Match(|d| + 1 + |w|, []))
    case ListBullets =>
      if !AtLineStart(prev) || !(s[0] == '-' || s[0] == '*' || s[0] == '+') then None
      else
        var w := SpaceRun(s[1..]);
        if w == [] then None else Some(Match(1 + |w|, []))
    case Ellipses =>
      var n := CharRun(s, '.');
      if n >= 2 then Some(Match(n, "...")) else None
  }

  /** One global replace: at each position the match, if any, is replaced
      and scanning resumes after it; otherwise the character is kept. */
  function Rewrite(p: Pass, s: string, prev: Option<char>): (r: string)
    decreases |s|
  {
    if s == [] then []
    else match TryAt(p, prev, s)
      case Some(m) => m.repl + Rewrite(p, s[m.len..], Some(s[m.len - 1]))
      case None => [s[0]] + Rewrite(p, s[1..], Some(s[0]))
  }

  /** The first five replace calls: markdown characters, links, images and
      line breaks. */
  function StripMarkup(s: string): string {
    var s1 := Rewrite(MarkdownChars, s, None);
    var s2 := Rewrite(Links, s1, None);
    var s3 := Rewrite(Images, s2, None);
    var s4 := Rewrite(NewlineRuns, s3, None);
    Rewrite(Newlines, s4, None)
  }

  function ApplyPasses(ps: seq<Pass>, s: string): (r: string)
    ensures AllPlain(s) ==> r == s
    decreases |ps|
  {
    if ps == [] then s
    else
      PlainUntouched(ps[0], s);
      ApplyPasses(ps[1..], Rewrite(ps[0], s, None))
  }

  /** A pass leaves text made of plain characters unchanged. */
  lemma PlainUntouched(p: Pass, s: string)
    ensures AllPlain(s) ==> Rewrite(p, s, None) == s
  {
    if AllPlain(s) {
      RewriteUntouched(p, s, None);
    }
  }

  /** `formatForSpeech(text)`; `None` is a missing text. */
  function FormatForSpeech(text: Option<string>): (r: string)
    ensures text.None? || text == Some([]) ==> r == []
    ensures IsTrimmed(r)
  {
    if text.None? || text.value == [] then []
    else Trim(ApplyPasses(MarkupPasses + SpeechPasses, text.value))
  }

  lemma {:induction false} ApplyConcat(ps: seq<Pass>, qs: seq<Pass>, s: string)
    ensures ApplyPasses(ps + qs, s) == ApplyPasses(qs, ApplyPasses(ps, s))
    decreases |ps|
  {
    if ps == [] {
      assert ps + qs == qs;
    } else {
      assert (ps + qs)[0] == ps[0] && (ps + qs)[1..] == ps[1..] + qs;
      ApplyConcat(ps[1..], qs, Rewrite(ps[0], s, None));
    }
  }

  /** The markup passes applied one after the other are `StripMarkup`. */
  lemma MarkupStages(s: string)
    ensures ApplyPasses(MarkupPasses, s) == StripMarkup(s)
  {
    var s1 := Rewrite(MarkdownChars, s, None);
    var s2 := Rewrite(Links, s1, None);
    var s3 := Rewrite(Images, s2, None);
    var s4 := Rewrite(NewlineRuns, s3, None);
    var ps := MarkupPasses;
    assert ApplyPasses(ps, s) == ApplyPasses(ps[1..], s1);
    assert ApplyPasses(ps[1..], s1) == ApplyPasses(ps[2..], s2);
    assert ApplyPasses(ps[2..], s2) == ApplyPasses(ps[3..], s3);
    assert ApplyPasses(ps[3..], s3) == ApplyPasses(ps[4..], s4);
    assert ApplyPasses(ps[4..], s4) == ApplyPasses([], Rewrite(Newlines, s4, None));
  }

  /** Formatting is markup removal, then the speech passes, then trimming. */
  lemma FormatStages(text: string)
    requires text != []
    ensures FormatForSpeech(Some(text)) == Trim(ApplyPasses(SpeechPasses, StripMarkup(text)))
  {
    ApplyConcat(MarkupPasses, SpeechPasses, text);
    MarkupStages(text);
  }

  // ---------------------------------------------------------------------
  // Plain text passes through

  /** The characters a match of the pass can start with. */
  predicate Starts(p: Pass, c: char) {
    match p
    case MarkdownChars => IsMarkdown(c)
    case Links => c == '['
    case Images => c == '!'
    case NewlineRuns => c == '\n'
    case Newlines => c == '\n'
    case Rupees => c == '₹'
    case Dollars => c == '$'
    case ListBullets => c == '-' || c == '*' || c == '+'
    case Ellipses => c == '.'
    case _ => IsDigit(c)
  }

  lemma NoMatchWithoutStart(p: Pass, prev: Option<char>, s: string)
    requires s != [] && !Starts(p, s[0])
    ensures TryAt(p, prev, s) == None
  {
    if p == NewlineRuns || p == Ellipses {
      assert CharRun(s, if p == Ellipses then '.' else '\n') == 0;
    }
  }

  /** A pass leaves text in which none of its matches can start unchanged. */
  lemma {:induction false} RewriteUntouched(p: Pass, s: string, prev: Option<char>)
    requires forall i :: 0 <= i < |s| ==> !Starts(p, s[i])
    ensures Rewrite(p, s, prev) == s
    decreases |s|
  {
    if s != [] {
      NoMatchWithoutStart(p, prev, s);
      RewriteUntouched(p, s[1..], Some(s[0]));
    }
  }

  /** Characters no pass can start a match on. */
  predicate IsPlain(c: char) {
    && !IsMarkdown(c) && !IsDigit(c) && c != '[' && c != '!' && c != '\n'
    && c != '₹' && c != '$' && c != '-' && c != '+' && c != '.'
  }

  ghost predicate AllPlain(s: string) {
    forall i :: 0 <= i < |s| ==> IsPlain(s[i])
  }

  lemma {:induction false} ApplyPlain(ps: seq<Pass>, s: string)
    requires AllPlain(s)
    ensures ApplyPasses(ps, s) == s
    decreases |ps|
  {
    if ps != [] {
      RewriteUntouched(ps[0], s, None);
      ApplyPlain(ps[1..], s);
    }
  }

  /** Markup removal leaves text without markdown characters, `[`, `!` and
      line feeds unchanged. */
  lemma MarkupUntouched(s: string)
    requires forall i :: 0 <= i < |s| ==>
      !IsMarkdown(s[i]) && s[i] != '[' && s[i] != '!' && s[i] != '\n'
    ensures StripMarkup(s) == s
  {
    RewriteUntouched(MarkdownChars, s, None);
    RewriteUntouched(Links, s, None);
    RewriteUntouched(Images, s, None);
    RewriteUntouched(NewlineRuns, s, None);
    RewriteUntouched(Newlines, s, None);
  }

  /** Text without markdown, digits, currency signs, list markers, periods,
      `!`, `[` or line breaks is only trimmed. */
  lemma PlainOnlyTrimmed(s: string)
    requires AllPlain(s)
    ensures FormatForSpeech(Some(s)) == Trim(s)
  {
    if s != [] { FormatStages(s); }
    MarkupUntouched(s);
    ApplyPlain(SpeechPasses, s);
  }

  /** Every pass of `ps` leaves `s` as it is. */
  ghost predicate Untouched(ps: seq<Pass>, s: string) {
    forall p :: p in ps ==> Rewrite(p, s, None) == s
  }

  lemma {:induction false} ApplySkip(ps: seq<Pass>, s: string, k: nat)
    requires k <= |ps|
    requires Untouched(ps[..k], s)
    ensures ApplyPasses(ps, s) == ApplyPasses(ps[k..], s)
    decreases k
  {
    if k > 0 {
      assert Rewrite(ps[0], s, None) == s && Untouched(ps[1..][..k - 1], s) by {
        UntouchedTail(ps, s, k);
      }
      ApplySkip(ps[1..], s, k - 1);
      assert ps[1..][k - 1..] == ps[k..];
    }
  }

  lemma UntouchedTail(ps: seq<Pass>, s: string, k: nat)
    requires 0 < k <= |ps| && Untouched(ps[..k], s)
    ensures Rewrite(ps[0], s, None) == s && Untouched(ps[1..][..k - 1], s)
  {
    assert ps[0] in ps[..k];
    assert ps[1..][..k - 1] == ps[1..k];
    forall p | p in ps[1..k] ensures Rewrite(p, s, None) == s {
      assert p in ps[..k];
    }
  }

  /** Passes of which the first `k` leave `s` alone and pass `k` turns it
      into plain text give that text. */
  lemma PlainAfterPass(ps: seq<Pass>, k: nat, s: string, t: string)
    requires k < |ps|
    requires Untouched(ps[..k], s)
    requires Rewrite(ps[k], s, None) == t && AllPlain(t)
    ensures ApplyPasses(ps, s) == t
  {
    ApplySkip(ps, s, k);
    ApplyPlain(ps[k + 1..], t);
    assert ps[k..][1..] == ps[k + 1..];
  }

  /** Text that markup removal leaves alone and the speech passes turn into
      trimmed text is spoken as that text. */
  lemma SpokenAs(s: string, t: string)
    requires s != [] && StripMarkup(s) == s
    requires ApplyPasses(SpeechPasses, s) == t && IsTrimmed(t)
    ensures FormatForSpeech(Some(s)) == t
  {
    FormatStages(s);
    TrimOfTrimmed(t);
  }

  lemma {:induction false} DigitRunOf(d: string, rest: string)
    requires AllDigits(d) && (rest == [] || !IsDigit(rest[0]))
    ensures DigitRun(d + rest) == d
    decreases |d|
  {
    if d != [] {
      assert (d + rest)[1..] == d[1..] + rest;
      DigitRunOf(d[1..], rest);
    }
  }

  /** A run of digits followed by nothing or by `%` is left alone by the
      passes that look for something else after the digits. */
  lemma {:induction false} DigitsUnmatched(p: Pass, d: string, rest: string, prev: Option<char>)
    requires AllDigits(d) && (rest == [] || rest == "%")
    requires p == Decimals || p == Temperatures || p == Degrees
      || (rest == [] && (p == Percents || p == Rupees))
    ensures Rewrite(p, d + rest, prev) == d + rest
    decreases |d|
  {
    if d == [] {
      assert d + rest == rest;
      RewriteUntouched(p, rest, prev);
    } else {
      var s := d + rest;
      assert s[1..] == d[1..] + rest;
      DigitsUnmatched(p, d[1..], rest, Some(s[0]));
      DigitsNoMatch(p, d, rest, prev);
      RewriteSkips(p, s, prev);
    }
  }

  /** Where the pass does not match, the first character is kept. */
  lemma RewriteSkips(p: Pass, s: string, prev: Option<char>)
    requires s != [] && TryAt(p, prev, s) == None
    ensures Rewrite(p, s, prev) == [s[0]] + Rewrite(p, s[1..], Some(s[0]))
  {
  }

  /** No such pass matches at the start of a digit run followed by nothing
      or by `%`. */
  lemma DigitsNoMatch(p: Pass, d: string, rest: string, prev: Option<char>)
    requires d != [] && AllDigits(d) && (rest == [] || rest == "%")
    requires p == Decimals || p == Temperatures || p == Degrees
      || (rest == [] && (p == Percents || p == Rupees))
    ensures TryAt(p, prev, d + rest) == None
  {
    var s := d + rest;
    DigitRunOf(d, rest);
    assert s[|d|..] == rest;
    assert TemperatureTail(rest) == None;
  }

  /** The words the formatter appends after a spoken number. */
  lemma SuffixWords()
    ensures AllWordsChars(" percent") && AllWordsChars(" dollars")
  {
  }

  /** Words of a number below 100 followed by a suffix word are plain,
      trimmed text. */
  lemma PlainPhrase(v: nat, suffix: string)
    requires v < 100 && suffix != [] && AllWordsChars(suffix) && suffix[|suffix| - 1] != ' '
    ensures var t := NumberToWords(v) + suffix; AllPlain(t) && IsTrimmed(t)
  {
    var w := NumberToWords(v);
    var t := w + suffix;
    NumberToWordsShape(v);
    WordsEdges(v);
    forall i | 0 <= i < |t|
      ensures IsPlain(t[i])
    {
      if i < |w| {
        assert t[i] == w[i] && IsWordsChar(w[i]);
      } else {
        assert t[i] == suffix[i - |w|] && IsWordsChar(suffix[i - |w|]);
      }
    }
    assert t[0] == w[0] && t[|t| - 1] == suffix[|suffix| - 1];
  }

  lemma PercentUntouchedBefore(d: string)
    requires AllDigits(d)
    ensures Untouched(SpeechPasses[..3], d + "%")
  {
    assert SpeechPasses[..3] == [Decimals, Temperatures, Degrees];
    forall p | p in SpeechPasses[..3]
      ensures Rewrite(p, d + "%", None) == d + "%"
    {
      DigitsUnmatched(p, d, "%", None);
    }
  }

  lemma PercentMatch(d: string)
    requires d != [] && AllDigits(d)
    ensures Rewrite(Percents, d + "%", None) == Spoken(d) + " percent"
  {
    var s := d + "%";
    DigitRunOf(d, "%");
    assert TryAt(Percents, None, s) == Some(Match(|d| + 1, Spoken(d) + " percent"));
    assert s[|d| + 1..] == [];
  }

  /** A number below 100 followed by `%` is spoken as its words and
      "percent". */
  lemma PercentSpoken(d: string)
    requires d != [] && AllDigits(d) && DigitsValue(d) < 100
    ensures FormatForSpeech(Some(d + "%")) == NumberToWords(DigitsValue(d)) + " percent"
  {
    MarkupUntouched(d + "%");
    PercentPasses(d);
    SuffixWords();
    PlainPhrase(DigitsValue(d), " percent");
    SpokenAs(d + "%", NumberToWords(DigitsValue(d)) + " percent");
  }

  lemma PercentPasses(d: string)
    requires d != [] && AllDigits(d) && DigitsValue(d) < 100
    ensures ApplyPasses(SpeechPasses, d + "%") == NumberToWords(DigitsValue(d)) + " percent"
  {
    PercentUntouchedBefore(d);
    PercentMatch(d);
    SuffixWords();
    PlainPhrase(DigitsValue(d), " percent");
    PlainAfterPass(SpeechPasses, 3, d + "%", NumberToWords(DigitsValue(d)) + " percent");
  }

  lemma DollarsUntouchedBefore(d: string)
    requires d != [] && AllDigits(d)
    ensures Untouched(SpeechPasses[..5], "$" + d)
  {
    var s := "$" + d;
    assert SpeechPasses[..5] == [Decimals, Temperatures, Degrees, Percents, Rupees];
    assert s[1..] == d + [];
    forall p | p in SpeechPasses[..5]
      ensures Rewrite(p, s, None) == s
    {
      NoMatchWithoutStart(p, None, s);
      DigitsUnmatched(p, d, [], Some('$'));
    }
  }

  lemma DollarsMatch(d: string)
    requires d != [] && AllDigits(d)
    ensures Rewrite(Dollars, "$" + d, None) == Spoken(d) + " dollars"
  {
    var s := "$" + d;
    assert s[1..] == d + [];
    DigitRunOf(d, []);
    assert TryAt(Dollars, None, s) == Some(Match(1 + |d|, Spoken(d) + " dollars"));
    assert s[1 + |d|..] == [];
  }

  /** A dollar sign followed by a number below 100 is spoken as the
      number's words and "dollars". */
  lemma DollarsSpoken(d: string)
    requires d != [] && AllDigits(d) && DigitsValue(d) < 100
    ensures FormatForSpeech(Some("$" + d)) == NumberToWords(DigitsValue(d)) + " dollars"
  {
    MarkupUntouched("$" + d);
    DollarsPasses(d);
    SuffixWords();
    PlainPhrase(DigitsValue(d), " dollars");
    SpokenAs("$" + d, NumberToWords(DigitsValue(d)) + " dollars");
  }

  lemma DollarsPasses(d: string)
    requires d != [] && AllDigits(d) && DigitsValue(d) < 100
    ensures ApplyPasses(SpeechPasses, "$" + d) == NumberToWords(DigitsValue(d)) + " dollars"
  {
    DollarsUntouchedBefore(d);
    DollarsMatch(d);
    SuffixWords();
    PlainPhrase(DigitsValue(d), " dollars");
    PlainAfterPass(SpeechPasses, 5, "$" + d, NumberToWords(DigitsValue(d)) + " dollars");
  }

  /** Two blank-free-edged word strings joined by one blank are again one. */
  lemma JoinWords(a: string, b: string)
    requires a != [] && AllWordsChars(a) && a[0] != ' ' && a[|a| - 1] != ' '
    requires b != [] && AllWordsChars(b) && b[0] != ' ' && b[|b| - 1] != ' '
    ensures var w := a + " " + b;
      AllWordsChars(w) && w[0] != ' ' && w[|w| - 1] != ' '
  {
    var w := a + " " + b;
    forall i | 0 <= i < |w|
      ensures IsWordsChar(w[i])
    {
      if i < |a| {
        assert w[i] == a[i];
      } else if i > |a| {
        assert w[i] == b[i - |a| - 1];
      }
    }
    assert w[0] == a[0] && w[|w| - 1] == b[|b| - 1];
  }

  /** A single digit is spoken as a word with no blank at either end. */
  lemma DigitWordShape(c: char)
    requires IsDigit(c)
    ensures var w := NumberToWords(c as int - '0' as int);
      w != [] && AllWordsChars(w) && w[0] != ' ' && w[|w| - 1] != ' '
  {
    var n := c as int - '0' as int;
    NumberToWordsShape(n);
    WordsEdges(n);
  }

  /** The fractional digits spoken one by one are words with no blank at
      either end. */
  lemma {:induction false} DigitWordsShape(f: string)
    requires f != [] && AllDigits(f)
    ensures var w := DigitWords(f);
      w != [] && AllWordsChars(w) && w[0] != ' ' && w[|w| - 1] != ' '
    decreases |f|
  {
    var w := NumberToWords(f[0] as int - '0' as int);
    DigitWordShape(f[0]);
    if |f| > 1 {
      DigitWordsShape(f[1..]);
      DigitWordsCons(f);
      JoinWords(w, DigitWords(f[1..]));
    } else {
      assert DigitWords(f) == w;
    }
  }

  /** More than one fractional digit: the first digit's word, a blank, and
      the rest. */
  lemma DigitWordsCons(f: string)
    requires |f| > 1 && AllDigits(f)
    ensures DigitWords(f) == NumberToWords(f[0] as int - '0' as int) + " " + DigitWords(f[1..])
  {
  }

  /** A match covering the whole text is the whole rewrite. */
  lemma RewriteWhole(p: Pass, s: string, prev: Option<char>, m: Match)
    requires s != [] && TryAt(p, prev, s) == Some(m) && m.len == |s|
    ensures Rewrite(p, s, prev) == m.repl
  {
    assert s[m.len..] == [];
    assert m.repl + [] == m.repl;
  }

  lemma DecimalsMatch(d: string, f: string)
    requires d != [] && AllDigits(d) && f != [] && AllDigits(f)
    ensures Rewrite(Decimals, d + "." + f, None) == Spoken(d) + " point " + DigitWords(f)
  {
    var s := d + "." + f;
    DecimalSplit(d, f);
    DecimalsRewrite(s);
    DecimalWordsOf(s, d, f);
  }

  /** A text that is exactly a digit run, a period and another digit run is
      rewritten by the decimals pass into the words for those two runs. */
  lemma DecimalsRewrite(s: string)
    requires s != [] && DigitRun(s) != [] && |DigitRun(s)| + 1 < |s| && s[|DigitRun(s)|] == '.'
    requires DigitRun(s[|DigitRun(s)| + 1..]) != []
    requires |s| == |DigitRun(s)| + 1 + |DigitRun(s[|DigitRun(s)| + 1..])|
    ensures Rewrite(Decimals, s, None) == DecimalWords(DigitRun(s), DigitRun(s[|DigitRun(s)| + 1..]))
  {
    DecimalsAt(s);
    RewriteWhole(Decimals, s, None, TryAt(Decimals, None, s).value);
  }

  /** The decimal words depend only on the two runs found. */
  lemma DecimalWordsOf(s: string, d: string, f: string)
    requires s != [] && DigitRun(s) == d && |d| + 1 <= |s| && DigitRun(s[|d| + 1..]) == f
    ensures DecimalWords(DigitRun(s), DigitRun(s[|DigitRun(s)| + 1..])) == DecimalWords(d, f)
  {
  }

  /** The two digit runs of a decimal are found where they are. */
  lemma DecimalSplit(d: string, f: string)
    requires d != [] && AllDigits(d) && f != [] && AllDigits(f)
    ensures var s := d + "." + f;
      && DigitRun(s) == d && |d| + 1 < |s| && s[|d|] == '.'
      && DigitRun(s[|d| + 1..]) == f && |s| == |d| + 1 + |f|
  {
    var s := d + "." + f;
    assert s == d + ("." + f);
    DigitRunOf(d, "." + f);
    assert s[|d| + 1..] == f + [];
    DigitRunOf(f, []);
  }

  /** Where a digit run, a period and another digit run start the text,
      the decimals pass matches them and speaks them. */
  lemma DecimalsAt(s: string)
    requires s != [] && DigitRun(s) != [] && |DigitRun(s)| + 1 < |s| && s[|DigitRun(s)|] == '.'
    requires DigitRun(s[|DigitRun(s)| + 1..]) != []
    ensures TryAt(Decimals, None, s) == Some(Match(|DigitRun(s)| + 1 + |DigitRun(s[|DigitRun(s)| + 1..])|,
      DecimalWords(DigitRun(s), DigitRun(s[|DigitRun(s)| + 1..]))))
  {
    assert TryAt(Decimals, None, s).Some?;
    assert TryAt(Decimals, None, s).value.len == |DigitRun(s)| + 1 + |DigitRun(s[|DigitRun(s)| + 1..])|;
    assert TryAt(Decimals, None, s).value.repl == DecimalWords(DigitRun(s), DigitRun(s[|DigitRun(s)| + 1..]));
  }

  /** A number below 100 with a fractional part is spoken as the number's
      words, "point", and then each fractional digit's word, the words
      separated by single blanks. */
  lemma DecimalsSpoken(d: string, f: string)
    requires d != [] && AllDigits(d) && DigitsValue(d) < 100 && f != [] && AllDigits(f)
    ensures FormatForSpeech(Some(d + "." + f)) == NumberToWords(DigitsValue(d)) + " point " + DigitWords(f)
  {
    var s := d + "." + f;
    var t := NumberToWords(DigitsValue(d)) + " point " + DigitWords(f);
    forall i | 0 <= i < |s|
      ensures !IsMarkdown(s[i]) && s[i] != '[' && s[i] != '!' && s[i] != '\n'
    {
      if i < |d| {
        assert s[i] == d[i];
      } else if i > |d| {
        assert s[i] == f[i - |d| - 1];
      }
    }
    MarkupUntouched(s);
    DecimalsPasses(d, f);
    DecimalPhrase(d, f);
    SpokenAs(s, t);
  }

  lemma DecimalsPasses(d: string, f: string)
    requires d != [] && AllDigits(d) && DigitsValue(d) < 100 && f != [] && AllDigits(f)
    ensures ApplyPasses(SpeechPasses, d + "." + f) == NumberToWords(DigitsValue(d)) + " point " + DigitWords(f)
  {
    var s := d + "." + f;
    var t := NumberToWords(DigitsValue(d)) + " point " + DigitWords(f);
    DecimalsMatch(d, f);
    DecimalPhrase(d, f);
    assert SpeechPasses[0] == Decimals;
    assert Untouched(SpeechPasses[..0], s);
    PlainAfterPass(SpeechPasses, 0, s, t);
  }

  /** Word strings around a middle of word characters: the result is plain
      and trimmed when the outer parts have no blank at their outer ends. */
  lemma PlainJoin(a: string, m: string, b: string)
    requires a != [] && AllWordsChars(a) && a[0] != ' '
    requires AllWordsChars(m)
    requires b != [] && AllWordsChars(b) && b[|b| - 1] != ' '
    ensures var t := a + m + b; AllPlain(t) && IsTrimmed(t)
  {
    var t := a + m + b;
    forall i | 0 <= i < |t|
      ensures IsWordsChar(t[i])
    {
      if i < |a| {
        assert t[i] == a[i];
      } else if i < |a| + |m| {
        assert t[i] == m[i - |a|];
      } else {
        assert t[i] == b[i - |a| - |m|];
      }
    }
    assert t[0] == a[0] && t[|t| - 1] == b[|b| - 1];
  }

  /** The spoken decimal is plain, trimmed text. */
  lemma DecimalPhrase(d: string, f: string)
    requires AllDigits(d) && DigitsValue(d) < 100 && f != [] && AllDigits(f)
    ensures var t := NumberToWords(DigitsValue(d)) + " point " + DigitWords(f);
      AllPlain(t) && IsTrimmed(t)
  {
    var v := DigitsValue(d);
    NumberToWordsShape(v);
    WordsEdges(v);
    DigitWordsShape(f);
    PointPhrase(NumberToWords(v), DigitWords(f));
  }

  /** Two word strings around "point" are plain, trimmed text. */
  lemma PointPhrase(n: string, w: string)
    requires n != [] && AllWordsChars(n) && n[0] != ' '
    requires w != [] && AllWordsChars(w) && w[|w| - 1] != ' '
    ensures var t := n + " point " + w; AllPlain(t) && IsTrimmed(t)
  {
    assert AllWordsChars(" point ");
    PlainJoin(n, " point ", w);
  }

  /** The formatter's own example: "20.6" is "twenty point six". */
  lemma TwentyPointSix(text: string)
    requires text == "20.6"
    ensures FormatForSpeech(Some(text)) == "twenty point six"
  {
    var d, f := "20", "6";
    assert text == d + "." + f;
    assert DigitsValue(d) == 20;
    assert NumberToWords(20) == "twenty";
    assert DigitWords(f) == "six";
    DecimalsSpoken(d, f);
  }

  /** Fractional digits are spoken one by one: "0.12" is "zero point one
      two", not "zero point twelve". */
  lemma ZeroPointOneTwo(text: string)
    requires text == "0.12"
    ensures FormatForSpeech(Some(text)) == "zero point one two"
  {
    var d, f := "0", "12";
    assert text == d + "." + f;
    assert DigitsValue(d) == 0;
    assert NumberToWords(0) == "zero";
    OneTwo(f);
    DecimalsSpoken(d, f);
  }

  /** The digits of "12" spoken one by one. */
  lemma OneTwo(f: string)
    requires f == "12"
    ensures DigitWords(f) == "one two"
  {
    assert f[1..] == "2";
    assert DigitWords(f) == NumberToWords(1) + " " + DigitWords("2");
  }

  // ---------------------------------------------------------------------
  // No markdown and no line break survive

  ghost predicate AllSat(s: string, P: char -> bool) {
    forall i :: 0 <= i < |s| ==> P(s[i])
  }

  /** Characters every replacement text is made of. */
  predicate IsReplChar(c: char) {
    IsWordsChar(c) || IsDigit(c) || c == '.'
  }

  ghost predicate Admits(P: char -> bool) {
    forall c :: IsReplChar(c) ==> P(c)
  }

  lemma WordsAreRepl(s: string)
    requires AllWordsChars(s)
    ensures forall i :: 0 <= i < |s| ==> IsReplChar(s[i])
  {
  }

  lemma SpokenRepl(d: string)
    requires AllDigits(d)
    ensures forall i :: 0 <= i < |Spoken(d)| ==> IsReplChar(Spoken(d)[i])
  {
    NumberToWordsShape(DigitsValue(d));
  }

  lemma {:induction false} DigitWordsRepl(d: string)
    requires AllDigits(d)
    ensures forall i :: 0 <= i < |DigitWords(d)| ==> IsReplChar(DigitWords(d)[i])
    decreases |d|
  {
    if d != [] {
      var n := d[0] as int - '0' as int;
      NumberToWordsShape(n);
      if |d| > 1 {
        DigitWordsRepl(d[1..]);
      }
    }
  }

  lemma ScaleWordsRepl(c: char)
    ensures forall i :: 0 <= i < |ScaleWords(c)| ==> IsReplChar(ScaleWords(c)[i])
  {
  }

  ghost predicate AllRepl(s: string) {
    forall i :: 0 <= i < |s| ==> IsReplChar(s[i])
  }

  lemma ReplJoin(a: string, b: string)
    requires AllRepl(a) && AllRepl(b)
    ensures AllRepl(a + b)
  {
  }

  /** A spoken number followed by a fixed replacement word. */
  lemma SpokenThen(d: string, w: string)
    requires AllDigits(d) && AllRepl(w)
    ensures AllRepl(Spoken(d) + w)
  {
    SpokenRepl(d);
    ReplJoin(Spoken(d), w);
  }

  lemma DecimalsRepl(prev: Option<char>, s: string)
    requires s != [] && TryAt(Decimals, prev, s).Some?
    ensures AllRepl(TryAt(Decimals, prev, s).value.repl)
  {
    var d := DigitRun(s);
    var f := DigitRun(s[|d| + 1..]);
    DecimalWordsRepl(d, f);
    assert TryAt(Decimals, prev, s).value.repl == DecimalWords(d, f);
  }

  lemma DecimalWordsRepl(d: string, f: string)
    requires AllDigits(d) && AllDigits(f)
    ensures AllRepl(DecimalWords(d, f))
  {
    assert AllRepl(" point ");
    SpokenThen(d, " point ");
    DigitWordsRepl(f);
    ReplJoin(Spoken(d) + " point ", DigitWords(f));
  }

  lemma TemperaturesRepl(prev: Option<char>, s: string)
    requires s != [] && TryAt(Temperatures, prev, s).Some?
    ensures AllRepl(TryAt(Temperatures, prev, s).value.repl)
  {
    var d := DigitRun(s);
    var c := TemperatureTail(s[|d|..]).value.1;
    assert TryAt(Temperatures, prev, s).value.repl == Spoken(d) + " " + ScaleWords(c);
    ScaleWordsRepl(c);
    assert AllRepl(" ");
    SpokenThen(d, " ");
    ReplJoin(Spoken(d) + " ", ScaleWords(c));
  }

  lemma RangesRepl(prev: Option<char>, s: string)
    requires s != [] && TryAt(Ranges, prev, s).Some?
    ensures AllRepl(TryAt(Ranges, prev, s).value.repl)
  {
    var d := DigitRun(s);
    var h := DigitRun(s[|d| + 1..]);
    RangeWordsRepl(d, h);
    assert TryAt(Ranges, prev, s).value.repl == Spoken(d) + " to " + Spoken(h);
  }

  lemma RangeWordsRepl(d: string, h: string)
    requires AllDigits(d) && AllDigits(h)
    ensures AllRepl(Spoken(d) + " to " + Spoken(h))
  {
    assert AllRepl(" to ");
    SpokenThen(d, " to ");
    SpokenRepl(h);
    ReplJoin(Spoken(d) + " to ", Spoken(h));
  }

  lemma SuffixedRepl(p: Pass, prev: Option<char>, s: string)
    requires p == Degrees || p == Percents || p == Rupees || p == Dollars
    requires s != [] && TryAt(p, prev, s).Some?
    ensures AllRepl(TryAt(p, prev, s).value.repl)
  {
    var d := DigitRun(s);
    var n := DigitRun(s[1..]);
    match p
    case Degrees =>
      assert AllRepl(" degrees");
      SpokenThen(d, " degrees");
    case Percents =>
      assert AllRepl(" percent");
      SpokenThen(d, " percent");
    case Rupees =>
      assert AllRepl(" rupees");
      SpokenThen(n, " rupees");
    case Dollars =>
      assert AllRepl(" dollars");
      SpokenThen(n, " dollars");
  }

  lemma FixedRepl(p: Pass, prev: Option<char>, s: string)
    requires p == MarkdownChars || p == Images || p == NewlineRuns || p == Newlines
      || p == ListNumbers || p == ListBullets || p == Ellipses
    requires s != [] && TryAt(p, prev, s).Some?
    ensures AllRepl(TryAt(p, prev, s).value.repl)
  {
    assert AllRepl(". ");
    assert AllRepl("...");
  }

  /** Every replacement is built from replacement characters, except that
      a link keeps its own text. */
  lemma ReplacementChars(p: Pass, prev: Option<char>, s: string)
    requires s != [] && TryAt(p, prev, s).Some?
    ensures p != Links ==> AllRepl(TryAt(p, prev, s).value.repl)
    ensures p == Links ==> exists a, b :: 0 <= a <= b <= |s| && TryAt(p, prev, s).value.repl == s[a..b]
  {
    if p == Links {
      var k := IndexOfChar(s[1..], ']').value;
      assert TryAt(p, prev, s).value.repl == s[1..k + 1];
    } else if p == Decimals {
      DecimalsRepl(prev, s);
    } else if p == Temperatures {
      TemperaturesRepl(prev, s);
    } else if p == Ranges {
      RangesRepl(prev, s);
    } else if p == Degrees || p == Percents || p == Rupees || p == Dollars {
      SuffixedRepl(p, prev, s);
    } else {
      FixedRepl(p, prev, s);
    }
  }

  /** A pass keeps a character property that every replacement character
      has: its output is built from kept input characters, link texts
      (themselves input characters) and replacement characters. */
  lemma {:induction false} RewriteKeeps(p: Pass, s: string, prev: Option<char>, P: char -> bool)
    requires AllSat(s, P) && Admits(P)
    ensures AllSat(Rewrite(p, s, prev), P)
    decreases |s|
  {
    if s != [] {
      match TryAt(p, prev, s)
      case Some(m) =>
        assert AllSat(m.repl, P) by { MatchKeeps(p, prev, s, P); }
        assert AllSat(s[m.len..], P) by { SatAfter(s, m.len, P); }
        RewriteKeeps(p, s[m.len..], Some(s[m.len - 1]), P);
      case None =>
        assert AllSat(s[1..], P) by { SatAfter(s, 1, P); }
        RewriteKeeps(p, s[1..], Some(s[0]), P);
    }
  }

  lemma SatAfter(s: string, k: nat, P: char -> bool)
    requires AllSat(s, P) && k <= |s|
    ensures AllSat(s[k..], P)
  {
    forall i | 0 <= i < |s[k..]| ensures P(s[k..][i]) {
      assert s[k..][i] == s[k + i];
    }
  }

  /** The replacement of a match keeps a property of the input that every
      replacement character has. */
  lemma MatchKeeps(p: Pass, prev: Option<char>, s: string, P: char -> bool)
    requires s != [] && TryAt(p, prev, s).Some?
    requires AllSat(s, P) && Admits(P)
    ensures AllSat(TryAt(p, prev, s).value.repl, P)
  {
    var m := TryAt(p, prev, s).value;
    ReplacementChars(p, prev, s);
    if p == Links {
      var a, b :| 0 <= a <= b <= |s| && m.repl == s[a..b];
      forall i | 0 <= i < |m.repl| ensures P(m.repl[i]) {
        assert m.repl[i] == s[a + i];
      }
    }
  }

  /** A pass whose every lone `c` is a match leaves no `c`, provided the
      property of not being `c` holds of its replacements. */
  lemma {:induction false} RewriteRemoves(p: Pass, s: string, prev: Option<char>, P: char -> bool)
    requires Admits(P)
    requires forall t: string, q: Option<char> :: t != [] && !P(t[0]) ==> TryAt(p, q, t).Some?
    requires p != Links
    ensures AllSat(Rewrite(p, s, prev), P)
    decreases |s|
  {
    if s != [] {
      match TryAt(p, prev, s)
      case Some(m) =>
        ReplacementChars(p, prev, s);
        RewriteRemoves(p, s[m.len..], Some(s[m.len - 1]), P);
      case None =>
        RewriteRemoves(p, s[1..], Some(s[0]), P);
    }
  }

  predicate NotMarkdown(c: char) {
    !IsMarkdown(c)
  }

  /** Neither a markdown character nor a line feed. */
  predicate Quiet(c: char) {
    !IsMarkdown(c) && c != '\n'
  }

  lemma {:induction false} ApplyKeeps(ps: seq<Pass>, s: string, P: char -> bool)
    requires AllSat(s, P) && Admits(P)
    ensures AllSat(ApplyPasses(ps, s), P)
    decreases |ps|
  {
    if ps != [] {
      RewriteKeeps(ps[0], s, None, P);
      ApplyKeeps(ps[1..], Rewrite(ps[0], s, None), P);
    }
  }

  lemma TrimKeepsSat(s: string, P: char -> bool)
    requires AllSat(s, P)
    ensures AllSat(Trim(s), P)
  {
    TrimInfix(s);
    var k := LeadingSpaces(s);
    var r := Trim(s);
    forall i | 0 <= i < |r| ensures P(r[i]) {
      assert r[i] == s[k + i];
    }
  }

  lemma StripMarkupQuiet(s: string)
    ensures AllSat(StripMarkup(s), Quiet)
  {
    var s1 := Rewrite(MarkdownChars, s, None);
    RewriteRemoves(MarkdownChars, s, None, NotMarkdown);
    var s2 := Rewrite(Links, s1, None);
    RewriteKeeps(Links, s1, None, NotMarkdown);
    var s3 := Rewrite(Images, s2, None);
    RewriteKeeps(Images, s2, None, NotMarkdown);
    var s4 := Rewrite(NewlineRuns, s3, None);
    RewriteKeeps(NewlineRuns, s3, None, NotMarkdown);
    var s5 := Rewrite(Newlines, s4, None);
    RewriteRemoves(Newlines, s4, None, NotLineFeed);
    RewriteKeeps(Newlines, s4, None, NotMarkdown);
  }

  predicate NotLineFeed(c: char) {
    c != '\n'
  }

  lemma SpeechPassesQuiet(text: string)
    ensures AllSat(ApplyPasses(SpeechPasses, StripMarkup(text)), Quiet)
  {
    StripMarkupQuiet(text);
    ApplyKeeps(SpeechPasses, StripMarkup(text), Quiet);
  }

  /** The spoken text contains none of `* _ # ` ~ >` and no line feed. */
  lemma NoMarkdownNoNewline(text: string)
    ensures var r := FormatForSpeech(Some(text));
      forall i :: 0 <= i < |r| ==> !IsMarkdown(r[i]) && r[i] != '\n'
  {
    if text != [] {
      var s := ApplyPasses(SpeechPasses, StripMarkup(text));
      SpeechPassesQuiet(text);
      TrimKeepsSat(s, Quiet);
      var r := Trim(s);
      FormatStages(text);
      forall i | 0 <= i < |r| ensures !IsMarkdown(r[i]) && r[i] != '\n' {
        assert Quiet(r[i]);
      }
    }
  }
}
