/** The Tavily search tool. The HTTP exchange is an input: whether it threw
    (the 4-second abort included), whether the status was OK, and the
    `results` array of the response body. What is modelled is the mapping
    from that outcome to at most five normalised results. */
module WebSearch {
  import opened Basics
  import opened Text

  /** One entry of `data.results`. A field that is absent, `null` or the
      empty string is falsy; `None` stands for the first two. */
  datatype RawResult = RawResult(title: Option<string>, content: Option<string>, url: Option<string>)

  /** A normalised result as handed to the LLM prompt. */
  datatype SearchResult = SearchResult(title: string, snippet: string, source: string)

  /** What `fetch` produced. */
  datatype Outcome =
    | Threw                                                  // network error or abort
    | Response(ok: bool, results: Option<seq<RawResult>>)    // `data.results`, when present

  const NoTitle: string := "No Title"
  const NoSnippet: string := "No snippet available"
  const UnknownSource: string := "Unknown Source"
  const MaxResults: nat := 5

  /** JavaScript truthiness of a string field. */
  predicate Truthy(x: Option<string>) {
    x.Some? && x.value != []
  }

  /** `x ? x.trim() : fallback`. */
  function FieldOr(x: Option<string>, fallback: string): string {
    if Truthy(x) then Trim(x.value) else fallback
  }

  /** The `map` callback. */
  function Normalize(raw: RawResult): (r: SearchResult)
    ensures r.snippet == NoSnippet <==> !Truthy(raw.content) || Trim(raw.content.value) == NoSnippet
    ensures Truthy(raw.title) ==> r.title == Trim(raw.title.value)
    ensures Truthy(raw.url) ==> r.source == Trim(raw.url.value)
  {
    SearchResult(FieldOr(raw.title, NoTitle), FieldOr(raw.content, NoSnippet), FieldOr(raw.url, UnknownSource))
  }

  function NormalizeAll(rs: seq<RawResult>): (r: seq<SearchResult>)
    ensures |r| == |rs|
    ensures forall i :: 0 <= i < |rs| ==> r[i] == Normalize(rs[i])
  {
    if rs == [] then [] else [Normalize(rs[0])] + NormalizeAll(rs[1..])
  }

  /** The `filter` callback: the placeholder snippet marks a result without
      content. */
  function KeepSnippets(xs: seq<SearchResult>): (r: seq<SearchResult>)
    ensures |r| <= |xs|
  {
    if xs == [] then []
    else if xs[0].snippet != NoSnippet then [xs[0]] + KeepSnippets(xs[1..])
    else KeepSnippets(xs[1..])
  }

  /** `webSearch(query)` with the API key and the fetch outcome given. */
  function Search(apiKey: Option<string>, outcome: Outcome): (r: seq<SearchResult>)
    ensures |r| <= MaxResults
  {
    if !Truthy(apiKey) then []
    else match outcome
      case Threw => []
      case Response(ok, results) =>
        if !ok || results.None? || results.value == [] then []
        else Take(KeepSnippets(NormalizeAll(results.value)), MaxResults)
  }

  // ---------------------------------------------------------------------
  // Properties

  /** A missing or empty API key, a thrown fetch, a non-OK status and a
      missing or empty `results` array all give no results. */
  lemma NoResults(apiKey: Option<string>, outcome: Outcome)
    requires || !Truthy(apiKey) || outcome.Threw?
             || (outcome.Response? && (!outcome.ok || outcome.results.None? || outcome.results == Some([])))
    ensures Search(apiKey, outcome) == []
  {
  }

  /** A raw entry survives the filter exactly when its content is present
      and does not trim to the placeholder text. */
  predicate Kept(r: RawResult) {
    Truthy(r.content) && Trim(r.content.value) != NoSnippet
  }

  lemma KeptIff(r: RawResult)
    ensures Normalize(r).snippet != NoSnippet <==> Kept(r)
  {
  }

  /** The raw entries that survive, normalised, in order: an independent
      definition of map-then-filter. */
  function Survivors(rs: seq<RawResult>): (r: seq<SearchResult>)
  {
    if rs == [] then []
    else (if Kept(rs[0]) then [Normalize(rs[0])] else []) + Survivors(rs[1..])
  }

  lemma {:induction false} MapFilterIsSurvivors(rs: seq<RawResult>)
    ensures KeepSnippets(NormalizeAll(rs)) == Survivors(rs)
    decreases |rs|
  {
    if rs != [] {
      var n := NormalizeAll(rs);
      assert n[1..] == NormalizeAll(rs[1..]);
      KeptIff(rs[0]);
      MapFilterIsSurvivors(rs[1..]);
    }
  }

  /** With a key and a non-empty OK response the results are the first five
      surviving entries, normalised, in their original order. */
  lemma ResultsAreFirstSurvivors(apiKey: Option<string>, rs: seq<RawResult>)
    requires Truthy(apiKey) && rs != []
    ensures var r := Search(apiKey, Response(true, Some(rs)));
      var all := Survivors(rs);
      && |r| == (if |all| < MaxResults then |all| else MaxResults)
      && r == all[..|r|]
  {
    MapFilterIsSurvivors(rs);
  }

  /** Every returned result comes from a raw entry with content; no entry
      without content is returned. */
  lemma {:induction false} SurvivorsHaveContent(rs: seq<RawResult>)
    ensures forall x :: x in Survivors(rs) ==> x.snippet != NoSnippet
    ensures forall x :: x in Survivors(rs) ==> exists r :: r in rs && Kept(r) && Normalize(r) == x
    decreases |rs|
  {
    if rs != [] {
      SurvivorsHaveContent(rs[1..]);
      var rest := Survivors(rs[1..]);
      var head := if Kept(rs[0]) then [Normalize(rs[0])] else [];
      assert Survivors(rs) == head + rest;
      forall x | x in Survivors(rs)
        ensures x.snippet != NoSnippet && exists r :: r in rs && Kept(r) && Normalize(r) == x
      {
        if x in head {
          KeptIff(rs[0]);
          assert rs[0] in rs;
        } else {
          assert x in rest;
          var r :| r in rs[1..] && Kept(r) && Normalize(r) == x;
          assert r in rs;
        }
      }
    }
  }

  /** Every field of a normalised result is trimmed: the fallbacks are, and
      so is whatever `trim` returns. */
  lemma NormalizedTrimmed(r: RawResult)
    ensures var x := Normalize(r); IsTrimmed(x.title) && IsTrimmed(x.snippet) && IsTrimmed(x.source)
  {
  }
}
