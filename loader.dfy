/**
 * The content loader of app.js (`loadContent`): the JSON data file is used when its
 * response is ok and its body parses; any other outcome falls back to the Markdown file,
 * whose first fenced block labelled json is extracted and parsed. Network answers are the
 * `Response` values given as inputs, and JSON parsing is the function `parse`.
 */
module ContentLoader {
  import opened Wrappers

  const OpenFence := "```json"
  const Fence := "```"
  const NoBlockMessage := "No JSON block found in content.md"

  /** `pat` occurs in `s` starting at index `i`. */
  predicate OccursAt(s: string, pat: string, i: nat) {
    i + |pat| <= |s| && s[i..i + |pat|] == pat
  }

  /** The first index at or after `from` where `pat` occurs in `s`. */
  function IndexOf(s: string, pat: string, from: nat): (r: Option<nat>)
    ensures r.Some? ==> from <= r.value && OccursAt(s, pat, r.value)
    ensures r.Some? ==> forall j :: from <= j < r.value ==> !OccursAt(s, pat, j)
    ensures r.None? ==> forall j :: from <= j ==> !OccursAt(s, pat, j)
    decreases |s| - from
  {
    if from + |pat| > |s| then None
    else if OccursAt(s, pat, from) then Some(from)
    else IndexOf(s, pat, from + 1)
  }

  /**
   * `md.match(/```json([\s\S]*?)```/)[1]`: the text after the first "```json" up to the
   * first "```" that follows it; `None` when there is no such pair.
   */
  function ExtractJsonBlock(md: string): (r: Option<string>)
    ensures r.Some? ==> exists i: nat, j: nat :: Candidate(md, i, j) && r.value == md[i + |OpenFence|..j]
  {
    match IndexOf(md, OpenFence, 0)
    case None => None
    case Some(i) =>
      match IndexOf(md, Fence, i + |OpenFence|)
      case None => None
      case Some(j) =>
        assert Candidate(md, i, j);
        Some(md[i + |OpenFence|..j])
  }

  /** A way the regular expression can match: an opening "```json" at `i`, a closing "```" at `j`. */
  predicate Candidate(md: string, i: nat, j: nat) {
    OccursAt(md, OpenFence, i) && i + |OpenFence| <= j && OccursAt(md, Fence, j)
  }

  /**
   * The extraction is the regular expression's match: it fails exactly when no candidate
   * exists, and otherwise takes the leftmost opening and, for it, the nearest closing.
   */
  lemma ExtractIsLeftmostLazyMatch(md: string)
    ensures ExtractJsonBlock(md).None? <==> forall i: nat, j: nat :: !Candidate(md, i, j)
    ensures ExtractJsonBlock(md).Some? ==>
              exists i: nat, j: nat ::
                Candidate(md, i, j) && ExtractJsonBlock(md).value == md[i + |OpenFence|..j] &&
                forall i': nat, j': nat :: Candidate(md, i', j') ==> i < i' || (i == i' && j <= j')
  {
    match IndexOf(md, OpenFence, 0) {
      case None =>
      case Some(i) =>
        match IndexOf(md, Fence, i + |OpenFence|) {
          case None =>
          case Some(j) =>
            assert Candidate(md, i, j);
        }
    }
  }

  /** An extracted block never contains the closing fence. */
  lemma BlockHasNoFence(md: string)
    requires ExtractJsonBlock(md).Some?
    ensures forall k: nat :: !OccursAt(ExtractJsonBlock(md).value, Fence, k)
  {
    var i := IndexOf(md, OpenFence, 0).value;
    var start := i + |OpenFence|;
    assert IndexOf(md, Fence, start).Some?;
    var j := IndexOf(md, Fence, start).value;
    var b := md[start..j];
    assert ExtractJsonBlock(md).value == b;
    forall k: nat | OccursAt(b, Fence, k) ensures false {
      OccursInSlice(md, Fence, start, j, k);
    }
  }

  /** An occurrence inside a slice is an occurrence in the whole string, shifted by the slice's start. */
  lemma OccursInSlice(s: string, pat: string, lo: nat, hi: nat, k: nat)
    requires lo <= hi <= |s| && OccursAt(s[lo..hi], pat, k)
    ensures OccursAt(s, pat, lo + k) && lo + k + |pat| <= hi
  {
    var window, direct := s[lo..hi][k..k + |pat|], s[lo + k..lo + k + |pat|];
    assert |window| == |direct|;
    forall t | 0 <= t < |window| ensures window[t] == direct[t] {
      assert window[t] == s[lo..hi][k + t] == s[lo + k + t];
    }
    assert window == direct;
  }

  /** "```json```" holds an empty block. */
  lemma EmptyBlockExample()
    ensures ExtractJsonBlock("```json```") == Some("")
  {
    var md := "```json```";
    assert md[0..7] == OpenFence;
    assert IndexOf(md, OpenFence, 0) == Some(0);
    assert md[7..10] == Fence;
    assert IndexOf(md, Fence, 7) == Some(7);
    assert ExtractJsonBlock(md) == Some(md[7..7]);
    assert md[7..7] == "";
  }

  /** The answer to one fetch: a network failure, or a response with its status flag and body. */
  datatype Response = NetworkError | Response(ok: bool, body: string)

  /** The observable steps of a load, in the order they are taken. */
  datatype Step = FetchJsonFile | ReadJsonBody | FetchMarkdownFile | ParseEmbeddedBlock

  datatype Source = JsonFile | MarkdownFile

  /**
   * Why a load fails after the fallback was tried: the fetch of content.md rejected, it holds
   * no json block (the error the loader throws, with its message), or the block is not JSON.
   */
  datatype Failure = MarkdownFetchFailed | NoJsonBlock(message: string) | EmbeddedParseFailed

  datatype Outcome<D> = Loaded(doc: D, source: Source) | Failed(failure: Failure)

  datatype Run<D> = Run(outcome: Outcome<D>, steps: seq<Step>)

  /** The first attempt succeeds: an ok response whose body parses. */
  predicate PrimaryUsable<D>(primary: Response, parse: string -> Option<D>) {
    primary.Response? && primary.ok && parse(primary.body).Some?
  }

  /** The fallback path: fetch content.md (its status is not looked at), extract, parse. */
  function LoadFallback<D>(fallback: Response, parse: string -> Option<D>): (run: Run<D>)
    ensures |run.steps| > 0 && run.steps[0] == FetchMarkdownFile && FetchJsonFile !in run.steps
    ensures ParseEmbeddedBlock in run.steps <==> fallback.Response? && ExtractJsonBlock(fallback.body).Some?
    ensures run.outcome.Loaded? ==> run.outcome.source == MarkdownFile
  {
    match fallback
    case NetworkError => Run(Failed(MarkdownFetchFailed), [FetchMarkdownFile])
    case Response(_, md) =>
      match ExtractJsonBlock(md)
      case None => Run(Failed(NoJsonBlock(NoBlockMessage)), [FetchMarkdownFile])
      case Some(block) =>
        match parse(block)
        case None => Run(Failed(EmbeddedParseFailed), [FetchMarkdownFile, ParseEmbeddedBlock])
        case Some(doc) => Run(Loaded(doc, MarkdownFile), [FetchMarkdownFile, ParseEmbeddedBlock])
  }

  /** `loadContent`: the JSON file first; on any failure of it, the Markdown fallback. */
  function Load<D>(primary: Response, fallback: Response, parse: string -> Option<D>): (run: Run<D>)
    ensures |run.steps| >= 2 && run.steps[0] == FetchJsonFile
  {
    var tried := if primary.Response? && primary.ok then [FetchJsonFile, ReadJsonBody] else [FetchJsonFile];
    if PrimaryUsable(primary, parse) then Run(Loaded(parse(primary.body).value, JsonFile), tried)
    else
      var rest := LoadFallback(fallback, parse);
      Run(rest.outcome, tried + rest.steps)
  }

  /** A usable JSON file is returned as it parses, and the Markdown file is never fetched. */
  lemma PrimaryWins<D>(primary: Response, fallback: Response, parse: string -> Option<D>)
    requires PrimaryUsable(primary, parse)
    ensures Load(primary, fallback, parse) ==
            Run(Loaded(parse(primary.body).value, JsonFile), [FetchJsonFile, ReadJsonBody])
  {
  }

  /**
   * The Markdown file is fetched exactly when the first attempt failed (network error,
   * status not ok, or body not JSON), and only after the JSON file was fetched; a body is
   * read as JSON only for an ok response.
   */
  lemma FallbackOnlyAfterPrimaryFails<D>(primary: Response, fallback: Response, parse: string -> Option<D>)
    ensures FetchMarkdownFile in Load(primary, fallback, parse).steps <==> !PrimaryUsable(primary, parse)
    ensures ReadJsonBody in Load(primary, fallback, parse).steps <==> primary.Response? && primary.ok
    ensures forall k :: (0 <= k < |Load(primary, fallback, parse).steps| &&
                         Load(primary, fallback, parse).steps[k] == FetchMarkdownFile) ==> k > 0
  {
    var run := Load(primary, fallback, parse);
    if !PrimaryUsable(primary, parse) {
      var rest := LoadFallback(fallback, parse);
      assert FetchJsonFile !in rest.steps && ReadJsonBody !in rest.steps;
      assert rest.steps[0] == FetchMarkdownFile;
    }
  }

  /** A Markdown file without a json block fails with that message, and nothing is parsed from it. */
  lemma NoBlockFailsWithoutParsing<D>(primary: Response, fallback: Response, parse: string -> Option<D>)
    requires !PrimaryUsable(primary, parse)
    requires fallback.Response? && forall i: nat, j: nat :: !Candidate(fallback.body, i, j)
    ensures Load(primary, fallback, parse).outcome == Failed(NoJsonBlock(NoBlockMessage))
    ensures ParseEmbeddedBlock !in Load(primary, fallback, parse).steps
  {
    ExtractIsLeftmostLazyMatch(fallback.body);
  }

  /**
   * After a failed first attempt the fallback decides: a fetch failure fails the load, and an
   * extracted block is loaded exactly when it parses.
   */
  lemma FallbackDecides<D>(primary: Response, fallback: Response, parse: string -> Option<D>)
    requires !PrimaryUsable(primary, parse)
    ensures fallback.NetworkError? ==> Load(primary, fallback, parse).outcome == Failed(MarkdownFetchFailed)
    ensures fallback.Response? && ExtractJsonBlock(fallback.body).Some? ==>
              var b := ExtractJsonBlock(fallback.body).value;
              Load(primary, fallback, parse).outcome ==
                if parse(b).Some? then Loaded(parse(b).value, MarkdownFile) else Failed(EmbeddedParseFailed)
  {
  }

  /** Whatever is loaded is what `parse` made of the JSON body or of the extracted block. */
  lemma LoadedDocumentIsParsed<D>(primary: Response, fallback: Response, parse: string -> Option<D>)
    requires Load(primary, fallback, parse).outcome.Loaded?
    ensures var o := Load(primary, fallback, parse).outcome;
            (o.source == JsonFile && primary.Response? && primary.ok && parse(primary.body) == Some(o.doc)) ||
            (o.source == MarkdownFile && !PrimaryUsable(primary, parse) && fallback.Response? &&
             ExtractJsonBlock(fallback.body).Some? && parse(ExtractJsonBlock(fallback.body).value) == Some(o.doc))
  {
  }
}
