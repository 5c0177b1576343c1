/** The records exchanged between the pipeline stages and sent to the web
    client. The client's type declarations describe the same shapes, with
    optional fields written as `Option`. */
module Models {
  import opened Wrappers

  /** One slide as extracted from the deck. */
  datatype SlideChunk = SlideChunk(
    slideNumber: int,
    title: Option<string>,
    bullets: seq<string>,
    notes: Option<string>,
    rawText: string,
    section: Option<string>,
    isHeading: bool,
    level: int
  )

  /** Generated text and retrieved material attached to one topic. */
  datatype EnrichmentItem = EnrichmentItem(
    summary: string,
    expansions: seq<string>,
    references: seq<string>,
    searchSnippets: seq<string>
  )

  datatype SlideEnrichment = SlideEnrichment(
    slideNumber: int,
    title: Option<string>,
    rawText: string,
    section: Option<string>,
    enrichment: EnrichmentItem
  )

  /** One enriched topic: the unit of output and of the cache. */
  datatype TopicNote = TopicNote(
    title: string,
    slideNumbers: seq<int>,
    section: Option<string>,
    rawText: string,
    enrichment: EnrichmentItem
  )

  datatype GlobalNotes = GlobalNotes(
    overview: string,
    knowledgePoints: seq<string>,
    relatedRefs: seq<string>
  )

  datatype ProcessResponse = ProcessResponse(
    slides: seq<SlideEnrichment>,
    globalNotes: Option<GlobalNotes>,
    topics: Option<seq<TopicNote>>
  )

  /** Python truthiness of an optional string: present and non-empty. */
  predicate Truthy(s: Option<string>) {
    s.Some? && s.value != ""
  }

  /** Python's `s or ""` for an optional string. */
  function OrEmpty(s: Option<string>): string {
    if Truthy(s) then s.value else ""
  }

  /** The slide numbers of `slides` strictly increase along the sequence. */
  predicate NumbersIncrease(slides: seq<SlideChunk>) {
    forall i, j :: 0 <= i < j < |slides| ==> slides[i].slideNumber < slides[j].slideNumber
  }

  /** `xs` strictly increases. */
  predicate StrictlyIncreasing(xs: seq<int>) {
    forall i, j :: 0 <= i < j < |xs| ==> xs[i] < xs[j]
  }

  /** The least element of a non-empty sequence (Python's `min`). */
  function Min(xs: seq<int>): (m: int)
    requires |xs| > 0
    ensures m in xs
    ensures forall i :: 0 <= i < |xs| ==> m <= xs[i]
  {
    if |xs| == 1 then xs[0]
    else
      var rest := Min(xs[1..]);
      if xs[0] <= rest then xs[0] else rest
  }
}
