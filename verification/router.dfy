/** The upload endpoint: which input is used, when a request is refused,
    what suffix the saved deck gets, and the shape of the reply. Temporary
    files and the web framework are not modelled. */
module Router {
  import opened Wrappers
  import opened Models
  import opened Cache
  import opened Pipeline
  import opened Dedup
  import opened Enrichment
  import opened Parser
  import opened Paths
  import opened Download

  /** An uploaded file: the name the client gave and its bytes. */
  datatype Upload = Upload(filename: string, content: seq<byte>)

  /** The endpoint's decision. With neither a file nor a non-empty URL the
      request is refused. A file is used as it is, with its own name's
      suffix, and then the URL is neither downloaded nor looked at.
      Otherwise the URL's download decides. */
  function Decide(file: Option<Upload>, url: Option<string>, fetch: Fetcher): (r: Decision)
    ensures r.Rejected? ==> r.status == BadRequest
    ensures file.None? && !Truthy(url) ==> r == Rejected(BadRequest, NoInput)
    ensures file.Some? ==> r == Accepted(PathSuffix(file.value.filename), file.value.content)
    ensures file.None? && r.Accepted? ==>
      Truthy(url) && r.content != [] && !LooksLikeHtml(r.content) && (r.suffix == ".ppt" || r.suffix == ".pptx")
  {
    if file.None? && !Truthy(url) then Rejected(BadRequest, NoInput)
    else if file.Some? then Accepted(PathSuffix(file.value.filename), file.value.content)
    else FromUrl(url.value, fetch(url.value))
  }

  /** The reply to an accepted request: no per-slide results, the run's
      topic notes, and no global notes. */
  function Respond(deck: seq<SlideSource>, id: FileId, dir: CacheDir, env: Services, sim: Similarity): (r: ProcessResponse)
    ensures r.slides == [] && r.globalNotes.None?
    ensures r.topics == Some(Run(deck, id, dir, env, sim).topics)
  {
    var run := Run(deck, id, dir, env, sim);
    ProcessResponse([], run.globalNotes, Some(run.topics))
  }

  /** Two requests for the same file identity, the first of which found or
      made some notes, get the same reply: the second is served from the
      cache the first left, whatever deck, services and similarity it
      sees. */
  lemma RepeatedRequestSameReply(deck: seq<SlideSource>, id: FileId, dir: CacheDir, env: Services, sim: Similarity,
                                 deck': seq<SlideSource>, env': Services, sim': Similarity)
    requires Run(deck, id, dir, env, sim).topics != []
    ensures Respond(deck', id, Run(deck, id, dir, env, sim).cache, env', sim') == Respond(deck, id, dir, env, sim)
  {
    RerunUsesCache(deck, id, dir, env, sim, deck', env', sim');
  }
}
