/** One run of the pipeline over a deck: the cached notes when there are
    any, otherwise parse, deduplicate, filter, group, enrich, and save. The
    deck's embeddings are summarised by the similarity function; the
    collaborators of enrichment are given as services. */
module Pipeline {
  import opened Wrappers
  import opened Strings
  import opened Models
  import opened Parser
  import opened Dedup
  import opened NoiseFilter
  import opened TopicMerge
  import opened Enrichment
  import opened Cache

  /** What a run yields: the topic notes, the global notes (never produced),
      and the cache directory afterwards. */
  datatype RunResult = RunResult(topics: seq<TopicNote>, globalNotes: Option<GlobalNotes>, cache: CacheDir)

  /** A cache read counts only when it gives a non-empty list: a missing,
      unreadable or empty cache is a miss. */
  predicate IsHit(cached: Option<seq<TopicNote>>) {
    cached.Some? && cached.value != []
  }

  /** The slides that reach grouping: parsed, then filtered against noise and
      the deduplicator's kept indices. There is one embedding per slide, so
      an empty deck is the only one without embeddings. */
  function Filtered(deck: seq<SlideSource>, sim: Similarity): (r: seq<SlideChunk>)
    ensures NumbersIncrease(r)
    ensures forall x :: x in r ==>
      !IsNoisePage(x) && exists i :: 0 <= i < |deck| && ParsePpt(deck)[i] == x && i in DedupIndices(|deck|, |deck|, sim)
  {
    var slides := ParsePpt(deck);
    var kept := DedupIndices(|slides|, |slides|, sim);
    var r := FilterSlides(slides, kept);
    assert forall x :: x in r ==>
      !IsNoisePage(x) && exists i :: 0 <= i < |slides| && slides[i] == x && i in kept by {
      forall x | x in r
        ensures !IsNoisePage(x) && exists i :: 0 <= i < |slides| && slides[i] == x && i in kept
      {
        FilterIff(slides, kept, x);
      }
    }
    r
  }

  /** A slide reaches grouping exactly when it is not noise and its index
      was kept by the deduplicator. */
  lemma FilteredIff(deck: seq<SlideSource>, sim: Similarity, x: SlideChunk)
    ensures x in Filtered(deck, sim) <==>
      !IsNoisePage(x) && exists i :: 0 <= i < |deck| && ParsePpt(deck)[i] == x && i in DedupIndices(|deck|, |deck|, sim)
  {
    FilterIff(ParsePpt(deck), DedupIndices(|deck|, |deck|, sim), x);
  }

  /** Every kept, non-noise slide reaches grouping. */
  lemma FilteredComplete(deck: seq<SlideSource>, sim: Similarity, i: nat)
    requires i < |deck| && i in DedupIndices(|deck|, |deck|, sim) && !IsNoisePage(ParsePpt(deck)[i])
    ensures ParsePpt(deck)[i] in Filtered(deck, sim)
  {
    FilteredIff(deck, sim, ParsePpt(deck)[i]);
  }

  /** The notes computed from the deck itself, in topic order. */
  function Fresh(deck: seq<SlideSource>, env: Services, sim: Similarity): (r: seq<TopicNote>)
    ensures NotesAscending(r)
  {
    var topics := GroupTopics(Filtered(deck, sim));
    EnrichAllAscending(topics, env);
    EnrichAll(topics, env)
  }

  /** Every topic grouped from the filtered slides whose title is not
      suppressed gets its note in the fresh result. */
  lemma FreshComplete(deck: seq<SlideSource>, env: Services, sim: Similarity, i: nat)
    requires i < |GroupTopics(Filtered(deck, sim))|
    requires !ContainsAny(GroupTopics(Filtered(deck, sim))[i].title, SuppressMarks)
    ensures EnrichTopic(GroupTopics(Filtered(deck, sim))[i], env).Some?
    ensures EnrichTopic(GroupTopics(Filtered(deck, sim))[i], env).value in Fresh(deck, env, sim)
  {
    EnrichAllComplete(GroupTopics(Filtered(deck, sim)), env, i);
  }

  /** The run: a cache hit is returned as it is and the cache is left alone;
      otherwise the notes are computed from the deck and saved under the
      deck's cache key. No global notes are produced either way. */
  function Run(deck: seq<SlideSource>, id: FileId, dir: CacheDir, env: Services, sim: Similarity): (r: RunResult)
    ensures r.globalNotes.None?
    ensures IsHit(Load(dir, id)) ==> r.topics == Load(dir, id).value && r.cache == dir
    ensures !IsHit(Load(dir, id)) ==> r.topics == Fresh(deck, env, sim) && r.cache == Save(dir, id, r.topics)
  {
    var cached := Load(dir, id);
    if IsHit(cached) then RunResult(cached.value, None, dir)
    else
      var notes := Fresh(deck, env, sim);
      RunResult(notes, None, Save(dir, id, notes))
  }

  /** The notes of a run that computes them never carry a table-of-contents
      or knowledge-block title, and every title is non-empty. */
  lemma FreshTitles(deck: seq<SlideSource>, env: Services, sim: Similarity)
    ensures forall j :: 0 <= j < |Fresh(deck, env, sim)| ==>
      Fresh(deck, env, sim)[j].title != "" && !ContainsAny(Fresh(deck, env, sim)[j].title, SuppressMarks)
  {
    var topics := GroupTopics(Filtered(deck, sim));
    EnrichAllSources(topics, env);
  }

  /** Without a cache file the run's notes are ordered by least slide
      number. */
  lemma MissIsAscending(deck: seq<SlideSource>, id: FileId, dir: CacheDir, env: Services, sim: Similarity)
    requires CacheKey(id) !in dir
    ensures NotesAscending(Run(deck, id, dir, env, sim).topics)
    ensures Run(deck, id, dir, env, sim).cache.Keys == dir.Keys + {CacheKey(id)}
  {
  }

  /** Notes saved for a file identity are what the next run for it returns,
      without computing or writing anything, as long as there are some. */
  lemma SavedNotesAreServed(notes: seq<TopicNote>, id: FileId, dir: CacheDir,
                            deck: seq<SlideSource>, env: Services, sim: Similarity)
    requires notes != []
    ensures Run(deck, id, Save(dir, id, notes), env, sim) == RunResult(notes, None, Save(dir, id, notes))
  {
    LoadAfterSave(dir, id, notes);
  }

  /** A second run on the same file identity, after a first run that found
      or made some notes, returns those notes from the cache whatever the
      deck, services and similarity now are, and writes nothing. */
  lemma RerunUsesCache(deck: seq<SlideSource>, id: FileId, dir: CacheDir, env: Services, sim: Similarity,
                       deck': seq<SlideSource>, env': Services, sim': Similarity)
    requires Run(deck, id, dir, env, sim).topics != []
    ensures var first := Run(deck, id, dir, env, sim);
      Run(deck', id, first.cache, env', sim') == first
  {
    var first := Run(deck, id, dir, env, sim);
    if !IsHit(Load(dir, id)) {
      SavedNotesAreServed(first.topics, id, dir, deck', env', sim');
    }
  }

  /** A run on one deck leaves what every other deck loads from the cache
      unchanged. */
  lemma RunKeepsOtherDecks(deck: seq<SlideSource>, id: FileId, other: FileId, dir: CacheDir, env: Services, sim: Similarity)
    requires other != id
    ensures Load(Run(deck, id, dir, env, sim).cache, other) == Load(dir, other)
  {
    if !IsHit(Load(dir, id)) {
      SaveKeepsOthers(dir, id, other, Run(deck, id, dir, env, sim).topics);
    }
  }

  /** An empty cached list is recomputed, so it never hides a deck's
      notes. */
  lemma EmptyCacheIsRecomputed(deck: seq<SlideSource>, id: FileId, dir: CacheDir, env: Services, sim: Similarity)
    requires CacheKey(id) in dir && dir[CacheKey(id)] == Stored(SavePayload([]))
    ensures Run(deck, id, dir, env, sim).topics == Fresh(deck, env, sim)
  {
    LoadSave([]);
  }
}
