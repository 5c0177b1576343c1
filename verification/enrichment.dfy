/** Enrichment of one merged topic record: retrieval snippets and context
    are gathered, the model is asked for an expansion, and its reply is split
    into a summary and expansion lines, which are then cleaned. The searches,
    the vector index and the chat request are given functions. */
module Enrichment {
  import opened Wrappers
  import opened Strings
  import opened Models
  import opened Llm
  import opened TopicMerge

  /** The collaborators of enrichment that reach outside the program. */
  datatype Services = Services(
    searchWikipedia: (string, nat) -> seq<string>,
    searchWikipediaCn: (string, nat) -> seq<string>,
    searchArxiv: (string, nat) -> seq<string>,
    retrieveContext: SlideChunk -> seq<string>,
    post: Backend,
    apiKey: Option<string>
  )

  /** Results asked of each search service. */
  const SearchLimit: nat := 2

  /** The search snippets for a title: English Wikipedia, Chinese Wikipedia
      and arXiv in that order, or none when the slide has no title. */
  function SearchSnippets(title: Option<string>, env: Services): (r: seq<string>)
    ensures !Truthy(title) ==> r == []
  {
    if Truthy(title) then
      env.searchWikipedia(title.value, SearchLimit)
      + env.searchWikipediaCn(title.value, SearchLimit)
      + env.searchArxiv(title.value, SearchLimit)
    else []
  }

  // ---------------------------------------------------------------------
  // Splitting the reply
  // ---------------------------------------------------------------------

  /** The first piece of a split is a prefix of the string, ended by the
      separator or by the end of the string. */
  lemma FirstPiece(s: string, sep: char)
    ensures StartsWith(s, Split(s, sep)[0])
    ensures |Split(s, sep)[0]| == |s| || s[|Split(s, sep)[0]|] == sep
  {
    var parts := Split(s, sep);
    JoinSplit(s, sep);
    if |parts| > 1 {
      assert Join([sep], parts) == parts[0] + [sep] + Join([sep], parts[1..]);
      assert s[..|parts[0]|] == parts[0];
    }
  }

  /** The summary: the reply's first line, or empty for an empty reply. */
  function Summary(reply: string): (r: string)
    ensures '\n' !in r
    ensures StartsWith(reply, r)
    ensures |r| == |reply| || reply[|r|] == '\n'
  {
    FirstPiece(reply, '\n');
    if reply != "" then Split(reply, '\n')[0] else ""
  }

  /** The lines of `lines` that pass `keep`, unchanged and in order. */
  function Where(lines: seq<string>, keep: string -> bool): (r: seq<string>)
    ensures |r| <= |lines|
    ensures forall i :: 0 <= i < |r| ==> keep(r[i]) && r[i] in lines
    decreases |lines|
  {
    if lines == [] then []
    else
      var n := |lines|;
      var prev := Where(lines[..n - 1], keep);
      assert forall x :: x in lines[..n - 1] ==> x in lines;
      if keep(lines[n - 1]) then prev + [lines[n - 1]] else prev
  }

  /** A line with something besides whitespace. */
  predicate IsVisible(line: string) {
    Strip(line) != ""
  }

  /** The lines of `lines` that are not blank, unchanged and in order. */
  function NonBlank(lines: seq<string>): (r: seq<string>)
    ensures |r| <= |lines|
    ensures forall i :: 0 <= i < |r| ==> Strip(r[i]) != "" && r[i] in lines
  {
    Where(lines, IsVisible)
  }

  /** The expansion lines: the reply's non-blank lines, unstripped. */
  function ExpansionLines(reply: string): (r: seq<string>)
    ensures forall i :: 0 <= i < |r| ==> Strip(r[i]) != "" && '\n' !in r[i]
  {
    NonBlank(Split(reply, '\n'))
  }

  /** A reply without blank lines is its expansion lines joined again. */
  lemma ExpansionLinesRestoreReply(reply: string)
    requires forall i :: 0 <= i < |Split(reply, '\n')| ==> Strip(Split(reply, '\n')[i]) != ""
    ensures Join("\n", ExpansionLines(reply)) == reply
  {
    NonBlankKeepsAll(Split(reply, '\n'));
    JoinSplit(reply, '\n');
  }

  lemma NonBlankKeepsAll(lines: seq<string>)
    requires forall i :: 0 <= i < |lines| ==> Strip(lines[i]) != ""
    ensures NonBlank(lines) == lines
  {
    WhereKeepsAll(lines, IsVisible);
  }

  /** When every line passes, nothing is dropped. */
  lemma {:induction false} WhereKeepsAll(lines: seq<string>, keep: string -> bool)
    requires forall i :: 0 <= i < |lines| ==> keep(lines[i])
    ensures Where(lines, keep) == lines
    decreases |lines|
  {
    if lines != [] {
      var n := |lines|;
      var prefix := lines[..n - 1];
      assert forall i :: 0 <= i < |prefix| ==> prefix[i] == lines[i];
      WhereKeepsAll(prefix, keep);
      assert prefix + [lines[n - 1]] == lines;
    }
  }

  /** A line is kept exactly when it is one of the lines and passes. */
  lemma {:induction false} WhereIff(lines: seq<string>, keep: string -> bool, x: string)
    ensures x in Where(lines, keep) <==> x in lines && keep(x)
    decreases |lines|
  {
    if lines != [] {
      var n := |lines|;
      var prefix := lines[..n - 1];
      WhereIff(prefix, keep, x);
      assert lines == prefix + [lines[n - 1]];
    }
  }

  /** Filtering keeps the order: filtering two runs of lines one after the
      other is filtering each run and putting the results one after the
      other. */
  lemma {:induction false} WhereAppend(a: seq<string>, b: seq<string>, keep: string -> bool)
    ensures Where(a + b, keep) == Where(a, keep) + Where(b, keep)
    decreases |b|
  {
    if b == [] {
      assert a + b == a;
    } else {
      var n := |b|;
      var front := b[..n - 1];
      WhereAppend(a, front, keep);
      assert (a + b)[..|a + b| - 1] == a + front;
      assert (a + b)[|a + b| - 1] == b[n - 1];
    }
  }

  /** An expansion line is exactly a line of the reply that is not blank. */
  lemma ExpansionLinesIff(reply: string, x: string)
    ensures x in ExpansionLines(reply) <==> x in Split(reply, '\n') && Strip(x) != ""
  {
    WhereIff(Split(reply, '\n'), IsVisible, x);
  }

  /** The expansion lines of two texts joined by a line break are those of
      the first text followed by those of the second. */
  lemma ExpansionLinesConcat(a: string, b: string)
    ensures ExpansionLines(a + ['\n'] + b) == ExpansionLines(a) + ExpansionLines(b)
  {
    SplitConcat(a, '\n', b);
    WhereAppend(Split(a, '\n'), Split(b, '\n'), IsVisible);
  }

  /** A single line is its own expansion when it is not blank, and gives
      none when it is. */
  lemma ExpansionLinesOfLine(line: string)
    requires '\n' !in line
    ensures ExpansionLines(line) == (if Strip(line) != "" then [line] else [])
  {
    SplitNoSeparator(line, '\n');
    assert [line][..0] == [];
  }

  // ---------------------------------------------------------------------
  // Cleaning the expansions
  // ---------------------------------------------------------------------

  /** A stripped expansion line is kept unless, lower-cased, it opens with
      `1)`, `1.` or `概要`, or it repeats the stripped summary. */
  predicate KeepsLine(stripped: string, summary: string) {
    var low := Lower(stripped);
    && !StartsWith(low, "1)") && !StartsWith(low, "1.") && !StartsWith(low, "概要")
    && stripped != Strip(summary)
  }

  /** The normalised forms of the non-empty lines whose normalised form
      passes `keep`, in order. */
  function StripFilter(lines: seq<string>, strip: string -> string, keep: string -> bool): (r: seq<string>)
    ensures |r| <= |lines|
    ensures forall i :: 0 <= i < |r| ==> keep(r[i])
    decreases |lines|
  {
    if lines == [] then []
    else
      var n := |lines|;
      var prev := StripFilter(lines[..n - 1], strip, keep);
      var stripped := strip(lines[n - 1]);
      if lines[n - 1] != "" && keep(stripped) then prev + [stripped] else prev
  }

  /** `x` is the normalised form of a non-empty line below `bound`. */
  ghost predicate StrippedFrom(lines: seq<string>, strip: string -> string, x: string, bound: nat)
    requires bound <= |lines|
  {
    exists i :: 0 <= i < bound && lines[i] != "" && x == strip(lines[i])
  }

  lemma StrippedFromPrefix(lines: seq<string>, strip: string -> string, x: string, m: nat)
    requires m < |lines|
    ensures StrippedFrom(lines[..m], strip, x, m) == StrippedFrom(lines, strip, x, m)
    ensures StrippedFrom(lines, strip, x, m + 1) <==>
      StrippedFrom(lines, strip, x, m) || (lines[m] != "" && x == strip(lines[m]))
  {
    if StrippedFrom(lines, strip, x, m) {
      var i :| 0 <= i < m && lines[i] != "" && x == strip(lines[i]);
      assert lines[..m][i] == lines[i];
    }
    if StrippedFrom(lines[..m], strip, x, m) {
      var i :| 0 <= i < m && lines[..m][i] != "" && x == strip(lines[..m][i]);
      assert lines[i] == lines[..m][i];
    }
  }

  /** A kept line is exactly one that passes the test and is the normalised
      form of a non-empty input line. */
  lemma {:induction false} StripFilterIff(lines: seq<string>, strip: string -> string, keep: string -> bool, x: string)
    ensures x in StripFilter(lines, strip, keep) <==> keep(x) && StrippedFrom(lines, strip, x, |lines|)
    decreases |lines|
  {
    if lines != [] {
      var n := |lines|;
      StripFilterIff(lines[..n - 1], strip, keep, x);
      StrippedFromPrefix(lines, strip, x, n - 1);
    }
  }

  /** With an idempotent normaliser, filtering lines that do not normalise to
      nothing twice is filtering them once, and leaves no empty line. */
  lemma StripFilterIdempotent(lines: seq<string>, strip: string -> string, keep: string -> bool)
    requires forall x :: strip(strip(x)) == strip(x)
    requires forall i :: 0 <= i < |lines| ==> strip(lines[i]) != ""
    ensures StripFilter(StripFilter(lines, strip, keep), strip, keep) == StripFilter(lines, strip, keep)
    ensures forall i :: 0 <= i < |StripFilter(lines, strip, keep)| ==> StripFilter(lines, strip, keep)[i] != ""
  {
    StripFilterNormal(lines, strip, keep);
    StripFilterFixed(StripFilter(lines, strip, keep), strip, keep);
  }

  /** With an idempotent normaliser, every kept line is in normal form, and
      none is empty when no line normalises to nothing. */
  lemma {:induction false} StripFilterNormal(lines: seq<string>, strip: string -> string, keep: string -> bool)
    requires forall x :: strip(strip(x)) == strip(x)
    ensures forall i :: 0 <= i < |StripFilter(lines, strip, keep)| ==>
      strip(StripFilter(lines, strip, keep)[i]) == StripFilter(lines, strip, keep)[i]
    ensures (forall i :: 0 <= i < |lines| ==> strip(lines[i]) != "") ==>
      forall i :: 0 <= i < |StripFilter(lines, strip, keep)| ==> StripFilter(lines, strip, keep)[i] != ""
    decreases |lines|
  {
    if lines != [] {
      var n := |lines|;
      var prefix := lines[..n - 1];
      StripFilterNormal(prefix, strip, keep);
      assert forall i :: 0 <= i < |prefix| ==> prefix[i] == lines[i];
    }
  }

  /** Lines that are non-empty, in normal form and pass the test come
      through the filter unchanged. */
  lemma {:induction false} StripFilterFixed(lines: seq<string>, strip: string -> string, keep: string -> bool)
    requires forall i :: 0 <= i < |lines| ==> lines[i] != "" && strip(lines[i]) == lines[i] && keep(lines[i])
    ensures StripFilter(lines, strip, keep) == lines
    decreases |lines|
  {
    if lines != [] {
      var n := |lines|;
      var prefix := lines[..n - 1];
      assert forall i :: 0 <= i < |prefix| ==> prefix[i] == lines[i];
      StripFilterFixed(prefix, strip, keep);
      assert prefix + [lines[n - 1]] == lines;
    }
  }

  /** The cleaning of expansion lines against the summary. */
  function CleanExpansions(lines: seq<string>, summary: string): (r: seq<string>)
    ensures |r| <= |lines|
    ensures forall i :: 0 <= i < |r| ==> KeepsLine(r[i], summary)
  {
    StripFilter(lines, Strip, (x: string) => KeepsLine(x, summary))
  }

  /** A cleaned line is exactly the stripped form of a non-empty input line
      that passes the test. */
  lemma CleanIff(lines: seq<string>, summary: string, x: string)
    ensures x in CleanExpansions(lines, summary) <==>
      KeepsLine(x, summary) && exists i :: 0 <= i < |lines| && lines[i] != "" && x == Strip(lines[i])
  {
    var keep := (y: string) => KeepsLine(y, summary);
    StripFilterIff(lines, Strip, keep, x);
    assert keep(x) == KeepsLine(x, summary);
  }

  /** Cleaning non-blank lines twice is cleaning them once, and leaves no
      empty line. */
  lemma CleanIdempotent(lines: seq<string>, summary: string)
    requires forall i :: 0 <= i < |lines| ==> Strip(lines[i]) != ""
    ensures CleanExpansions(CleanExpansions(lines, summary), summary) == CleanExpansions(lines, summary)
    ensures forall i :: 0 <= i < |CleanExpansions(lines, summary)| ==> CleanExpansions(lines, summary)[i] != ""
  {
    forall x: string
      ensures Strip(Strip(x)) == Strip(x)
    {
      StripIdempotent(x, IsPySpace);
    }
    StripFilterIdempotent(lines, Strip, (x: string) => KeepsLine(x, summary));
  }

  // ---------------------------------------------------------------------
  // Enriching a slide and a topic
  // ---------------------------------------------------------------------

  /** The model's reply for a slide: the completion of the expansion prompt
      over its raw text, the search snippets and the retrieved context. */
  function ReplyFor(slide: SlideChunk, env: Services): string {
    var prompt := ExpandPrompt(slide.rawText, SearchSnippets(slide.title, env) + env.retrieveContext(slide));
    Complete(env.apiKey, prompt, env.post)
  }

  /** The enrichment of one slide: the summary and the non-blank lines of the
      reply, the retrieved context as references and the search snippets. */
  function EnrichSlide(slide: SlideChunk, env: Services): (r: SlideEnrichment)
    ensures r.slideNumber == slide.slideNumber && r.title == slide.title
    ensures r.rawText == slide.rawText && r.section == slide.section
    ensures r.enrichment.references == env.retrieveContext(slide)
    ensures r.enrichment.searchSnippets == SearchSnippets(slide.title, env)
    ensures '\n' !in r.enrichment.summary && StartsWith(ReplyFor(slide, env), r.enrichment.summary)
    ensures |r.enrichment.summary| == |ReplyFor(slide, env)|
            || ReplyFor(slide, env)[|r.enrichment.summary|] == '\n'
    ensures r.enrichment.expansions == ExpansionLines(ReplyFor(slide, env))
    ensures forall i :: 0 <= i < |r.enrichment.expansions| ==>
      Strip(r.enrichment.expansions[i]) != "" && '\n' !in r.enrichment.expansions[i]
  {
    var snippets := SearchSnippets(slide.title, env);
    var context := env.retrieveContext(slide);
    var reply := ReplyFor(slide, env);
    SlideEnrichment(slide.slideNumber, slide.title, slide.rawText, slide.section,
      EnrichmentItem(Summary(reply), ExpansionLines(reply), context, snippets))
  }

  /** Topics whose title contains one of these are suppressed. */
  const SuppressMarks: seq<string> := ["目录", "知识块"]

  /** The note for a topic: its merged record enriched, the expansions
      cleaned against the summary, and the topic's title, slide numbers,
      section and merged text; nothing when the title marks a table of
      contents or a knowledge-block placeholder. */
  function EnrichTopic(topic: Topic, env: Services): (r: Option<TopicNote>)
    ensures r.None? <==> ContainsAny(topic.title, SuppressMarks)
    ensures r.Some? ==>
      && r.value.title == topic.title && r.value.slideNumbers == topic.slideNumbers
      && r.value.section == topic.section && r.value.rawText == topic.merged.rawText
      && var e := EnrichSlide(topic.merged, env).enrichment;
         r.value.enrichment == e.(expansions := CleanExpansions(e.expansions, e.summary))
  {
    var enriched := EnrichSlide(topic.merged, env);
    var cleaned := CleanExpansions(enriched.enrichment.expansions, enriched.enrichment.summary);
    if ContainsAny(topic.title, SuppressMarks) then None
    else Some(TopicNote(topic.title, topic.slideNumbers, topic.section, topic.merged.rawText,
      enriched.enrichment.(expansions := cleaned)))
  }

  /** The fallback reply leaves nothing to expand on: it is all one line, so
      it is the summary, and its only expansion line repeats the summary. */
  lemma FallbackReplyHasNoExpansions(prompt: string)
    ensures Summary(Fallback(prompt)) == Fallback(prompt)
    ensures CleanExpansions(ExpansionLines(Fallback(prompt)), Summary(Fallback(prompt))) == []
  {
    OneLineReplyHasNoExpansions(Fallback(prompt));
  }

  /** A reply of one line is its own summary and has no expansions. */
  lemma OneLineReplyHasNoExpansions(reply: string)
    requires '\n' !in reply
    ensures Summary(reply) == reply
    ensures CleanExpansions(ExpansionLines(reply), Summary(reply)) == []
  {
    SplitNoSeparator(reply, '\n');
    var lines := ExpansionLines(reply);
    assert lines == [] || lines == [reply] by {
      assert Where([reply], IsVisible) == Where([], IsVisible) + (if IsVisible(reply) then [reply] else []) by {
        assert [reply][..0] == [];
      }
    }
    var keep := (x: string) => KeepsLine(x, Summary(reply));
    if lines == [reply] {
      assert !keep(Strip(reply));
      assert [reply][..0] == [];
    }
  }

  /** Without an API key every note that is produced carries the fallback as
      its summary and no expansions. */
  lemma NoKeyNoteIsFallback(topic: Topic, env: Services)
    requires !Truthy(env.apiKey)
    ensures EnrichTopic(topic, env).Some? ==>
      var prompt := ExpandPrompt(topic.merged.rawText,
        SearchSnippets(topic.merged.title, env) + env.retrieveContext(topic.merged));
      EnrichTopic(topic, env).value.enrichment.summary == Fallback(prompt)
      && EnrichTopic(topic, env).value.enrichment.expansions == []
  {
    var prompt := ExpandPrompt(topic.merged.rawText,
      SearchSnippets(topic.merged.title, env) + env.retrieveContext(topic.merged));
    FallbackReplyHasNoExpansions(prompt);
  }

  // ---------------------------------------------------------------------
  // Assembly in topic order
  // ---------------------------------------------------------------------

  /** The results of `f` over the topics in topic order, absent results
      left out. */
  function Assemble(topics: seq<Topic>, f: Topic -> Option<TopicNote>): (r: seq<TopicNote>)
    ensures |r| <= |topics|
    decreases |topics|
  {
    if topics == [] then []
    else
      var n := |topics|;
      var prev := Assemble(topics[..n - 1], f);
      match f(topics[n - 1])
      case None => prev
      case Some(note) => prev + [note]
  }

  /** The notes of the topics in topic order, suppressed topics left out.
      The source enriches topics concurrently and then orders the results by
      topic index, which is this sequential map. */
  function EnrichAll(topics: seq<Topic>, env: Services): (r: seq<TopicNote>)
    ensures |r| <= |topics|
  {
    Assemble(topics, (t: Topic) => EnrichTopic(t, env))
  }

  /** The notes are in increasing order of their least slide number. */
  predicate NotesAscending(notes: seq<TopicNote>) {
    && (forall i :: 0 <= i < |notes| ==> |notes[i].slideNumbers| > 0)
    && (forall i, j :: 0 <= i < j < |notes| ==> Min(notes[i].slideNumbers) <= Min(notes[j].slideNumbers))
  }

  /** The least slide number of a well-formed topic is its merged number. */
  lemma MinIsSortKey(t: Topic)
    requires WellFormedTopic(t)
    ensures Min(t.slideNumbers) == SortKey(t)
  {
    var k :| 0 <= k < |t.slideNumbers| && t.slideNumbers[k] == SortKey(t);
  }

  /** `f` keeps each topic's slide numbers in the note it makes. */
  ghost predicate KeepsNumbers(f: Topic -> Option<TopicNote>) {
    forall t :: f(t).Some? ==> f(t).value.slideNumbers == t.slideNumbers
  }

  /** Topics ordered by merged number give notes ordered by least slide
      number, none beyond the last topic's. */
  lemma {:induction false} AssembleAscending(topics: seq<Topic>, f: Topic -> Option<TopicNote>)
    requires KeepsNumbers(f)
    requires SortedByNumber(topics)
    requires forall i :: 0 <= i < |topics| ==> WellFormedTopic(topics[i])
    ensures NotesAscending(Assemble(topics, f))
    ensures topics != [] ==> forall j :: 0 <= j < |Assemble(topics, f)| ==>
      Min(Assemble(topics, f)[j].slideNumbers) <= SortKey(topics[|topics| - 1])
    decreases |topics|
  {
    if topics != [] {
      var n := |topics|;
      var prefix := topics[..n - 1];
      AssembleAscending(prefix, f);
      var prev := Assemble(prefix, f);
      var last := topics[n - 1];
      MinIsSortKey(last);
      if prefix != [] {
        assert SortKey(prefix[n - 2]) <= SortKey(last);
      }
      match f(last)
      case None =>
        assert Assemble(topics, f) == prev;
      case Some(note) =>
        assert Assemble(topics, f) == prev + [note];
        AppendAscending(prev, note, SortKey(last));
    }
  }

  /** A note whose least number bounds every earlier note keeps the notes
      ascending, and the bound still holds. */
  lemma AppendAscending(prev: seq<TopicNote>, note: TopicNote, b: int)
    requires NotesAscending(prev)
    requires forall j :: 0 <= j < |prev| ==> Min(prev[j].slideNumbers) <= b
    requires |note.slideNumbers| > 0 && Min(note.slideNumbers) == b
    ensures NotesAscending(prev + [note])
    ensures forall j :: 0 <= j < |prev + [note]| ==> Min((prev + [note])[j].slideNumbers) <= b
  {
    var r := prev + [note];
    assert forall j :: 0 <= j < |prev| ==> r[j] == prev[j];
    assert r[|prev|] == note;
  }

  /** Every assembled note is the result of `f` on one of the topics. */
  lemma {:induction false} AssembleSources(topics: seq<Topic>, f: Topic -> Option<TopicNote>)
    ensures forall j :: 0 <= j < |Assemble(topics, f)| ==>
      exists i :: 0 <= i < |topics| && f(topics[i]) == Some(Assemble(topics, f)[j])
    decreases |topics|
  {
    if topics != [] {
      var n := |topics|;
      var prefix := topics[..n - 1];
      AssembleSources(prefix, f);
      var prev := Assemble(prefix, f);
      var all := Assemble(topics, f);
      assert all == prev || (f(topics[n - 1]).Some? && all == prev + [f(topics[n - 1]).value]);
      forall j | 0 <= j < |all|
        ensures exists i :: 0 <= i < |topics| && f(topics[i]) == Some(Assemble(topics, f)[j])
      {
        if j < |prev| {
          var i :| 0 <= i < |prefix| && f(prefix[i]) == Some(prev[j]);
          assert topics[i] == prefix[i];
          assert all[j] == prev[j];
        } else {
          assert f(topics[n - 1]) == Some(all[j]);
        }
      }
    } else {
      assert Assemble(topics, f) == [];
    }
  }

  /** No note is made for a topic whose title marks a table of contents or
      a knowledge-block placeholder, and every note keeps its topic's
      title. */
  lemma EnrichAllSources(topics: seq<Topic>, env: Services)
    ensures forall j :: 0 <= j < |EnrichAll(topics, env)| ==>
      && !ContainsAny(EnrichAll(topics, env)[j].title, SuppressMarks)
      && exists i :: 0 <= i < |topics| && topics[i].title == EnrichAll(topics, env)[j].title
  {
    var f := (t: Topic) => EnrichTopic(t, env);
    AssembleSources(topics, f);
    forall j | 0 <= j < |EnrichAll(topics, env)|
      ensures !ContainsAny(EnrichAll(topics, env)[j].title, SuppressMarks)
      ensures exists i :: 0 <= i < |topics| && topics[i].title == EnrichAll(topics, env)[j].title
    {
      var i :| 0 <= i < |topics| && f(topics[i]) == Some(Assemble(topics, f)[j]);
      assert EnrichTopic(topics[i], env).Some?;
    }
  }

  /** A single topic contributes its result when there is one and nothing
      otherwise. */
  lemma AssembleOne(t: Topic, f: Topic -> Option<TopicNote>)
    ensures Assemble([t], f) == (if f(t).Some? then [f(t).value] else [])
  {
    assert [t][..0] == [];
  }

  /** Assembly keeps topic order: assembling two runs of topics one after
      the other gives the two assemblies one after the other. */
  lemma {:induction false} AssembleAppend(a: seq<Topic>, b: seq<Topic>, f: Topic -> Option<TopicNote>)
    ensures Assemble(a + b, f) == Assemble(a, f) + Assemble(b, f)
    decreases |b|
  {
    if b == [] {
      assert a + b == a;
    } else {
      var n := |b|;
      var front := b[..n - 1];
      AssembleAppend(a, front, f);
      assert (a + b)[..|a + b| - 1] == a + front;
      assert (a + b)[|a + b| - 1] == b[n - 1];
    }
  }

  /** Every present result is assembled: no topic with a note is lost. */
  lemma {:induction false} AssembleComplete(topics: seq<Topic>, f: Topic -> Option<TopicNote>, i: nat)
    requires i < |topics| && f(topics[i]).Some?
    ensures f(topics[i]).value in Assemble(topics, f)
    decreases |topics|
  {
    var n := |topics|;
    var prefix := topics[..n - 1];
    if i < n - 1 {
      assert prefix[i] == topics[i];
      AssembleComplete(prefix, f, i);
    }
    match f(topics[n - 1])
    case None =>
      assert Assemble(topics, f) == Assemble(prefix, f);
    case Some(note) =>
      assert Assemble(topics, f) == Assemble(prefix, f) + [note];
  }

  /** Every topic whose title is not suppressed gets its note. */
  lemma EnrichAllComplete(topics: seq<Topic>, env: Services, i: nat)
    requires i < |topics| && !ContainsAny(topics[i].title, SuppressMarks)
    ensures EnrichTopic(topics[i], env).Some?
    ensures EnrichTopic(topics[i], env).value in EnrichAll(topics, env)
  {
    AssembleComplete(topics, (t: Topic) => EnrichTopic(t, env), i);
  }

  /** Enriching two runs of topics one after the other gives the two runs
      of notes one after the other. */
  lemma EnrichAllAppend(a: seq<Topic>, b: seq<Topic>, env: Services)
    ensures EnrichAll(a + b, env) == EnrichAll(a, env) + EnrichAll(b, env)
  {
    AssembleAppend(a, b, (t: Topic) => EnrichTopic(t, env));
  }

  /** A single topic gives its note exactly when its title is not
      suppressed. */
  lemma EnrichAllOne(t: Topic, env: Services)
    ensures EnrichAll([t], env) == (if ContainsAny(t.title, SuppressMarks) then [] else [EnrichTopic(t, env).value])
  {
    AssembleOne(t, (t: Topic) => EnrichTopic(t, env));
  }

  /** Enriching topics ordered by merged number gives notes ordered by least
      slide number. */
  lemma EnrichAllAscending(topics: seq<Topic>, env: Services)
    requires SortedByNumber(topics)
    requires forall i :: 0 <= i < |topics| ==> WellFormedTopic(topics[i])
    ensures NotesAscending(EnrichAll(topics, env))
  {
    AssembleAscending(topics, (t: Topic) => EnrichTopic(t, env));
  }
}
