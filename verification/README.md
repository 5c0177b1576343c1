# Slide deck to study notes: a Dafny model

The system reads a slide deck and produces ordered study-note "topics".
First it turns the deck's slides into records: numbered, with their bullets, a heading flag and the section they belong to.
Then it drops noise pages and near-duplicate slides, and groups the remaining slides into topic clusters by a normalised (section, title) key.
Each cluster is merged into one record, and each merged topic is enriched with a language-model reply and search snippets.
The resulting topic notes are cached per source file.
The web front end serialises them as a Markdown document.
The upload endpoint decides whether a request carries a usable deck, and with what file suffix.

This project models the deterministic logic around the external calls, as pure functions over immutable datatypes:

- `Parser`: slide records from abstract shapes.
- `Dedup`: the forward-only near-duplicate scan over a given similarity.
- `NoiseFilter`: the noise-page filter.
- `TopicTitles`: effective titles, the step pattern and key normalisation.
- `TopicGrouping`: the clustering fold.
- `TopicMerge`: merging and sorting clusters.
- `Llm`: the fallback, completion choice and prompt.
- `Enrichment`: reply post-processing, suppression and ordered assembly.
- `Cache`: the cache file name, and the payload as a JSON tree with its save/load round trip.
- `Pipeline`: the run with its cache hit and miss.
- `MarkdownExport`: `cleanLine` and the Markdown line list.
- `Paths`: POSIX path names and suffixes.
- `Download`: URL download checks and suffix choice.
- `Router`: the endpoint's decision and reply.

`Models`, `Strings` and `Wrappers` hold the records, the string primitives and `Option`/`Result`.

Collaborators are parameters:

- The similarity of two slides is a function `(nat, nat) -> real`.
- Web search, context retrieval, the completion backend and the URL fetcher are functions in a `Services` record or passed directly.
- A source file's identity is the triple (stem, mtime in ns, size).
- The cache directory is a map from file name to stored payload.

Behaviour of the code that the model keeps as written, including where it is surprising:

- **Step pattern.** The step-title pattern `^(第\\s*\\d|step\\s*\\d)` is a raw string with doubled backslashes. It therefore matches only titles that continue with a literal backslash, then `s`s, then a backslash and `d`. Ordinary titles such as "Step 1" or "第1步" are not rewritten to the last title (`TopicTitles.PlainStepTitlesDoNotMatch`).
- **Short titled slides.** A titled slide whose body is one line of at most 30 characters once stripped is a noise page, whatever that line says. A deck made only of such slides and headings therefore yields no topic (`NoiseFilter.ShortTitledSlideDropped`).
- **Headings.** The title shape's own paragraphs feed the bullets. A slide whose first text shape has visible text is therefore never a heading (`Parser.TitleTextPreventsHeading`).
- **Section of a heading.** A heading's section is its own title, not that of an earlier heading.
- **Backfill pass.** The parser's second, backfilling pass changes nothing (`Parser.BackfillIsNoOp`).
- **Cache reuse.** The cache key uses the stem of the temporary file the endpoint writes, and that name is random. In practice a repeated upload therefore does not hit the cache. The model takes the file identity as a parameter and proves the cache behaviour for a repeated identity.

## Model

| member | source | states |
|---|---|---|
| Parser.CollectText | backend/services/parser.py:11-20 | A text shape yields its text and any other non-table shape yields "". A table with no rows yields "". Otherwise the result splits on line breaks into the lines of each row in turn, a row being its stripped cells joined by " \| ". When no cell holds a line break, that is exactly one line per row. |
| Parser.SlideLevel | backend/services/parser.py:60 | The level is 0 without kept paragraphs; otherwise it is one of the kept levels and no greater than any of them. |
| Parser.JoinedBulletsBlankIffEmpty | backend/services/parser.py:46-48 | For kept (non-empty, stripped) bullets, the joined raw text is blank exactly when there are no bullets. |
| Parser.BuildChunk | backend/services/parser.py:28-62 | A record carries the given number, the first text shape's text as title, the kept bullets, their line-break join as raw text and their least level. Notes are absent exactly when the notes text is missing or empty. The section is the record's own title for a heading and the current section otherwise. |
| Parser.HeadingIffNoBullets | backend/services/parser.py:48 | A record is a heading exactly when its title is a non-empty string and it has no bullets. |
| Parser.TitleTextPreventsHeading | backend/services/parser.py:28-48 | If the first shape is a text frame with a visible paragraph, the slide is not a heading. |
| Parser.FirstPassRecords | backend/services/parser.py:27-62 | The first pass builds record i with number i+1 and the section of the last heading before it. |
| Parser.FirstPassSections | backend/services/parser.py:49-58 | After the first pass, every record's section is the title of the most recent heading at or before it, or none. |
| Parser.BackfillIsNoOp | backend/services/parser.py:63-68 | On records whose sections already follow the heading rule, the backfill pass returns them unchanged. |
| Parser.ParsePpt | backend/services/parser.py:23-69 | One record per slide, numbered 1..N in strictly increasing order. Each record is the one built for its slide, with the section of the latest heading at or before it. |
| Dedup.KeptAmong | backend/services/pipeline.py:53-64 | The kept indices lie below the count, are strictly increasing and are at most as many as the slides. |
| Dedup.DedupScan | backend/services/pipeline.py:49-64 | The scan with its early exit computes the forward pass. Without embeddings every corpus index is kept. Otherwise the kept list is non-empty, starts at 0 and increases. |
| Dedup.KeptIff | backend/services/pipeline.py:54-63 | Index i is kept exactly when it is in range and its similarity to every earlier kept index is below 0.82. |
| Dedup.KeptStep | backend/services/pipeline.py:55-63 | Index i is kept exactly when it is not similar to any index kept among those before it. |
| Dedup.KeptPrefix | backend/services/pipeline.py:53-64 | The kept list for a prefix of the slides is a prefix of the kept list for all of them. Later kept entries lie beyond the prefix. |
| Dedup.FirstAlwaysKept | backend/services/pipeline.py:53-63 | With at least one embedding, index 0 is kept first. |
| Dedup.DroppedAreNotCompared | backend/services/pipeline.py:56-61 | A dropped index is never compared with. If 1 duplicates 0 and 2 duplicates only 1, the kept indices are [0, 2]. |
| NoiseFilter.FilterIndexedIff | backend/services/pipeline.py:110-126 | A slide is in the indexed filter's output exactly when it occurs at some position whose (slide, index) pair passes the test. |
| NoiseFilter.FilterSlides | backend/services/pipeline.py:110-126 | The filter keeps deck order: increasing numbers stay increasing, and it never adds slides. |
| NoiseFilter.FilterIff | backend/services/pipeline.py:112-126 | A slide survives exactly when it occurs at an index the deduplicator kept and it is not a noise page. A noise page is a heading, a titled slide with a blank or short one-line body, a title containing 目录, or an agenda body. |
| NoiseFilter.ShortTitledSlideDropped | backend/services/pipeline.py:110-115 | A titled slide whose body is one line of at most 30 characters once stripped never survives the filter. |
| Pipeline.Filtered | backend/services/pipeline.py:107-126 | The slides reaching grouping have increasing numbers. Each is a parsed record at a kept index and none is a noise page. |
| Pipeline.FilteredIff | backend/services/pipeline.py:107-126 | A slide reaches grouping exactly when it is not a noise page and is the parsed record at an index the deduplicator kept. |
| Pipeline.FilteredComplete | backend/services/pipeline.py:110-126 | Every parsed slide at a kept index that is not a noise page reaches grouping. |
| TopicTitles.PlainStepTitlesDoNotMatch | backend/services/pipeline.py:166 | "Step 1" and "第1步" do not match the step pattern as written. |
| TopicTitles.EscapedStepTitlesMatch | backend/services/pipeline.py:166 | A title matches when "step" (any case) or 第 is followed by a backslash, any run of s letters, a backslash and d. |
| TopicTitles.ResolveTitle | backend/services/pipeline.py:163-178 | A usable own title (present, not a step title, at most 60 characters) becomes both the effective and the last title. Otherwise the last title, or else the stripped section, is used, and the last title is unchanged. The last title stays within 60 characters. An empty effective title leaves it unchanged. |
| TopicTitles.Norm | backend/services/pipeline.py:146-151 | A key is in normal form: no ASCII capitals, no ASCII punctuation, no whitespace other than single inner spaces, and no space at either end. |
| TopicTitles.NormalFormFixed | backend/services/pipeline.py:146-151 | A normal-form string is unchanged by lower-casing, punctuation deletion, whitespace collapsing and stripping. |
| TopicTitles.NormOfNormal | backend/services/pipeline.py:146-151 | A string already in normal form is its own key. |
| TopicTitles.NormIdempotent | backend/services/pipeline.py:146-151 | Normalising a key again gives the same key. |
| TopicTitles.CollapseShape | backend/services/pipeline.py:151 | After collapsing, every character is a space or a non-space character of the input, and no two spaces are adjacent. |
| TopicTitles.CollapseNormal | backend/services/pipeline.py:151 | Collapsing leaves text unchanged when its only whitespace is single spaces. |
| TopicTitles.DeletePunctuation | backend/services/pipeline.py:150 | The result holds no ASCII punctuation and only characters of the input. Text without punctuation is unchanged. |
| TopicGrouping.KeyOf | backend/services/pipeline.py:180-182 | Both halves of a cluster key are in normal form. |
| TopicGrouping.FindKey | backend/services/pipeline.py:184 | Returns the first cluster with the key, or none when no cluster has it. |
| TopicGrouping.StepMatchesTag | backend/services/pipeline.py:157-193 | One step of the fold is one of two things. A skipped or dropped slide leaves the clusters unchanged. Otherwise the slide is placed under its key with its section and effective title. The last title changes only to the stripped own title of a usable, non-placeholder slide. |
| TopicGrouping.LastTitleIsLatestUsable | backend/services/pipeline.py:155-178 | After the fold, the last title is the stripped title of the latest usable non-placeholder slide, or "". |
| TopicGrouping.FirstKeys | backend/services/pipeline.py:184-193 | The cluster keys are distinct, and they are exactly the keys of the slides that reach a cluster. |
| TopicGrouping.AssignIsReference | backend/services/pipeline.py:153-193 | The fold's clusters equal the reference grouping: one cluster per distinct key, in order of first occurrence. Each cluster carries that slide's section and title, and its members are the slides with that key in input order. |
| TopicGrouping.AssignOrdered | backend/services/pipeline.py:153-193 | For slides with increasing numbers, each cluster is non-empty with increasing member numbers. Clusters are ordered by their first member. |
| TopicMerge.NonEmptyTexts | backend/services/pipeline.py:197-198 | The non-empty member texts: empty exactly when every member's text is empty. |
| TopicMerge.MergeCluster | backend/services/pipeline.py:196-217 | A cluster yields no topic exactly when all member texts are empty. Otherwise the topic keeps the cluster's title and section and its member numbers in order. The merged record has the least member number, no bullets or notes, the first member's level, and a non-empty text that is the non-empty member texts joined by line breaks. |
| TopicMerge.MergedTextSplits | backend/services/pipeline.py:197-205 | The merged text splits on line breaks into the lines of the non-empty member texts, member after member. When no member text holds a line break, these are the non-empty member texts themselves. |
| TopicMerge.MergeClusterOrdered | backend/services/pipeline.py:201-213 | For increasing members, the topic's numbers strictly increase and the merged number is the first member's. |
| TopicMerge.MergeAll | backend/services/pipeline.py:195-217 | Every merged topic is well formed, with non-empty numbers, a merged number that is their minimum and a non-empty text. Titles stay non-empty. |
| TopicMerge.Insert | backend/services/pipeline.py:219 | Inserting adds exactly that topic, as a multiset. |
| TopicMerge.InsertSorted | backend/services/pipeline.py:219 | Inserting into a list sorted by merged number keeps it sorted. |
| TopicMerge.SortTopics | backend/services/pipeline.py:219 | The sort returns a permutation of its input, ordered by merged number. |
| TopicMerge.SortSortedIsIdentity | backend/services/pipeline.py:219 | Sorting an already sorted list changes nothing. |
| TopicMerge.GroupTopics | backend/services/pipeline.py:144-220 | Grouping returns well-formed topics with non-empty titles, sorted by merged number. |
| TopicMerge.MergeAllSorted | backend/services/pipeline.py:195-219 | Ordered clusters merge into topics already sorted by merged number. |
| TopicMerge.MergeAllIncreasing | backend/services/pipeline.py:195-217 | From ordered clusters, every topic's numbers strictly increase and start at its merged number. |
| TopicMerge.GroupTopicsInClusterOrder | backend/services/pipeline.py:195-219 | For increasing input, the sort changes nothing: the topics come in cluster order with increasing numbers. |
| Llm.Fallback | backend/services/llm.py:22-24 | The fallback is the fixed offline prefix followed by the first 128 characters of the prompt, each line break replaced by a space. It holds no line break. |
| Llm.FallbackQuotesShortPrompt | backend/services/llm.py:22-24 | A short one-line prompt is quoted whole after the prefix. |
| Llm.Complete | backend/services/llm.py:26-53 | Without a key the result is the fallback. With a key it is the stripped reply, or the fallback on failure. Either way it is the fallback or text without outer whitespace. |
| Llm.NoKeyNoRequest | backend/services/llm.py:27-28 | Without a key the result does not depend on the backend, so no request is observable. |
| Llm.ExpandPrompt | backend/services/llm.py:55-62 | The prompt opens with the fixed instruction. |
| Llm.ExpandPromptLines | backend/services/llm.py:56-61 | The prompt's lines are: the instruction's lines, a blank line, the PPT label, the slide text's lines, a blank line, the snippet label, and then the lines of each snippet in turn (one empty line when there are no snippets). When no snippet holds a line break, that is one line per snippet. |
| Enrichment.SearchSnippets | backend/services/pipeline.py:79-85 | Without a title no search is made and the snippets are empty. |
| Enrichment.Summary | backend/services/pipeline.py:89 | The summary is the reply's first line: a prefix of the reply without line breaks, ending at the reply's end or at a line break. |
| Enrichment.ExpansionLines | backend/services/pipeline.py:90 | Every expansion is a non-blank line of the reply without line breaks. |
| Enrichment.WhereIff | backend/services/pipeline.py:90 | A line is in the filtered list exactly when it is one of the input lines and passes the test. |
| Enrichment.WhereAppend | backend/services/pipeline.py:90 | Filtering keeps order: filtering two runs of lines one after the other gives the two filtered runs one after the other. |
| Enrichment.ExpansionLinesIff | backend/services/pipeline.py:90 | A line is an expansion exactly when it is a line of the reply and is not blank. |
| Enrichment.ExpansionLinesConcat | backend/services/pipeline.py:90 | The expansions of two texts joined by a line break are the first text's expansions followed by the second's. |
| Enrichment.ExpansionLinesOfLine | backend/services/pipeline.py:90 | A one-line reply is its own single expansion when it is not blank, and gives none when it is. |
| Enrichment.ExpansionLinesRestoreReply | backend/services/pipeline.py:90 | If no line of the reply is blank, the expansions join back into the reply. |
| Enrichment.EnrichSlide | backend/services/pipeline.py:78-100 | Number, title, text and section are copied. The references are the retrieved context and the snippets the search results. The summary is the reply's first line: a line-break-free prefix that ends at the reply's end or at a line break. The expansions are exactly the reply's non-blank lines, each a single non-blank line. |
| Enrichment.CleanExpansions | backend/services/pipeline.py:224-236 | Every cleaned line passes the filter: it does not start with 1), 1. or 概要 in lower case, and it differs from the stripped summary. |
| Enrichment.CleanIff | backend/services/pipeline.py:224-236 | A line is in the cleaned list exactly when it is the stripped form of a non-empty expansion and passes the filter. |
| Enrichment.CleanIdempotent | backend/services/pipeline.py:224-236 | Cleaning twice equals cleaning once, and cleaned lines of visible expansions are non-empty. |
| Enrichment.StripFilterIff | backend/services/pipeline.py:225-235 | A string is in the filtered list exactly when it passes the filter and is the normalised form of some non-empty input line. |
| Enrichment.EnrichTopic | backend/services/pipeline.py:222-246 | A topic whose title contains 目录 or 知识块 yields nothing. Otherwise the note keeps title, numbers, section and merged text, with the merged record's enrichment and its expansions cleaned. |
| Enrichment.FallbackReplyHasNoExpansions | backend/services/pipeline.py:89-90 | A fallback reply is its own summary and leaves no cleaned expansions. |
| Enrichment.OneLineReplyHasNoExpansions | backend/services/pipeline.py:224-235 | Any one-line reply is its own summary and leaves no cleaned expansions. |
| Enrichment.NoKeyNoteIsFallback | backend/services/pipeline.py:222-246 | Without an API key, a topic's note has the fallback of its prompt as summary and no expansions. |
| Enrichment.AssembleOne | backend/services/pipeline.py:130-138 | A single topic contributes its note when enrichment gives one and nothing otherwise. |
| Enrichment.AssembleAppend | backend/services/pipeline.py:130-138 | Results are kept in topic order: assembling two runs of topics gives the two assemblies one after the other. |
| Enrichment.AssembleComplete | backend/services/pipeline.py:130-138 | Every topic for which enrichment gives a note has that note among the results. |
| Enrichment.AssembleSources | backend/services/pipeline.py:130-138 | Every assembled note is the non-empty result of enriching some input topic. |
| Enrichment.EnrichAllSources | backend/services/pipeline.py:130-138 | Every note comes from an input topic with the same title, and no note's title contains 目录 or 知识块. |
| Enrichment.EnrichAllComplete | backend/services/pipeline.py:130-138 | Every topic whose title contains neither 目录 nor 知识块 gets a note, and that note is among the results. |
| Enrichment.EnrichAllAppend | backend/services/pipeline.py:130-138 | Enriching two runs of topics gives the two runs of notes one after the other. |
| Enrichment.EnrichAllOne | backend/services/pipeline.py:130-138 | A single topic gives its note exactly when its title is not suppressed, and nothing otherwise. |
| Enrichment.EnrichAllAscending | backend/services/pipeline.py:130-138 | Topics sorted by merged number give notes in ascending order of least slide number. |
| Cache.CacheKey | backend/services/pipeline.py:248-251 | The cache file name ends in ".json". |
| Cache.CacheKeyInjective | backend/services/pipeline.py:250 | Distinct (stem, mtime, size) triples give distinct cache file names. |
| Cache.SavePayload | backend/services/pipeline.py:279-297 | The payload is an object whose "topics" member is a list with one entry per note. |
| Cache.DecodeNote | backend/services/pipeline.py:260-274 | A saved topic decodes only if it is an object with a string "title" and an "enrichment" object. That object needs a string "summary" and a list of strings "expansions", which give the note's fields. |
| Cache.LoadPayload | backend/services/pipeline.py:253-277 | A non-object payload fails to load. A payload without "topics" loads as an empty list. A "topics" list loads as its decoded items. |
| Cache.GetLast | backend/services/pipeline.py:258 | A key looked up in a JSON object yields its last binding. |
| Cache.EnrichmentRoundTrip | backend/services/pipeline.py:267-293 | An enrichment saved and decoded gives the same enrichment. |
| Cache.NoteRoundTrip | backend/services/pipeline.py:259-294 | A topic note saved and decoded gives the same note. |
| Cache.LoadSave | backend/services/pipeline.py:253-297 | Loading a saved payload gives back exactly the saved notes. |
| Cache.Load | backend/services/pipeline.py:253-277 | A missing cache file loads as nothing, an unreadable one loads as nothing, and a stored one loads as its payload. |
| Cache.Save | backend/services/pipeline.py:279-298 | Saving adds the deck's cache file and leaves every other file as it was. |
| Cache.LoadAfterSave | backend/services/pipeline.py:253-298 | Loading after saving gives back the saved notes. |
| Cache.SaveKeepsOthers | backend/services/pipeline.py:279-298 | Saving one deck's notes leaves every other deck's cache load unchanged. |
| Pipeline.Fresh | backend/services/pipeline.py:107-138 | A fresh run's notes are ascending by least slide number. |
| Pipeline.Run | backend/services/pipeline.py:102-142 | A non-empty cached list is returned as it is and the cache is unchanged. Otherwise the fresh notes are returned and saved. There are never global notes. |
| Pipeline.FreshComplete | backend/services/pipeline.py:128-138 | Every grouped topic whose title is not suppressed gets its note in a fresh run. |
| Pipeline.FreshTitles | backend/services/pipeline.py:128-138 | Every fresh note has a non-empty title without 目录 or 知识块. |
| Pipeline.MissIsAscending | backend/services/pipeline.py:127-141 | Without a cache entry for the file, the run's notes are in order of least slide number, and the cache gains exactly that file's entry. |
| Pipeline.SavedNotesAreServed | backend/services/pipeline.py:103-105 | A run for a file identity whose non-empty notes were saved returns exactly those notes, no global notes, and leaves the cache as it was. |
| Pipeline.RerunUsesCache | backend/services/pipeline.py:103-105 | A second run for the same file identity, after a run that produced notes, returns the same result whatever deck, services or similarity it sees. |
| Pipeline.RunKeepsOtherDecks | backend/services/pipeline.py:141 | A run leaves every other deck's cache load unchanged. |
| Pipeline.EmptyCacheIsRecomputed | backend/services/pipeline.py:103-105 | A cached empty list counts as a miss, and the notes are recomputed. |
| MarkdownExport.CleanWith | frontend/lib/download.ts:9-16 | Cleaning never lengthens a line and leaves no whitespace at either end. |
| MarkdownExport.CleanLine | frontend/lib/download.ts:9-16 | cleanLine never lengthens a line, and its result has no JavaScript whitespace at either end. |
| MarkdownExport.CleanIsSlice | frontend/lib/download.ts:9-16 | The cleaned line is a contiguous piece of the original. |
| MarkdownExport.CleanKeepsPlainText | frontend/lib/download.ts:9-16 | A trimmed line not starting with a dash, bullet or digit is unchanged. |
| MarkdownExport.CleanDoubleDash | frontend/lib/download.ts:12-14 | "-- x" becomes "- x", because the bullet rule removes only the first dash. |
| MarkdownExport.CleanNumberedLine | frontend/lib/download.ts:13 | "1. 定义" loses its number prefix. |
| MarkdownExport.Flush | frontend/lib/download.ts:48-60 | A line flips code mode exactly when it is a fence. Each line appends at most one part and keeps the earlier ones. |
| MarkdownExport.FlushAllMode | frontend/lib/download.ts:47-61 | After the expansions, code mode is on exactly when the start mode differs from the parity of the fence count. |
| MarkdownExport.FlushAllWithoutFences | frontend/lib/download.ts:47-61 | Without fences, outside code the parts are the non-empty cleaned lines, and inside code they are the lines verbatim. |
| MarkdownExport.FlushAllSources | frontend/lib/download.ts:48-60 | Every part is some expansion line verbatim or its non-empty cleaned form. |
| MarkdownExport.IndentedFenceDoesNotToggle | frontend/lib/download.ts:49-58 | An indented fence is cleaned to a fence line but does not switch code mode on. |
| MarkdownExport.TocEntriesIff | frontend/lib/download.ts:23-36 | A line is a contents entry exactly when it is "- " plus the title of a topic with a non-empty title free of the placeholder words. |
| MarkdownExport.TocBlock | frontend/lib/download.ts:21-38 | The contents block is empty exactly when there are no topics. Otherwise it is the heading, the entries and an empty line. |
| MarkdownExport.SnippetBlock | frontend/lib/download.ts:63-70 | The snippet block is empty exactly when there are no snippets. Otherwise it is its heading, the non-empty cleaned snippets and an empty line. |
| MarkdownExport.SectionLines | frontend/lib/download.ts:43 | The section line is present exactly when the topic has a non-empty section. |
| MarkdownExport.TopicHead | frontend/lib/download.ts:42-46 | The topic heading, the optional section line, an empty line, the content heading and the cleaned summary (even when empty). |
| MarkdownExport.TopicBlock | frontend/lib/download.ts:41-70 | A topic's lines are its head, then its expansions written from code mode off, an empty line, and its snippet block. |
| MarkdownExport.TopicBlocks | frontend/lib/download.ts:41-71 | The topic blocks are empty exactly when there are no topics. |
| MarkdownExport.TopicBlocksAppend | frontend/lib/download.ts:41-71 | Code mode restarts off for every topic, so the blocks of two runs of topics are the two runs of blocks one after the other. |
| MarkdownExport.Parts | frontend/lib/download.ts:19-71 | The parts are the contents block, the notes heading (always present) and the topic blocks, in that order. |
| MarkdownExport.DocumentLines | frontend/lib/download.ts:73 | The document splits on line breaks into the lines of its parts, part after part. When no part holds a line break, that is exactly the parts. |
| Paths.NameIsComponent | backend/routers/ppt.py:25 | A path's name holds no slash and is a contiguous piece of the path. |
| Paths.TrailingSlashIgnored | backend/routers/ppt.py:25 | A trailing slash does not change a path's name. |
| Paths.TrailingDotIgnored | backend/routers/ppt.py:25 | A trailing "/." component does not change a path's name. |
| Paths.Suffix | backend/routers/ppt.py:25 | A suffix is empty or a dot followed by at least one non-dot character. |
| Paths.SuffixOfName | backend/routers/ppt.py:25 | A non-empty stem, a dot and a dot-free extension have that dot and extension as suffix. |
| Paths.NameOfAppend | backend/routers/ppt.py:44 | Slash-free text not ending in a dot extends the path's last component. |
| Paths.PathSuffixAppend | backend/routers/ppt.py:44 | A path not ending in a slash, followed by a dot and an extension without dots or slashes, has that suffix. |
| Download.SniffIff | backend/routers/ppt.py:40-41 | Content is taken for HTML exactly when it opens, ignoring ASCII case, with "<!doctype" or "<html". |
| Download.SniffReadsOnlyOpening | backend/routers/ppt.py:40-41 | Bytes after the opening do not change the HTML decision. |
| Download.SniffIgnoresCase | backend/routers/ppt.py:40 | Lower-casing the content does not change the HTML decision. |
| Download.UrlSuffix | backend/routers/ppt.py:44-50 | The chosen suffix is always ".ppt" or ".pptx". |
| Download.OwnSuffixWins | backend/routers/ppt.py:44-45 | A URL whose lower-cased suffix is ".ppt" or ".pptx" keeps it, whatever the content type. |
| Download.UrlNamesPowerPoint | backend/routers/ppt.py:44-45 | A URL ending in ".ppt" or ".pptx" in any case gets that suffix in lower case, whatever the content type. |
| Download.ContentTypeDecides | backend/routers/ppt.py:45-50 | Otherwise the suffix is ".ppt" exactly when the content type mentions "ppt" but not "pptx". |
| Download.QueryHidesSuffix | backend/routers/ppt.py:44-50 | A query string becomes part of the suffix, so such a URL falls back to the content type; with none it gets ".pptx". |
| Download.FromUrl | backend/routers/ppt.py:31-50 | A refusal is always a 400. A download is accepted exactly when it succeeded with a non-empty body that is not HTML, keeping the body and a PowerPoint suffix. A failed download's detail starts with the download-failure text. |
| Router.Decide | backend/routers/ppt.py:21-50 | A refusal is always a 400. Without a file or a non-empty URL the request is refused with the no-input detail. A file is accepted with its own name's suffix, and the URL is not consulted. A URL is accepted only with a non-empty, non-HTML body and a PowerPoint suffix. |
| Router.Respond | backend/routers/ppt.py:55-57 | The reply has no per-slide results and no global notes; its topics are the run's notes. |
| Router.RepeatedRequestSameReply | backend/routers/ppt.py:55-57 | A second request with the same file identity, after a run that produced notes, gets the same reply. |

## Left out

- Embeddings and the vector index: the similarity of two slides is an input function, so normalised dot products and floating point are not modelled.
- Web search, context retrieval, the completion HTTP call and the URL download are input functions. The `{score:.2f}` formatting of retrieved context is not modelled.
- The thread pool that enriches topics concurrently is modelled as a sequential, order-preserving map. Only the ordering of the results matters to the output.
- JSON text, file reads and writes, `stat`, `mkdir` and temporary files are left out. The cache payload is a JSON tree and the cache directory is a map, and a file that fails to parse is a `Corrupt` entry.
- python-pptx extraction is left out: shapes, paragraphs, runs and notes text are abstract inputs.
- `summarize_global` is never called. The PDF export, the browser download and the user interface are presentation only.
- Settings, application wiring and the web framework are left out. An uploaded file that is present is taken as truthy.
- `splitlines` is modelled as splitting on "\n" only.
- `lower()` is ASCII-only.
- Python's `\s` and `str.strip` share one whitespace set (`Strings.IsPySpace`), and JavaScript's `\s` and `trim` share another (`Strings.IsJsSpace`). Each is written out as the full character set the language defines.
- NoiseFilter.FilterIff: the numbered-line pattern `^\d+[.、)]` counts only the ASCII digits 0-9. Python's `\d` also matches every other Unicode decimal digit, such as the full-width ０-９, so an agenda numbered that way is not recognised by the model. The Unicode digit table is not modelled.
- Pipeline.Filtered: inherits the ASCII-only reading of `\d` in the agenda test from `NoiseFilter.FilterIff`.
- NoiseFilter.LooksLikeAgenda: counts numbered lines with ASCII digits only, for the same reason.
- NoiseFilter.LooksLikeAgenda: the ratio test `num / len >= 0.6` is stated exactly in integers as `5·num >= 3·len`.
- Paths.PathSuffix: follows the suffix rule of Python up to 3.12, where a name ending in a dot has no suffix. Windows paths are not modelled.
- Router.Decide: an uploaded file without a filename is not modelled.
- Pydantic's type coercions when loading the cache are not modelled.
