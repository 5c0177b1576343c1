/** The on-disk cache of topic notes: the file name derived from the deck's
    stem, modification time and size, the JSON payload the notes are saved
    as, and the way a payload is read back. JSON is modelled as a value tree;
    its text form and the file system are not modelled. */
module Cache {
  import opened Wrappers
  import opened Strings
  import opened Models

  // ---------------------------------------------------------------------
  // The cache file name
  // ---------------------------------------------------------------------

  /** What identifies a deck on disk: the file name without its suffix, the
      modification time in nanoseconds and the size in bytes. */
  datatype FileId = FileId(stem: string, mtimeNs: int, size: nat)

  /** The cache file name `{stem}_{mtime_ns}_{size}.json`. */
  function CacheKey(id: FileId): (r: string)
    ensures |r| > 5 && r[|r| - 5..] == ".json"
  {
    id.stem + "_" + IntToString(id.mtimeNs) + "_" + NatToString(id.size) + ".json"
  }

  /** The length of the longest suffix of `s` without an underscore. */
  function TailWithoutUnderscore(s: string): (r: nat)
    ensures r <= |s|
    decreases |s|
  {
    if s == [] || s[|s| - 1] == '_' then 0 else 1 + TailWithoutUnderscore(s[..|s| - 1])
  }

  lemma {:induction false} TailAfterUnderscore(a: string, b: string)
    requires forall i :: 0 <= i < |b| ==> b[i] != '_'
    ensures TailWithoutUnderscore(a + "_" + b) == |b|
    decreases |b|
  {
    var s := a + "_" + b;
    if b != [] {
      var b' := b[..|b| - 1];
      assert s[..|s| - 1] == a + "_" + b';
      TailAfterUnderscore(a, b');
    }
  }

  /** Two strings each joined to a tail without underscores at their last
      underscore are equal only when both parts are. */
  lemma SplitAtLastUnderscore(a: string, b: string, c: string, d: string)
    requires forall i :: 0 <= i < |b| ==> b[i] != '_'
    requires forall i :: 0 <= i < |d| ==> d[i] != '_'
    requires a + "_" + b == c + "_" + d
    ensures a == c && b == d
  {
    var s := a + "_" + b;
    TailAfterUnderscore(a, b);
    TailAfterUnderscore(c, d);
    assert a == s[..|a|] == c;
    assert b == s[|a| + 1..] == d;
  }

  /** Distinct decks, by stem, time or size, get distinct cache files, even
      when the stem itself holds underscores. */
  lemma CacheKeyInjective(x: FileId, y: FileId)
    requires CacheKey(x) == CacheKey(y)
    ensures x == y
  {
    var mx := IntToString(x.mtimeNs);
    var my := IntToString(y.mtimeNs);
    var sx := NatToString(x.size);
    var sy := NatToString(y.size);
    var kx := x.stem + "_" + mx + "_" + sx;
    var ky := y.stem + "_" + my + "_" + sy;
    assert kx == CacheKey(x)[..|CacheKey(x)| - 5];
    assert ky == CacheKey(y)[..|CacheKey(y)| - 5];
    assert forall i :: 0 <= i < |sx| ==> sx[i] != '_';
    assert forall i :: 0 <= i < |sy| ==> sy[i] != '_';
    SplitAtLastUnderscore(x.stem + "_" + mx, sx, y.stem + "_" + my, sy);
    SplitAtLastUnderscore(x.stem, mx, y.stem, my);
    IntToStringInjective(x.mtimeNs, y.mtimeNs);
    NatToStringInjective(x.size, y.size);
  }

  // ---------------------------------------------------------------------
  // JSON values
  // ---------------------------------------------------------------------

  /** A parsed JSON value. Object members keep their textual order,
      duplicates included. */
  datatype Json =
    | JNull
    | JBool(b: bool)
    | JInt(i: int)
    | JString(s: string)
    | JArray(items: seq<Json>)
    | JObject(fields: seq<(string, Json)>)

  /** The value of `key` in an object's members: the last one wins, as when
      a JSON object is read into a dictionary. */
  function Get(fields: seq<(string, Json)>, key: string): (r: Option<Json>)
    ensures r.None? <==> forall i :: 0 <= i < |fields| ==> fields[i].0 != key
    ensures r.Some? ==> exists i :: 0 <= i < |fields| && fields[i] == (key, r.value)
    decreases |fields|
  {
    if fields == [] then None
    else
      var n := |fields|;
      if fields[n - 1].0 == key then Some(fields[n - 1].1)
      else
        var r := Get(fields[..n - 1], key);
        assert forall i :: 0 <= i < n - 1 ==> fields[..n - 1][i] == fields[i];
        r
  }

  // ---------------------------------------------------------------------
  // Saving
  // ---------------------------------------------------------------------

  function StringsToJson(xs: seq<string>): (r: Json)
    ensures r.JArray? && |r.items| == |xs|
  {
    JArray(seq(|xs|, i requires 0 <= i < |xs| => JString(xs[i])))
  }

  function IntsToJson(xs: seq<int>): (r: Json)
    ensures r.JArray? && |r.items| == |xs|
  {
    JArray(seq(|xs|, i requires 0 <= i < |xs| => JInt(xs[i])))
  }

  function EncodeEnrichment(e: EnrichmentItem): (r: Json)
    ensures r.JObject?
  {
    JObject([
      ("summary", JString(e.summary)),
      ("expansions", StringsToJson(e.expansions)),
      ("references", StringsToJson(e.references)),
      ("search_snippets", StringsToJson(e.searchSnippets))
    ])
  }

  /** One saved topic: every field of the note under its snake-case name, a
      missing section as `null`. */
  function EncodeNote(n: TopicNote): (r: Json)
    ensures r.JObject?
  {
    JObject([
      ("title", JString(n.title)),
      ("slide_numbers", IntsToJson(n.slideNumbers)),
      ("section", if n.section.Some? then JString(n.section.value) else JNull),
      ("raw_text", JString(n.rawText)),
      ("enrichment", EncodeEnrichment(n.enrichment))
    ])
  }

  /** The saved payload: an object whose only member `topics` lists the
      notes in order. */
  function SavePayload(notes: seq<TopicNote>): (r: Json)
    ensures r.JObject? && Get(r.fields, "topics").Some?
    ensures Get(r.fields, "topics").value.JArray? && |Get(r.fields, "topics").value.items| == |notes|
  {
    JObject([("topics", JArray(seq(|notes|, i requires 0 <= i < |notes| => EncodeNote(notes[i]))))])
  }

  // ---------------------------------------------------------------------
  // Loading
  // ---------------------------------------------------------------------

  /** The strings of a list of JSON strings; nothing if any item is not a
      string. */
  function StringItems(items: seq<Json>): (r: Option<seq<string>>)
    ensures r.Some? <==> forall i :: 0 <= i < |items| ==> items[i].JString?
    ensures r.Some? ==> |r.value| == |items| && forall i :: 0 <= i < |items| ==> r.value[i] == items[i].s
    decreases |items|
  {
    if items == [] then Some([])
    else
      var n := |items|;
      var prev := StringItems(items[..n - 1]);
      assert forall i :: 0 <= i < n - 1 ==> items[..n - 1][i] == items[i];
      if prev.Some? && items[n - 1].JString? then Some(prev.value + [items[n - 1].s]) else None
  }

  /** The integers of a list of JSON integers; nothing if any item is not an
      integer. */
  function IntItems(items: seq<Json>): (r: Option<seq<int>>)
    ensures r.Some? <==> forall i :: 0 <= i < |items| ==> items[i].JInt?
    ensures r.Some? ==> |r.value| == |items| && forall i :: 0 <= i < |items| ==> r.value[i] == items[i].i
    decreases |items|
  {
    if items == [] then Some([])
    else
      var n := |items|;
      var prev := IntItems(items[..n - 1]);
      assert forall i :: 0 <= i < n - 1 ==> items[..n - 1][i] == items[i];
      if prev.Some? && items[n - 1].JInt? then Some(prev.value + [items[n - 1].i]) else None
  }

  /** A list of strings, or nothing for any other value. */
  function AsStrings(j: Json): Option<seq<string>> {
    if j.JArray? then StringItems(j.items) else None
  }

  /** An optional list member: the default when absent, the list when it is
      a list of strings, nothing otherwise. */
  function StringsOr(fields: seq<(string, Json)>, key: string): Option<seq<string>> {
    match Get(fields, key)
    case None => Some([])
    case Some(j) => AsStrings(j)
  }

  /** The enrichment of a saved topic. `summary` and `expansions` must be
      present; `references` and `search_snippets` default to empty. */
  function DecodeEnrichment(j: Json): (r: Option<EnrichmentItem>)
    ensures r.Some? ==>
      && j.JObject?
      && Get(j.fields, "summary") == Some(JString(r.value.summary))
      && Get(j.fields, "expansions").Some?
      && AsStrings(Get(j.fields, "expansions").value) == Some(r.value.expansions)
  {
    if !j.JObject? then None
    else
      var fs := j.fields;
      match (Get(fs, "summary"), Get(fs, "expansions"), StringsOr(fs, "references"), StringsOr(fs, "search_snippets"))
      case (Some(JString(summary)), Some(ex), Some(refs), Some(snips)) =>
        (match AsStrings(ex)
         case Some(expansions) => Some(EnrichmentItem(summary, expansions, refs, snips))
         case None => None)
      case _ => None
  }

  /** `slide_numbers`: empty when absent, otherwise a list of integers. */
  function NumbersField(fs: seq<(string, Json)>): Option<seq<int>> {
    match Get(fs, "slide_numbers")
    case None => Some([])
    case Some(j) => if j.JArray? then IntItems(j.items) else None
  }

  /** `section`: none when absent or `null`, otherwise a string. */
  function SectionField(fs: seq<(string, Json)>): Option<Option<string>> {
    match Get(fs, "section")
    case None => Some(None)
    case Some(j) => if j.JNull? then Some(None) else if j.JString? then Some(Some(j.s)) else None
  }

  /** `raw_text`: empty when absent, otherwise a string. */
  function RawTextField(fs: seq<(string, Json)>): Option<string> {
    match Get(fs, "raw_text")
    case None => Some("")
    case Some(j) => if j.JString? then Some(j.s) else None
  }

  /** A saved topic. The item must be an object with a string `title` and an
      `enrichment` object; `slide_numbers` defaults to empty, `section` to
      none and `raw_text` to the empty string. */
  function DecodeNote(j: Json): (r: Option<TopicNote>)
    ensures r.Some? ==>
      && j.JObject?
      && Get(j.fields, "title") == Some(JString(r.value.title))
      && Get(j.fields, "enrichment").Some?
      && DecodeEnrichment(Get(j.fields, "enrichment").value) == Some(r.value.enrichment)
  {
    if !j.JObject? then None
    else
      var fs := j.fields;
      match (Get(fs, "title"), NumbersField(fs), SectionField(fs), RawTextField(fs), Get(fs, "enrichment"))
      case (Some(JString(title)), Some(ns), Some(sec), Some(text), Some(e)) =>
        (match DecodeEnrichment(e)
         case Some(item) => Some(TopicNote(title, ns, sec, text, item))
         case None => None)
      case _ => None
  }

  /** The results of `decode` on every item, or nothing if any fails. */
  function DecodeAll<T>(items: seq<Json>, decode: Json -> Option<T>): (r: Option<seq<T>>)
    ensures r.Some? <==> forall i :: 0 <= i < |items| ==> decode(items[i]).Some?
    ensures r.Some? ==> |r.value| == |items| && forall i :: 0 <= i < |items| ==> r.value[i] == decode(items[i]).value
    decreases |items|
  {
    if items == [] then Some([])
    else
      var n := |items|;
      var prev := DecodeAll(items[..n - 1], decode);
      assert forall i :: 0 <= i < n - 1 ==> items[..n - 1][i] == items[i];
      match (prev, decode(items[n - 1]))
      case (Some(ps), Some(t)) => Some(ps + [t])
      case _ => None
  }

  /** The notes of a list of saved topics, or nothing if any item fails. */
  function DecodeNotes(items: seq<Json>): (r: Option<seq<TopicNote>>)
    ensures r.Some? <==> forall i :: 0 <= i < |items| ==> DecodeNote(items[i]).Some?
    ensures r.Some? ==> |r.value| == |items| && forall i :: 0 <= i < |items| ==> r.value[i] == DecodeNote(items[i]).value
  {
    DecodeAll(items, DecodeNote)
  }

  /** Reading a payload back. The payload must be an object. A missing
      `topics` member reads as no topics; a list is read item by item; an
      empty string or empty object iterates to no topics; anything else
      fails. Any failure makes the whole read fail. */
  function LoadPayload(j: Json): (r: Option<seq<TopicNote>>)
    ensures !j.JObject? ==> r.None?
    ensures j.JObject? && Get(j.fields, "topics").None? ==> r == Some([])
    ensures j.JObject? && Get(j.fields, "topics").Some? && Get(j.fields, "topics").value.JArray? ==>
      r == DecodeNotes(Get(j.fields, "topics").value.items)
  {
    if !j.JObject? then None
    else
      match Get(j.fields, "topics")
      case None => Some([])
      case Some(JArray(items)) => DecodeNotes(items)
      case Some(JString(s)) => if s == "" then Some([]) else None
      case Some(JObject(fs)) => if fs == [] then Some([]) else None
      case Some(_) => None
  }

  // ---------------------------------------------------------------------
  // Round trip
  // ---------------------------------------------------------------------

  /** The member found is the last one with the key. */
  lemma {:induction false} GetLast(fields: seq<(string, Json)>, i: nat)
    requires i < |fields|
    requires forall j :: i < j < |fields| ==> fields[j].0 != fields[i].0
    ensures Get(fields, fields[i].0) == Some(fields[i].1)
    decreases |fields|
  {
    var n := |fields|;
    if i < n - 1 {
      var prefix := fields[..n - 1];
      assert forall j :: i < j < |prefix| ==> prefix[j] == fields[j];
      GetLast(prefix, i);
    }
  }

  lemma StringsRoundTrip(xs: seq<string>)
    ensures AsStrings(StringsToJson(xs)) == Some(xs)
  {
    assert StringItems(StringsToJson(xs).items).value == xs;
  }

  lemma IntsRoundTrip(xs: seq<int>)
    ensures IntItems(IntsToJson(xs).items) == Some(xs)
  {
    assert IntItems(IntsToJson(xs).items).value == xs;
  }

  /** A saved enrichment reads back as itself. */
  lemma EnrichmentRoundTrip(e: EnrichmentItem)
    ensures DecodeEnrichment(EncodeEnrichment(e)) == Some(e)
  {
    var fs := EncodeEnrichment(e).fields;
    GetLast(fs, 0);
    GetLast(fs, 1);
    GetLast(fs, 2);
    GetLast(fs, 3);
    StringsRoundTrip(e.expansions);
    StringsRoundTrip(e.references);
    StringsRoundTrip(e.searchSnippets);
  }

  /** The optional members of a saved note read back as themselves. */
  lemma NoteFieldsRoundTrip(n: TopicNote)
    ensures NumbersField(EncodeNote(n).fields) == Some(n.slideNumbers)
    ensures SectionField(EncodeNote(n).fields) == Some(n.section)
    ensures RawTextField(EncodeNote(n).fields) == Some(n.rawText)
  {
    NoteMembers(JString(n.title), IntsToJson(n.slideNumbers),
      if n.section.Some? then JString(n.section.value) else JNull,
      JString(n.rawText), EncodeEnrichment(n.enrichment));
    IntsRoundTrip(n.slideNumbers);
  }

  /** Each member of a saved note's object is found under its own key. */
  lemma NoteMembers(title: Json, numbers: Json, section: Json, rawText: Json, enrichment: Json)
    ensures var fs := [("title", title), ("slide_numbers", numbers), ("section", section),
                       ("raw_text", rawText), ("enrichment", enrichment)];
      && Get(fs, "title") == Some(title)
      && Get(fs, "slide_numbers") == Some(numbers)
      && Get(fs, "section") == Some(section)
      && Get(fs, "raw_text") == Some(rawText)
      && Get(fs, "enrichment") == Some(enrichment)
  {
    var fs := [("title", title), ("slide_numbers", numbers), ("section", section),
               ("raw_text", rawText), ("enrichment", enrichment)];
    GetLast(fs, 0);
    GetLast(fs, 1);
    GetLast(fs, 2);
    GetLast(fs, 3);
    GetLast(fs, 4);
  }

  /** A saved note reads back as itself. */
  lemma NoteRoundTrip(n: TopicNote)
    ensures DecodeNote(EncodeNote(n)) == Some(n)
  {
    NoteFieldsRoundTrip(n);
    NoteMembers(JString(n.title), IntsToJson(n.slideNumbers),
      if n.section.Some? then JString(n.section.value) else JNull,
      JString(n.rawText), EncodeEnrichment(n.enrichment));
    EnrichmentRoundTrip(n.enrichment);
  }

  /** Loading what was saved gives back the same notes in the same order. */
  lemma LoadSave(notes: seq<TopicNote>)
    ensures LoadPayload(SavePayload(notes)) == Some(notes)
  {
    var items := Get(SavePayload(notes).fields, "topics").value.items;
    forall i | 0 <= i < |notes|
      ensures DecodeNote(items[i]) == Some(notes[i])
    {
      NoteRoundTrip(notes[i]);
    }
    assert DecodeNotes(items).value == notes;
  }

  // ---------------------------------------------------------------------
  // The cache directory
  // ---------------------------------------------------------------------

  /** A cache file: a parsed payload, or text that is not valid JSON. */
  datatype CacheFile = Stored(payload: Json) | Corrupt

  type CacheDir = map<string, CacheFile>

  /** The cached notes of a deck: nothing when there is no cache file, when
      it cannot be parsed, or when its payload cannot be read. */
  function Load(dir: CacheDir, id: FileId): (r: Option<seq<TopicNote>>)
    ensures CacheKey(id) !in dir ==> r.None?
    ensures CacheKey(id) in dir && dir[CacheKey(id)].Stored? ==> r == LoadPayload(dir[CacheKey(id)].payload)
    ensures CacheKey(id) in dir && dir[CacheKey(id)].Corrupt? ==> r.None?
  {
    var key := CacheKey(id);
    if key !in dir then None
    else match dir[key]
      case Stored(j) => LoadPayload(j)
      case Corrupt => None
  }

  /** Saving the notes of a deck writes its cache file and no other. */
  function Save(dir: CacheDir, id: FileId, notes: seq<TopicNote>): (r: CacheDir)
    ensures r.Keys == dir.Keys + {CacheKey(id)}
    ensures forall k :: k in dir && k != CacheKey(id) ==> r[k] == dir[k]
  {
    dir[CacheKey(id) := Stored(SavePayload(notes))]
  }

  /** After saving, loading the same deck gives the saved notes. */
  lemma LoadAfterSave(dir: CacheDir, id: FileId, notes: seq<TopicNote>)
    ensures Load(Save(dir, id, notes), id) == Some(notes)
  {
    LoadSave(notes);
  }

  /** Saving one deck leaves what any other deck loads unchanged. */
  lemma SaveKeepsOthers(dir: CacheDir, id: FileId, other: FileId, notes: seq<TopicNote>)
    requires other != id
    ensures Load(Save(dir, id, notes), other) == Load(dir, other)
  {
    if CacheKey(other) == CacheKey(id) {
      CacheKeyInjective(other, id);
    }
  }
}
