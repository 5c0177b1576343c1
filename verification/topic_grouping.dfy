/** Topic grouping: the filtered slides, in deck order, are assigned to
    clusters keyed by their normalised (section, effective title) pair; each
    cluster is merged into one topic record, and the topics are ordered by
    the least slide number they cover. */
module TopicGrouping {
  import opened Wrappers
  import opened Strings
  import opened Models
  import opened TopicTitles

  type Key = (string, string)

  /** The key of a slide with `section` and effective title `title`. */
  function KeyOf(section: Option<string>, title: string): (k: Key)
    ensures IsNormalForm(k.0) && IsNormalForm(k.1)
  {
    (Norm(section), Norm(Some(title)))
  }

  /** A group of slides sharing a key, with the key it is indexed under.
      `section` and `title` are those of the slide that opened the cluster;
      `title` is its effective title. */
  datatype Cluster = Cluster(key: Key, section: Option<string>, title: string, slides: seq<SlideChunk>)

  /** The clusters built so far and the running last title. */
  datatype GroupState = GroupState(clusters: seq<Cluster>, lastTitle: string)

  /** The position of the cluster with `key`, if any, and there is no earlier
      one with it. */
  function FindKey(cs: seq<Cluster>, key: Key): (r: Option<nat>)
    ensures r.Some? ==> r.value < |cs| && cs[r.value].key == key
    ensures r.Some? ==> forall i :: 0 <= i < r.value ==> cs[i].key != key
    ensures r.None? ==> forall i :: 0 <= i < |cs| ==> cs[i].key != key
    decreases |cs|
  {
    if cs == [] then None
    else if cs[0].key == key then Some(0)
    else match FindKey(cs[1..], key)
      case None => None
      case Some(i) => Some(i + 1)
  }

  /** Adds `slide` to the cluster indexed under `key`, or opens a new
      cluster for it at the end. */
  function Place(cs: seq<Cluster>, key: Key, section: Option<string>, title: string, slide: SlideChunk): seq<Cluster> {
    match FindKey(cs, key)
    case Some(i) => cs[i := cs[i].(slides := cs[i].slides + [slide])]
    case None => cs + [Cluster(key, section, title, [slide])]
  }

  /** One slide of the grouping loop: placeholders are skipped; otherwise the
      effective title is resolved, the slide is dropped when it is empty, and
      placed by its key when it is not. */
  function Step(st: GroupState, slide: SlideChunk): GroupState {
    if IsPlaceholderTitle(slide.title) then st
    else
      var (eff, last) := ResolveTitle(slide.title, slide.section, st.lastTitle);
      if eff == "" then GroupState(st.clusters, last)
      else GroupState(Place(st.clusters, KeyOf(slide.section, eff), slide.section, eff, slide), last)
  }

  /** The grouping loop over `slides`, from no clusters and an empty last
      title. */
  function Assign(slides: seq<SlideChunk>): GroupState
    decreases |slides|
  {
    if slides == [] then GroupState([], "")
    else Step(Assign(slides[..|slides| - 1]), slides[|slides| - 1])
  }

  // ---------------------------------------------------------------------
  // The reference: what each slide's effective title is, and which
  // clusters that yields, without the loop state
  // ---------------------------------------------------------------------

  /** The stripped title of the latest slide that is not a placeholder and
      has a usable title of its own; empty when there is none. */
  function LastUsableTitle(slides: seq<SlideChunk>): (r: string)
    ensures LastTitleOk(r)
    decreases |slides|
  {
    if slides == [] then ""
    else
      var s := slides[|slides| - 1];
      if !IsPlaceholderTitle(s.title) && HasUsableTitle(s.title) then Strip(s.title.value)
      else LastUsableTitle(slides[..|slides| - 1])
  }

  /** A slide that joins a topic, with its effective title and the key
      they give. */
  datatype Tag = Tag(slide: SlideChunk, title: string, key: Key)

  /** The tag of one slide given the last title before it: empty for a
      placeholder and for a slide whose effective title is empty. */
  function TagOf(s: SlideChunk, last: string): (r: seq<Tag>)
    ensures |r| <= 1
    ensures |r| == 1 ==> r[0].slide == s && r[0].title != ""
  {
    var eff := ResolveTitle(s.title, s.section, last).0;
    if !IsPlaceholderTitle(s.title) && eff != "" then [Tag(s, eff, KeyOf(s.section, eff))] else []
  }

  /** The slides that join a topic, in order, each with its effective title:
      the one the title rules give against the latest usable title before
      it. Placeholders and slides whose effective title is empty are left
      out. */
  function Tagged(slides: seq<SlideChunk>): (r: seq<Tag>)
    ensures |r| <= |slides|
    ensures forall i :: 0 <= i < |r| ==> r[i].title != ""
    decreases |slides|
  {
    if slides == [] then []
    else
      var n := |slides|;
      Tagged(slides[..n - 1]) + TagOf(slides[n - 1], LastUsableTitle(slides[..n - 1]))
  }

  /** The first tag with key `k`, if any. */
  function FirstTagWith(ts: seq<Tag>, k: Key): (r: Option<Tag>)
    ensures r.Some? ==> r.value.key == k && r.value in ts
    ensures r.None? ==> forall i :: 0 <= i < |ts| ==> ts[i].key != k
    decreases |ts|
  {
    if ts == [] then None
    else
      var prev := FirstTagWith(ts[..|ts| - 1], k);
      if prev.Some? then prev
      else if ts[|ts| - 1].key == k then Some(ts[|ts| - 1])
      else None
  }

  /** The distinct keys of `ts` in order of first occurrence. */
  function FirstKeys(ts: seq<Tag>): (r: seq<Key>)
    ensures forall k :: k in r <==> FirstTagWith(ts, k).Some?
    ensures forall i, j :: 0 <= i < j < |r| ==> r[i] != r[j]
    decreases |ts|
  {
    if ts == [] then []
    else
      var prev := FirstKeys(ts[..|ts| - 1]);
      var k := ts[|ts| - 1].key;
      if FirstTagWith(ts[..|ts| - 1], k).Some? then prev else prev + [k]
  }

  /** The slides of the tags with key `k`, in order. */
  function Members(ts: seq<Tag>, k: Key): (r: seq<SlideChunk>)
    ensures |r| > 0 <==> FirstTagWith(ts, k).Some?
    decreases |ts|
  {
    if ts == [] then []
    else
      var t := ts[|ts| - 1];
      Members(ts[..|ts| - 1], k) + (if t.key == k then [t.slide] else [])
  }

  /** The clusters the tags determine: one per distinct key, in order of
      first occurrence, carrying the section and effective title of its
      first slide and all the slides with that key in deck order. */
  function ReferenceClusters(ts: seq<Tag>): (r: seq<Cluster>)
    ensures |r| == |FirstKeys(ts)|
  {
    var keys := FirstKeys(ts);
    seq(|keys|, i requires 0 <= i < |keys| =>
      var t := FirstTagWith(ts, keys[i]).value;
      Cluster(keys[i], t.slide.section, t.title, Members(ts, keys[i])))
  }

  /** Appending a tag to the reference is what `Place` does to the
      clusters. */
  lemma ReferenceAppend(ts: seq<Tag>, t: Tag)
    ensures ReferenceClusters(ts + [t]) == Place(ReferenceClusters(ts), t.key, t.slide.section, t.title, t.slide)
  {
    match FindKey(ReferenceClusters(ts), t.key)
    case Some(p) => ReferenceAppendFound(ts, t, p);
    case None => ReferenceAppendNew(ts, t);
  }

  /** The case of a key already indexed: its cluster gains the slide. */
  lemma ReferenceAppendFound(ts: seq<Tag>, t: Tag, p: nat)
    requires FindKey(ReferenceClusters(ts), t.key) == Some(p)
    ensures ReferenceClusters(ts + [t]) == Place(ReferenceClusters(ts), t.key, t.slide.section, t.title, t.slide)
  {
    var ts' := ts + [t];
    assert ts'[..|ts'| - 1] == ts;
    var cs := ReferenceClusters(ts);
    var keys := FirstKeys(ts);
    assert forall i :: 0 <= i < |cs| ==> cs[i].key == keys[i];
    var r' := ReferenceClusters(ts');
    var placed := Place(cs, t.key, t.slide.section, t.title, t.slide);
    assert FirstKeys(ts') == keys;
    assert placed == cs[p := cs[p].(slides := cs[p].slides + [t.slide])];
    forall i | 0 <= i < |keys|
      ensures r'[i] == placed[i]
    {
      assert FirstTagWith(ts', keys[i]) == FirstTagWith(ts, keys[i]);
    }
  }

  /** The case of a new key: a cluster for it opens at the end. */
  lemma ReferenceAppendNew(ts: seq<Tag>, t: Tag)
    requires FindKey(ReferenceClusters(ts), t.key).None?
    ensures ReferenceClusters(ts + [t]) == Place(ReferenceClusters(ts), t.key, t.slide.section, t.title, t.slide)
  {
    var ts' := ts + [t];
    var cs := ReferenceClusters(ts);
    var keys := FirstKeys(ts);
    var k := t.key;
    assert forall i :: 0 <= i < |cs| ==> cs[i].key == keys[i];
    var r' := ReferenceClusters(ts');
    var placed := Place(cs, k, t.slide.section, t.title, t.slide);
    assert k !in keys;
    assert FirstKeys(ts') == keys + [k] by {
      AppendStep(ts, t, k);
    }
    forall i | 0 <= i < |keys|
      ensures r'[i] == placed[i]
    {
      AppendStep(ts, t, keys[i]);
    }
    assert r'[|keys|] == placed[|keys|] by {
      AppendStep(ts, t, k);
    }
  }

  /** Appending one tag, for one key: the first tag with the key and the
      members are extended exactly as the definitions say. */
  lemma AppendStep(ts: seq<Tag>, t: Tag, k: Key)
    ensures FirstTagWith(ts + [t], k) == (if FirstTagWith(ts, k).Some? then FirstTagWith(ts, k) else if t.key == k then Some(t) else None)
    ensures Members(ts + [t], k) == Members(ts, k) + (if t.key == k then [t.slide] else [])
    ensures FirstKeys(ts + [t]) == FirstKeys(ts) + (if FirstTagWith(ts, t.key).Some? then [] else [t.key])
  {
    assert (ts + [t])[..|ts|] == ts;
  }

  /** One step of the loop adds the slide's tag to the clusters as `Place`
      does, and moves the last title as the title rules say. */
  lemma StepMatchesTag(st: GroupState, s: SlideChunk)
    requires LastTitleOk(st.lastTitle)
    ensures TagOf(s, st.lastTitle) == [] ==> Step(st, s).clusters == st.clusters
    ensures TagOf(s, st.lastTitle) != [] ==>
      var t := TagOf(s, st.lastTitle)[0];
      Step(st, s).clusters == Place(st.clusters, t.key, t.slide.section, t.title, t.slide)
    ensures Step(st, s).lastTitle ==
      (if !IsPlaceholderTitle(s.title) && HasUsableTitle(s.title) then Strip(s.title.value) else st.lastTitle)
  {
  }

  /** The running last title of the loop is the latest usable title. */
  lemma {:induction false} LastTitleIsLatestUsable(slides: seq<SlideChunk>)
    ensures Assign(slides).lastTitle == LastUsableTitle(slides)
    decreases |slides|
  {
    if slides != [] {
      var prefix := slides[..|slides| - 1];
      LastTitleIsLatestUsable(prefix);
      StepMatchesTag(Assign(prefix), slides[|slides| - 1]);
    }
  }

  /** The grouping loop computes the reference: its clusters are the
      reference clusters of the tagged slides. */
  lemma {:induction false} AssignIsReference(slides: seq<SlideChunk>)
    ensures Assign(slides).clusters == ReferenceClusters(Tagged(slides))
    decreases |slides|
  {
    if slides == [] {
      assert FirstKeys([]) == [];
    } else {
      var n := |slides|;
      var prefix := slides[..n - 1];
      var s := slides[n - 1];
      AssignIsReference(prefix);
      LastTitleIsLatestUsable(prefix);
      var st := Assign(prefix);
      StepMatchesTag(st, s);
      var tag := TagOf(s, st.lastTitle);
      assert Tagged(slides) == Tagged(prefix) + tag;
      if tag == [] {
        assert Tagged(slides) == Tagged(prefix);
      } else {
        ReferenceAppend(Tagged(prefix), tag[0]);
        assert Tagged(slides) == Tagged(prefix) + [tag[0]];
      }
    }
  }

  // ---------------------------------------------------------------------
  // Order of clusters and of their members
  // ---------------------------------------------------------------------

  /** Every cluster is non-empty with increasing slide numbers, and the
      clusters are in order of their first slide's number. */
  predicate ClustersOrdered(cs: seq<Cluster>) {
    && (forall i :: 0 <= i < |cs| ==> |cs[i].slides| > 0 && NumbersIncrease(cs[i].slides))
    && (forall i, j :: 0 <= i < j < |cs| ==> cs[i].slides[0].slideNumber < cs[j].slides[0].slideNumber)
  }

  /** Every slide in the clusters has a number below `b`. */
  predicate NumbersBelow(cs: seq<Cluster>, b: int) {
    forall i, j :: 0 <= i < |cs| && 0 <= j < |cs[i].slides| ==> cs[i].slides[j].slideNumber < b
  }

  lemma PlaceOrdered(cs: seq<Cluster>, key: Key, section: Option<string>, title: string, x: SlideChunk)
    requires ClustersOrdered(cs) && NumbersBelow(cs, x.slideNumber)
    ensures ClustersOrdered(Place(cs, key, section, title, x))
    ensures NumbersBelow(Place(cs, key, section, title, x), x.slideNumber + 1)
  {
    match FindKey(cs, key)
    case Some(p) =>
      ExtendClusterOrdered(cs, p, x);
    case None =>
      NewClusterOrdered(cs, Cluster(key, section, title, [x]), x);
  }

  /** Appending a later slide to one cluster keeps the clusters ordered. */
  lemma ExtendClusterOrdered(cs: seq<Cluster>, p: nat, x: SlideChunk)
    requires p < |cs| && ClustersOrdered(cs) && NumbersBelow(cs, x.slideNumber)
    ensures ClustersOrdered(cs[p := cs[p].(slides := cs[p].slides + [x])])
    ensures NumbersBelow(cs[p := cs[p].(slides := cs[p].slides + [x])], x.slideNumber + 1)
  {
    var ms := cs[p].slides + [x];
    var r := cs[p := cs[p].(slides := ms)];
    assert NumbersIncrease(ms) by {
      assert forall j :: 0 <= j < |cs[p].slides| ==> ms[j] == cs[p].slides[j];
    }
    assert ms[0] == cs[p].slides[0];
    forall i, j | 0 <= i < |r| && 0 <= j < |r[i].slides|
      ensures r[i].slides[j].slideNumber < x.slideNumber + 1
    {
      if i == p && j == |cs[p].slides| {
        assert r[i].slides[j] == x;
      }
    }
  }

  /** Opening a cluster for a later slide at the end keeps the clusters
      ordered. */
  lemma NewClusterOrdered(cs: seq<Cluster>, c: Cluster, x: SlideChunk)
    requires ClustersOrdered(cs) && NumbersBelow(cs, x.slideNumber) && c.slides == [x]
    ensures ClustersOrdered(cs + [c])
    ensures NumbersBelow(cs + [c], x.slideNumber + 1)
  {
    var r := cs + [c];
    forall i | 0 <= i < |cs|
      ensures cs[i].slides[0].slideNumber < x.slideNumber
    {
      assert |cs[i].slides| > 0;
    }
    assert forall i :: 0 <= i < |cs| ==> r[i] == cs[i];
  }

  /** With slide numbers increasing through the deck, the clusters come out
      in order of first appearance and list their slides in deck order. */
  lemma {:induction false} AssignOrdered(slides: seq<SlideChunk>)
    requires NumbersIncrease(slides)
    ensures ClustersOrdered(Assign(slides).clusters)
    ensures slides == [] ==> Assign(slides).clusters == []
    ensures slides != [] ==> NumbersBelow(Assign(slides).clusters, slides[|slides| - 1].slideNumber + 1)
    decreases |slides|
  {
    if slides != [] {
      var n := |slides|;
      var prefix := slides[..n - 1];
      var x := slides[n - 1];
      AssignOrdered(prefix);
      var st := Assign(prefix);
      assert NumbersBelow(st.clusters, x.slideNumber) by {
        if prefix != [] {
          assert prefix[n - 2].slideNumber < x.slideNumber;
        }
      }
      LastTitleIsLatestUsable(prefix);
      StepOrdered(st, x);
      assert Assign(slides) == Step(st, x);
    }
  }

  /** One step of the loop on a later slide keeps the clusters ordered and
      below the slide's successor number. */
  lemma StepOrdered(st: GroupState, x: SlideChunk)
    requires LastTitleOk(st.lastTitle)
    requires ClustersOrdered(st.clusters) && NumbersBelow(st.clusters, x.slideNumber)
    ensures ClustersOrdered(Step(st, x).clusters)
    ensures NumbersBelow(Step(st, x).clusters, x.slideNumber + 1)
  {
    StepMatchesTag(st, x);
    var tag := TagOf(x, st.lastTitle);
    if tag != [] {
      PlaceOrdered(st.clusters, tag[0].key, tag[0].slide.section, tag[0].title, x);
    }
  }
}
