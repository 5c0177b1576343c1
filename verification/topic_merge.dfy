/** Turning clusters into topics: each cluster with some body text becomes
    one merged record, and the topics are ordered by the least slide number
    they cover. */
module TopicMerge {
  import opened Wrappers
  import opened Strings
  import opened Models
  import opened TopicGrouping

  /** One topic: the cluster's effective title, the numbers of its slides in
      cluster order, its section, and the merged record enrichment works
      on. */
  datatype Topic = Topic(title: string, slideNumbers: seq<int>, section: Option<string>, merged: SlideChunk)

  /** The non-empty raw texts of `slides`, in order. */
  function NonEmptyTexts(slides: seq<SlideChunk>): (r: seq<string>)
    ensures |r| <= |slides|
    ensures forall i :: 0 <= i < |r| ==> r[i] != ""
    ensures r == [] <==> forall i :: 0 <= i < |slides| ==> slides[i].rawText == ""
    ensures (forall i :: 0 <= i < |slides| ==> '\n' !in slides[i].rawText) ==>
      forall i :: 0 <= i < |r| ==> '\n' !in r[i]
    decreases |slides|
  {
    if slides == [] then []
    else
      var rest := NonEmptyTexts(slides[1..]);
      assert forall i :: 0 <= i < |slides[1..]| ==> slides[1..][i] == slides[i + 1];
      if slides[0].rawText != "" then [slides[0].rawText] + rest else rest
  }

  function Numbers(slides: seq<SlideChunk>): (r: seq<int>)
    ensures |r| == |slides|
    ensures forall i :: 0 <= i < |r| ==> r[i] == slides[i].slideNumber
  {
    seq(|slides|, i requires 0 <= i < |slides| => slides[i].slideNumber)
  }

  lemma JoinNonEmpty(sep: string, xs: seq<string>)
    requires |xs| > 0 && xs[0] != ""
    ensures Join(sep, xs) != ""
  {
  }

  /** A topic as grouping produces it: it covers at least one slide, its
      merged number is the least of their numbers, and its merged text is not
      empty. */
  predicate WellFormedTopic(t: Topic) {
    && |t.slideNumbers| > 0
    && t.merged.slideNumber in t.slideNumbers
    && (forall k :: 0 <= k < |t.slideNumbers| ==> t.merged.slideNumber <= t.slideNumbers[k])
    && t.merged.rawText != ""
  }

  /** The topic of one cluster, or nothing when none of its slides has body
      text. The merged record takes the least slide number, the effective
      title, the section and the level of the first slide, no bullets and no
      notes, and joins the non-empty texts with line breaks. */
  function MergeCluster(c: Cluster): (r: Option<Topic>)
    ensures r.None? <==> forall i :: 0 <= i < |c.slides| ==> c.slides[i].rawText == ""
    ensures r.Some? ==>
      && WellFormedTopic(r.value)
      && r.value.title == c.title && r.value.section == c.section
      && r.value.slideNumbers == Numbers(c.slides) && |c.slides| > 0
      && r.value.merged.title == Some(c.title) && r.value.merged.bullets == []
      && r.value.merged.notes == None && r.value.merged.section == c.section
      && !r.value.merged.isHeading && r.value.merged.level == c.slides[0].level
    ensures r.Some? ==> r.value.merged.rawText == Join("\n", NonEmptyTexts(c.slides))
  {
    var texts := NonEmptyTexts(c.slides);
    if texts == [] then None
    else
      var numbers := Numbers(c.slides);
      JoinNonEmpty("\n", texts);
      var raw := Join("\n", texts);
      Some(Topic(c.title, numbers, c.section,
        SlideChunk(Min(numbers), Some(c.title), [], None, raw, c.section, false, c.slides[0].level)))
  }

  /** Splitting the merged text at line breaks gives the lines of the
      non-empty slide texts, slide after slide; when no slide text holds a
      line break, those are the non-empty slide texts themselves. */
  lemma MergedTextSplits(c: Cluster)
    requires MergeCluster(c).Some?
    ensures Split(MergeCluster(c).value.merged.rawText, '\n') == SplitEach(NonEmptyTexts(c.slides), '\n')
    ensures (forall i :: 0 <= i < |c.slides| ==> '\n' !in c.slides[i].rawText) ==>
      Split(MergeCluster(c).value.merged.rawText, '\n') == NonEmptyTexts(c.slides)
  {
    var texts := NonEmptyTexts(c.slides);
    SplitJoinEach(texts, '\n');
    if forall i :: 0 <= i < |c.slides| ==> '\n' !in c.slides[i].rawText {
      SplitEachNoSeparator(texts, '\n');
    }
  }

  /** For a cluster listing its slides in increasing order, the merged number
      is that of its first slide. */
  lemma MergeClusterOrdered(c: Cluster)
    requires |c.slides| > 0 && NumbersIncrease(c.slides) && MergeCluster(c).Some?
    ensures StrictlyIncreasing(MergeCluster(c).value.slideNumbers)
    ensures MergeCluster(c).value.merged.slideNumber == c.slides[0].slideNumber
  {
    var t := MergeCluster(c).value;
    var k :| 0 <= k < |t.slideNumbers| && t.slideNumbers[k] == t.merged.slideNumber;
  }

  /** The topics of the clusters that have body text, in cluster order. */
  function MergeAll(cs: seq<Cluster>): (r: seq<Topic>)
    ensures |r| <= |cs|
    ensures forall j :: 0 <= j < |r| ==> WellFormedTopic(r[j])
    ensures (forall i :: 0 <= i < |cs| ==> cs[i].title != "") ==> forall j :: 0 <= j < |r| ==> r[j].title != ""
    decreases |cs|
  {
    if cs == [] then []
    else
      var n := |cs|;
      var prev := MergeAll(cs[..n - 1]);
      match MergeCluster(cs[n - 1])
      case None => prev
      case Some(t) => prev + [t]
  }

  // ---------------------------------------------------------------------
  // Ordering by least slide number
  // ---------------------------------------------------------------------

  function SortKey(t: Topic): int {
    t.merged.slideNumber
  }

  predicate SortedByNumber(ts: seq<Topic>) {
    forall i, j :: 0 <= i < j < |ts| ==> SortKey(ts[i]) <= SortKey(ts[j])
  }

  /** `t` placed before the first topic whose number is not below its own. */
  function Insert(t: Topic, ts: seq<Topic>): (r: seq<Topic>)
    ensures multiset(r) == multiset(ts) + multiset{t}
    ensures |r| == |ts| + 1
    ensures ts == [] || SortKey(t) <= SortKey(ts[0]) ==> r == [t] + ts
    decreases |ts|
  {
    if ts == [] || SortKey(t) <= SortKey(ts[0]) then [t] + ts
    else
      assert ts == [ts[0]] + ts[1..];
      [ts[0]] + Insert(t, ts[1..])
  }

  /** Inserting into a sorted list keeps it sorted. */
  lemma {:induction false} InsertSorted(t: Topic, ts: seq<Topic>)
    requires SortedByNumber(ts)
    ensures SortedByNumber(Insert(t, ts))
    decreases |ts|
  {
    if ts != [] && SortKey(t) > SortKey(ts[0]) {
      var rest := Insert(t, ts[1..]);
      InsertSorted(t, ts[1..]);
      InsertBounded(t, ts[1..], SortKey(ts[0]));
      ConsSorted(ts[0], rest);
      assert Insert(t, ts) == [ts[0]] + rest;
    }
  }

  /** A lower bound of `t` and of every topic of `ts` bounds the insertion
      too. */
  lemma InsertBounded(t: Topic, ts: seq<Topic>, b: int)
    requires b <= SortKey(t)
    requires forall i :: 0 <= i < |ts| ==> b <= SortKey(ts[i])
    ensures forall k :: 0 <= k < |Insert(t, ts)| ==> b <= SortKey(Insert(t, ts)[k])
  {
    var r := Insert(t, ts);
    forall k | 0 <= k < |r|
      ensures b <= SortKey(r[k])
    {
      assert r[k] in multiset(r);
      if r[k] != t {
        assert r[k] in multiset(ts);
        var m :| 0 <= m < |ts| && ts[m] == r[k];
      }
    }
  }

  /** A topic no later than every topic of a sorted list can go in front. */
  lemma ConsSorted(x: Topic, rest: seq<Topic>)
    requires SortedByNumber(rest)
    requires forall k :: 0 <= k < |rest| ==> SortKey(x) <= SortKey(rest[k])
    ensures SortedByNumber([x] + rest)
  {
    var r := [x] + rest;
    forall i, j | 0 <= i < j < |r|
      ensures SortKey(r[i]) <= SortKey(r[j])
    {
      assert r[j] == rest[j - 1];
      if i > 0 {
        assert r[i] == rest[i - 1];
      }
    }
  }

  /** Python's `list.sort` by least slide number: an insertion sort, stable
      for topics with equal numbers. */
  function SortTopics(ts: seq<Topic>): (r: seq<Topic>)
    ensures multiset(r) == multiset(ts)
    ensures |r| == |ts|
    ensures SortedByNumber(r)
    decreases |ts|
  {
    if ts == [] then []
    else
      assert ts == [ts[0]] + ts[1..];
      var rest := SortTopics(ts[1..]);
      InsertSorted(ts[0], rest);
      Insert(ts[0], rest)
  }

  /** Sorting a list that is already in order changes nothing. */
  lemma {:induction false} SortSortedIsIdentity(ts: seq<Topic>)
    requires SortedByNumber(ts)
    ensures SortTopics(ts) == ts
    decreases |ts|
  {
    if ts != [] {
      SortSortedIsIdentity(ts[1..]);
      assert ts == [ts[0]] + ts[1..];
    }
  }

  /** Every cluster has a non-empty effective title. */
  lemma ClusterTitlesNonEmpty(slides: seq<SlideChunk>)
    ensures forall i :: 0 <= i < |Assign(slides).clusters| ==> Assign(slides).clusters[i].title != ""
  {
    AssignIsReference(slides);
    var ts := Tagged(slides);
    var keys := FirstKeys(ts);
    forall i | 0 <= i < |keys|
      ensures ReferenceClusters(ts)[i].title != ""
    {
      var t := FirstTagWith(ts, keys[i]).value;
      var p :| 0 <= p < |ts| && ts[p] == t;
    }
  }

  /** The grouping step: cluster the slides, merge the clusters with body
      text, and order the topics by least slide number. */
  function GroupTopics(slides: seq<SlideChunk>): (r: seq<Topic>)
    ensures SortedByNumber(r)
    ensures forall j :: 0 <= j < |r| ==> WellFormedTopic(r[j]) && r[j].title != ""
  {
    var cs := Assign(slides).clusters;
    ClusterTitlesNonEmpty(slides);
    var topics := MergeAll(cs);
    var r := SortTopics(topics);
    assert forall j :: 0 <= j < |r| ==> r[j] in multiset(topics);
    r
  }

  /** Merging ordered clusters gives topics in order, none numbered beyond
      the first slide of the last cluster. */
  lemma MergeAllSorted(cs: seq<Cluster>)
    requires ClustersOrdered(cs)
    ensures SortedByNumber(MergeAll(cs))
    ensures cs != [] ==> forall j :: 0 <= j < |MergeAll(cs)| ==>
      SortKey(MergeAll(cs)[j]) <= cs[|cs| - 1].slides[0].slideNumber
  {
    MergeAllPresent(cs);
    FirstNumbersIncrease(cs);
    MergedKeys(cs);
    PresentSorted(MergedEach(cs), FirstNumbers(cs));
  }

  /** The number of the first slide of every cluster. */
  function FirstNumbers(cs: seq<Cluster>): (r: seq<int>)
    requires forall i :: 0 <= i < |cs| ==> |cs[i].slides| > 0
    ensures |r| == |cs|
    ensures forall i :: 0 <= i < |cs| ==> r[i] == cs[i].slides[0].slideNumber
  {
    seq(|cs|, i requires 0 <= i < |cs| => cs[i].slides[0].slideNumber)
  }

  lemma FirstNumbersIncrease(cs: seq<Cluster>)
    requires ClustersOrdered(cs)
    ensures forall i, j :: 0 <= i < j < |cs| ==> FirstNumbers(cs)[i] < FirstNumbers(cs)[j]
  {
  }

  /** A present merge is keyed by its cluster's first slide number. */
  lemma MergedKeys(cs: seq<Cluster>)
    requires ClustersOrdered(cs)
    ensures forall i :: 0 <= i < |cs| && MergedEach(cs)[i].Some? ==>
      SortKey(MergedEach(cs)[i].value) == FirstNumbers(cs)[i]
  {
    forall i | 0 <= i < |cs| && MergedEach(cs)[i].Some?
      ensures SortKey(MergedEach(cs)[i].value) == FirstNumbers(cs)[i]
    {
      MergeClusterOrdered(cs[i]);
    }
  }

  /** The merge of every cluster, present or not, in cluster order. */
  function MergedEach(cs: seq<Cluster>): (r: seq<Option<Topic>>)
    ensures |r| == |cs|
    ensures forall i :: 0 <= i < |cs| ==> r[i] == MergeCluster(cs[i])
  {
    seq(|cs|, i requires 0 <= i < |cs| => MergeCluster(cs[i]))
  }

  /** The topics present in `ms`, in order. */
  function Present(ms: seq<Option<Topic>>): (r: seq<Topic>)
    ensures |r| <= |ms|
    decreases |ms|
  {
    if ms == [] then []
    else
      var prev := Present(ms[..|ms| - 1]);
      if ms[|ms| - 1].Some? then prev + [ms[|ms| - 1].value] else prev
  }

  /** Merging all clusters keeps the merges that are present. */
  lemma {:induction false} MergeAllPresent(cs: seq<Cluster>)
    ensures MergeAll(cs) == Present(MergedEach(cs))
    decreases |cs|
  {
    if cs != [] {
      var n := |cs|;
      MergeAllPresent(cs[..n - 1]);
      assert MergedEach(cs)[..n - 1] == MergedEach(cs[..n - 1]);
    }
  }

  /** Every present topic comes from one of the merges. */
  lemma {:induction false} PresentFrom(ms: seq<Option<Topic>>)
    ensures forall j :: 0 <= j < |Present(ms)| ==> Some(Present(ms)[j]) in ms
    decreases |ms|
  {
    if ms != [] {
      var n := |ms|;
      PresentFrom(ms[..n - 1]);
      assert forall x :: x in ms[..n - 1] ==> x in ms;
    }
  }

  /** Topics keyed by strictly increasing numbers, each where present, come
      out sorted and none above the last number. */
  lemma {:induction false} PresentSorted(ms: seq<Option<Topic>>, keys: seq<int>)
    requires |ms| == |keys|
    requires forall i, j :: 0 <= i < j < |keys| ==> keys[i] < keys[j]
    requires forall i :: 0 <= i < |ms| && ms[i].Some? ==> SortKey(ms[i].value) == keys[i]
    ensures SortedByNumber(Present(ms))
    ensures ms != [] ==> forall j :: 0 <= j < |Present(ms)| ==> SortKey(Present(ms)[j]) <= keys[|keys| - 1]
    decreases |ms|
  {
    if ms != [] {
      var n := |ms|;
      var front := ms[..n - 1];
      PresentSorted(front, keys[..n - 1]);
      var prev := Present(front);
      var bound := if n > 1 then keys[n - 2] else keys[n - 1] - 1;
      if n == 1 {
        assert prev == [];
      }
      if ms[n - 1].Some? {
        AppendSorted(prev, ms[n - 1].value, bound);
      }
    }
  }

  /** A topic numbered above every topic of a sorted list can follow it. */
  lemma AppendSorted(prev: seq<Topic>, t: Topic, bound: int)
    requires SortedByNumber(prev)
    requires forall j :: 0 <= j < |prev| ==> SortKey(prev[j]) <= bound
    requires bound < SortKey(t)
    ensures SortedByNumber(prev + [t])
    ensures forall j :: 0 <= j < |prev + [t]| ==> SortKey((prev + [t])[j]) <= SortKey(t)
  {
  }

  /** Merging ordered clusters gives topics whose slide numbers increase from
      the merged number. */
  lemma MergeAllIncreasing(cs: seq<Cluster>)
    requires ClustersOrdered(cs)
    ensures forall j :: 0 <= j < |MergeAll(cs)| ==>
      StrictlyIncreasing(MergeAll(cs)[j].slideNumbers)
      && MergeAll(cs)[j].merged.slideNumber == MergeAll(cs)[j].slideNumbers[0]
  {
    MergeAllPresent(cs);
    var ms := MergedEach(cs);
    PresentFrom(ms);
    forall j | 0 <= j < |MergeAll(cs)|
      ensures StrictlyIncreasing(MergeAll(cs)[j].slideNumbers)
      ensures MergeAll(cs)[j].merged.slideNumber == MergeAll(cs)[j].slideNumbers[0]
    {
      var t := MergeAll(cs)[j];
      var i :| 0 <= i < |ms| && ms[i] == Some(t);
      MergeClusterOrdered(cs[i]);
    }
  }

  /** With slide numbers increasing through the deck, the sort is not needed:
      the topics are already in cluster order, and each lists its slide
      numbers in increasing order, the first being the merged number. */
  lemma GroupTopicsInClusterOrder(slides: seq<SlideChunk>)
    requires NumbersIncrease(slides)
    ensures GroupTopics(slides) == MergeAll(Assign(slides).clusters)
    ensures forall j :: 0 <= j < |GroupTopics(slides)| ==>
      StrictlyIncreasing(GroupTopics(slides)[j].slideNumbers)
      && GroupTopics(slides)[j].merged.slideNumber == GroupTopics(slides)[j].slideNumbers[0]
  {
    var cs := Assign(slides).clusters;
    AssignOrdered(slides);
    MergeAllSorted(cs);
    MergeAllIncreasing(cs);
    SortSortedIsIdentity(MergeAll(cs));
  }
}
