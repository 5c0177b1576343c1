/** Forward-only removal of near-duplicate slides. The embedding model is
    not modelled: the similarity of slides `i` and `k` (the dot product of
    their normalised embeddings) is a given function. */
module Dedup {
  import opened Models

  /** Similarity at or above this marks a slide as a repeat. */
  const Threshold: real := 0.82

  /** `sim(i, k)` is the similarity of embedding `i` to embedding `k`. */
  type Similarity = (nat, nat) -> real

  /** Slide `i` repeats one of the slides in `kept`. */
  predicate IsDuplicate(i: nat, kept: seq<nat>, sim: Similarity) {
    exists j :: 0 <= j < |kept| && sim(i, kept[j]) >= Threshold
  }

  predicate Increasing(xs: seq<nat>) {
    forall i, j :: 0 <= i < j < |xs| ==> xs[i] < xs[j]
  }

  /** The indices kept among `0 .. n-1`: each index in turn is kept unless it
      is similar to an index kept before it. Indices that were dropped are
      never compared against. */
  function KeptAmong(n: nat, sim: Similarity): (r: seq<nat>)
    ensures forall j :: 0 <= j < |r| ==> r[j] < n
    ensures Increasing(r)
    ensures |r| <= n
  {
    if n == 0 then []
    else
      var k := KeptAmong(n - 1, sim);
      if IsDuplicate(n - 1, k, sim) then k else k + [n - 1]
  }

  function Range(n: nat): (r: seq<nat>)
    ensures |r| == n
    ensures forall i :: 0 <= i < n ==> r[i] == i
  {
    seq(n, i requires 0 <= i < n => i)
  }

  /** The pipeline's choice of indices to keep: every slide when there are
      no embeddings, otherwise the forward pass over the embeddings. */
  function DedupIndices(corpusLen: nat, embeddingCount: nat, sim: Similarity): seq<nat> {
    if embeddingCount == 0 then Range(corpusLen) else KeptAmong(embeddingCount, sim)
  }

  /** The scan as written, with its early exit on the first similar kept
      index; it computes the forward pass. */
  method DedupScan(corpusLen: nat, embeddingCount: nat, sim: Similarity) returns (kept: seq<nat>)
    ensures kept == DedupIndices(corpusLen, embeddingCount, sim)
    ensures embeddingCount == 0 ==> kept == Range(corpusLen)
    ensures embeddingCount > 0 ==> |kept| > 0 && kept[0] == 0 && Increasing(kept)
  {
    if embeddingCount == 0 {
      return Range(corpusLen);
    }
    kept := [];
    var i: nat := 0;
    while i < embeddingCount
      invariant i <= embeddingCount
      invariant kept == KeptAmong(i, sim)
      invariant i > 0 ==> |kept| > 0 && kept[0] == 0
    {
      var duplicate := false;
      var j := 0;
      while j < |kept|
        invariant 0 <= j <= |kept|
        invariant !duplicate ==> forall t :: 0 <= t < j ==> sim(i, kept[t]) < Threshold
        invariant duplicate ==> IsDuplicate(i, kept, sim)
      {
        if sim(i, kept[j]) >= Threshold {
          duplicate := true;
          break;
        }
        j := j + 1;
      }
      if !duplicate {
        kept := kept + [i];
      }
      i := i + 1;
    }
  }

  /** A shorter forward pass is a prefix of a longer one, and what the longer
      one adds lies beyond the shorter range. */
  lemma {:induction false} KeptPrefix(m: nat, n: nat, sim: Similarity)
    requires m <= n
    ensures |KeptAmong(m, sim)| <= |KeptAmong(n, sim)|
    ensures KeptAmong(m, sim) == KeptAmong(n, sim)[..|KeptAmong(m, sim)|]
    ensures forall j :: |KeptAmong(m, sim)| <= j < |KeptAmong(n, sim)| ==> KeptAmong(n, sim)[j] >= m
    decreases n - m
  {
    if m < n {
      KeptPrefix(m, n - 1, sim);
      var a := KeptAmong(n - 1, sim);
      assert KeptAmong(n, sim) == a || KeptAmong(n, sim) == a + [n - 1];
      assert KeptAmong(n, sim)[..|a|] == a;
    }
  }

  /** The kept indices below `i` in a longer pass are those of the pass over
      `0 .. i-1`. */
  lemma KeptBelow(n: nat, sim: Similarity, i: nat)
    requires i <= n
    ensures |KeptAmong(i, sim)| <= |KeptAmong(n, sim)|
    ensures forall j :: 0 <= j < |KeptAmong(n, sim)| && KeptAmong(n, sim)[j] < i ==> j < |KeptAmong(i, sim)|
    ensures forall j :: 0 <= j < |KeptAmong(i, sim)| ==> KeptAmong(n, sim)[j] == KeptAmong(i, sim)[j]
  {
    KeptPrefix(i, n, sim);
  }

  /** Index `i` survives a longer pass exactly when it is not a repeat of the
      indices kept before it. */
  lemma KeptStep(n: nat, sim: Similarity, i: nat)
    requires i < n
    ensures i in KeptAmong(n, sim) <==> !IsDuplicate(i, KeptAmong(i, sim), sim)
  {
    var kept := KeptAmong(n, sim);
    var before := KeptAmong(i, sim);
    var upto := KeptAmong(i + 1, sim);
    KeptPrefix(i + 1, n, sim);
    KeptPrefix(i, i + 1, sim);
    if i in kept {
      var p :| 0 <= p < |kept| && kept[p] == i;
    }
  }

  /** Index `i` is kept exactly when it lies in range and its similarity to
      every earlier kept index is below the threshold. */
  lemma KeptIff(n: nat, sim: Similarity, i: nat)
    ensures i in KeptAmong(n, sim) <==>
      i < n && forall j :: 0 <= j < |KeptAmong(n, sim)| && KeptAmong(n, sim)[j] < i ==> sim(i, KeptAmong(n, sim)[j]) < Threshold
  {
    if i < n {
      var kept := KeptAmong(n, sim);
      var before := KeptAmong(i, sim);
      KeptStep(n, sim, i);
      KeptBelow(n, sim, i);
      if IsDuplicate(i, before, sim) {
        var t :| 0 <= t < |before| && sim(i, before[t]) >= Threshold;
        assert kept[t] == before[t] && kept[t] < i;
      }
    }
  }

  /** With at least one embedding the first slide is always kept. */
  lemma FirstAlwaysKept(n: nat, sim: Similarity)
    requires n > 0
    ensures |KeptAmong(n, sim)| > 0 && KeptAmong(n, sim)[0] == 0
  {
    KeptPrefix(1, n, sim);
  }

  /** Only kept indices are compared: slide 2 survives although it is a
      repeat of slide 1, because slide 1 was itself dropped as a repeat of
      slide 0. */
  lemma DroppedAreNotCompared(sim: Similarity)
    requires sim(1, 0) >= Threshold && sim(2, 1) >= Threshold && sim(2, 0) < Threshold
    ensures KeptAmong(3, sim) == [0, 2]
  {
    var one := KeptAmong(1, sim);
    assert one == [0] by {
      assert KeptAmong(0, sim) == [];
    }
    assert IsDuplicate(1, one, sim) by {
      assert one[0] == 0;
    }
    var two := KeptAmong(2, sim);
    assert two == [0];
    assert !IsDuplicate(2, two, sim) by {
      assert forall j :: 0 <= j < |two| ==> two[j] == 0;
    }
    assert KeptAmong(3, sim) == two + [2];
  }
}
