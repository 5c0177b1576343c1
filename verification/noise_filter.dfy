/** The pass of the pipeline run that drops slides which carry no study
    content (title pages, near-empty pages, tables of contents, agenda
    lists) and slides the deduplicator did not keep, in deck order. */
module NoiseFilter {
  import opened Wrappers
  import opened Strings
  import opened Models

  /** The line opens with `^\d+[.、)]`: digits, then a full stop, an
      ideographic comma or a closing parenthesis. */
  predicate IsNumberedLine(ln: string) {
    var k := DigitRun(ln);
    k >= 1 && k < |ln| && (ln[k] == '.' || ln[k] == '、' || ln[k] == ')')
  }

  /** The stripped non-blank lines of a body. */
  function ContentLines(raw: string): (r: seq<string>)
    ensures forall i :: 0 <= i < |r| ==> r[i] != ""
  {
    NonBlankStripped(SplitLines(raw))
  }

  function NonBlankStripped(lines: seq<string>): (r: seq<string>)
    ensures |r| <= |lines|
    ensures forall i :: 0 <= i < |r| ==> r[i] != ""
    decreases |lines|
  {
    if lines == [] then []
    else
      var t := Strip(lines[0]);
      var rest := NonBlankStripped(lines[1..]);
      if t != "" then ConsLine(t, rest) else rest
  }

  /** A non-empty line in front of non-empty lines. */
  function ConsLine(t: string, rest: seq<string>): (r: seq<string>)
    requires t != "" && forall i :: 0 <= i < |rest| ==> rest[i] != ""
    ensures |r| == |rest| + 1 && r[0] == t && r[1..] == rest
    ensures forall i :: 0 <= i < |r| ==> r[i] != ""
  {
    [t] + rest
  }

  function CountNumbered(lines: seq<string>): (n: nat)
    ensures n <= |lines|
    decreases |lines|
  {
    if lines == [] then 0
    else (if IsNumberedLine(lines[0]) then 1 else 0) + CountNumbered(lines[1..])
  }

  /** At least two numbered lines, making up at least 60% of the non-blank
      lines. The source divides and compares floats; the integer form
      `5 n >= 3 len` agrees with it for any realistic line count. */
  predicate LooksLikeAgenda(raw: string) {
    var lines := ContentLines(raw);
    var n := CountNumbered(lines);
    |lines| > 0 && n >= 2 && 5 * n >= 3 * |lines|
  }

  /** A slide without study content: a heading; a titled slide with a blank
      body, or with a stripped body of at most 30 characters on at most one
      line; a title mentioning the table of contents; or an agenda body. */
  predicate IsNoisePage(s: SlideChunk) {
    || s.isHeading
    || (Truthy(s.title) && Strip(s.rawText) == "")
    || (Truthy(s.title) && |Strip(s.rawText)| <= 30 && |SplitLines(s.rawText)| <= 1)
    || (Truthy(s.title) && Contains(s.title.value, "目录"))
    || LooksLikeAgenda(s.rawText)
  }

  /** The slides, in order, whose pair (slide, 0-based index) passes
      `keep`. */
  function FilterIndexed(slides: seq<SlideChunk>, keep: (SlideChunk, nat) -> bool): (r: seq<SlideChunk>)
    ensures |r| <= |slides|
    ensures forall j :: 0 <= j < |r| ==> KeptAt(slides, keep, r[j], |slides|)
    ensures NumbersIncrease(slides) ==> NumbersIncrease(r)
    decreases |slides|
  {
    if slides == [] then []
    else
      var n := |slides|;
      var prev := FilterIndexed(slides[..n - 1], keep);
      assert forall j :: 0 <= j < |prev| ==> KeptAt(slides, keep, prev[j], |slides|) by {
        forall j | 0 <= j < |prev| {
          KeptAtPrefix(slides, keep, prev[j], n - 1);
        }
      }
      if keep(slides[n - 1], n - 1) then
        assert NumbersIncrease(slides) ==> NumbersIncrease(prev + [slides[n - 1]]) by {
          if NumbersIncrease(slides) {
            assert NumbersIncrease(slides[..n - 1]);
            forall j | 0 <= j < |prev|
              ensures prev[j].slideNumber < slides[n - 1].slideNumber
            {
              KeptAtPrefix(slides, keep, prev[j], n - 1);
              var i :| 0 <= i < n - 1 && slides[..n - 1][i] == prev[j] && keep(prev[j], i);
            }
          }
        }
        prev + [slides[n - 1]]
      else prev
  }

  /** `x` occurs at some index below `bound` whose pair passes `keep`. */
  predicate KeptAt(slides: seq<SlideChunk>, keep: (SlideChunk, nat) -> bool, x: SlideChunk, bound: nat)
    requires bound <= |slides|
  {
    exists i :: 0 <= i < bound && slides[i] == x && keep(x, i)
  }

  lemma KeptAtPrefix(slides: seq<SlideChunk>, keep: (SlideChunk, nat) -> bool, x: SlideChunk, m: nat)
    requires m < |slides|
    ensures KeptAt(slides[..m], keep, x, m) == KeptAt(slides, keep, x, m)
    ensures KeptAt(slides, keep, x, m + 1) <==> KeptAt(slides, keep, x, m) || (slides[m] == x && keep(x, m))
  {
    if KeptAt(slides, keep, x, m) {
      var i :| 0 <= i < m && slides[i] == x && keep(x, i);
      assert slides[..m][i] == x;
    }
    if KeptAt(slides[..m], keep, x, m) {
      var i :| 0 <= i < m && slides[..m][i] == x && keep(x, i);
      assert slides[i] == x;
    }
  }

  /** Exactly the slides at an index passing `keep` survive. */
  lemma {:induction false} FilterIndexedIff(slides: seq<SlideChunk>, keep: (SlideChunk, nat) -> bool, x: SlideChunk)
    ensures x in FilterIndexed(slides, keep) <==> KeptAt(slides, keep, x, |slides|)
    decreases |slides|
  {
    if slides != [] {
      var n := |slides|;
      FilterIndexedIff(slides[..n - 1], keep, x);
      KeptAtPrefix(slides, keep, x, n - 1);
    }
  }

  /** The test the run applies to slide `s` at index `i`. */
  predicate Survives(kept: seq<nat>, s: SlideChunk, i: nat) {
    !IsNoisePage(s) && i in kept
  }

  /** The slides, in deck order, that are not noise and whose 0-based index
      the deduplicator kept. */
  function FilterSlides(slides: seq<SlideChunk>, kept: seq<nat>): (r: seq<SlideChunk>)
    ensures |r| <= |slides|
    ensures NumbersIncrease(slides) ==> NumbersIncrease(r)
  {
    FilterIndexed(slides, (s: SlideChunk, i: nat) => Survives(kept, s, i))
  }

  /** A slide survives exactly when it sits at an index the deduplicator kept
      and is not noise. */
  lemma FilterIff(slides: seq<SlideChunk>, kept: seq<nat>, x: SlideChunk)
    ensures x in FilterSlides(slides, kept) <==>
      exists i :: 0 <= i < |slides| && slides[i] == x && i in kept && !IsNoisePage(x)
  {
    var keep := (s: SlideChunk, i: nat) => Survives(kept, s, i);
    FilterIndexedIff(slides, keep, x);
    if KeptAt(slides, keep, x, |slides|) {
      var i :| 0 <= i < |slides| && slides[i] == x && keep(x, i);
      assert Survives(kept, x, i);
    }
    if exists i :: 0 <= i < |slides| && slides[i] == x && i in kept && !IsNoisePage(x) {
      var i :| 0 <= i < |slides| && slides[i] == x && i in kept && !IsNoisePage(x);
      assert keep(x, i);
    }
  }

  /** A titled slide whose body is a single line of at most 30 characters
      once stripped never survives the filter, whatever its content. */
  lemma ShortTitledSlideDropped(slides: seq<SlideChunk>, kept: seq<nat>, x: SlideChunk)
    requires Truthy(x.title) && '\n' !in x.rawText && |Strip(x.rawText)| <= 30
    ensures x !in FilterSlides(slides, kept)
  {
    if x.rawText != [] {
      SplitNoSeparator(x.rawText, '\n');
    }
    assert IsNoisePage(x);
    FilterIff(slides, kept, x);
  }
}
