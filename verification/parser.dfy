/** Building slide records from the shapes of a deck. Reading the file is
    not modelled: each slide arrives as its shapes (with their paragraphs
    and runs already extracted) and the text of its notes page. */
module Parser {
  import opened Wrappers
  import opened Strings
  import opened Models

  datatype Paragraph = Paragraph(runs: seq<string>, level: int)

  /** A shape on a slide: one with a text frame (its whole text and its
      paragraphs), a table (the text of every cell, row by row), or one that
      carries no text. */
  datatype Shape =
    | TextFrameShape(text: string, paragraphs: seq<Paragraph>)
    | TableShape(rows: seq<seq<string>>)
    | OtherShape

  /** A slide as read from the deck; `notesText` is `None` when the slide has
      no notes page. */
  datatype SlideSource = SlideSource(shapes: seq<Shape>, notesText: Option<string>)

  // ---------------------------------------------------------------------
  // Table rendering (defined by the source but not called by the parser)
  // ---------------------------------------------------------------------

  function StripAll(cells: seq<string>): (r: seq<string>)
    ensures |r| == |cells|
    ensures forall i :: 0 <= i < |cells| ==> r[i] == Strip(cells[i])
  {
    seq(|cells|, i requires 0 <= i < |cells| => Strip(cells[i]))
  }

  /** One table row: its stripped cells joined by `" | "`. */
  function RowText(cells: seq<string>): string {
    Join(" | ", StripAll(cells))
  }

  function RowTexts(rows: seq<seq<string>>): (r: seq<string>)
    ensures |r| == |rows|
    ensures forall i :: 0 <= i < |rows| ==> r[i] == RowText(rows[i])
  {
    seq(|rows|, i requires 0 <= i < |rows| => RowText(rows[i]))
  }

  /** The text of a shape: a text shape's own text, a table rendered one row
      per line, and nothing for any other shape. The lines of a rendered
      table are the lines of its rows in order; when no cell text contains a
      line break, they are exactly its rows. */
  function CollectText(shape: Shape): (r: string)
    ensures shape.TextFrameShape? ==> r == shape.text
    ensures shape.OtherShape? ==> r == ""
    ensures shape.TableShape? && shape.rows == [] ==> r == ""
    ensures shape.TableShape? && |shape.rows| > 0 ==>
      Split(r, '\n') == SplitEach(RowTexts(shape.rows), '\n')
    ensures shape.TableShape? && |shape.rows| > 0
            && (forall i, j :: 0 <= i < |shape.rows| && 0 <= j < |shape.rows[i]| ==> '\n' !in shape.rows[i][j])
            ==> Split(r, '\n') == RowTexts(shape.rows)
  {
    match shape
    case TextFrameShape(text, _) => text
    case TableShape(rows) =>
      var lines := RowTexts(rows);
      if |rows| > 0 then
        SplitJoinEach(lines, '\n');
        if forall i, j :: 0 <= i < |rows| && 0 <= j < |rows[i]| ==> '\n' !in rows[i][j] then
          assert forall i :: 0 <= i < |lines| ==> '\n' !in lines[i] by {
            forall i | 0 <= i < |lines| {
              RowHasNoBreak(rows[i]);
            }
          }
          SplitEachNoSeparator(lines, '\n');
          Join("\n", lines)
        else
          Join("\n", lines)
      else
        Join("\n", lines)
    case OtherShape => ""
  }

  lemma {:induction false} JoinNoBreak(sep: string, xs: seq<string>)
    requires '\n' !in sep
    requires forall i :: 0 <= i < |xs| ==> '\n' !in xs[i]
    ensures '\n' !in Join(sep, xs)
    decreases |xs|
  {
    if |xs| > 1 {
      JoinNoBreak(sep, xs[1..]);
    }
  }

  lemma RowHasNoBreak(cells: seq<string>)
    requires forall j :: 0 <= j < |cells| ==> '\n' !in cells[j]
    ensures '\n' !in RowText(cells)
  {
    var stripped := StripAll(cells);
    forall j | 0 <= j < |cells|
      ensures '\n' !in stripped[j]
    {
      StripKeepsNoBreak(cells[j]);
    }
    JoinNoBreak(" | ", stripped);
  }

  lemma StripKeepsNoBreak(s: string)
    requires '\n' !in s
    ensures '\n' !in Strip(s)
  {
    var r := Strip(s);
    var k := StripIsSlice(s, IsPySpace);
    forall m | 0 <= m < |r|
      ensures r[m] != '\n'
    {
      assert r[m] == s[k + m];
    }
  }

  // ---------------------------------------------------------------------
  // Paragraphs, bullets and levels
  // ---------------------------------------------------------------------

  function Concat(runs: seq<string>): string
    decreases |runs|
  {
    if runs == [] then "" else runs[0] + Concat(runs[1..])
  }

  /** A paragraph's text: its runs concatenated (empty runs add nothing),
      then stripped. */
  function ParagraphText(p: Paragraph): string {
    Strip(Concat(p.runs))
  }

  /** A kept paragraph: non-empty, with no whitespace at either end. */
  predicate IsBulletText(t: string) {
    t != [] && !IsPySpace(t[0]) && !IsPySpace(t[|t| - 1])
  }

  /** A paragraph with text is kept as it is: stripping left no whitespace
      at either end. */
  lemma BulletParagraph(p: Paragraph)
    requires ParagraphText(p) != ""
    ensures IsBulletText(ParagraphText(p))
  {
    StrippedIsBullet(Concat(p.runs));
  }

  lemma StrippedIsBullet(s: string)
    requires Strip(s) != ""
    ensures IsBulletText(Strip(s))
  {
  }

  /** The (text, level) of every paragraph of one text-frame shape whose text
      is not empty, in order. Other shapes give nothing. */
  function ShapeBullets(shape: Shape): (r: seq<(string, int)>)
    ensures forall i :: 0 <= i < |r| ==> IsBulletText(r[i].0)
  {
    if shape.TextFrameShape? then KeptParagraphs(shape.paragraphs) else []
  }

  /** Every paragraph's text with its level, in order. */
  function ParagraphPairs(ps: seq<Paragraph>): (r: seq<(string, int)>)
    ensures |r| == |ps|
    ensures forall i :: 0 <= i < |ps| ==> r[i] == (ParagraphText(ps[i]), ps[i].level)
  {
    seq(|ps|, i requires 0 <= i < |ps| => (ParagraphText(ps[i]), ps[i].level))
  }

  /** Every paragraph's text is empty or kept as it is. */
  lemma PairsAreBullets(ps: seq<Paragraph>)
    ensures forall i :: 0 <= i < |ps| ==>
      ParagraphPairs(ps)[i].0 == "" || IsBulletText(ParagraphPairs(ps)[i].0)
  {
    forall i | 0 <= i < |ps| && ParagraphText(ps[i]) != "" {
      BulletParagraph(ps[i]);
    }
  }

  /** The pairs whose text is not empty, in order. */
  function NonEmptyPairs(xs: seq<(string, int)>): (r: seq<(string, int)>)
    ensures |r| <= |xs|
    ensures forall i :: 0 <= i < |r| ==> r[i].0 != "" && r[i] in xs
    ensures r == [] <==> forall i :: 0 <= i < |xs| ==> xs[i].0 == ""
    decreases |xs|
  {
    if xs == [] then []
    else
      var rest := NonEmptyPairs(xs[1..]);
      assert forall i :: 0 <= i < |xs[1..]| ==> xs[1..][i] == xs[i + 1];
      if xs[0].0 != "" then [xs[0]] + rest else rest
  }

  /** The (text, level) of the paragraphs whose text is not empty, in
      order. */
  function KeptParagraphs(ps: seq<Paragraph>): (r: seq<(string, int)>)
    ensures forall i :: 0 <= i < |r| ==> IsBulletText(r[i].0)
    ensures |r| <= |ps|
  {
    var pairs := ParagraphPairs(ps);
    PairsAreBullets(ps);
    var kept := NonEmptyPairs(pairs);
    kept
  }

  /** The kept paragraphs of every text-frame shape, in shape order. */
  function SlideBullets(shapes: seq<Shape>): (r: seq<(string, int)>)
    ensures forall i :: 0 <= i < |r| ==> IsBulletText(r[i].0)
    decreases |shapes|
  {
    if shapes == [] then [] else ShapeBullets(shapes[0]) + SlideBullets(shapes[1..])
  }

  function Texts(kept: seq<(string, int)>): (r: seq<string>)
    ensures |r| == |kept|
    ensures forall i :: 0 <= i < |kept| ==> r[i] == kept[i].0
  {
    seq(|kept|, i requires 0 <= i < |kept| => kept[i].0)
  }

  function Levels(kept: seq<(string, int)>): (r: seq<int>)
    ensures |r| == |kept|
    ensures forall i :: 0 <= i < |kept| ==> r[i] == kept[i].1
  {
    seq(|kept|, i requires 0 <= i < |kept| => kept[i].1)
  }

  /** The slide's level: the least level of its kept paragraphs, 0 without
      any. */
  function SlideLevel(levels: seq<int>): (r: int)
    ensures levels == [] ==> r == 0
    ensures levels != [] ==> r in levels && forall i :: 0 <= i < |levels| ==> r <= levels[i]
  {
    if levels == [] then 0 else Min(levels)
  }

  /** The title: the whole text of the first shape that has a text frame. */
  function SlideTitle(shapes: seq<Shape>): Option<string>
    decreases |shapes|
  {
    if shapes == [] then None
    else if shapes[0].TextFrameShape? then Some(shapes[0].text)
    else SlideTitle(shapes[1..])
  }

  /** Joining bullets with line breaks strips to nothing exactly when there
      are no bullets. */
  lemma JoinedBulletsBlankIffEmpty(bullets: seq<string>)
    requires forall i :: 0 <= i < |bullets| ==> IsBulletText(bullets[i])
    ensures Strip(Join("\n", bullets)) == "" <==> bullets == []
  {
    var raw := Join("\n", bullets);
    StripEmptyIffBlank(raw, IsPySpace);
    if bullets != [] {
      JoinStartsWithFirst("\n", bullets);
      assert raw[0] == bullets[0][0];
      assert !IsPySpace(raw[0]);
    }
  }

  // ---------------------------------------------------------------------
  // Slide records
  // ---------------------------------------------------------------------

  /** The record for one slide, given its 1-based number and the section in
      force before it. A heading is a slide with a non-empty title and a
      blank body, and it opens its own section. */
  function BuildChunk(src: SlideSource, number: int, current: Option<string>): (c: SlideChunk)
    ensures c.slideNumber == number
    ensures c.title == SlideTitle(src.shapes)
    ensures c.bullets == Texts(SlideBullets(src.shapes))
    ensures c.rawText == Join("\n", c.bullets)
    ensures c.level == SlideLevel(Levels(SlideBullets(src.shapes)))
    ensures c.notes == None <==> src.notesText.None? || src.notesText.value == ""
    ensures c.notes != None ==> c.notes == src.notesText
    ensures c.section == (if c.isHeading then c.title else current)
  {
    var title := SlideTitle(src.shapes);
    var kept := SlideBullets(src.shapes);
    var bullets := Texts(kept);
    var raw := Join("\n", bullets);
    var notes := if src.notesText.Some? && src.notesText.value != "" then src.notesText else None;
    var heading := Truthy(title) && Strip(raw) == "";
    SlideChunk(
      slideNumber := number,
      title := title,
      bullets := bullets,
      notes := notes,
      rawText := raw,
      section := if heading then title else current,
      isHeading := heading,
      level := SlideLevel(Levels(kept))
    )
  }

  /** A slide is a heading exactly when it has a non-empty title and no
      paragraph with visible text. */
  lemma HeadingIffNoBullets(src: SlideSource, number: int, current: Option<string>)
    ensures var c := BuildChunk(src, number, current);
      c.isHeading <==> Truthy(c.title) && c.bullets == []
  {
    var c := BuildChunk(src, number, current);
    var kept := SlideBullets(src.shapes);
    assert c.bullets == Texts(kept);
    assert forall i :: 0 <= i < |c.bullets| ==> IsBulletText(c.bullets[i]);
    JoinedBulletsBlankIffEmpty(c.bullets);
  }

  /** The title of the last heading among `cs`, or `None` when there is
      none: the section a slide following `cs` belongs to. */
  function LastHeadingTitle(cs: seq<SlideChunk>): Option<string>
    decreases |cs|
  {
    if cs == [] then None
    else if cs[|cs| - 1].isHeading then cs[|cs| - 1].title
    else LastHeadingTitle(cs[..|cs| - 1])
  }

  /** How one record is built from a slide, its number and the section in
      force before it. */
  type Builder = (SlideSource, int, Option<string>) -> SlideChunk

  /** A builder whose records keep the section in force, except that a
      heading opens a section named by its title. */
  ghost predicate FollowsHeadingRule(build: Builder) {
    forall src, number, current :: build(src, number, current).section ==
      (if build(src, number, current).isHeading then build(src, number, current).title else current)
  }

  /** The first pass of the parser: records numbered from 1, with the section
      carried forward from heading to heading. Also returns the section in
      force after the last slide. */
  function FirstPass(deck: seq<SlideSource>, build: Builder): (r: (seq<SlideChunk>, Option<string>))
    ensures |r.0| == |deck|
    ensures r.1 == LastHeadingTitle(r.0)
    decreases |deck|
  {
    if deck == [] then ([], None)
    else
      var n := |deck|;
      var prev := FirstPass(deck[..n - 1], build);
      var c := build(deck[n - 1], n, prev.1);
      var cs := prev.0 + [c];
      assert cs[..n - 1] == prev.0;
      (cs, if c.isHeading then c.title else prev.1)
  }

  /** Record `i` of the first pass is slide `i` built with number `i + 1` and
      the section of the last heading before it. */
  lemma {:induction false} FirstPassRecords(deck: seq<SlideSource>, build: Builder)
    ensures forall i :: 0 <= i < |deck| ==>
      FirstPass(deck, build).0[i] == build(deck[i], i + 1, LastHeadingTitle(FirstPass(deck, build).0[..i]))
    decreases |deck|
  {
    if deck != [] {
      var n := |deck|;
      var prev := FirstPass(deck[..n - 1], build).0;
      var cs := FirstPass(deck, build).0;
      FirstPassRecords(deck[..n - 1], build);
      assert cs[..n - 1] == prev;
      forall i | 0 <= i < n
        ensures cs[i] == build(deck[i], i + 1, LastHeadingTitle(cs[..i]))
      {
        if i < n - 1 {
          assert cs[..i] == prev[..i];
          assert deck[i] == deck[..n - 1][i];
        }
      }
    }
  }

  /** With a builder that follows the heading rule, each record's section is
      the title of the last heading at or before it (a heading's section
      being its own title). */
  lemma {:induction false} FirstPassSections(deck: seq<SlideSource>, build: Builder)
    requires FollowsHeadingRule(build)
    ensures forall i :: 0 <= i < |deck| ==>
      FirstPass(deck, build).0[i].section == LastHeadingTitle(FirstPass(deck, build).0[..i + 1])
    decreases |deck|
  {
    if deck != [] {
      var n := |deck|;
      var prev := FirstPass(deck[..n - 1], build);
      var cs := FirstPass(deck, build).0;
      FirstPassSections(deck[..n - 1], build);
      assert cs[..n - 1] == prev.0;
      var c := cs[n - 1];
      assert c == build(deck[n - 1], n, prev.1);
      assert cs[..n] == cs;
      forall i | 0 <= i < n - 1
        ensures cs[i].section == LastHeadingTitle(cs[..i + 1])
      {
        assert cs[..i + 1] == prev.0[..i + 1];
      }
    }
  }

  /** The second pass: every record without a section (none, or an empty
      one) receives the title of the last heading seen so far. */
  function Backfill(cs: seq<SlideChunk>, last: Option<string>): (r: seq<SlideChunk>)
    ensures |r| == |cs|
    decreases |cs|
  {
    if cs == [] then []
    else
      var last' := if cs[0].isHeading then cs[0].title else last;
      var c := if !Truthy(cs[0].section) then cs[0].(section := last') else cs[0];
      [c] + Backfill(cs[1..], last')
  }

  /** The second pass changes nothing: every record already carries the title
      of the last heading at or before it. */
  lemma {:induction false} BackfillIsNoOp(cs: seq<SlideChunk>, k: nat)
    requires k <= |cs|
    requires forall i :: 0 <= i < |cs| ==> cs[i].section == LastHeadingTitle(cs[..i + 1])
    ensures Backfill(cs[k..], LastHeadingTitle(cs[..k])) == cs[k..]
    decreases |cs| - k
  {
    if k < |cs| {
      assert cs[..k + 1][..k] == cs[..k];
      BackfillIsNoOp(cs, k + 1);
      assert cs[k..][1..] == cs[k + 1..];
    }
  }

  /** The slide records of a deck: the first pass followed by the second. */
  function ParsePpt(deck: seq<SlideSource>): (r: seq<SlideChunk>)
    ensures |r| == |deck|
    ensures forall i :: 0 <= i < |r| ==> r[i].slideNumber == i + 1
    ensures NumbersIncrease(r)
    ensures forall i :: 0 <= i < |r| ==> r[i].section == LastHeadingTitle(r[..i + 1])
    ensures forall i :: 0 <= i < |r| ==> r[i] == BuildChunk(deck[i], i + 1, LastHeadingTitle(r[..i]))
  {
    var first := FirstPass(deck, BuildChunk).0;
    FirstPassRecords(deck, BuildChunk);
    FirstPassSections(deck, BuildChunk);
    BackfillIsNoOp(first, 0);
    assert first[0..] == first && first[..0] == [];
    Backfill(first, None)
  }

  /** The title shape's own paragraphs count as body text: a slide whose
      first text shape has a paragraph with visible text is never a
      heading. */
  lemma TitleTextPreventsHeading(src: SlideSource, number: int, current: Option<string>, j: nat)
    requires |src.shapes| > 0 && src.shapes[0].TextFrameShape?
    requires j < |src.shapes[0].paragraphs| && ParagraphText(src.shapes[0].paragraphs[j]) != ""
    ensures !BuildChunk(src, number, current).isHeading
  {
    var ps := src.shapes[0].paragraphs;
    KeptParagraphsNonEmpty(ps, j);
    assert SlideBullets(src.shapes) == KeptParagraphs(ps) + SlideBullets(src.shapes[1..]);
    HeadingIffNoBullets(src, number, current);
  }

  lemma KeptParagraphsNonEmpty(ps: seq<Paragraph>, j: nat)
    requires j < |ps| && ParagraphText(ps[j]) != ""
    ensures KeptParagraphs(ps) != []
  {
    assert ParagraphPairs(ps)[j].0 != "";
  }
}
