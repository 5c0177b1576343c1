/** The Markdown export of the notes page: each line of model output is
    cleaned of list markers, and the document is assembled as a list of
    lines (a table of contents, then one block per topic) joined with line
    breaks. Fenced code in the expansions is passed through untouched. */
module MarkdownExport {
  import opened Wrappers
  import opened Strings
  import opened Models

  // ---------------------------------------------------------------------
  // Cleaning one line
  // ---------------------------------------------------------------------

  /** The first index at or after `i` whose character is not in `ws`. */
  function SkipSpaces(s: string, i: nat, ws: char -> bool): (j: nat)
    requires i <= |s|
    ensures i <= j <= |s|
    ensures j == |s| || !ws(s[j])
    decreases |s| - i
  {
    if i < |s| && ws(s[i]) then SkipSpaces(s, i + 1, ws) else i
  }

  /** The first index at or after `i` whose character is not a digit. */
  function SkipDigits(s: string, i: nat): (j: nat)
    requires i <= |s|
    ensures i <= j <= |s|
    ensures j == |s| || !IsDigit(s[j])
    decreases |s| - i
  {
    if i < |s| && IsDigit(s[i]) then SkipDigits(s, i + 1) else i
  }

  /** Where `^\s*[-•]\s*`, matched from `i`, ends: past a dash or bullet and
      the whitespace around it, or `i` itself when there is none. */
  function AfterBullet(s: string, i: nat, ws: char -> bool): (j: nat)
    requires i <= |s|
    ensures i <= j <= |s|
  {
    var t := SkipSpaces(s, i, ws);
    if t < |s| && (s[t] == '-' || s[t] == '•') then SkipSpaces(s, t + 1, ws) else i
  }

  /** Where `^\s*\d+[\.\)]\s*`, matched from `i`, ends: past a number
      followed by a full stop or a closing parenthesis and the whitespace
      around it, or `i` itself when there is none. */
  function AfterNumber(s: string, i: nat, ws: char -> bool): (j: nat)
    requires i <= |s|
    ensures i <= j <= |s|
  {
    var t := SkipSpaces(s, i, ws);
    var d := SkipDigits(s, t);
    if t < d < |s| && (s[d] == '.' || s[d] == ')') then SkipSpaces(s, d + 1, ws) else i
  }

  /** Where `^\s*--\s*`, matched from `i`, ends: past a double dash and the
      whitespace around it, or `i` itself when there is none. */
  function AfterDashes(s: string, i: nat, ws: char -> bool): (j: nat)
    requires i <= |s|
    ensures i <= j <= |s|
  {
    var t := SkipSpaces(s, i, ws);
    if t + 1 < |s| && s[t] == '-' && s[t + 1] == '-' then SkipSpaces(s, t + 2, ws) else i
  }

  /** Where the three marker rules, each applied once in order, leave the
      line. */
  function MarkerEnd(line: string, ws: char -> bool): (k: nat)
    ensures k <= |line|
  {
    AfterDashes(line, AfterNumber(line, AfterBullet(line, 0, ws), ws), ws)
  }

  /** The line from `m` on, stripped of `ws` at both ends. */
  function StripFrom(line: string, m: nat, ws: char -> bool): (r: string)
    requires m <= |line|
    ensures |r| <= |line| - m
    ensures r == [] || (!ws(r[0]) && !ws(r[|r| - 1]))
  {
    StripWith(line[m..], ws)
  }

  /** Stripping from an offset only cuts: the result is a piece of the line
      at or after that offset. */
  lemma {:induction false} StripFromIsSlice(line: string, m: nat, ws: char -> bool) returns (i: nat)
    requires m <= |line|
    ensures m <= i && IsSliceAt(StripFrom(line, m, ws), line, i)
  {
    i := SliceInSuffix(line, m, line[m..], StripFrom(line, m, ws), ws);
  }

  /** The stripped suffix `r` of `line` from `m` on is a slice of `line`;
      the suffix is a parameter of its own so that the slice facts about it
      match syntactically. */
  lemma SliceInSuffix(line: string, m: nat, t: string, r: string, ws: char -> bool) returns (i: nat)
    requires m <= |line| && t == line[m..] && r == StripWith(t, ws)
    ensures m <= i && IsSliceAt(r, line, i)
  {
    var k := StripOffset(t, ws);
    SliceOfSuffix(line, m, t, r, k);
    i := m + k;
  }

  /** The marker rules, then stripping of `ws` at both ends. */
  function CleanWith(line: string, ws: char -> bool): (r: string)
    ensures |r| <= |line|
    ensures r == [] || (!ws(r[0]) && !ws(r[|r| - 1]))
  {
    StripFrom(line, MarkerEnd(line, ws), ws)
  }

  /** A line without its list marker: a bullet, then a number, then a
      double dash are each removed once, in that order, and the rest is
      trimmed. The result has no whitespace at either end. */
  function CleanLine(line: string): (r: string)
    ensures |r| <= |line|
    ensures r == [] || (!IsJsSpace(r[0]) && !IsJsSpace(r[|r| - 1]))
  {
    CleanWith(line, IsJsSpace)
  }

  /** Cleaning only cuts: the result is a piece of the line, starting at the
      returned offset. */
  lemma CleanIsSlice(line: string, ws: char -> bool) returns (i: nat)
    ensures IsSliceAt(CleanWith(line, ws), line, i)
  {
    i := StripFromIsSlice(line, MarkerEnd(line, ws), ws);
  }

  /** A line that already reads as plain text (no outer whitespace, and it
      does not open with a dash, a bullet or a digit) is left as it is. */
  lemma CleanKeepsPlainText(line: string, ws: char -> bool)
    requires line != [] && !ws(line[0]) && !ws(line[|line| - 1])
    requires line[0] != '-' && line[0] != '•' && !IsDigit(line[0])
    ensures CleanWith(line, ws) == line
  {
    assert MarkerEnd(line, ws) == 0;
    assert line[0..] == line;
    assert TrimStart(line, ws) == line;
    assert TrimEnd(line, ws) == line;
  }

  /** A double dash loses only its first dash, to the bullet rule; the dash
      rule then no longer applies. */
  lemma CleanDoubleDashWith(ws: char -> bool)
    requires ws(' ') && !ws('-') && !ws('x')
    ensures CleanWith("-- x", ws) == "- x"
  {
    var a := "-- x";
    DoubleDashMarkerEnd(ws);
    assert a[1..] == "- x";
    assert StripWith("- x", ws) == "- x" by {
      assert TrimStart("- x", ws) == "- x";
      assert TrimEnd("- x", ws) == "- x";
    }
  }

  lemma DoubleDashMarkerEnd(ws: char -> bool)
    requires ws(' ') && !ws('-') && !ws('x')
    ensures MarkerEnd("-- x", ws) == 1
  {
    var a := "-- x";
    assert SkipSpaces(a, 0, ws) == 0;
    assert SkipSpaces(a, 1, ws) == 1;
    assert AfterBullet(a, 0, ws) == 1;
    assert SkipDigits(a, 1) == 1;
    assert AfterNumber(a, 1, ws) == 1;
    assert AfterDashes(a, 1, ws) == 1;
  }

  lemma CleanDoubleDash()
    ensures CleanLine("-- x") == "- x"
  {
    CleanDoubleDashWith(IsJsSpace);
  }

  /** A numbered line loses its number and the space after it. */
  lemma CleanNumberedLineWith(ws: char -> bool)
    requires ws(' ') && !ws('1') && !ws('定') && !ws('义')
    ensures CleanWith("1. 定义", ws) == "定义"
  {
    var b := "1. 定义";
    NumberedLineMarkerEnd(ws);
    assert b[3..] == "定义";
    assert StripWith("定义", ws) == "定义" by {
      assert TrimStart("定义", ws) == "定义";
      assert TrimEnd("定义", ws) == "定义";
    }
  }

  lemma NumberedLineMarkerEnd(ws: char -> bool)
    requires ws(' ') && !ws('1') && !ws('定') && !ws('义')
    ensures MarkerEnd("1. 定义", ws) == 3
  {
    var b := "1. 定义";
    assert SkipSpaces(b, 0, ws) == 0;
    assert AfterBullet(b, 0, ws) == 0;
    assert SkipDigits(b, 1) == 1;
    assert SkipDigits(b, 0) == 1;
    assert SkipSpaces(b, 3, ws) == 3;
    assert SkipSpaces(b, 2, ws) == 3;
    assert AfterNumber(b, 0, ws) == 3;
    assert AfterDashes(b, 3, ws) == 3;
  }

  lemma CleanNumberedLine()
    ensures CleanLine("1. 定义") == "定义"
  {
    CleanNumberedLineWith(IsJsSpace);
  }

  /** The cleaned lines that are not empty, in order. */
  function CleanedNonEmpty(lines: seq<string>, clean: string -> string): (r: seq<string>)
    ensures |r| <= |lines|
    ensures forall i :: 0 <= i < |r| ==> r[i] != ""
    decreases |lines|
  {
    if lines == [] then []
    else
      var n := |lines|;
      var prev := CleanedNonEmpty(lines[..n - 1], clean);
      var c := clean(lines[n - 1]);
      if c != "" then prev + [c] else prev
  }

  // ---------------------------------------------------------------------
  // Expansion lines and code fences
  // ---------------------------------------------------------------------

  /** The lines written so far and whether a code fence is open. */
  datatype FenceState = FenceState(parts: seq<string>, inCode: bool)

  predicate IsFence(line: string) {
    StartsWith(line, "```")
  }

  /** One expansion line: a fence line is written as it is and flips the
      mode; inside code a line is written as it is; outside code it is
      cleaned and written only if something is left. */
  function Flush(st: FenceState, line: string, clean: string -> string): (r: FenceState)
    ensures r.inCode == (st.inCode != IsFence(line))
    ensures |st.parts| <= |r.parts| <= |st.parts| + 1 && r.parts[..|st.parts|] == st.parts
  {
    if IsFence(line) then FenceState(st.parts + [line], !st.inCode)
    else if st.inCode then FenceState(st.parts + [line], true)
    else
      var c := clean(line);
      if c != "" then FenceState(st.parts + [c], false) else st
  }

  /** All expansion lines in order, from the given mode. */
  function FlushAll(lines: seq<string>, start: bool, clean: string -> string): (r: FenceState)
    ensures |r.parts| <= |lines|
    decreases |lines|
  {
    if lines == [] then FenceState([], start)
    else
      var n := |lines|;
      Flush(FlushAll(lines[..n - 1], start, clean), lines[n - 1], clean)
  }

  /** The number of fence lines. */
  function FenceCount(lines: seq<string>): (r: nat)
    ensures r <= |lines|
    decreases |lines|
  {
    if lines == [] then 0
    else
      var n := |lines|;
      FenceCount(lines[..n - 1]) + (if IsFence(lines[n - 1]) then 1 else 0)
  }

  /** After all lines, a fence is open exactly when the starting mode and
      the parity of the fence lines say so. */
  lemma {:induction false} FlushAllMode(lines: seq<string>, start: bool, clean: string -> string)
    ensures FlushAll(lines, start, clean).inCode == (start != (FenceCount(lines) % 2 == 1))
    decreases |lines|
  {
    if lines != [] {
      FlushAllMode(lines[..|lines| - 1], start, clean);
    }
  }

  /** Without fence lines the mode never changes: outside code the result is
      the non-empty cleaned lines, inside code the lines themselves. */
  lemma FlushAllWithoutFences(lines: seq<string>, clean: string -> string)
    requires forall i :: 0 <= i < |lines| ==> !IsFence(lines[i])
    ensures FlushAll(lines, false, clean) == FenceState(CleanedNonEmpty(lines, clean), false)
    ensures FlushAll(lines, true, clean) == FenceState(lines, true)
  {
    FlushAllOutsideCode(lines, clean);
    FlushAllInsideCode(lines, clean);
  }

  lemma {:induction false} FlushAllOutsideCode(lines: seq<string>, clean: string -> string)
    requires forall i :: 0 <= i < |lines| ==> !IsFence(lines[i])
    ensures FlushAll(lines, false, clean) == FenceState(CleanedNonEmpty(lines, clean), false)
    decreases |lines|
  {
    if lines != [] {
      var n := |lines|;
      var prefix := lines[..n - 1];
      var last := lines[n - 1];
      assert forall i :: 0 <= i < |prefix| ==> prefix[i] == lines[i];
      FlushAllOutsideCode(prefix, clean);
      assert !IsFence(last);
      assert FlushAll(lines, false, clean) == Flush(FenceState(CleanedNonEmpty(prefix, clean), false), last, clean);
    }
  }

  lemma {:induction false} FlushAllInsideCode(lines: seq<string>, clean: string -> string)
    requires forall i :: 0 <= i < |lines| ==> !IsFence(lines[i])
    ensures FlushAll(lines, true, clean) == FenceState(lines, true)
    decreases |lines|
  {
    if lines != [] {
      var n := |lines|;
      var prefix := lines[..n - 1];
      var last := lines[n - 1];
      assert forall i :: 0 <= i < |prefix| ==> prefix[i] == lines[i];
      FlushAllInsideCode(prefix, clean);
      assert !IsFence(last);
      assert FlushAll(lines, true, clean) == FenceState(prefix + [last], true);
      assert prefix + [last] == lines;
    }
  }

  /** Every written line is an expansion line as it is, or the non-empty
      cleaning of one. */
  lemma {:induction false} FlushAllSources(lines: seq<string>, start: bool, clean: string -> string)
    ensures forall j :: 0 <= j < |FlushAll(lines, start, clean).parts| ==>
      exists i :: 0 <= i < |lines| &&
        (FlushAll(lines, start, clean).parts[j] == lines[i]
         || (FlushAll(lines, start, clean).parts[j] != "" && FlushAll(lines, start, clean).parts[j] == clean(lines[i])))
    decreases |lines|
  {
    if lines != [] {
      var n := |lines|;
      var prefix := lines[..n - 1];
      FlushAllSources(prefix, start, clean);
      var prev := FlushAll(prefix, start, clean).parts;
      var all := FlushAll(lines, start, clean).parts;
      forall j | 0 <= j < |all|
        ensures exists i :: 0 <= i < |lines| && (all[j] == lines[i] || (all[j] != "" && all[j] == clean(lines[i])))
      {
        if j < |prev| {
          assert all[j] == prev[j];
          var i :| 0 <= i < |prefix| && (prev[j] == prefix[i] || (prev[j] != "" && prev[j] == clean(prefix[i])));
          assert prefix[i] == lines[i];
        } else {
          assert all[j] == lines[n - 1] || (all[j] != "" && all[j] == clean(lines[n - 1]));
        }
      }
    } else {
      assert FlushAll(lines, start, clean).parts == [];
    }
  }

  /** An indented fence is not a fence: outside code it is cleaned like any
      other line, and the mode stays off. */
  lemma IndentedFenceWith(clean: string -> string)
    requires clean(" ```") == "```" && clean("x") == "x"
    ensures FlushAll([" ```", "x"], false, clean) == FenceState(["```", "x"], false)
  {
    var lines := [" ```", "x"];
    assert lines[..1] == [" ```"];
    assert [" ```"][..0] == [];
    assert !IsFence(" ```") by {
      assert " ```"[..3] == " ``";
    }
    assert !IsFence("x");
  }

  /** With the real cleaning, the indented fence comes out as a line that
      starts with the fence marks, yet the mode stays off. */
  lemma IndentedFenceDoesNotToggle()
    ensures FlushAll([" ```", "x"], false, CleanLine) == FenceState(["```", "x"], false)
  {
    CleanIndentedFence();
    CleanPlainLetter();
    IndentedFenceWith(CleanLine);
  }

  lemma CleanIndentedFence()
    ensures CleanLine(" ```") == "```"
  {
    CleanIndentedFenceWith(IsJsSpace);
  }

  lemma CleanPlainLetter()
    ensures CleanLine("x") == "x"
  {
    CleanKeepsPlainText("x", IsJsSpace);
  }

  /** An indented fence line loses its indentation. */
  lemma CleanIndentedFenceWith(ws: char -> bool)
    requires ws(' ') && !ws('`')
    ensures CleanWith(" ```", ws) == "```"
  {
    var f := " ```";
    IndentedFenceMarkerEnd(ws);
    assert f[0..] == f;
    assert StripWith(f, ws) == "```" by {
      assert f[1..] == "```";
      assert TrimStart(f, ws) == "```";
      assert TrimEnd("```", ws) == "```";
    }
  }

  lemma IndentedFenceMarkerEnd(ws: char -> bool)
    requires ws(' ') && !ws('`')
    ensures MarkerEnd(" ```", ws) == 0
  {
    var f := " ```";
    assert SkipSpaces(f, 1, ws) == 1;
    assert SkipSpaces(f, 0, ws) == 1;
    assert AfterBullet(f, 0, ws) == 0;
    assert SkipDigits(f, 1) == 1;
    assert AfterNumber(f, 0, ws) == 0;
    assert AfterDashes(f, 0, ws) == 0;
  }

  // ---------------------------------------------------------------------
  // The document
  // ---------------------------------------------------------------------

  /** Titles containing one of these are left out of the table of
      contents. */
  const TocMarks: seq<string> := ["目录", "目录页", "知识块", "标题"]

  /** A topic listed in the table of contents: it has a title, and its
      lower-cased title holds none of the marks. */
  predicate ListedInToc(t: TopicNote) {
    t.title != "" && !ContainsAny(Lower(t.title), TocMarks)
  }

  /** `- title` for each listed topic, in order. */
  function TocEntries(topics: seq<TopicNote>): (r: seq<string>)
    ensures |r| <= |topics|
    decreases |topics|
  {
    if topics == [] then []
    else
      var n := |topics|;
      var prev := TocEntries(topics[..n - 1]);
      if ListedInToc(topics[n - 1]) then prev + ["- " + topics[n - 1].title] else prev
  }

  /** An entry of the table of contents is exactly the title of a listed
      topic behind a dash. */
  lemma {:induction false} TocEntriesIff(topics: seq<TopicNote>, x: string)
    ensures x in TocEntries(topics) <==>
      exists i :: 0 <= i < |topics| && ListedInToc(topics[i]) && x == "- " + topics[i].title
    decreases |topics|
  {
    if topics != [] {
      var n := |topics|;
      var prefix := topics[..n - 1];
      TocEntriesIff(prefix, x);
      assert forall i :: 0 <= i < |prefix| ==> prefix[i] == topics[i];
      assert topics == prefix + [topics[n - 1]];
    }
  }

  /** The table of contents: present only when there are topics, then a
      heading, the entries and an empty line. */
  function TocBlock(topics: seq<TopicNote>): (r: seq<string>)
    ensures topics == [] <==> r == []
    ensures topics != [] ==> |r| >= 2 && r[0] == "## 目录" && r[1..|r| - 1] == TocEntries(topics) && r[|r| - 1] == ""
  {
    if topics == [] then [] else ["## 目录"] + TocEntries(topics) + [""]
  }

  /** The retrieval snippets of a topic, cleaned, under their heading; only
      when there are some. */
  function SnippetBlock(snippets: seq<string>): (r: seq<string>)
    ensures snippets == [] <==> r == []
    ensures snippets != [] ==> |r| >= 2 && r[0] == "### 检索片段" && r[1..|r| - 1] == CleanedNonEmpty(snippets, CleanLine) && r[|r| - 1] == ""
  {
    if snippets == [] then [] else ["### 检索片段"] + CleanedNonEmpty(snippets, CleanLine) + [""]
  }

  /** The heading of a topic: its title, or `未命名` without one. */
  function TopicHeading(t: TopicNote): string {
    "## " + (if t.title != "" then t.title else "未命名")
  }

  /** The section line of a topic, when it has a section. */
  function SectionLines(t: TopicNote): (r: seq<string>)
    ensures |r| <= 1
    ensures |r| == 1 <==> Truthy(t.section)
  {
    if Truthy(t.section) then ["> 章节：" + t.section.value] else []
  }

  /** The head of a topic block: heading, section line, an empty line, the
      content heading and the cleaned summary (even when empty). */
  function TopicHead(t: TopicNote): (r: seq<string>)
    ensures |r| == 4 + |SectionLines(t)|
    ensures var k := |SectionLines(t)|;
      && r[0] == TopicHeading(t)
      && r[1 + k] == "" && r[2 + k] == "#### 内容"
      && r[3 + k] == CleanLine(t.enrichment.summary)
  {
    [TopicHeading(t)] + SectionLines(t) + ["", "#### 内容", CleanLine(t.enrichment.summary)]
  }

  /** The block of one topic: its head, the expansion lines written from a
      closed fence state, an empty line, and the snippet block. */
  function TopicBlock(t: TopicNote): (r: seq<string>)
    ensures |r| >= 5 + |SectionLines(t)|
    ensures r[..4 + |SectionLines(t)|] == TopicHead(t)
    ensures r[4 + |SectionLines(t)|..] ==
      FlushAll(t.enrichment.expansions, false, CleanLine).parts + [""] + SnippetBlock(t.enrichment.searchSnippets)
  {
    var head := TopicHead(t);
    var body := TopicBody(t);
    assert (head + body)[..|head|] == head;
    assert (head + body)[|head|..] == body;
    head + body
  }

  /** What follows the head: the expansion lines written from a closed
      fence state, an empty line, and the snippet block. */
  function TopicBody(t: TopicNote): (r: seq<string>)
    ensures |r| >= 1
  {
    FlushAll(t.enrichment.expansions, false, CleanLine).parts + [""] + SnippetBlock(t.enrichment.searchSnippets)
  }

  /** The blocks of all topics, in order. */
  function TopicBlocks(topics: seq<TopicNote>): (r: seq<string>)
    ensures topics == [] <==> r == []
    decreases |topics|
  {
    if topics == [] then [] else TopicBlock(topics[0]) + TopicBlocks(topics[1..])
  }

  /** Regrouping three runs of lines; stated on plain lines so that no
      block facts are in scope. */
  lemma Regroup(h: seq<string>, rest: seq<string>, tail: seq<string>)
    ensures h + (rest + tail) == (h + rest) + tail
  {
  }

  /** The head and tail of a concatenation with a non-empty front. */
  lemma DropFirstOfAppend<T>(a: seq<T>, b: seq<T>)
    requires a != []
    ensures (a + b)[0] == a[0] && (a + b)[1..] == a[1..] + b
  {
  }

  /** Each topic's block depends on that topic alone (code mode restarts
      closed for every topic), so the blocks of two runs of topics are the
      two runs of blocks one after the other. */
  lemma {:induction false} TopicBlocksAppend(a: seq<TopicNote>, b: seq<TopicNote>)
    ensures TopicBlocks(a + b) == TopicBlocks(a) + TopicBlocks(b)
    decreases |a|
  {
    if a == [] {
      assert a + b == b;
    } else {
      var h := TopicBlock(a[0]);
      var rest := TopicBlocks(a[1..]);
      TopicBlocksAppend(a[1..], b);
      DropFirstOfAppend(a, b);
      assert TopicBlocks(a + b) == h + (rest + TopicBlocks(b));
      Regroup(h, rest, TopicBlocks(b));
    }
  }

  /** The lines of the document: table of contents, the notes heading, and
      the topic blocks. */
  function Parts(topics: seq<TopicNote>): (r: seq<string>)
    ensures |r| == |TocBlock(topics)| + 1 + |TopicBlocks(topics)|
    ensures r[|TocBlock(topics)|] == "## 笔记内容"
    ensures r[..|TocBlock(topics)|] == TocBlock(topics)
    ensures r[|TocBlock(topics)| + 1..] == TopicBlocks(topics)
  {
    var toc := TocBlock(topics);
    var blocks := TopicBlocks(topics);
    var r := toc + ["## 笔记内容"] + blocks;
    assert r[..|toc|] == toc;
    assert r[|toc| + 1..] == blocks;
    r
  }

  /** The Markdown text: the lines joined with line breaks. */
  function Document(topics: seq<TopicNote>): string {
    Join("\n", Parts(topics))
  }

  /** Without topics the document is the notes heading alone. */
  lemma EmptyDocument()
    ensures Document([]) == "## 笔记内容"
  {
  }

  /** The document splits back into the lines of its parts, part after
      part; when no part holds a line break, into its parts. */
  lemma DocumentLines(topics: seq<TopicNote>)
    ensures Split(Document(topics), '\n') == SplitEach(Parts(topics), '\n')
    ensures (forall i :: 0 <= i < |Parts(topics)| ==> '\n' !in Parts(topics)[i]) ==>
      Split(Document(topics), '\n') == Parts(topics)
  {
    var parts := Parts(topics);
    SplitJoinEach(parts, '\n');
    if forall i :: 0 <= i < |parts| ==> '\n' !in parts[i] {
      SplitEachNoSeparator(parts, '\n');
    }
  }
}
