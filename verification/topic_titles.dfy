/** The per-slide title rules of topic grouping, and the normalisation that
    turns a (section, title) pair into a cluster key. */
module TopicTitles {
  import opened Wrappers
  import opened Strings
  import opened Models

  /** Titles containing one of these are placeholders and never join a
      topic. */
  const PlaceholderMarks: seq<string> := ["目录", "目录页", "知识块", "知识 block", "标题"]

  /** A title longer than this is taken for body text. */
  const MaxTitleLength: nat := 60

  predicate IsPlaceholderTitle(title: Option<string>) {
    Truthy(title) && ContainsAny(title.value, PlaceholderMarks)
  }

  // ---------------------------------------------------------------------
  // The step pattern, as the regular expression is actually written
  // ---------------------------------------------------------------------

  /** The characters a case-insensitive `s` matches: `s`, `S` and the long
      s `ſ`, which folds to `s`. */
  predicate IsLetterS(c: char) {
    c == 's' || c == 'S' || c == '\U{017F}'
  }

  /** The leading characters of `u` matching a case-insensitive `s`,
      removed. */
  function DropLetterS(u: string): (r: string)
    ensures |r| <= |u| && r == u[|u| - |r|..]
    ensures r == [] || !IsLetterS(r[0])
    decreases |u|
  {
    if u != [] && IsLetterS(u[0]) then DropLetterS(u[1..]) else u
  }

  /** What the doubled backslashes of the pattern match, case-insensitively:
      a backslash, any run of the letter `s`, a backslash and the letter
      `d`. */
  predicate EscapedDigitTail(u: string) {
    && |u| >= 1 && u[0] == '\\'
    && var v := DropLetterS(u[1..]);
       |v| >= 2 && v[0] == '\\' && (v[1] == 'd' || v[1] == 'D')
  }

  /** `step` with case ignored. */
  predicate IsStepWord(w: string) {
    && |w| == 4 && IsLetterS(w[0])
    && (w[1] == 't' || w[1] == 'T') && (w[2] == 'e' || w[2] == 'E') && (w[3] == 'p' || w[3] == 'P')
  }

  /** The step pattern `^(第\\s*\\d|step\\s*\\d)` with case ignored. Written
      as a raw string with doubled backslashes it asks for literal
      backslashes, so only titles that begin with `第` or `step` followed by
      that backslash sequence match. */
  predicate IsStepTitle(t: string) {
    || (|t| >= 1 && t[0] == '第' && EscapedDigitTail(t[1..]))
    || (|t| >= 4 && IsStepWord(t[..4]) && EscapedDigitTail(t[4..]))
  }

  /** Ordinary numbered sub-step titles do not match the pattern. */
  lemma PlainStepTitlesDoNotMatch()
    ensures !IsStepTitle("Step 1")
    ensures !IsStepTitle("第1步")
  {
    assert "Step 1"[4..] == " 1";
    assert "第1步"[1..] == "1步";
  }

  /** A run of letters `s` in front of text that does not open with one is
      dropped whole. */
  lemma {:induction false} DropLetterSRun(ss: string, v: string)
    requires forall i :: 0 <= i < |ss| ==> IsLetterS(ss[i])
    requires v == [] || !IsLetterS(v[0])
    ensures DropLetterS(ss + v) == v
  {
    if ss == [] {
      assert ss + v == v;
    } else {
      assert (ss + v)[0] == ss[0];
      assert (ss + v)[1..] == ss[1..] + v;
      DropLetterSRun(ss[1..], v);
    }
  }

  /** A backslash, a run of letters `s`, a backslash and a `d` in either
      case form the escaped digit tail. */
  lemma EscapedTailOf(ss: string, d: char)
    requires forall i :: 0 <= i < |ss| ==> IsLetterS(ss[i])
    requires d == 'd' || d == 'D'
    ensures EscapedDigitTail(['\\'] + ss + ['\\', d])
  {
    var u := ['\\'] + ss + ['\\', d];
    assert u[1..] == ss + ['\\', d];
    DropLetterSRun(ss, ['\\', d]);
  }

  /** Only the literal backslash forms match: `第` or a step word, then a
      backslash, any run of the letter `s`, a backslash and `d`. */
  lemma EscapedStepTitlesMatch(w: string, ss: string, d: char)
    requires IsStepWord(w)
    requires forall i :: 0 <= i < |ss| ==> IsLetterS(ss[i])
    requires d == 'd' || d == 'D'
    ensures IsStepTitle(w + (['\\'] + ss + ['\\', d]))
    ensures IsStepTitle(['第'] + (['\\'] + ss + ['\\', d]))
  {
    var u := ['\\'] + ss + ['\\', d];
    EscapedTailOf(ss, d);
    var t := w + u;
    assert t[..4] == w;
    assert t[4..] == u;
    var c := ['第'] + u;
    assert c[1..] == u;
  }

  // ---------------------------------------------------------------------
  // The effective title and the running last title
  // ---------------------------------------------------------------------

  /** The running last title is empty or at most 60 characters long. */
  predicate LastTitleOk(last: string) {
    |last| <= MaxTitleLength
  }

  /** The slide's own title, stripped, when it can name a topic: present,
      not a step title and at most 60 characters. */
  predicate HasUsableTitle(title: Option<string>) {
    Truthy(title) && Strip(title.value) != ""
    && !IsStepTitle(Strip(title.value)) && |Strip(title.value)| <= MaxTitleLength
  }

  /** The rewrite rules applied in order to one slide, given the last title
      seen: start from the stripped own title; a step title or one over 60
      characters is replaced by the last title; a non-empty result becomes
      the new last title; an empty result falls back to the last title and
      then to the stripped section name. Returns the effective title (empty
      when the slide is dropped) and the new last title.

      Whenever the last title is within bounds, this is the same as: the
      slide's own stripped title when it is usable (and it becomes the last
      title), otherwise the last title or, failing that, the section, with
      the last title unchanged. */
  function ResolveTitle(title: Option<string>, section: Option<string>, last: string): (r: (string, string))
    ensures LastTitleOk(last) ==> LastTitleOk(r.1)
    ensures LastTitleOk(last) && HasUsableTitle(title) ==> r == (Strip(title.value), Strip(title.value))
    ensures LastTitleOk(last) && !HasUsableTitle(title) ==>
      r == (if last != "" then last else Strip(OrEmpty(section)), last)
    ensures r.0 == "" ==> r.1 == last
  {
    var own := if Truthy(title) then Strip(title.value) else "";
    var stepped := if own != "" && IsStepTitle(own) then last else own;
    var bounded := if stepped != "" && |stepped| > MaxTitleLength then last else stepped;
    if bounded != "" then (bounded, bounded)
    else (if last != "" then last else Strip(OrEmpty(section)), last)
  }

  // ---------------------------------------------------------------------
  // Key normalisation
  // ---------------------------------------------------------------------

  function DeletePunctuation(s: string): (r: string)
    ensures |r| <= |s|
    ensures forall i :: 0 <= i < |r| ==> !IsPunctuation(r[i]) && r[i] in s
    ensures (forall i :: 0 <= i < |s| ==> !IsPunctuation(s[i])) ==> r == s
    decreases |s|
  {
    if s == [] then []
    else if IsPunctuation(s[0]) then DeletePunctuation(s[1..])
    else [s[0]] + DeletePunctuation(s[1..])
  }

  /** `re.sub(r"\s+", " ", s)`: every maximal whitespace run becomes one
      space. */
  function CollapseSpaces(s: string): (r: string)
    ensures |r| > 0 <==> |s| > 0
    ensures |r| > 0 ==> (r[0] == ' ' <==> IsPySpace(s[0]))
    decreases |s|
  {
    if s == [] then []
    else if IsPySpace(s[0]) then [' '] + CollapseSpaces(TrimStart(s, IsPySpace))
    else [s[0]] + CollapseSpaces(s[1..])
  }

  /** After collapsing, every character is a space or a non-whitespace
      character of the input, and no two spaces are adjacent. */
  lemma {:induction false} CollapseShape(s: string)
    ensures forall i :: 0 <= i < |CollapseSpaces(s)| ==>
      CollapseSpaces(s)[i] == ' ' || (CollapseSpaces(s)[i] in s && !IsPySpace(CollapseSpaces(s)[i]))
    ensures NoDoubleSpace(CollapseSpaces(s))
    decreases |s|
  {
    if s != [] && IsPySpace(s[0]) {
      var rest := TrimStart(s, IsPySpace);
      var tail := CollapseSpaces(rest);
      CollapseShape(rest);
      assert CollapseSpaces(s) == [' '] + tail;
      ConsNoDoubleSpace(' ', tail);
      ConsShape(' ', tail, rest, s);
    } else if s != [] {
      var rest := s[1..];
      var tail := CollapseSpaces(rest);
      CollapseShape(rest);
      assert CollapseSpaces(s) == [s[0]] + tail;
      ConsNoDoubleSpace(s[0], tail);
      ConsShape(s[0], tail, rest, s);
    }
  }

  /** A character that is a space or a non-whitespace character of `s`, put
      in front of a collapse of a suffix of `s`, keeps the shape of
      `CollapseShape`. */
  lemma ConsShape(c: char, tail: string, rest: string, s: string)
    requires |rest| <= |s| && rest == s[|s| - |rest|..]
    requires c == ' ' || (c in s && !IsPySpace(c))
    requires forall i :: 0 <= i < |tail| ==> tail[i] == ' ' || (tail[i] in rest && !IsPySpace(tail[i]))
    ensures forall i :: 0 <= i < |[c] + tail| ==> ([c] + tail)[i] == ' ' || (([c] + tail)[i] in s && !IsPySpace(([c] + tail)[i]))
  {
    var r := [c] + tail;
    forall i | 0 < i < |r|
      ensures r[i] == ' ' || (r[i] in s && !IsPySpace(r[i]))
    {
      assert r[i] == tail[i - 1];
      if r[i] != ' ' {
        var j :| 0 <= j < |rest| && rest[j] == r[i];
        assert s[|s| - |rest| + j] == r[i];
      }
    }
  }

  /** Putting a character in front keeps adjacent spaces apart unless both
      it and the first character are spaces. */
  lemma ConsNoDoubleSpace(c: char, t: string)
    requires NoDoubleSpace(t)
    requires c == ' ' ==> t == [] || t[0] != ' '
    ensures NoDoubleSpace([c] + t)
  {
    var s := [c] + t;
    forall j, i | 0 < j < |s| && i == j - 1
      ensures !(s[i] == ' ' && s[j] == ' ')
    {
      if i > 0 {
        assert s[i] == t[i - 1] && s[j] == t[j - 1];
      }
    }
  }

  /** No two adjacent spaces. */
  predicate NoDoubleSpace(s: string) {
    forall j, i :: 0 < j < |s| && i == j - 1 ==> !(s[i] == ' ' && s[j] == ' ')
  }

  /** A normalised key: no ASCII capital, no punctuation, no whitespace other
      than single inner spaces. */
  predicate IsNormalForm(r: string) {
    && (forall i :: 0 <= i < |r| ==> !IsUpperAscii(r[i]) && !IsPunctuation(r[i]))
    && (forall i :: 0 <= i < |r| ==> IsPySpace(r[i]) ==> r[i] == ' ')
    && NoDoubleSpace(r)
    && (r == [] || (r[0] != ' ' && r[|r| - 1] != ' '))
  }

  /** The key normalisation: empty for a missing or empty text, otherwise
      lower-cased, punctuation deleted, whitespace runs collapsed to one space
      and the ends stripped. */
  function Norm(t: Option<string>): (r: string)
    ensures IsNormalForm(r)
  {
    if !Truthy(t) then ""
    else
      var lowered := Lower(t.value);
      var unpunctuated := DeletePunctuation(lowered);
      var collapsed := CollapseSpaces(unpunctuated);
      CollapsedPieces(t.value);
      StripCollapsedIsNormal(collapsed);
      Strip(collapsed)
  }

  /** What lower-casing, deleting punctuation and collapsing whitespace
      leave: no capital, no punctuation, spaces as the only whitespace, and
      never two of them side by side. */
  lemma CollapsedPieces(t: string)
    ensures var c := CollapseSpaces(DeletePunctuation(Lower(t)));
      && (forall i :: 0 <= i < |c| ==> !IsUpperAscii(c[i]) && !IsPunctuation(c[i]))
      && (forall i :: 0 <= i < |c| ==> IsPySpace(c[i]) ==> c[i] == ' ')
      && NoDoubleSpace(c)
  {
    var lowered := Lower(t);
    var u := DeletePunctuation(lowered);
    var c := CollapseSpaces(u);
    CollapseShape(u);
    forall i | 0 <= i < |c|
      ensures !IsUpperAscii(c[i]) && !IsPunctuation(c[i])
    {
      if c[i] != ' ' {
        var j :| 0 <= j < |u| && u[j] == c[i];
        var k :| 0 <= k < |lowered| && lowered[k] == u[j];
      }
    }
  }

  lemma StripCollapsedIsNormal(s: string)
    requires forall i :: 0 <= i < |s| ==> !IsUpperAscii(s[i]) && !IsPunctuation(s[i])
    requires forall i :: 0 <= i < |s| ==> IsPySpace(s[i]) ==> s[i] == ' '
    requires NoDoubleSpace(s)
    ensures IsNormalForm(Strip(s))
  {
    var r := Strip(s);
    var k := StripOffset(s, IsPySpace);
    SliceKeepsShape(r, s, k);
    assert IsPySpace(' ');
  }

  /** A slice keeps the character properties of a normal form and its lack
      of adjacent spaces. */
  lemma SliceKeepsShape(r: string, s: string, k: nat)
    requires IsSliceAt(r, s, k)
    requires forall i :: 0 <= i < |s| ==> !IsUpperAscii(s[i]) && !IsPunctuation(s[i])
    requires forall i :: 0 <= i < |s| ==> IsPySpace(s[i]) ==> s[i] == ' '
    requires NoDoubleSpace(s)
    ensures forall i :: 0 <= i < |r| ==> !IsUpperAscii(r[i]) && !IsPunctuation(r[i])
    ensures forall i :: 0 <= i < |r| ==> IsPySpace(r[i]) ==> r[i] == ' '
    ensures NoDoubleSpace(r)
  {
    assert forall i :: 0 <= i < |r| ==> r[i] == s[k + i];
    forall j, i | 0 < j < |r| && i == j - 1
      ensures !(r[i] == ' ' && r[j] == ' ')
    {
      assert r[i] == s[k + i] && r[j] == s[k + j];
    }
  }

  /** A single leading whitespace character followed by a non-whitespace
      one is all that trimming removes. */
  lemma TrimOneSpace(s: string)
    requires |s| > 0 && IsPySpace(s[0])
    requires |s| == 1 || !IsPySpace(s[1])
    ensures TrimStart(s, IsPySpace) == s[1..]
  {
  }

  lemma {:induction false} CollapseNormal(s: string)
    requires forall i :: 0 <= i < |s| ==> IsPySpace(s[i]) ==> s[i] == ' '
    requires NoDoubleSpace(s)
    ensures CollapseSpaces(s) == s
    decreases |s|
  {
    if s != [] {
      var t := s[1..];
      TailKeepsSpacing(s);
      CollapseNormal(t);
      CollapseFirst(s);
      assert [s[0]] + t == s;
    }
  }

  /** Dropping the first character keeps whitespace to single spaces. */
  lemma TailKeepsSpacing(s: string)
    requires s != []
    requires forall i :: 0 <= i < |s| ==> IsPySpace(s[i]) ==> s[i] == ' '
    requires NoDoubleSpace(s)
    ensures forall i :: 0 <= i < |s[1..]| ==> IsPySpace(s[1..][i]) ==> s[1..][i] == ' '
    ensures NoDoubleSpace(s[1..])
  {
    var t := s[1..];
    assert forall i :: 0 <= i < |t| ==> t[i] == s[i + 1];
    forall j, i | 0 < j < |t| && i == j - 1
      ensures !(t[i] == ' ' && t[j] == ' ')
    {
      assert t[i] == s[i + 1] && t[j] == s[j + 1];
    }
  }

  /** With single spaces only, collapsing takes the first character as it
      is and goes on with the rest. */
  lemma CollapseFirst(s: string)
    requires s != []
    requires forall i :: 0 <= i < |s| ==> IsPySpace(s[i]) ==> s[i] == ' '
    requires NoDoubleSpace(s)
    ensures CollapseSpaces(s) == [s[0]] + CollapseSpaces(s[1..])
  {
    if IsPySpace(s[0]) {
      if |s| > 1 {
        assert !(s[0] == ' ' && s[1] == ' ');
      }
      TrimOneSpace(s);
    }
  }

  /** A normal form is left alone by every step of normalisation. */
  lemma NormalFormFixed(n: string)
    requires IsNormalForm(n)
    ensures Lower(n) == n
    ensures DeletePunctuation(n) == n
    ensures CollapseSpaces(n) == n
    ensures Strip(n) == n
  {
    CollapseNormal(n);
    if n != [] {
      assert !IsPySpace(n[0]) && !IsPySpace(n[|n| - 1]);
    }
  }

  /** Normalising a normalised key changes nothing, so normalisation is
      idempotent. */
  lemma NormIdempotent(t: Option<string>)
    ensures Norm(Some(Norm(t))) == Norm(t)
  {
    NormOfNormal(Norm(t));
  }

  /** A normal form is its own key. */
  lemma NormOfNormal(n: string)
    requires IsNormalForm(n)
    ensures Norm(Some(n)) == n
  {
    NormalFormFixed(n);
  }
}
