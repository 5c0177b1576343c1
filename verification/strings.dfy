/** String primitives of Python and JavaScript that the pipeline relies on,
    written out over `seq<char>`.

    Assumptions, stated once here:
    - a `char` is one Unicode code point, as in a Python `str`;
    - lower-casing is ASCII-only (`A`..`Z` to `a`..`z`); the non-ASCII case
      mappings of `str.lower()` / `toLowerCase()` are not modelled;
    - `\d` is `0`..`9`;
    - line splitting only breaks at `'\n'`. */
module Strings {

  // ---------------------------------------------------------------------
  // Character classes
  // ---------------------------------------------------------------------

  /** Python's `str.isspace()` set, which is what `str.strip()` removes and
      what `\s` matches in a `re` pattern over `str`. */
  predicate IsPySpace(c: char) {
    || c == ' ' || c == '\t' || c == '\n' || c == '\r'
    || c == '\U{000B}' || c == '\U{000C}'
    || ('\U{001C}' <= c <= '\U{001F}')
    || c == '\U{0085}' || c == '\U{00A0}' || c == '\U{1680}'
    || ('\U{2000}' <= c <= '\U{200A}')
    || c == '\U{2028}' || c == '\U{2029}' || c == '\U{202F}'
    || c == '\U{205F}' || c == '\U{3000}'
  }

  /** JavaScript's `\s` set, which is also what `String.prototype.trim`
      removes. It differs from Python's: it has U+FEFF and lacks U+001C..U+001F
      and U+0085. */
  predicate IsJsSpace(c: char) {
    || c == ' ' || c == '\t' || c == '\n' || c == '\r'
    || c == '\U{000B}' || c == '\U{000C}'
    || c == '\U{00A0}' || c == '\U{1680}'
    || ('\U{2000}' <= c <= '\U{200A}')
    || c == '\U{2028}' || c == '\U{2029}' || c == '\U{202F}'
    || c == '\U{205F}' || c == '\U{3000}' || c == '\U{FEFF}'
  }

  predicate IsDigit(c: char) {
    '0' <= c <= '9'
  }

  /** The number of leading ASCII digits of `s`. */
  function DigitRun(s: string): (k: nat)
    ensures k <= |s|
    ensures forall i :: 0 <= i < k ==> IsDigit(s[i])
    ensures k < |s| ==> !IsDigit(s[k])
    decreases |s|
  {
    if s != [] && IsDigit(s[0]) then 1 + DigitRun(s[1..]) else 0
  }

  /** The 32 characters of Python's `string.punctuation`. */
  predicate IsPunctuation(c: char) {
    || ('!' <= c <= '/')
    || (':' <= c <= '@')
    || ('[' <= c <= '`')
    || ('{' <= c <= '~')
  }

  predicate IsUpperAscii(c: char) {
    'A' <= c <= 'Z'
  }

  function LowerChar(c: char): (r: char)
    ensures !IsUpperAscii(r)
    ensures !IsUpperAscii(c) ==> r == c
  {
    if IsUpperAscii(c) then (c as int + 32) as char else c
  }

  function Lower(s: string): (r: string)
    ensures |r| == |s|
    ensures forall i :: 0 <= i < |s| ==> r[i] == LowerChar(s[i])
  {
    seq(|s|, i requires 0 <= i < |s| => LowerChar(s[i]))
  }

  // ---------------------------------------------------------------------
  // Prefixes and substrings
  // ---------------------------------------------------------------------

  predicate StartsWith(s: string, p: string) {
    |p| <= |s| && s[..|p|] == p
  }

  /** Python's `p in s` / JavaScript's `s.includes(p)`. */
  predicate Contains(s: string, p: string)
    decreases |s|
  {
    StartsWith(s, p) || (|s| > 0 && Contains(s[1..], p))
  }

  predicate ContainsAny(s: string, ps: seq<string>) {
    exists i :: 0 <= i < |ps| && Contains(s, ps[i])
  }

  lemma ContainsAt(s: string, p: string, k: nat)
    requires k + |p| <= |s| && s[k..k + |p|] == p
    ensures Contains(s, p)
    decreases k
  {
    if k > 0 {
      assert s[1..][k - 1..k - 1 + |p|] == p;
      ContainsAt(s[1..], p, k - 1);
    }
  }

  // ---------------------------------------------------------------------
  // Whitespace trimming
  // ---------------------------------------------------------------------

  /** Every character of `s` belongs to the class `ws`. */
  predicate IsBlankWith(s: string, ws: char -> bool) {
    forall i :: 0 <= i < |s| ==> ws(s[i])
  }

  function TrimStart(s: string, ws: char -> bool): (r: string)
    ensures |r| <= |s| && r == s[|s| - |r|..]
    ensures r == [] || !ws(r[0])
    ensures IsBlankWith(s[..|s| - |r|], ws)
    decreases |s|
  {
    if s != [] && ws(s[0]) then TrimStart(s[1..], ws) else s
  }

  function TrimEnd(s: string, ws: char -> bool): (r: string)
    ensures |r| <= |s| && r == s[..|r|]
    ensures r == [] || !ws(r[|r| - 1])
    ensures IsBlankWith(s[|r|..], ws)
    decreases |s|
  {
    if s != [] && ws(s[|s| - 1]) then TrimEnd(s[..|s| - 1], ws) else s
  }

  /** Removes the leading and trailing characters of class `ws`: the result
      is a slice of `s`, has no such character at either end, and only
      characters of that class were removed. */
  function StripWith(s: string, ws: char -> bool): (r: string)
    ensures |r| <= |s|
    ensures r == [] || (!ws(r[0]) && !ws(r[|r| - 1]))
  {
    TrimEnd(TrimStart(s, ws), ws)
  }

  /** `r` is the piece of `s` that starts at offset `k`. */
  predicate IsSliceAt(r: string, s: string, k: nat) {
    k + |r| <= |s| && r == s[k..k + |r|]
  }

  /** What stripping removed: a blank prefix and a blank suffix, leaving the
      slice of `s` that starts at the returned offset. */
  lemma StripIsSlice(s: string, ws: char -> bool) returns (k: nat)
    ensures IsSliceAt(StripWith(s, ws), s, k)
    ensures IsBlankWith(s[..k], ws) && IsBlankWith(s[k + |StripWith(s, ws)|..], ws)
  {
    var t := TrimStart(s, ws);
    k := |s| - |t|;
    var r := TrimEnd(t, ws);
    assert StripWith(s, ws) == r;
    TrimmedSlice(s, t, r, ws);
  }

  /** Cutting a blank prefix and then a blank suffix leaves a slice with
      blanks on both sides. */
  lemma TrimmedSlice(s: string, t: string, r: string, ws: char -> bool)
    requires |t| <= |s| && t == s[|s| - |t|..] && IsBlankWith(s[..|s| - |t|], ws)
    requires |r| <= |t| && r == t[..|r|] && IsBlankWith(t[|r|..], ws)
    ensures IsSliceAt(r, s, |s| - |t|)
    ensures IsBlankWith(s[|s| - |t| + |r|..], ws)
  {
    PrefixOfSuffix(s, t, r);
  }

  /** A prefix `r` of a suffix `t` of `s` is a slice of `s`, and what
      follows it in `t` is what follows it in `s`. */
  lemma PrefixOfSuffix(s: string, t: string, r: string)
    requires |t| <= |s| && t == s[|s| - |t|..]
    requires |r| <= |t| && r == t[..|r|]
    ensures IsSliceAt(r, s, |s| - |t|)
    ensures s[|s| - |t| + |r|..] == t[|r|..]
  {
  }

  /** A slice of a suffix of `s` is a slice of `s`. */
  lemma SliceOfSuffix(s: string, m: nat, t: string, r: string, k: nat)
    requires m <= |s| && t == s[m..] && IsSliceAt(r, t, k)
    ensures IsSliceAt(r, s, m + k)
  {
    assert t[k..k + |r|] == s[m + k..m + k + |r|];
  }

  /** Where the stripped slice starts. */
  lemma StripOffset(s: string, ws: char -> bool) returns (k: nat)
    ensures IsSliceAt(StripWith(s, ws), s, k)
  {
    k := StripIsSlice(s, ws);
  }

  /** Python's `str.strip()`. */
  function Strip(s: string): (r: string)
    ensures |r| <= |s|
    ensures r == [] || (!IsPySpace(r[0]) && !IsPySpace(r[|r| - 1]))
  {
    StripWith(s, IsPySpace)
  }

  /** JavaScript's `String.prototype.trim()`. */
  function Trim(s: string): (r: string)
    ensures |r| <= |s|
    ensures r == [] || (!IsJsSpace(r[0]) && !IsJsSpace(r[|r| - 1]))
  {
    StripWith(s, IsJsSpace)
  }

  /** A string strips to nothing exactly when it is all whitespace. */
  lemma StripEmptyIffBlank(s: string, ws: char -> bool)
    ensures StripWith(s, ws) == [] <==> IsBlankWith(s, ws)
  {
  }

  /** Stripping twice is stripping once. */
  lemma StripIdempotent(s: string, ws: char -> bool)
    ensures StripWith(StripWith(s, ws), ws) == StripWith(s, ws)
  {
    var r := StripWith(s, ws);
    if r != [] {
      assert TrimStart(r, ws) == r;
      assert TrimEnd(r, ws) == r;
    }
  }

  // ---------------------------------------------------------------------
  // Splitting and joining
  // ---------------------------------------------------------------------

  /** Python's `s.split(sep)` for a one-character separator: never empty,
      and `""` gives `[""]`. */
  function Split(s: string, sep: char): (r: seq<string>)
    ensures |r| >= 1
    ensures forall i :: 0 <= i < |r| ==> sep !in r[i]
    decreases |s|
  {
    if s == [] then [""]
    else if s[0] == sep then [""] + Split(s[1..], sep)
    else
      var rest := Split(s[1..], sep);
      [[s[0]] + rest[0]] + rest[1..]
  }

  /** Python's `sep.join(xs)` / JavaScript's `xs.join(sep)`. */
  function Join(sep: string, xs: seq<string>): string
    decreases |xs|
  {
    if |xs| == 0 then ""
    else if |xs| == 1 then xs[0]
    else xs[0] + sep + Join(sep, xs[1..])
  }

  /** A join opens with its first piece. */
  lemma JoinStartsWithFirst(sep: string, xs: seq<string>)
    requires xs != []
    ensures StartsWith(Join(sep, xs), xs[0])
  {
    if |xs| > 1 {
      assert Join(sep, xs) == xs[0] + (sep + Join(sep, xs[1..]));
    }
  }

  /** Joining the pieces of a split with the separator restores the string. */
  lemma {:induction false} JoinSplit(s: string, sep: char)
    ensures Join([sep], Split(s, sep)) == s
    decreases |s|
  {
    if s == [] {
    } else if s[0] == sep {
      JoinSplit(s[1..], sep);
      assert Split(s, sep)[1..] == Split(s[1..], sep);
    } else {
      var rest := Split(s[1..], sep);
      JoinSplit(s[1..], sep);
      var r := Split(s, sep);
      assert r[1..] == rest[1..];
      if |rest| > 1 {
        assert Join([sep], rest) == rest[0] + [sep] + Join([sep], rest[1..]);
      }
    }
  }

  lemma {:induction false} SplitNoSeparator(a: string, sep: char)
    requires sep !in a
    ensures Split(a, sep) == [a]
    decreases |a|
  {
    if a != [] {
      assert sep !in a[1..];
      SplitNoSeparator(a[1..], sep);
      assert [a[0]] + a[1..] == a;
    }
  }

  lemma {:induction false} SplitAtFirstSeparator(a: string, sep: char, t: string)
    requires sep !in a
    ensures Split(a + [sep] + t, sep) == [a] + Split(t, sep)
    decreases |a|
  {
    var s := a + [sep] + t;
    if a == [] {
      assert s == [sep] + t;
      assert s[1..] == t;
    } else {
      assert s[1..] == a[1..] + [sep] + t;
      assert sep !in a[1..];
      SplitAtFirstSeparator(a[1..], sep, t);
      assert [a[0]] + a[1..] == a;
    }
  }

  /** Splitting a join of separator-free pieces gives back the pieces. */
  lemma {:induction false} SplitJoin(xs: seq<string>, sep: char)
    requires |xs| >= 1
    requires forall i :: 0 <= i < |xs| ==> sep !in xs[i]
    ensures Split(Join([sep], xs), sep) == xs
    decreases |xs|
  {
    if |xs| == 1 {
      SplitNoSeparator(xs[0], sep);
    } else {
      SplitJoin(xs[1..], sep);
      SplitAtFirstSeparator(xs[0], sep, Join([sep], xs[1..]));
      assert [xs[0]] + xs[1..] == xs;
    }
  }

  /** Splitting at a separator between two strings splits each side on its
      own. */
  lemma {:induction false} SplitConcat(a: string, sep: char, b: string)
    ensures Split(a + [sep] + b, sep) == Split(a, sep) + Split(b, sep)
    decreases |a|
  {
    if a == [] {
      SplitCons(sep, b, sep);
      assert a + [sep] + b == [sep] + b;
    } else {
      SplitConcat(a[1..], sep, b);
      SplitConcatStep(a[0], a[1..], sep, b);
      assert [a[0]] + a[1..] == a;
      assert [a[0]] + a[1..] + [sep] + b == a + [sep] + b;
    }
  }

  /** One step of `SplitConcat`: putting a character in front of the left
      side keeps the pieces of the right side apart. */
  lemma SplitConcatStep(c: char, a: string, sep: char, b: string)
    requires Split(a + [sep] + b, sep) == Split(a, sep) + Split(b, sep)
    ensures Split([c] + a + [sep] + b, sep) == Split([c] + a, sep) + Split(b, sep)
  {
    var t := a + [sep] + b;
    assert [c] + a + [sep] + b == [c] + t;
    SplitCons(c, t, sep);
    SplitCons(c, a, sep);
    PiecesAfterCons(c, Split(t, sep), Split(a, sep), Split(b, sep), sep);
  }

  /** The piece-list arithmetic behind `SplitConcatStep`, on plain piece
      lists. */
  lemma PiecesAfterCons(c: char, rt: seq<string>, ra: seq<string>, rb: seq<string>, sep: char)
    requires |ra| >= 1 && rt == ra + rb
    ensures c == sep ==> [""] + rt == ([""] + ra) + rb
    ensures c != sep ==> [[c] + rt[0]] + rt[1..] == ([[c] + ra[0]] + ra[1..]) + rb
  {
    if c != sep {
      ExtendFirstPiece([c], ra, rb);
    }
  }

  /** Splitting a string with a known first character. */
  lemma SplitCons(c: char, t: string, sep: char)
    ensures c == sep ==> Split([c] + t, sep) == [""] + Split(t, sep)
    ensures c != sep ==> Split([c] + t, sep) == [[c] + Split(t, sep)[0]] + Split(t, sep)[1..]
  {
    assert ([c] + t)[0] == c && ([c] + t)[1..] == t;
  }

  /** Growing the first piece of a piece list commutes with appending more
      pieces after it. */
  lemma ExtendFirstPiece(x: string, ra: seq<string>, rb: seq<string>)
    requires |ra| >= 1
    ensures [x + (ra + rb)[0]] + (ra + rb)[1..] == [x + ra[0]] + ra[1..] + rb
  {
    assert (ra + rb)[0] == ra[0];
    assert (ra + rb)[1..] == ra[1..] + rb;
  }

  /** The pieces of every string of `xs` split at `sep`, in order. */
  function SplitEach(xs: seq<string>, sep: char): (r: seq<string>)
    ensures |r| >= |xs|
    ensures forall i :: 0 <= i < |r| ==> sep !in r[i]
    decreases |xs|
  {
    if xs == [] then [] else Split(xs[0], sep) + SplitEach(xs[1..], sep)
  }

  /** Splitting a join splits each joined string on its own, whatever the
      strings hold. */
  lemma {:induction false} SplitJoinEach(xs: seq<string>, sep: char)
    requires |xs| >= 1
    ensures Split(Join([sep], xs), sep) == SplitEach(xs, sep)
    decreases |xs|
  {
    if |xs| == 1 {
      assert SplitEach(xs[1..], sep) == [];
    } else {
      SplitJoinEach(xs[1..], sep);
      SplitConcat(xs[0], sep, Join([sep], xs[1..]));
    }
  }

  /** Strings without the separator are their own pieces. */
  lemma {:induction false} SplitEachNoSeparator(xs: seq<string>, sep: char)
    requires forall i :: 0 <= i < |xs| ==> sep !in xs[i]
    ensures SplitEach(xs, sep) == xs
    decreases |xs|
  {
    if xs != [] {
      SplitNoSeparator(xs[0], sep);
      SplitEachNoSeparator(xs[1..], sep);
      assert [xs[0]] + xs[1..] == xs;
    }
  }

  /** Python's `str.splitlines()` restricted to `'\n'` line breaks: `""`
      gives no lines, and a final `'\n'` does not open an empty last line. */
  function SplitLines(s: string): (r: seq<string>)
    ensures s == [] <==> r == []
    ensures forall i :: 0 <= i < |r| ==> '\n' !in r[i]
  {
    if s == [] then []
    else
      var parts := Split(s, '\n');
      if parts[|parts| - 1] == "" then
        assert |parts| > 1 by {
          if |parts| == 1 { JoinSplit(s, '\n'); }
        }
        parts[..|parts| - 1]
      else parts
  }

  /** Every occurrence of `a` replaced by `b` (Python's `s.replace(a, b)` on
      one-character strings). */
  function ReplaceChar(s: string, a: char, b: char): (r: string)
    ensures |r| == |s|
    ensures forall i :: 0 <= i < |s| ==> r[i] == (if s[i] == a then b else s[i])
  {
    seq(|s|, i requires 0 <= i < |s| => if s[i] == a then b else s[i])
  }

  // ---------------------------------------------------------------------
  // Decimal rendering of integers (Python's `str(int)`)
  // ---------------------------------------------------------------------

  function DigitChar(d: nat): (c: char)
    requires d < 10
    ensures IsDigit(c)
  {
    ('0' as int + d) as char
  }

  function NatToString(n: nat): (r: string)
    ensures |r| >= 1
    ensures n >= 10 ==> |r| >= 2
    ensures forall i :: 0 <= i < |r| ==> IsDigit(r[i])
  {
    if n < 10 then [DigitChar(n)] else NatToString(n / 10) + [DigitChar(n % 10)]
  }

  function IntToString(i: int): (r: string)
    ensures |r| >= 1 && (r[0] == '-' <==> i < 0)
    ensures forall j :: 0 <= j < |r| ==> r[j] != '_'
  {
    if i < 0 then "-" + NatToString(-i) else NatToString(i)
  }

  /** Distinct naturals print differently. */
  lemma {:induction false} NatToStringInjective(a: nat, b: nat)
    requires NatToString(a) == NatToString(b)
    ensures a == b
    decreases a
  {
    var s := NatToString(a);
    if a >= 10 && b >= 10 {
      assert s[..|s| - 1] == NatToString(a / 10);
      assert s[..|s| - 1] == NatToString(b / 10);
      NatToStringInjective(a / 10, b / 10);
      assert DigitChar(a % 10) == DigitChar(b % 10);
    }
  }

  /** Distinct integers print differently. */
  lemma IntToStringInjective(a: int, b: int)
    requires IntToString(a) == IntToString(b)
    ensures a == b
  {
    var s := IntToString(a);
    if a < 0 {
      assert s[1..] == NatToString(-a) == NatToString(-b);
      NatToStringInjective(-a, -b);
    } else {
      NatToStringInjective(a, b);
    }
  }
}
