/** The name and suffix of a POSIX path, as `pathlib.PurePosixPath`
    computes them: the name is the last component once empty and `.`
    components are dropped, and the suffix runs from the name's last dot,
    provided that dot neither opens nor closes the name. */
module Paths {

  /** `s.rfind(c, 0, k)`: the last index below `k` holding `c`, or -1. */
  function RFind(s: string, c: char, k: nat): (i: int)
    requires k <= |s|
    ensures -1 <= i < k
    ensures i >= 0 ==> s[i] == c
  {
    if k == 0 then -1 else if s[k - 1] == c then k - 1 else RFind(s, c, k - 1)
  }

  /** Nothing after the index `RFind` finds, up to `k`, holds `c`. */
  lemma {:induction false} RFindLast(s: string, c: char, k: nat)
    requires k <= |s|
    ensures forall j :: RFind(s, c, k) < j < k ==> s[j] != c
  {
    if k > 0 && s[k - 1] != c {
      RFindLast(s, c, k - 1);
    }
  }

  /** The last occurrence is the only index with its two properties. */
  lemma RFindIs(s: string, c: char, k: nat, i: int)
    requires k <= |s| && -1 <= i < k
    requires i >= 0 ==> s[i] == c
    requires forall j :: i < j < k ==> s[j] != c
    ensures RFind(s, c, k) == i
  {
    RFindLast(s, c, k);
  }

  /** Where the name of `path[..k]` ends: trailing slashes and trailing `.`
      components are skipped. */
  function NameEnd(path: string, k: nat): (e: nat)
    requires k <= |path|
    ensures e <= k
  {
    if k == 0 then 0
    else if path[k - 1] == '/' then NameEnd(path, k - 1)
    else if path[k - 1] == '.' && (k == 1 || path[k - 2] == '/') then NameEnd(path, k - 1)
    else k
  }

  /** The component that ends at `e`: from just after the last slash before
      `e` up to `e`. */
  function NameBefore(path: string, e: nat): (r: string)
    requires e <= |path|
  {
    path[RFind(path, '/', e) + 1..e]
  }

  /** `PurePosixPath(path).name`. */
  function PathName(path: string): (r: string)
  {
    NameBefore(path, NameEnd(path, |path|))
  }

  /** `PurePosixPath(path).suffix` of a name: from its last dot on, when
      that dot is neither its first nor its last character; otherwise
      empty. The result is empty or a dot followed by at least one
      character, none of them a dot. */
  function Suffix(name: string): (r: string)
    ensures r == [] || (|r| >= 2 && r[0] == '.')
    ensures forall j :: 0 < j < |r| ==> r[j] != '.'
  {
    var i := RFind(name, '.', |name|);
    RFindLast(name, '.', |name|);
    if 0 < i < |name| - 1 then name[i..] else []
  }

  /** The suffix of a path. */
  function PathSuffix(path: string): (r: string)
  {
    Suffix(PathName(path))
  }

  // ---------------------------------------------------------------------
  // The name holds no slash
  // ---------------------------------------------------------------------

  /** The name is one component: it never holds a slash, and it is a piece
      of the path. */
  lemma NameIsComponent(path: string) returns (i: nat)
    ensures forall j :: 0 <= j < |PathName(path)| ==> PathName(path)[j] != '/'
    ensures i + |PathName(path)| <= |path| && path[i..i + |PathName(path)|] == PathName(path)
  {
    var e := NameEnd(path, |path|);
    var b := RFind(path, '/', e);
    RFindLast(path, '/', e);
    var r := path[b + 1..e];
    assert PathName(path) == r;
    forall j | 0 <= j < |r|
      ensures r[j] != '/'
    {
      assert r[j] == path[b + 1 + j];
    }
    i := b + 1;
  }

  // ---------------------------------------------------------------------
  // Trailing slashes and `.` components
  // ---------------------------------------------------------------------

  /** Text appended to a path changes nothing that is computed below the
      path's own length. */
  lemma {:induction false} RFindPrefix(p: string, t: string, c: char, k: nat)
    requires k <= |p|
    ensures RFind(p + t, c, k) == RFind(p, c, k)
  {
    if k > 0 {
      assert (p + t)[k - 1] == p[k - 1];
      RFindPrefix(p, t, c, k - 1);
    }
  }

  lemma {:induction false} NameEndPrefix(p: string, t: string, k: nat)
    requires k <= |p|
    ensures NameEnd(p + t, k) == NameEnd(p, k)
  {
    if k > 0 {
      assert (p + t)[k - 1] == p[k - 1];
      if k > 1 {
        assert (p + t)[k - 2] == p[k - 2];
      }
      NameEndPrefix(p, t, k - 1);
    }
  }

  lemma SlicePrefix<T>(p: seq<T>, t: seq<T>, i: nat, e: nat)
    requires i <= e <= |p|
    ensures (p + t)[i..e] == p[i..e]
  {
  }

  /** A tail that the name skips leaves the name as it was. */
  lemma NameIgnoresTail(p: string, t: string)
    requires NameEnd(p + t, |p + t|) == NameEnd(p + t, |p|)
    ensures PathName(p + t) == PathName(p)
  {
    var e := NameEnd(p, |p|);
    NameEndPrefix(p, t, |p|);
    RFindPrefix(p, t, '/', e);
    SlicePrefix(p, t, RFind(p, '/', e) + 1, e);
  }

  /** A trailing slash does not change the name. */
  lemma TrailingSlashIgnored(p: string)
    ensures PathName(p + "/") == PathName(p)
  {
    var s := p + "/";
    assert s[|s| - 1] == '/';
    NameIgnoresTail(p, "/");
  }

  /** A trailing `.` component does not change the name. */
  lemma TrailingDotIgnored(p: string)
    ensures PathName(p + "/.") == PathName(p)
  {
    var s := p + "/.";
    assert s[|s| - 1] == '.' && s[|s| - 2] == '/';
    assert NameEnd(s, |s|) == NameEnd(s, |s| - 1);
    NameIgnoresTail(p, "/.");
  }

  // ---------------------------------------------------------------------
  // Names of paths built by appending
  // ---------------------------------------------------------------------

  /** Text without `c` appended after `x` does not move the last `c`. */
  lemma RFindPastEnd(x: string, t: string, c: char)
    requires RFind(t, c, |t|) == -1
    ensures RFind(x + t, c, |x + t|) == RFind(x, c, |x|)
  {
    RFindLast(t, c, |t|);
    var s := x + t;
    var b := RFind(x, c, |x|);
    RFindLast(x, c, |x|);
    forall j | b < j < |s|
      ensures s[j] != c
    {
      if j < |x| {
        assert s[j] == x[j];
      } else {
        assert s[j] == t[j - |x|];
      }
    }
    if b >= 0 {
      assert s[b] == x[b];
    }
    RFindIs(s, c, |s|, b);
  }

  /** The last `c` of `x + [c] + t`, when `t` has none, is the one between
      them. */
  lemma RFindMarker(x: string, t: string, c: char)
    requires forall j :: 0 <= j < |t| ==> t[j] != c
    ensures RFind(x + [c] + t, c, |x + [c] + t|) == |x|
  {
    var s := x + [c] + t;
    forall j | |x| < j < |s|
      ensures s[j] != c
    {
      assert s[j] == t[j - |x| - 1];
    }
    RFindIs(s, c, |s|, |x|);
  }

  /** A name made of a non-empty stem, a dot and a dot-free extension has
      that dot and extension as its suffix. */
  lemma SuffixOfName(x: string, e: string)
    requires x != [] && e != []
    requires forall j :: 0 <= j < |e| ==> e[j] != '.'
    ensures Suffix(x + "." + e) == "." + e
  {
    var name := x + ['.'] + e;
    assert name == x + "." + e;
    RFindMarker(x, e, '.');
    assert name[|x|..] == "." + e;
  }

  /** A path that ends in a character other than a slash or a dot ends its
      own name. */
  lemma NameEndFull(s: string)
    requires s != [] && s[|s| - 1] != '/' && s[|s| - 1] != '.'
    ensures NameEnd(s, |s|) == |s|
  {
  }

  lemma NameEndAppend(p: string, t: string)
    requires RFind(t, '/', |t|) == -1
    requires t != [] && t[|t| - 1] != '.'
    ensures NameEnd(p + t, |p + t|) == |p + t|
  {
    var s := p + t;
    assert s[|s| - 1] == t[|t| - 1];
    NameEndFull(s);
  }

  lemma NameBeforeAt(s: string, b: int)
    requires RFind(s, '/', |s|) == b
    ensures NameBefore(s, |s|) == s[b + 1..|s|]
  {
    var e := |s|;
    assert NameBefore(s, e) == s[RFind(s, '/', e) + 1..e];
  }

  lemma NameAtEnd(s: string)
    requires NameEnd(s, |s|) == |s|
    ensures PathName(s) == NameBefore(s, |s|)
  {
  }

  /** Cutting the front off a concatenation inside its first part. */
  lemma TailOfAppend<T>(p: seq<T>, t: seq<T>, k: nat)
    requires k <= |p|
    ensures (p + t)[k..|p + t|] == p[k..] + t
  {
  }

  lemma NameChain(p: string, t: string, b: int)
    requires -1 <= b < |p|
    requires NameEnd(p + t, |p + t|) == |p + t|
    requires RFind(p + t, '/', |p + t|) == b
    ensures PathName(p + t) == p[b + 1..] + t
  {
    NameAtEnd(p + t);
    NameBeforeAt(p + t, b);
    TailOfAppend(p, t, b + 1);
  }

  /** Slash-free text that does not end in a dot, appended to a path,
      extends the path's last component. */
  lemma NameOfAppend(p: string, t: string)
    requires RFind(t, '/', |t|) == -1
    requires t != [] && t[|t| - 1] != '.'
    ensures PathName(p + t) == p[RFind(p, '/', |p|) + 1..] + t
  {
    NameEndAppend(p, t);
    RFindPastEnd(p, t, '/');
    NameChain(p, t, RFind(p, '/', |p|));
  }

  lemma NoSlashInExtension(e: string)
    requires forall j :: 0 <= j < |e| ==> e[j] != '/'
    ensures RFind("." + e, '/', |"." + e|) == -1
  {
    var t := "." + e;
    forall j | -1 < j < |t|
      ensures t[j] != '/'
    {
      if j > 0 {
        assert t[j] == e[j - 1];
      }
    }
    RFindIs(t, '/', |t|, -1);
  }

  /** A path that does not end in a slash, followed by a dot and an
      extension without dots or slashes, has that dot and extension as its
      suffix. */
  lemma PathSuffixAppend(p: string, e: string)
    requires p != [] && p[|p| - 1] != '/'
    requires e != [] && forall j :: 0 <= j < |e| ==> e[j] != '.' && e[j] != '/'
    ensures PathSuffix(p + "." + e) == "." + e
  {
    var t := "." + e;
    NoSlashInExtension(e);
    NameOfAppend(p, t);
    assert p + "." + e == p + t;
    var b := RFind(p, '/', |p|);
    var x := p[b + 1..];
    assert x != [];
    assert x + t == x + "." + e;
    SuffixOfName(x, e);
  }
}
