/** How a deck given by URL is accepted: the download's outcome, the check
    that the body is not an HTML page, and the suffix the saved deck gets
    from the URL or the content type. The download itself is a given
    function from the URL to its outcome. */
module Download {
  import opened Strings
  import opened Paths

  newtype byte = x: int | 0 <= x < 256

  /** What the download of a URL yields: the body and the `Content-Type`
      header (the empty string when the header is absent), or a failure of
      any kind, with its message. An error status counts as a failure. */
  datatype Fetch = Fetched(content: seq<byte>, contentType: string) | FetchFailed(message: string)

  /** The download, given the URL. */
  type Fetcher = string -> Fetch

  /** The request refused with an HTTP status and a message, or accepted with
      the suffix of the temporary file and the bytes written to it. */
  datatype Decision = Rejected(status: int, detail: string) | Accepted(suffix: string, content: seq<byte>)

  const BadRequest: int := 400
  const NoInput: string := "file 或 url 至少提供一个"
  const DownloadFailed: string := "下载 URL 失败: "
  const EmptyBody: string := "URL 返回空文件"
  const HtmlBody: string := "URL 未返回 PPT 文件（检测到 HTML）"

  // ---------------------------------------------------------------------
  // Sniffing for HTML
  // ---------------------------------------------------------------------

  /** The bytes of an ASCII text. */
  function Ascii(s: string): (r: seq<byte>)
    requires forall i :: 0 <= i < |s| ==> s[i] as int < 128
    ensures |r| == |s| && forall i :: 0 <= i < |s| ==> r[i] as int == s[i] as int
  {
    seq(|s|, i requires 0 <= i < |s| => s[i] as int as byte)
  }

  const Doctype: seq<byte> := Ascii("<!doctype")
  const HtmlTag: seq<byte> := Ascii("<html")

  /** How many leading bytes the sniff looks at. */
  const SniffLength: nat := 200

  /** `bytes.lower()` on one byte: ASCII capitals become small letters. */
  function LowerByte(b: byte): (r: byte)
    ensures !(65 <= r <= 90)
    ensures !(65 <= b <= 90) ==> r == b
  {
    if 65 <= b <= 90 then b + 32 else b
  }

  function LowerBytes(bs: seq<byte>): (r: seq<byte>)
    ensures |r| == |bs| && forall i :: 0 <= i < |bs| ==> r[i] == LowerByte(bs[i])
  {
    seq(|bs|, i requires 0 <= i < |bs| => LowerByte(bs[i]))
  }

  predicate IsPrefix<T(==)>(p: seq<T>, s: seq<T>) {
    |p| <= |s| && s[..|p|] == p
  }

  /** The first 200 bytes, lower-cased, open with `<!doctype` or `<html`. */
  predicate LooksLikeHtml(content: seq<byte>) {
    var snippet := LowerBytes(content[..if |content| < SniffLength then |content| else SniffLength]);
    IsPrefix(Doctype, snippet) || IsPrefix(HtmlTag, snippet)
  }

  /** The content opens with `tag`, ignoring the case of ASCII letters. */
  predicate OpensWithTag(content: seq<byte>, tag: seq<byte>) {
    |tag| <= |content| && forall i :: 0 <= i < |tag| ==> LowerByte(content[i]) == tag[i]
  }

  /** Cutting the content before lower-casing does not matter for a tag
      shorter than the cut. */
  lemma SnippetPrefixIff(content: seq<byte>, tag: seq<byte>, n: nat)
    requires |tag| <= n
    ensures IsPrefix(tag, LowerBytes(content[..if |content| < n then |content| else n]))
      <==> OpensWithTag(content, tag)
  {
    var snippet := LowerBytes(content[..if |content| < n then |content| else n]);
    if OpensWithTag(content, tag) {
      assert forall i :: 0 <= i < |tag| ==> snippet[..|tag|][i] == tag[i];
    }
    if IsPrefix(tag, snippet) {
      forall i | 0 <= i < |tag|
        ensures LowerByte(content[i]) == tag[i]
      {
        assert snippet[..|tag|][i] == tag[i];
      }
    }
  }

  /** The sniff only reads the opening bytes: the content is taken for HTML
      exactly when it opens with either tag, in any case. */
  lemma SniffIff(content: seq<byte>)
    ensures LooksLikeHtml(content) <==> OpensWithTag(content, Doctype) || OpensWithTag(content, HtmlTag)
  {
    SnippetPrefixIff(content, Doctype, SniffLength);
    SnippetPrefixIff(content, HtmlTag, SniffLength);
  }

  /** What follows the first nine bytes never changes the verdict. */
  lemma SniffReadsOnlyOpening(c: seq<byte>, d: seq<byte>)
    requires |c| >= |Doctype|
    ensures LooksLikeHtml(c + d) == LooksLikeHtml(c)
  {
    SniffIff(c);
    SniffIff(c + d);
    assert forall i :: 0 <= i < |c| ==> (c + d)[i] == c[i];
  }

  /** Lower-casing the content first does not change the verdict. */
  lemma SniffIgnoresCase(content: seq<byte>)
    ensures LooksLikeHtml(LowerBytes(content)) == LooksLikeHtml(content)
  {
    SniffIff(content);
    SniffIff(LowerBytes(content));
  }

  // ---------------------------------------------------------------------
  // The suffix of a downloaded deck
  // ---------------------------------------------------------------------

  /** The URL's own suffix, lower-cased, when it is `.ppt` or `.pptx`;
      otherwise the content type decides: one mentioning `pptx` gives
      `.pptx`, one mentioning only `ppt` gives `.ppt`, and any other gives
      `.pptx`. */
  function UrlSuffix(url: string, contentType: string): (r: string)
    ensures r == ".ppt" || r == ".pptx"
  {
    var own := Lower(PathSuffix(url));
    if own == ".ppt" || own == ".pptx" then own
    else
      var ctype := Lower(contentType);
      if Contains(ctype, "ppt") then (if Contains(ctype, "pptx") then ".pptx" else ".ppt")
      else ".pptx"
  }

  /** A URL whose own suffix is `.ppt` or `.pptx`, in any case, gets that
      suffix whatever the content type. */
  lemma OwnSuffixWins(url: string, contentType: string)
    requires Lower(PathSuffix(url)) == ".ppt" || Lower(PathSuffix(url)) == ".pptx"
    ensures UrlSuffix(url, contentType) == Lower(PathSuffix(url))
  {
  }

  lemma LowerDotExtension(e: string)
    ensures Lower("." + e) == "." + Lower(e)
  {
    var d := "." + e;
    assert forall i :: 0 < i < |d| ==> d[i] == e[i - 1];
  }

  /** An extension that lower-cases to `ppt` or `pptx` holds no dot and no
      slash. */
  lemma PowerPointExtensionPlain(e: string)
    requires Lower(e) == "ppt" || Lower(e) == "pptx"
    ensures e != [] && forall j :: 0 <= j < |e| ==> e[j] != '.' && e[j] != '/'
  {
    forall j | 0 <= j < |e|
      ensures e[j] != '.' && e[j] != '/'
    {
      assert Lower(e)[j] == LowerChar(e[j]);
    }
  }

  /** The own suffix of a URL whose name ends in a PowerPoint extension, in
      any case, is that extension in lower case. */
  lemma PowerPointSuffix(p: string, e: string)
    requires p != [] && p[|p| - 1] != '/'
    requires Lower(e) == "ppt" || Lower(e) == "pptx"
    ensures Lower(PathSuffix(p + "." + e)) == "." + Lower(e)
    ensures Lower(PathSuffix(p + "." + e)) == ".ppt" || Lower(PathSuffix(p + "." + e)) == ".pptx"
  {
    ExtensionSuffix(p, e);
    LowerDotExtension(e);
    DotPowerPoint(Lower(e));
  }

  /** Putting the dot back on a PowerPoint extension. */
  lemma DotPowerPoint(x: string)
    requires x == "ppt" || x == "pptx"
    ensures "." + x == ".ppt" || "." + x == ".pptx"
  {
    if x == "ppt" {
      assert "." + x == ".ppt";
    } else {
      assert "." + x == ".pptx";
    }
  }

  lemma ExtensionSuffix(p: string, e: string)
    requires p != [] && p[|p| - 1] != '/'
    requires Lower(e) == "ppt" || Lower(e) == "pptx"
    ensures PathSuffix(p + "." + e) == "." + e
  {
    PowerPointExtensionPlain(e);
    PathSuffixAppend(p, e);
  }

  /** A URL whose name ends in `.ppt` or `.pptx`, in any case, keeps that
      suffix in lower case whatever the content type. */
  lemma UrlNamesPowerPoint(p: string, e: string, ct1: string, ct2: string)
    requires p != [] && p[|p| - 1] != '/'
    requires Lower(e) == "ppt" || Lower(e) == "pptx"
    ensures UrlSuffix(p + "." + e, ct1) == UrlSuffix(p + "." + e, ct2) == "." + Lower(e)
  {
    PowerPointSuffix(p, e);
    OwnSuffixWins(p + "." + e, ct1);
    OwnSuffixWins(p + "." + e, ct2);
  }

  /** When the URL names no PowerPoint suffix, the result is `.ppt` exactly
      when the lower-cased content type mentions `ppt` but not `pptx`. */
  lemma ContentTypeDecides(url: string, contentType: string)
    requires Lower(PathSuffix(url)) != ".ppt" && Lower(PathSuffix(url)) != ".pptx"
    ensures UrlSuffix(url, contentType) == ".ppt" <==>
      Contains(Lower(contentType), "ppt") && !Contains(Lower(contentType), "pptx")
  {
  }

  /** A query string follows the name, so a URL like `…/a.ppt?x=1` has no
      PowerPoint suffix of its own and, without a content type, gets
      `.pptx`. */
  lemma QueryHidesSuffix()
    ensures PathSuffix("https://h/a.ppt?x=1") == ".ppt?x=1"
    ensures UrlSuffix("https://h/a.ppt?x=1", "") == ".pptx"
  {
    QueryPathSuffix();
    assert Lower(".ppt?x=1") == ".ppt?x=1";
    assert !Contains("", "ppt");
  }

  lemma QueryPathSuffix()
    ensures PathSuffix("https://h/a.ppt?x=1") == ".ppt?x=1"
  {
    var p, e := "https://h/a", "ppt?x=1";
    assert p[|p| - 1] == 'a';
    assert forall j :: 0 <= j < |e| ==> e[j] in "ptx?=1";
    PathSuffixAppend(p, e);
    QueryUrlParts();
  }

  /** The example URL taken apart at its last dot. */
  lemma QueryUrlParts()
    ensures "https://h/a" + "." + "ppt?x=1" == "https://h/a.ppt?x=1"
    ensures "." + "ppt?x=1" == ".ppt?x=1"
  {
    assert "https://h/a" + "." + "ppt?x=1" == "https://h/a.ppt?x=1";
  }

  // ---------------------------------------------------------------------
  // The request
  // ---------------------------------------------------------------------

  /** A downloaded body: refused when the download failed, when it is empty
      or when it looks like HTML; otherwise kept with the suffix the URL and
      content type give. */
  function FromUrl(url: string, resp: Fetch): (r: Decision)
    ensures r.Rejected? ==> r.status == BadRequest
    ensures r.Accepted? <==> resp.Fetched? && resp.content != [] && !LooksLikeHtml(resp.content)
    ensures r.Accepted? ==> r.content == resp.content && (r.suffix == ".ppt" || r.suffix == ".pptx")
    ensures resp.FetchFailed? ==> StartsWith(r.detail, DownloadFailed)
  {
    match resp
    case FetchFailed(message) =>
      assert (DownloadFailed + message)[..|DownloadFailed|] == DownloadFailed;
      Rejected(BadRequest, DownloadFailed + message)
    case Fetched(content, contentType) =>
      if content == [] then Rejected(BadRequest, EmptyBody)
      else if LooksLikeHtml(content) then Rejected(BadRequest, HtmlBody)
      else Accepted(UrlSuffix(url, contentType), content)
  }
}
