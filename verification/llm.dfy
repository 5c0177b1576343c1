/** The language-model client: the chat completion call reduced to a choice
    between the reply's content and an offline fallback text, and the prompt
    that asks for a slide's expansion. The HTTP request itself is a given
    function. */
module Llm {
  import opened Wrappers
  import opened Strings
  import opened Models

  /** The fixed opening of the offline fallback text. */
  const FallbackPrefix: string := "[离线模式] 无法访问LLM。请检查OPENAI_API_KEY。提示摘要: "

  /** How much of the prompt the fallback quotes. */
  const HeadLength: nat := 128

  /** The fallback text: the fixed opening, then the first 128 characters of
      the prompt with line breaks turned into spaces. */
  function Fallback(prompt: string): (r: string)
    ensures |r| == |FallbackPrefix| + (if |prompt| < HeadLength then |prompt| else HeadLength)
    ensures r[..|FallbackPrefix|] == FallbackPrefix
    ensures forall i :: |FallbackPrefix| <= i < |r| ==>
      var c := prompt[i - |FallbackPrefix|];
      r[i] == (if c == '\n' then ' ' else c)
    ensures '\n' !in r
  {
    var head := if |prompt| < HeadLength then prompt else prompt[..HeadLength];
    assert '\n' !in FallbackPrefix;
    FallbackPrefix + ReplaceChar(head, '\n', ' ')
  }

  /** A short prompt without line breaks is quoted whole, so it can be read
      back from the fallback. */
  lemma FallbackQuotesShortPrompt(prompt: string)
    requires |prompt| <= HeadLength && '\n' !in prompt
    ensures Fallback(prompt) == FallbackPrefix + prompt
  {
    var r := Fallback(prompt);
    assert r[|FallbackPrefix|..] == prompt;
    assert r == r[..|FallbackPrefix|] + r[|FallbackPrefix|..];
  }

  /** What the chat request yields: the content of the first choice, or a
      failure of any kind (network error, error status, malformed body). */
  datatype Outcome = Replied(content: string) | Failed

  /** The chat request, given the API key and the user prompt. */
  type Backend = (string, string) -> Outcome

  /** The completion: the fallback when there is no API key (no request is
      made), the stripped reply content when the request succeeds, and the
      fallback when it fails. */
  function Complete(apiKey: Option<string>, prompt: string, post: Backend): (r: string)
    ensures !Truthy(apiKey) ==> r == Fallback(prompt)
    ensures Truthy(apiKey) ==>
      r == (match post(apiKey.value, prompt)
            case Replied(content) => Strip(content)
            case Failed => Fallback(prompt))
    ensures r == Fallback(prompt) || r == [] || (!IsPySpace(r[0]) && !IsPySpace(r[|r| - 1]))
  {
    if !Truthy(apiKey) then Fallback(prompt)
    else match post(apiKey.value, prompt)
      case Replied(content) => Strip(content)
      case Failed => Fallback(prompt)
  }

  /** Without an API key the backend is never consulted: any two backends
      give the same completion. */
  lemma NoKeyNoRequest(apiKey: Option<string>, prompt: string, post1: Backend, post2: Backend)
    requires !Truthy(apiKey)
    ensures Complete(apiKey, prompt, post1) == Complete(apiKey, prompt, post2)
  {
  }

  /** The fixed instruction that opens the expansion prompt. */
  const ExpandInstruction: string :=
    "下面是PPT页内容，请补充背景、推导或代码示例，并指出应补充的参考链接。要求结构化输出：1)概要；2)加深理解的要点列表；3)推荐阅读。"

  /** The expansion prompt: the instruction, the slide text under its
      heading, and the retrieved snippets one per line under theirs. */
  function ExpandPrompt(slideText: string, snippets: seq<string>): (r: string)
    ensures StartsWith(r, ExpandInstruction)
  {
    ExpandInstruction + "\n\nPPT内容：\n" + slideText + "\n\n检索片段：\n" + Join("\n", snippets)
  }

  /** Read line by line, the prompt is the instruction's lines, an empty
      line, the text heading, the slide text's lines, an empty line, the
      snippet heading, and then the lines of the snippets, snippet after
      snippet; these are the snippets themselves when none holds a line
      break. */
  lemma ExpandPromptLines(slideText: string, snippets: seq<string>)
    ensures Split(ExpandPrompt(slideText, snippets), '\n') ==
      Split(ExpandInstruction, '\n') + ["", "PPT内容："] + Split(slideText, '\n') + ["", "检索片段："]
      + (if snippets == [] then [""] else SplitEach(snippets, '\n'))
    ensures (forall i :: 0 <= i < |snippets| ==> '\n' !in snippets[i]) ==>
      Split(ExpandPrompt(slideText, snippets), '\n') ==
      Split(ExpandInstruction, '\n') + ["", "PPT内容："] + Split(slideText, '\n') + ["", "检索片段："]
      + (if snippets == [] then [""] else snippets)
  {
    PromptLines(ExpandInstruction, slideText, snippets);
    if forall i :: 0 <= i < |snippets| ==> '\n' !in snippets[i] {
      SplitEachNoSeparator(snippets, '\n');
    }
  }

  /** The same reading for any instruction text in front. */
  lemma PromptLines(instruction: string, slideText: string, snippets: seq<string>)
    ensures Split(instruction + "\n\nPPT内容：\n" + slideText + "\n\n检索片段：\n" + Join("\n", snippets), '\n') ==
      Split(instruction, '\n') + ["", "PPT内容："] + Split(slideText, '\n') + ["", "检索片段："]
      + (if snippets == [] then [""] else SplitEach(snippets, '\n'))
  {
    var nl := '\n';
    var tailLines := if snippets == [] then [""] else SplitEach(snippets, nl);
    var t4 := "" + [nl] + ("检索片段：" + [nl] + Join("\n", snippets));
    var t3 := slideText + [nl] + t4;
    var t1 := "" + [nl] + ("PPT内容：" + [nl] + t3);
    var a := Split(instruction, nl);
    var c := Split(slideText, nl);
    var mid := ["", "PPT内容："];
    var end := ["", "检索片段："];
    assert instruction + "\n\nPPT内容：\n" + slideText + "\n\n检索片段：\n" + Join("\n", snippets)
      == instruction + [nl] + t1 by {
      PromptShape(instruction, slideText, snippets);
    }
    assert Split(instruction + [nl] + t1, nl) == a + Split(t1, nl) by {
      SplitConcat(instruction, nl, t1);
    }
    assert Split(t1, nl) == mid + Split(t3, nl) by {
      HeadingLines("PPT内容：", t3);
    }
    assert Split(t3, nl) == c + (end + tailLines) by {
      SplitConcat(slideText, nl, t4);
      SnippetLines(snippets);
    }
    assert a + (mid + (c + (end + tailLines))) == a + mid + c + end + tailLines;
  }

  /** The prompt with each line break written out. */
  lemma PromptShape(instruction: string, slideText: string, snippets: seq<string>)
    ensures instruction + "\n\nPPT内容：\n" + slideText + "\n\n检索片段：\n" + Join("\n", snippets) ==
      instruction + ['\n'] + ("" + ['\n'] + ("PPT内容：" + ['\n'] + (slideText + ['\n']
      + ("" + ['\n'] + ("检索片段：" + ['\n'] + Join("\n", snippets))))))
  {
  }

  /** The lines of an empty line, a heading and a body. */
  lemma HeadingLines(heading: string, body: string)
    requires '\n' !in heading
    ensures Split("" + ['\n'] + (heading + ['\n'] + body), '\n') == ["", heading] + Split(body, '\n')
  {
    SplitConcat("", '\n', heading + ['\n'] + body);
    SplitConcat(heading, '\n', body);
    SplitNoSeparator(heading, '\n');
  }

  /** The lines of the snippet section. */
  lemma SnippetLines(snippets: seq<string>)
    ensures Split("" + ['\n'] + ("检索片段：" + ['\n'] + Join("\n", snippets)), '\n') ==
      ["", "检索片段："] + (if snippets == [] then [""] else SplitEach(snippets, '\n'))
  {
    HeadingLines("检索片段：", Join("\n", snippets));
    if snippets != [] {
      SplitJoinEach(snippets, '\n');
    }
  }
}
