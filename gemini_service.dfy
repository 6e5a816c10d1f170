/**
 * Highlight enrichment: the prompt sent to the Gemini `generateContent` endpoint,
 * the extraction of the reply's text, and the fallback used on any failure.
 * The remote model is a function parameter from request to reply.
 */
module GeminiService {
  import opened Wrappers
  import opened Text

  const Endpoint: string :=
    "https://generativelanguage.googleapis.com/v1beta/models/gemini-2.5-flash:generateContent?key="

  /** Put in front of the detected sentences when there are any. */
  const ContextHeader: string := "\n\n참고 - 사용자 채팅에서 탐지된 원문:\n"

  // The three fixed pieces of the prompt template, around its three `%s` slots.
  const CaseHeading: string := "### 과거 피싱 사례:\n"
  const KeywordHeading: string := "\n\n### 현재 사용자 분석에서 탐지된 키워드:\n"
  const Instructions: string :=
    "\n\n### 작업:\n"
    + "과거 피싱 사례 텍스트에서 현재 사용자의 키워드와 의미적으로 유사하거나 관련된 "
    + "핵심 단어/문구를 찾아주세요.\n\n"
    + "### 규칙:\n"
    + "1. 2-4개의 키워드만 추출\n"
    + "2. 쉼표로 구분\n"
    + "3. 키워드만 반환 (설명 없이)\n"
    + "4. 피싱/스캠과 관련된 핵심 단어 우선\n"
    + "5. 유사한 의미의 단어도 포함 (예: 사이트→웹사이트, 포인트→리워드)\n\n"
    + "추출된 키워드:"

  /** Number of characters the fallback keeps from the case content. */
  const FallbackLength := 30

  datatype GenerationConfig = GenerationConfig(temperature: real, maxOutputTokens: int, topP: real, topK: int)

  /** The request: URL (carrying the API key), prompt text and sampling settings. */
  datatype GeminiRequest = GeminiRequest(url: string, prompt: string, generationConfig: GenerationConfig)

  // The reply, as far as the code reads it: each `Option` is a map entry that may
  // be missing (or hold a value of the wrong type, which fails the same way).
  datatype Part = Part(text: Option<string>)
  datatype Content = Content(parts: Option<seq<Part>>)
  datatype Candidate = Candidate(content: Option<Content>)
  datatype ResponseBody = ResponseBody(candidates: Option<seq<Candidate>>)
  type GeminiReply = Remote<ResponseBody>

  /** The extra context: empty without sentences, else the header and the sentences one per line. */
  function ContextInfo(detectedSentences: Option<seq<string>>): (r: string)
    ensures detectedSentences.None? || |detectedSentences.value| == 0 <==> r == ""
  {
    if detectedSentences.None? || |detectedSentences.value| == 0 then ""
    else ContextHeader + Join(detectedSentences.value, "\n")
  }

  /**
   * After the header, the sentences are separated by exactly one line break each:
   * the part after the header holds the sentences' own line breaks and |sentences| - 1 more.
   */
  lemma ContextInfoLines(sentences: seq<string>)
    requires |sentences| > 0
    ensures ContextInfo(Some(sentences))[..|ContextHeader|] == ContextHeader
    ensures Count('\n', ContextInfo(Some(sentences))[|ContextHeader|..]) == CountIn('\n', sentences) + |sentences| - 1
  {
    var body := Join(sentences, "\n");
    assert ContextInfo(Some(sentences))[|ContextHeader|..] == body;
    var sep := "\n";
    CountJoin('\n', sentences, sep);
    assert Count('\n', sep) == 1 by {
      assert sep[..0] == "";
    }
    assert Count('\n', body) == CountIn('\n', sentences) + (|sentences| - 1) * 1;
  }

  /** The prompt Gemini is given for one case. */
  function Prompt(caseContent: string, userKeywords: string, contextInfo: string): string
  {
    CaseHeading + caseContent + KeywordHeading + userKeywords + contextInfo + Instructions
  }

  /**
   * The prompt's layout: the case content, then the keywords immediately followed
   * by the context, each after its fixed heading, then the fixed instructions.
   */
  lemma PromptLayout(caseContent: string, userKeywords: string, contextInfo: string)
    ensures var r := Prompt(caseContent, userKeywords, contextInfo);
            && |r| == |CaseHeading| + |caseContent| + |KeywordHeading| + |userKeywords| + |contextInfo| + |Instructions|
            && r[..|CaseHeading|] == CaseHeading
            && r[|CaseHeading|..|CaseHeading| + |caseContent|] == caseContent
            && r[|CaseHeading| + |caseContent|..][..|KeywordHeading|] == KeywordHeading
            && r[|CaseHeading| + |caseContent| + |KeywordHeading|..][..|userKeywords| + |contextInfo|]
               == userKeywords + contextInfo
            && r[|r| - |Instructions|..] == Instructions
  {
    ConcatParts(CaseHeading, caseContent, KeywordHeading, userKeywords, contextInfo, Instructions);
  }

  /** Where each of six concatenated parts sits in the whole. */
  lemma ConcatParts(a: string, b: string, c: string, d: string, e: string, f: string)
    ensures var r := a + b + c + d + e + f;
            && |r| == |a| + |b| + |c| + |d| + |e| + |f|
            && r[..|a|] == a
            && r[|a|..|a| + |b|] == b
            && r[|a| + |b|..][..|c|] == c
            && r[|a| + |b| + |c|..][..|d| + |e|] == d + e
            && r[|r| - |f|..] == f
  {
    var r := a + b + c + d + e + f;
    assert r == a + (b + (c + ((d + e) + f)));
  }

  /** The request sent for one case. */
  function BuildRequest(apiKey: string, caseContent: string, userKeywords: string,
                        detectedSentences: Option<seq<string>>): (q: GeminiRequest)
    ensures |q.url| >= |Endpoint| && q.url[..|Endpoint|] == Endpoint && q.url[|Endpoint|..] == apiKey
    ensures q.prompt == Prompt(caseContent, userKeywords, ContextInfo(detectedSentences))
    ensures q.generationConfig == GenerationConfig(0.3, 100, 0.8, 10)
  {
    GeminiRequest(Endpoint + apiKey, Prompt(caseContent, userKeywords, ContextInfo(detectedSentences)),
                  GenerationConfig(0.3, 100, 0.8, 10))
  }

  /**
   * `candidates[0].content.parts[0].text`, or `None` where the code would throw:
   * a failed call, a null body, a missing entry or an empty list.
   */
  function ReplyText(reply: GeminiReply): Option<string>
  {
    if reply.CallFailed? || reply.body.None? then None
    else
      var candidates := reply.body.value.candidates;
      if candidates.None? || |candidates.value| == 0 then None
      else
        var content := candidates.value[0].content;
        if content.None? || content.value.parts.None? || |content.value.parts.value| == 0 then None
        else content.value.parts.value[0].text
  }

  /** The first `FallbackLength` characters of the case content (all of it when shorter). */
  function Fallback(caseContent: string): (r: string)
    ensures |r| <= FallbackLength && |r| <= |caseContent| && r == caseContent[..|r|]
    ensures |r| == FallbackLength || r == caseContent
  {
    caseContent[..if |caseContent| < FallbackLength then |caseContent| else FallbackLength]
  }

  /**
   * The highlight for one case: the reply's text trimmed, or, when there is no
   * text, the fallback prefix of the case content.
   */
  function Highlight(caseContent: string, reply: GeminiReply): (r: string)
    ensures ReplyText(reply).Some? ==> r == Trim(ReplyText(reply).value)
    ensures ReplyText(reply).None? ==> r == Fallback(caseContent)
  {
    match ReplyText(reply)
    case Some(text) => Trim(text)
    case None => Fallback(caseContent)
  }

  /** A failed call always yields a prefix of the case content of at most 30 characters. */
  lemma FailedCallFallsBack(caseContent: string)
    ensures Highlight(caseContent, CallFailed) == caseContent[..|Highlight(caseContent, CallFailed)|]
    ensures |Highlight(caseContent, CallFailed)| == if |caseContent| < 30 then |caseContent| else 30
  {
  }

  /**
   * `extractSimilarKeywords`: builds the request, calls the model, and walks the
   * reply one cast at a time; any missing piece leaves the `try` for the fallback.
   * It never fails.
   */
  method ExtractSimilarKeywords(apiKey: string, caseContent: string, userKeywords: string,
                                detectedSentences: Option<seq<string>>,
                                llm: GeminiRequest -> GeminiReply) returns (r: string)
    ensures r == Highlight(caseContent, llm(BuildRequest(apiKey, caseContent, userKeywords, detectedSentences)))
  {
    var request := BuildRequest(apiKey, caseContent, userKeywords, detectedSentences);
    var reply := llm(request);
    if reply.CallFailed? {
      return Fallback(caseContent);
    }
    var responseBody := reply.body;
    if responseBody.None? {
      return Fallback(caseContent);
    }
    var candidates := responseBody.value.candidates;
    if candidates.None? || |candidates.value| == 0 {
      return Fallback(caseContent);
    }
    var content := candidates.value[0].content;
    if content.None? {
      return Fallback(caseContent);
    }
    var parts := content.value.parts;
    if parts.None? || |parts.value| == 0 {
      return Fallback(caseContent);
    }
    var text := parts.value[0].text;
    if text.None? {
      return Fallback(caseContent);
    }
    return Trim(text.value);
  }
}
