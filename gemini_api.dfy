/**
 * `analyzeImageWithGemini` (src/utils/geminiApi.ts): strip the data-URL
 * header from the image, send one request, pull the JSON text out of the
 * model's reply (bare, or inside the first ``` fenced block), parse it, and
 * answer the fixed fallback result on any failure.
 *
 * The HTTP exchange is a parameter: a function from the request to what came
 * back. What came back is reduced to the status and the candidate text found
 * at `candidates[0].content.parts[0].text`, if any.
 */
module GeminiApi {
  import opened Wrappers
  import opened JsText
  import opened AnalysisResults
  import opened AnalysisJson

  // ---------------------------------------------------------------------------
  // The image payload.

  /**
   * A data URL `data:image/...;base64,PAYLOAD` becomes `PAYLOAD`: with a comma
   * present the piece after the first comma (up to a second comma, if any) is
   * kept; without one the input is kept whole. The result never holds a comma,
   * so stripping twice changes nothing.
   */
  function StripDataUrlPrefix(image: string): (r: string)
    ensures ',' !in r
    ensures ',' !in image ==> r == image
  {
    if ',' in image then Split(image, ',')[1] else image
  }

  /** The payload behind a comma-free header is recovered, whatever follows a second comma. */
  lemma StripDataUrlRoundTrip(header: string, payload: string, tail: string)
    requires ',' !in header && ',' !in payload
    requires tail == [] || tail[0] == ','
    ensures StripDataUrlPrefix(header + "," + payload + tail) == payload
  {
    var image := header + "," + payload + tail;
    assert image == header + [','] + (payload + tail);
    assert image[|header|] == ',';
    SplitAfterFree(header, ',', payload + tail);
    FirstPiece(payload, tail);
  }

  /** The first comma-separated piece of a comma-free text, then nothing or a comma and more. */
  lemma FirstPiece(payload: string, tail: string)
    requires ',' !in payload
    requires tail == [] || tail[0] == ','
    ensures Split(payload + tail, ',')[0] == payload
  {
    if tail != [] {
      assert payload + tail == payload + [','] + tail[1..];
      SplitAfterFree(payload, ',', tail[1..]);
    } else {
      assert payload + tail == payload;
      SplitFree(payload, ',');
    }
  }

  // ---------------------------------------------------------------------------
  // The first fenced block: /```(?:json)?([\s\S]*?)```/.

  /** Some fence is followed, three or more characters later, by another. */
  ghost predicate HasFencePair(text: string) {
    exists p, q :: 0 <= p && p + |Fence| <= q && OccursAt(text, Fence, p) && OccursAt(text, Fence, q)
  }

  predicate FirstFenceAt(text: string, p: int) {
    OccursAt(text, Fence, p) && forall k :: 0 <= k < p ==> !OccursAt(text, Fence, k)
  }

  /** Where the captured text starts after the opening fence at `p`: past an optional `json` tag. */
  function ContentStart(text: string, p: nat): (c: nat)
    requires OccursAt(text, Fence, p)
    ensures c == p + 3 || (c == p + 7 && OccursAt(text, "json", p + 3))
    ensures c <= |text|
  {
    if OccursAt(text, "json", p + 3) then p + 7 else p + 3
  }

  /** `x` starts at `c` and is the shortest stretch followed by a fence. */
  predicate LazyCapture(text: string, c: int, x: string) {
    && 0 <= c && c + |x| + |Fence| <= |text|
    && text[c..c + |x|] == x
    && OccursAt(text, Fence, c + |x|)
    && forall k :: c <= k < c + |x| ==> !OccursAt(text, Fence, k)
  }

  /**
   * With no fence from the content start of the first fence onwards there is
   * no fence pair at all: a `json` tag holds no backtick, so a closing fence
   * cannot begin inside it.
   */
  lemma NoFencePairAfter(text: string, p: nat)
    requires FirstFenceAt(text, p)
    requires forall k :: ContentStart(text, p) <= k ==> !OccursAt(text, Fence, k)
    ensures !HasFencePair(text)
  {
    var c := ContentStart(text, p);
    forall a, b | 0 <= a && a + |Fence| <= b
      ensures !(OccursAt(text, Fence, a) && OccursAt(text, Fence, b))
    {
      if a < p {
        assert !OccursAt(text, Fence, a);
      } else if b < c {
        assert text[p + 3..p + 7] == "json";
        assert text[b] == text[p + 3..p + 7][b - p - 3];
        if b + 3 <= |text| {
          assert text[b..b + 3][0] == text[b];
        }
      }
    }
  }

  /**
   * `text.match(/```(?:json)?([\s\S]*?)```/)`: None when the pattern does not
   * match, which is exactly when the text has no two fences three or more
   * characters apart; otherwise the capture, taken after the first fence (and
   * its `json` tag) up to the nearest fence after it.
   */
  function FenceInterior(text: string): (r: Option<string>)
    ensures r.None? <==> !HasFencePair(text)
    ensures r.Some? ==> IndexOf(text, Fence, 0).Some? && LazyCapture(text, ContentStart(text, IndexOf(text, Fence, 0).value), r.value)
  {
    match IndexOf(text, Fence, 0)
    case None =>
      NoFence(text);
      None
    case Some(p) =>
      var c := ContentStart(text, p);
      match IndexOf(text, Fence, c)
      case None =>
        NoSecondFence(text, p);
        None
      case Some(e) =>
        CaptureUpTo(text, c, e);
        FencePair(text, p, e);
        Some(text[c..e])
  }

  /** Without any fence there is no fence pair. */
  lemma NoFence(text: string)
    requires IndexOf(text, Fence, 0) == None
    ensures !HasFencePair(text)
  {
  }

  /** No fence from the content start on: the pattern does not match. */
  lemma NoSecondFence(text: string, p: nat)
    requires IndexOf(text, Fence, 0) == Some(p)
    requires IndexOf(text, Fence, ContentStart(text, p)) == None
    ensures !HasFencePair(text)
  {
    NoFencePairAfter(text, p);
  }

  /** The nearest fence from `c` on closes the shortest stretch from `c`. */
  lemma CaptureUpTo(text: string, c: nat, e: nat)
    requires IndexOf(text, Fence, c) == Some(e)
    ensures c <= e <= |text| && LazyCapture(text, c, text[c..e])
  {
    var x := text[c..e];
    assert c + |x| == e;
    forall k | c <= k < c + |x| ensures !OccursAt(text, Fence, k) {
    }
  }

  lemma FencePair(text: string, p: int, q: int)
    requires 0 <= p && p + |Fence| <= q && OccursAt(text, Fence, p) && OccursAt(text, Fence, q)
    ensures HasFencePair(text)
  {
  }

  /** Every substring of a fence-free string is fence-free. */
  lemma FenceFreeInfix(s: string, i: nat, j: nat)
    requires i <= j <= |s| && FenceFree(s)
    ensures FenceFree(s[i..j])
  {
    forall k | 0 <= k <= j - i - |Fence| ensures !OccursAt(s[i..j], Fence, k) {
      OccursInSlice(s, i, j, Fence, k);
      assert !OccursAt(s, Fence, i + k);
    }
  }

  /**
   * The text handed to `JSON.parse`: the trimmed capture when the match has a
   * non-empty capture, else the whole reply. A capture of whitespace only
   * yields "" (which the parser then refuses).
   */
  function JsonText(text: string): (r: string)
    ensures !HasFencePair(text) ==> r == text
    ensures FenceInterior(text).Some? && FenceInterior(text).value != [] ==> r == Trim(FenceInterior(text).value)
    ensures FenceInterior(text).Some? && FenceInterior(text).value == [] ==> r == text
    ensures r != text ==> HasFencePair(text) && FenceFree(r) && |r| < |text|
  {
    match FenceInterior(text)
    case Some(x) =>
      if x != [] then
        CaptureFenceFree(text, x);
        TrimFenceFree(x);
        Trim(x)
      else text
    case None => text
  }

  /** What the lazy capture holds is fence-free and shorter than the text. */
  lemma CaptureFenceFree(text: string, x: string)
    requires FenceInterior(text) == Some(x)
    ensures FenceFree(x) && |x| < |text|
  {
    LazyCaptureFenceFree(text, ContentStart(text, IndexOf(text, Fence, 0).value), x);
  }

  lemma LazyCaptureFenceFree(text: string, c: int, x: string)
    requires LazyCapture(text, c, x)
    ensures FenceFree(x) && |x| < |text|
  {
    forall k | 0 <= k <= |x| - |Fence| ensures !OccursAt(x, Fence, k) {
      OccursInSlice(text, c, c + |x|, Fence, k);
      assert !OccursAt(text, Fence, c + k);
    }
  }

  lemma TrimFenceFree(x: string)
    requires FenceFree(x)
    ensures FenceFree(Trim(x))
  {
    FenceFreeInfix(x, TrimFrom(x), TrimTo(x));
  }

  /** A bare reply with no fence is parsed as it stands. */
  lemma JsonTextOfBare(text: string)
    requires FenceFree(text)
    ensures JsonText(text) == text
  {
    forall p, q | 0 <= p && p + |Fence| <= q ensures !(OccursAt(text, Fence, p) && OccursAt(text, Fence, q)) {
      assert !OccursAt(text, Fence, p);
    }
  }

  /** The shortest stretch from a given start up to a fence is unique. */
  lemma LazyCaptureUnique(text: string, c: int, x: string, y: string)
    requires LazyCapture(text, c, x) && LazyCapture(text, c, y)
    ensures x == y
  {
  }

  /**
   * Where the parts sit in a reply laid out as fence, tag, block, fence and
   * any text: the first fence opens the text, the content starts after the
   * tag, and the block is the lazy capture.
   */
  lemma FencedLayout(tag: string, inner: string, post: string)
    requires tag == "json" || (tag == "" && !StartsWith(inner, "json"))
    requires inner != [] && FenceFree(inner) && inner[|inner| - 1] != '`'
    ensures var text := Fence + tag + inner + Fence + post;
      && FirstFenceAt(text, 0) && ContentStart(text, 0) == 3 + |tag|
      && LazyCapture(text, 3 + |tag|, inner)
  {
    var text := Fence + tag + inner + Fence + post;
    assert text[..3] == Fence;
    FencedContentStart(tag, inner, post);
    var c := 3 + |tag|;
    assert text[c..c + |inner|] == inner;
    assert text[c + |inner|..c + |inner| + 3] == Fence;
    LazyCaptureOf(text, c, inner);
  }

  /** The `json` tag is skipped exactly when it is there. */
  lemma FencedContentStart(tag: string, inner: string, post: string)
    requires tag == "json" || (tag == "" && !StartsWith(inner, "json"))
    requires inner != []
    ensures var text := Fence + tag + inner + Fence + post;
      OccursAt(text, Fence, 0) && ContentStart(text, 0) == 3 + |tag|
  {
    var text := Fence + tag + inner + Fence + post;
    assert text[..3] == Fence;
    if tag == "json" {
      assert text[3..7] == "json";
    } else if |inner| >= 4 {
      assert text[3..7] == inner[..4];
    } else {
      assert text[3 + |inner|] == '`';
      if 7 <= |text| {
        assert text[3..7][|inner|] == text[3 + |inner|];
      }
    }
  }

  /** A fence-free stretch not ending in a backtick, followed by a fence, is the lazy capture from its start. */
  lemma LazyCaptureOf(text: string, c: nat, x: string)
    requires c + |x| + 3 <= |text| && x != [] && FenceFree(x) && x[|x| - 1] != '`'
    requires text[c..c + |x|] == x && text[c + |x|..c + |x| + 3] == Fence
    ensures LazyCapture(text, c, x)
  {
    forall k | c <= k < c + |x| ensures !OccursAt(text, Fence, k) {
      if k + 3 <= c + |x| {
        FenceInsideCapture(text, c, x, k);
      } else {
        FenceAcrossEnd(text, c, x, k);
      }
    }
  }

  /** A fence wholly inside a copy of a fence-free string is impossible. */
  lemma FenceInsideCapture(text: string, c: nat, x: string, k: int)
    requires c + |x| <= |text| && text[c..c + |x|] == x && FenceFree(x)
    requires c <= k && k + 3 <= c + |x|
    ensures !OccursAt(text, Fence, k)
  {
    OccursInSlice(text, c, c + |x|, Fence, k - c);
    assert !OccursAt(x, Fence, k - c);
  }

  /** A fence starting inside the copy and running past its end would need its last character to be a backtick. */
  lemma FenceAcrossEnd(text: string, c: nat, x: string, k: int)
    requires c + |x| <= |text| && text[c..c + |x|] == x && x != [] && x[|x| - 1] != '`'
    requires c <= k < c + |x| < k + 3
    ensures !OccursAt(text, Fence, k)
  {
    var e := c + |x| - 1;
    assert text[e] == text[c..c + |x|][|x| - 1] == x[|x| - 1];
    if k + 3 <= |text| {
      assert text[k..k + 3][e - k] == text[e];
      assert Fence[e - k] == '`';
    }
  }

  /**
   * A lead-in that is fence-free and does not end in a backtick holds no
   * fence, and none starts inside it and runs into what follows.
   */
  lemma FirstFenceAfter(pre: string, rest: string)
    requires FenceFree(pre) && (pre == [] || pre[|pre| - 1] != '`')
    requires OccursAt(rest, Fence, 0)
    ensures FirstFenceAt(pre + rest, |pre|)
  {
    var text := pre + rest;
    OccursAfterPrefix(pre, rest, Fence, 0);
    forall k | 0 <= k < |pre| ensures !OccursAt(text, Fence, k) {
      if k + 3 <= |pre| {
        assert text[k..k + 3] == pre[k..k + 3];
        assert !OccursAt(pre, Fence, k);
      } else if k + 3 <= |text| {
        assert text[k..k + 3][|pre| - 1 - k] == text[|pre| - 1] == pre[|pre| - 1];
      }
    }
  }

  /** The lazy capture of a text is still the lazy capture, shifted, once a lead-in is put in front. */
  lemma CaptureAfterPrefix(pre: string, rest: string, c: nat, x: string)
    requires LazyCapture(rest, c, x)
    ensures LazyCapture(pre + rest, |pre| + c, x)
  {
    var text := pre + rest;
    assert text[|pre| + c..|pre| + c + |x|] == rest[c..c + |x|];
    OccursAfterPrefix(pre, rest, Fence, c + |x|);
    forall k | |pre| + c <= k < |pre| + c + |x| ensures !OccursAt(text, Fence, k) {
      OccursAfterPrefix(pre, rest, Fence, k - |pre|);
    }
  }

  /**
   * A reply made of a lead-in, then a fence, an optional `json` tag and a
   * fence-free block, then a closing fence and anything at all, yields the
   * trimmed block. The lead-in (prose the model put first) holds no fence and
   * does not end in a backtick. Without the tag the block must not itself
   * begin with `json`, and its last character is not a backtick so that the
   * closing fence is where it seems.
   */
  lemma JsonTextOfFenced(pre: string, tag: string, inner: string, post: string)
    requires FenceFree(pre) && (pre == [] || pre[|pre| - 1] != '`')
    requires tag == "json" || (tag == "" && !StartsWith(inner, "json"))
    requires inner != [] && FenceFree(inner) && inner[|inner| - 1] != '`'
    ensures JsonText(pre + Fence + tag + inner + Fence + post) == Trim(inner)
  {
    var rest := Fence + tag + inner + Fence + post;
    assert pre + rest == pre + Fence + tag + inner + Fence + post;
    FencedAfterLead(pre, tag, inner, post);
    JsonTextOfCapture(pre + rest, |pre|, |pre| + 3 + |tag|, inner);
  }

  /** Where the parts sit once a lead-in is put before the fenced layout. */
  lemma FencedAfterLead(pre: string, tag: string, inner: string, post: string)
    requires FenceFree(pre) && (pre == [] || pre[|pre| - 1] != '`')
    requires tag == "json" || (tag == "" && !StartsWith(inner, "json"))
    requires inner != [] && FenceFree(inner) && inner[|inner| - 1] != '`'
    ensures var text := pre + (Fence + tag + inner + Fence + post);
      && FirstFenceAt(text, |pre|) && ContentStart(text, |pre|) == |pre| + 3 + |tag|
      && LazyCapture(text, |pre| + 3 + |tag|, inner)
  {
    var rest := Fence + tag + inner + Fence + post;
    FencedLayout(tag, inner, post);
    FirstFenceAfter(pre, rest);
    OccursAfterPrefix(pre, rest, "json", 3);
    CaptureAfterPrefix(pre, rest, 3 + |tag|, inner);
  }

  /** The first fence at `p`, the content start `c` and a non-empty lazy capture `x` from there: the parser gets `x` trimmed. */
  lemma JsonTextOfCapture(text: string, p: nat, c: nat, x: string)
    requires FirstFenceAt(text, p) && ContentStart(text, p) == c
    requires LazyCapture(text, c, x) && x != []
    ensures JsonText(text) == Trim(x)
  {
    assert IndexOf(text, Fence, 0) == Some(p);
    FencePair(text, p, c + |x|);
    var r := FenceInterior(text);
    LazyCaptureUnique(text, c, r.value, x);
  }

  // ---------------------------------------------------------------------------
  // The request.

  const Endpoint := "https://generativelanguage.googleapis.com/v1beta/models/gemini-pro-vision:generateContent?key="

  /** The instruction sent as the first part of the request; it names the five fields and their order. */
  const Instruction := "You are an agricultural expert specialized in identifying crop diseases. Analyze this crop image and provide: 1) Disease name, 2) Detailed description, 3) Preventive measures, 4) Treatment options, 5) Future precautions. Format your response as JSON with the following structure: {\"disease\": \"...\", \"description\": \"...\", \"preventiveMeasures\": [\"...\"], \"treatment\": \"...\", \"precautions\": [\"...\"]}. Please ensure the response is valid JSON."

  const ImageMimeType := "image/jpeg"

  /** A POST with a JSON body: one text part and one inline image part. */
  datatype GeminiRequest = GeminiRequest(url: string, instruction: string, mimeType: string, data: string)

  /**
   * The key is appended to the URL as it is (no escaping); the image travels
   * without its data-URL header and is always labelled JPEG.
   */
  function BuildImageRequest(image: string, apiKey: string): (r: GeminiRequest)
    ensures StartsWith(r.url, Endpoint) && r.url[|Endpoint|..] == apiKey
    ensures r.mimeType == ImageMimeType && r.instruction == Instruction
    ensures r.data == StripDataUrlPrefix(image)
    ensures ',' !in r.data && (',' !in image ==> r.data == image)
  {
    StartsWithConcat(Endpoint, apiKey);
    GeminiRequest(Endpoint + apiKey, Instruction, ImageMimeType, StripDataUrlPrefix(image))
  }

  // ---------------------------------------------------------------------------
  // The reply.

  /**
   * What the exchange produced: no response at all (`fetch` rejected), or a
   * response with its status and the candidate text when the body is JSON and
   * `candidates[0].content.parts[0].text` is a string.
   */
  datatype GeminiOutcome =
    | NetworkFailure
    | HttpReply(status: int, candidateText: Option<string>)

  /** `response.ok`. */
  predicate IsOk(status: int) {
    200 <= status <= 299
  }

  /** Why the fallback was answered; the caller never sees it. */
  datatype Failure = NetworkError | HttpError(status: int) | MissingText | InvalidJson

  datatype Attempt = Decoded(result: AnalysisResult) | Failed(cause: Failure)

  /** The `try` block: each step that throws is a distinct failure. */
  function Attempted(outcome: GeminiOutcome): (a: Attempt)
    ensures a.Failed? && a.cause.HttpError? ==> !IsOk(a.cause.status)
    ensures a.Decoded? <==>
      && outcome.HttpReply? && IsOk(outcome.status) && outcome.candidateText.Some?
      && Decode(JsonText(outcome.candidateText.value)).Some?
    ensures a.Decoded? ==> Decode(JsonText(outcome.candidateText.value)) == Some(a.result)
  {
    match outcome
    case NetworkFailure => Failed(NetworkError)
    case HttpReply(status, text) =>
      if !IsOk(status) then Failed(HttpError(status))
      else match text
        case None => Failed(MissingText)
        case Some(t) =>
          match Decode(JsonText(t))
          case None => Failed(InvalidJson)
          case Some(v) => Decoded(v)
  }

  /**
   * The value the call resolves to: the parsed reply, unvalidated, or the
   * fallback. It never rejects, and it never carries a confidence.
   */
  function AnalyzeReply(outcome: GeminiOutcome): (r: AnalysisResult)
    ensures r.confidence == None
    ensures Attempted(outcome).Failed? ==> r == Fallback()
    ensures Attempted(outcome).Decoded? ==> r == Attempted(outcome).result
    ensures r == Fallback() || (outcome.HttpReply? && IsOk(outcome.status) && outcome.candidateText.Some? && Decode(JsonText(outcome.candidateText.value)) == Some(r))
  {
    match Attempted(outcome)
    case Decoded(v) => v
    case Failed(_) => Fallback()
  }

  /** `analyzeImageWithGemini(imageBase64, apiKey)` over a given exchange. */
  function AnalyzeImageWithGemini(image: string, apiKey: string, exchange: GeminiRequest -> GeminiOutcome): (r: AnalysisResult)
    ensures r.confidence == None
    ensures var a := Attempted(exchange(BuildImageRequest(image, apiKey)));
      (a.Failed? ==> r == Fallback()) && (a.Decoded? ==> r == a.result)
    ensures var o := exchange(BuildImageRequest(image, apiKey));
      r == Fallback() || (o.HttpReply? && IsOk(o.status) && o.candidateText.Some? && Decode(JsonText(o.candidateText.value)) == Some(r))
  {
    AnalyzeReply(exchange(BuildImageRequest(image, apiKey)))
  }

  // ---------------------------------------------------------------------------
  // Round trips through the reply.

  /** A 2xx reply whose JSON part parses to `v` yields `v`. */
  lemma AnalyzeReplyOf(status: int, text: string, v: AnalysisResult)
    requires IsOk(status) && Decode(JsonText(text)) == Some(v)
    ensures AnalyzeReply(HttpReply(status, Some(text))) == v
  {
  }

  /** A successful reply whose text is exactly the JSON of `v` yields `v`. */
  lemma AnalyzeBareReply(v: AnalysisResult, status: int)
    requires v.confidence == None && ResultFenceFree(v) && IsOk(status)
    ensures AnalyzeReply(HttpReply(status, Some(Serialize(v)))) == v
  {
    SerializeSealed(v);
    DecodeSerialize(v);
    BareJsonReply(Serialize(v), v, status);
  }

  lemma BareJsonReply(json: string, v: AnalysisResult, status: int)
    requires FenceFree(json) && Decode(json) == Some(v) && IsOk(status)
    ensures AnalyzeReply(HttpReply(status, Some(json))) == v
  {
    JsonTextOfBare(json);
    AnalyzeReplyOf(status, json, v);
  }

  /** What may stand before the block: text with no fence that does not end in a backtick. */
  predicate LeadIn(pre: string) {
    FenceFree(pre) && (pre == [] || pre[|pre| - 1] != '`')
  }

  /** A sealed JSON text on lines of its own inside a ```json block comes out of the block unchanged. */
  lemma JsonTextOfJsonBlock(pre: string, body: string, post: string)
    requires LeadIn(pre) && Sealed(body) && IsTrimmed(body)
    ensures JsonText(pre + Fence + "json" + ("\n" + body + "\n") + Fence + post) == body
  {
    SealedLiteral("\n");
    SealedAround("\n", body, "\n");
    var inner := "\n" + body + "\n";
    assert inner[|inner| - 1] == '\n';
    JsonTextOfFenced(pre, "json", inner, post);
    TrimOfPadded("\n", body, "\n");
  }

  lemma WrappedJsonReply(pre: string, json: string, v: AnalysisResult, status: int, post: string)
    requires LeadIn(pre) && Sealed(json) && IsTrimmed(json) && Decode(json) == Some(v) && IsOk(status)
    ensures AnalyzeReply(HttpReply(status, Some(pre + Fence + "json" + ("\n" + json + "\n") + Fence + post))) == v
  {
    JsonTextOfJsonBlock(pre, json, post);
    AnalyzeReplyOf(status, pre + Fence + "json" + ("\n" + json + "\n") + Fence + post, v);
  }

  /** The JSON text of a result has no whitespace at either end. */
  lemma SerializeTrimmed(v: AnalysisResult)
    ensures IsTrimmed(Serialize(v))
  {
    SerializeBraced(v);
    BracedTrimmed(Serialize(v));
  }

  lemma BracedTrimmed(s: string)
    requires s != [] && s[0] == '{' && s[|s| - 1] == '}'
    ensures IsTrimmed(s)
  {
  }

  /**
   * So does a reply that wraps it in a ```json block on lines of its own,
   * with prose before the block (no fence in it, no backtick at its end) and
   * any text after it.
   */
  lemma AnalyzeFencedReply(v: AnalysisResult, status: int, pre: string, post: string)
    requires v.confidence == None && ResultFenceFree(v) && IsOk(status) && LeadIn(pre)
    ensures AnalyzeReply(HttpReply(status, Some(pre + Fence + "json" + ("\n" + Serialize(v) + "\n") + Fence + post))) == v
  {
    SerializeTrimmed(v);
    SerializeSealed(v);
    DecodeSerialize(v);
    WrappedJsonReply(pre, Serialize(v), v, status, post);
  }

  lemma EmptyResultFenceFree()
    ensures ResultFenceFree(AnalysisResult("", None, "", [], "", []))
  {
    NoTickFenceFree("");
  }

  /** Decoded replies are not validated: a reply with every field empty is passed through. */
  lemma EmptyReplyAccepted()
    ensures var v := AnalysisResult("", None, "", [], "", []);
      AnalyzeReply(HttpReply(200, Some(Serialize(v)))) == v && !IsComplete(v) && v != Fallback()
  {
    var v := AnalysisResult("", None, "", [], "", []);
    EmptyResultFenceFree();
    AnalyzeBareReply(v, 200);
    EmptyNotFallback();
  }

  lemma EmptyNotFallback()
    ensures var v := AnalysisResult("", None, "", [], "", []);
      !IsComplete(v) && v != Fallback()
  {
    assert Fallback().disease != [];
  }
}
