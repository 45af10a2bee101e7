/**
 * The JSON text of an `AnalysisResult`, in both directions.
 *
 * `Serialize` is what `JSON.stringify` produces for a result without a
 * confidence, with the five keys in the order the analysis instruction asks
 * the model for. `Decode` stands for `JSON.parse` restricted to that shape:
 * an object with exactly those five keys in that order, JSON whitespace
 * allowed between tokens, strings with every JSON escape. Everything else is
 * a parse failure. The main fact proved here is the round trip
 * `Decode(Serialize(v)) == Some(v)`, and that `Serialize` never creates a
 * code fence (three backticks) that was not already inside one of the strings.
 */
module AnalysisJson {
  import opened Wrappers
  import opened JsText
  import opened AnalysisResults

  // ---------------------------------------------------------------------------
  // Writing: JSON.stringify.

  function HexDigit(d: nat): (c: char)
    requires d < 16
  {
    if d < 10 then ('0' as int + d) as char else ('a' as int + (d - 10)) as char
  }

  /** How JSON.stringify writes one character inside a string literal. */
  function EscapeChar(c: char): string {
    if c == '"' then "\\\""
    else if c == '\\' then "\\\\"
    else if c == '\U{0008}' then "\\b"
    else if c == '\U{000C}' then "\\f"
    else if c == '\n' then "\\n"
    else if c == '\r' then "\\r"
    else if c == '\t' then "\\t"
    else if (c as int) < 0x20 then "\\u00" + [HexDigit(c as int / 16), HexDigit(c as int % 16)]
    else [c]
  }

  function Escape(s: string): string {
    if s == [] then [] else EscapeChar(s[0]) + Escape(s[1..])
  }

  function Quote(s: string): string {
    "\"" + Escape(s) + "\""
  }

  /** The elements after the first, each preceded by a comma. */
  function MoreItems(xs: seq<string>): string {
    if xs == [] then [] else "," + Quote(xs[0]) + MoreItems(xs[1..])
  }

  function QuoteList(xs: seq<string>): string {
    if xs == [] then "[]" else "[" + Quote(xs[0]) + MoreItems(xs[1..]) + "]"
  }

  /**
   * A member name as written: the five names are plain ASCII letters, which
   * JSON.stringify writes between quotes unchanged.
   */
  function Name(key: string): string {
    "\"" + key + "\""
  }

  /** `"key":json` followed by the rest of the object text. */
  function Member(key: string, json: string, rest: string): string {
    Name(key) + (":" + (json + rest))
  }

  /** JSON.stringify of a result whose confidence is absent. */
  function Serialize(v: AnalysisResult): string {
    "{" + Member("disease", Quote(v.disease),
      "," + Member("description", Quote(v.description),
      "," + Member("preventiveMeasures", QuoteList(v.preventiveMeasures),
      "," + Member("treatment", Quote(v.treatment),
      "," + Member("precautions", QuoteList(v.precautions), "}")))))
  }

  /** The text of a result is an object: it opens with `{` and closes with `}`. */
  lemma SerializeBraced(v: AnalysisResult)
    ensures var r := Serialize(v); r != [] && r[0] == '{' && r[|r| - 1] == '}'
  {
    ObjectBraced("disease", Quote(v.disease), "description", Quote(v.description),
      "preventiveMeasures", QuoteList(v.preventiveMeasures), "treatment", Quote(v.treatment),
      "precautions", QuoteList(v.precautions));
  }

  /** Five members between braces, whatever their names and values. */
  lemma ObjectBraced(k1: string, j1: string, k2: string, j2: string, k3: string, j3: string,
                     k4: string, j4: string, k5: string, j5: string)
    ensures var r := "{" + Member(k1, j1, "," + Member(k2, j2, "," + Member(k3, j3,
        "," + Member(k4, j4, "," + Member(k5, j5, "}")))));
      r != [] && r[0] == '{' && r[|r| - 1] == '}'
  {
    var m5 := Member(k5, j5, "}");
    MemberLast(k5, j5, "}");
    var m4 := Member(k4, j4, "," + m5);
    MemberLast(k4, j4, "," + m5);
    var m3 := Member(k3, j3, "," + m4);
    MemberLast(k3, j3, "," + m4);
    var m2 := Member(k2, j2, "," + m3);
    MemberLast(k2, j2, "," + m3);
    MemberLast(k1, j1, "," + m2);
  }

  /** A member ends where the text after it ends. */
  lemma MemberLast(key: string, json: string, rest: string)
    requires rest != []
    ensures Member(key, json, rest) != [] && Member(key, json, rest)[|Member(key, json, rest)| - 1] == rest[|rest| - 1]
  {
  }

  // ---------------------------------------------------------------------------
  // Reading: JSON.parse of the five-field object.

  datatype Parsed<T> = Parsed(value: T, rest: string)

  predicate IsJsonSpace(c: char) {
    c == ' ' || c == '\t' || c == '\n' || c == '\r'
  }

  function SkipSpace(s: string): (r: string)
    ensures |r| <= |s|
    ensures r == [] || !IsJsonSpace(r[0])
  {
    if s != [] && IsJsonSpace(s[0]) then SkipSpace(s[1..]) else s
  }

  /** The token `tok` after optional whitespace; the text after it. */
  function Token(s: string, tok: string): (r: Option<string>)
    requires tok != []
    ensures r.Some? ==> |r.value| < |s|
  {
    var t := SkipSpace(s);
    if StartsWith(t, tok) then Some(t[|tok|..]) else None
  }

  function HexValue(c: char): (r: Option<nat>)
    ensures r.Some? ==> r.value < 16
  {
    if '0' <= c <= '9' then Some(c as int - '0' as int)
    else if 'a' <= c <= 'f' then Some(c as int - 'a' as int + 10)
    else if 'A' <= c <= 'F' then Some(c as int - 'A' as int + 10)
    else None
  }

  function Hex4(s: string): (r: Option<nat>)
    requires |s| == 4
    ensures r.Some? ==> r.value < 0x1_0000
  {
    var a :- HexValue(s[0]);
    var b :- HexValue(s[1]);
    var c :- HexValue(s[2]);
    var d :- HexValue(s[3]);
    Some(((a * 16 + b) * 16 + c) * 16 + d)
  }

  /**
   * The character an escape sequence stands for; `s` is the text after the
   * backslash. A `\u` escape of a surrogate code unit is refused (the model's
   * characters are Unicode scalar values, so surrogate pairs are not decoded).
   */
  function Unescape(s: string): (r: Option<Parsed<char>>)
    ensures r.Some? ==> |r.value.rest| < |s|
  {
    if s == [] then None
    else if s[0] == '"' then Some(Parsed('"', s[1..]))
    else if s[0] == '\\' then Some(Parsed('\\', s[1..]))
    else if s[0] == '/' then Some(Parsed('/', s[1..]))
    else if s[0] == 'b' then Some(Parsed('\U{0008}', s[1..]))
    else if s[0] == 'f' then Some(Parsed('\U{000C}', s[1..]))
    else if s[0] == 'n' then Some(Parsed('\n', s[1..]))
    else if s[0] == 'r' then Some(Parsed('\r', s[1..]))
    else if s[0] == 't' then Some(Parsed('\t', s[1..]))
    else if s[0] == 'u' && |s| >= 5 then
      var n :- Hex4(s[1..5]);
      if 0xD800 <= n < 0xE000 then None else Some(Parsed(n as char, s[5..]))
    else None
  }

  /** The characters of a string literal after its opening quote, up to the closing quote. */
  function StringBody(s: string): (r: Option<Parsed<string>>)
    ensures r.Some? ==> |r.value.rest| < |s|
    decreases |s|
  {
    if s == [] then None
    else if s[0] == '"' then Some(Parsed([], s[1..]))
    else if s[0] == '\\' then
      var e :- Unescape(s[1..]);
      var t :- StringBody(e.rest);
      Some(Parsed([e.value] + t.value, t.rest))
    else if (s[0] as int) < 0x20 then None
    else
      var t :- StringBody(s[1..]);
      Some(Parsed([s[0]] + t.value, t.rest))
  }

  function ParseString(s: string): (r: Option<Parsed<string>>)
    ensures r.Some? ==> |r.value.rest| < |s|
  {
    var t :- Token(s, "\"");
    StringBody(t)
  }

  /** The elements after the first: `("," string)* "]"`. */
  function ParseMoreItems(s: string): (r: Option<Parsed<seq<string>>>)
    ensures r.Some? ==> |r.value.rest| < |s|
    decreases |s|
  {
    var close := Token(s, "]");
    if close.Some? then Some(Parsed([], close.value))
    else
      var t :- Token(s, ",");
      var item :- ParseString(t);
      var more :- ParseMoreItems(item.rest);
      Some(Parsed([item.value] + more.value, more.rest))
  }

  function ParseStringList(s: string): (r: Option<Parsed<seq<string>>>)
    ensures r.Some? ==> |r.value.rest| < |s|
  {
    var t :- Token(s, "[");
    var close := Token(t, "]");
    if close.Some? then Some(Parsed([], close.value))
    else
      var first :- ParseString(t);
      var more :- ParseMoreItems(first.rest);
      Some(Parsed([first.value] + more.value, more.rest))
  }

  /** The member name `key`, written without escapes, then the colon. */
  function ParseKey(s: string, key: string): (r: Option<string>)
    ensures r.Some? ==> |r.value| < |s|
  {
    var t :- Token(s, Name(key));
    Token(t, ":")
  }

  /** `"key": string` */
  function ParseStringMember(s: string, key: string): (r: Option<Parsed<string>>)
    ensures r.Some? ==> |r.value.rest| < |s|
  {
    var t :- ParseKey(s, key);
    ParseString(t)
  }

  /** `"key": [string, ...]` */
  function ParseListMember(s: string, key: string): (r: Option<Parsed<seq<string>>>)
    ensures r.Some? ==> |r.value.rest| < |s|
  {
    var t :- ParseKey(s, key);
    ParseStringList(t)
  }

  /** The last three members of the object. */
  datatype Advice = Advice(preventiveMeasures: seq<string>, treatment: string, precautions: seq<string>)

  /** `"preventiveMeasures": [...], "treatment": "...", "precautions": [...] }` and nothing but whitespace after it. */
  function DecodeAdvice(s: string): (r: Option<Advice>)
  {
    var measures :- ParseListMember(s, "preventiveMeasures");
    var s1 :- Token(measures.rest, ",");
    var treatment :- ParseStringMember(s1, "treatment");
    var s2 :- Token(treatment.rest, ",");
    var precautions :- ParseListMember(s2, "precautions");
    var s3 :- Token(precautions.rest, "}");
    if SkipSpace(s3) == [] then Some(Advice(measures.value, treatment.value, precautions.value)) else None
  }

  /** `JSON.parse` of the five-field object; None stands for a thrown SyntaxError. */
  function Decode(s: string): (r: Option<AnalysisResult>)
    ensures r.Some? ==> r.value.confidence == None
  {
    var s0 :- Token(s, "{");
    var disease :- ParseStringMember(s0, "disease");
    var s1 :- Token(disease.rest, ",");
    var description :- ParseStringMember(s1, "description");
    var s2 :- Token(description.rest, ",");
    var advice :- DecodeAdvice(s2);
    Some(AnalysisResult(disease.value, None, description.value,
      advice.preventiveMeasures, advice.treatment, advice.precautions))
  }

  // ---------------------------------------------------------------------------
  // The round trip.

  lemma TokenOf(tok: string, rest: string)
    requires tok != [] && !IsJsonSpace(tok[0])
    ensures Token(tok + rest, tok) == Some(rest)
  {
    assert (tok + rest)[0] == tok[0];
    assert (tok + rest)[..|tok|] == tok;
    assert (tok + rest)[|tok|..] == rest;
  }

  lemma TokenWhole(tok: string)
    requires tok != [] && !IsJsonSpace(tok[0])
    ensures Token(tok, tok) == Some([])
  {
  }

  lemma HexDigitValue(d: nat)
    requires d < 16
    ensures HexValue(HexDigit(d)) == Some(d)
  {
  }

  /** Reading back a character written as a two-character escape. */
  lemma StringBodyShortEscape(c: char, t: string)
    requires c == '"' || c == '\\' || c == '\U{0008}' || c == '\U{000C}' || c == '\n' || c == '\r' || c == '\t'
    ensures StringBody(EscapeChar(c) + t) ==
      match StringBody(t)
      case None => None
      case Some(p) => Some(Parsed([c] + p.value, p.rest))
  {
    var s := EscapeChar(c) + t;
    assert s[0] == '\\' && s[1..] == [EscapeChar(c)[1]] + t;
    assert s[1..][1..] == t;
  }

  /** Reading back a control character written as a `\u00XX` escape. */
  lemma StringBodyUnicodeEscape(c: char, t: string)
    requires (c as int) < 0x20
    requires !(c == '"' || c == '\\' || c == '\U{0008}' || c == '\U{000C}' || c == '\n' || c == '\r' || c == '\t')
    ensures StringBody(EscapeChar(c) + t) ==
      match StringBody(t)
      case None => None
      case Some(p) => Some(Parsed([c] + p.value, p.rest))
  {
    var s := EscapeChar(c) + t;
    var hi, lo := c as int / 16, c as int % 16;
    HexDigitValue(hi);
    HexDigitValue(lo);
    var u := s[1..];
    assert u == ['u', '0', '0', HexDigit(hi), HexDigit(lo)] + t;
    assert u[1..5] == ['0', '0', HexDigit(hi), HexDigit(lo)];
    assert Hex4(u[1..5]) == Some(c as int);
    assert u[5..] == t;
    assert Unescape(u) == Some(Parsed(c, t));
  }

  /** Reading back one written character. */
  lemma StringBodyStep(c: char, t: string)
    ensures StringBody(EscapeChar(c) + t) ==
      match StringBody(t)
      case None => None
      case Some(p) => Some(Parsed([c] + p.value, p.rest))
  {
    if c == '"' || c == '\\' || c == '\U{0008}' || c == '\U{000C}' || c == '\n' || c == '\r' || c == '\t' {
      StringBodyShortEscape(c, t);
    } else if (c as int) < 0x20 {
      StringBodyUnicodeEscape(c, t);
    } else {
      var s := EscapeChar(c) + t;
      assert s[0] == c && s[1..] == t;
    }
  }

  lemma {:induction false} StringBodyOfEscaped(x: string, rest: string)
    ensures StringBody(Escape(x) + "\"" + rest) == Some(Parsed(x, rest))
    decreases |x|
  {
    if x == [] {
      assert Escape(x) + "\"" + rest == "\"" + rest;
      assert ("\"" + rest)[1..] == rest;
    } else {
      var tail := Escape(x[1..]) + "\"" + rest;
      assert Escape(x) + "\"" + rest == EscapeChar(x[0]) + tail;
      StringBodyOfEscaped(x[1..], rest);
      StringBodyStep(x[0], tail);
      assert [x[0]] + x[1..] == x;
    }
  }

  lemma ParseStringOfQuote(x: string, rest: string)
    ensures ParseString(Quote(x) + rest) == Some(Parsed(x, rest))
  {
    assert Quote(x) + rest == "\"" + (Escape(x) + "\"" + rest);
    TokenOf("\"", Escape(x) + "\"" + rest);
    StringBodyOfEscaped(x, rest);
  }

  lemma ParseKeyOf(key: string, rest: string)
    ensures ParseKey(Name(key) + (":" + rest), key) == Some(rest)
  {
    TokenOf(Name(key), ":" + rest);
    TokenOf(":", rest);
  }

  /** A comma in front: not the closing bracket, and the comma token is followed by the text after it. */
  lemma CommaToken(u: string)
    ensures Token("," + u, "]") == None && Token("," + u, ",") == Some(u)
  {
    var s := "," + u;
    assert SkipSpace(s) == s by { assert s[0] == ','; }
    assert s[0] == ',' && s[..1] == ",";
    assert s[1..] == u;
  }

  /** A quote in front is not the closing bracket. */
  lemma QuoteNotClose(u: string)
    ensures Token("\"" + u, "]") == None
  {
    var s := "\"" + u;
    assert SkipSpace(s) == s by { assert s[0] == '"'; }
    assert s[0] == '"';
  }

  /** One step of `ParseMoreItems`, for an element that reads back. */
  lemma ParseMoreItemsStep(s: string, t: string, x: string, tail: string)
    requires Token(s, "]") == None && Token(s, ",") == Some(t)
    requires ParseString(t) == Some(Parsed(x, tail))
    ensures ParseMoreItems(s) ==
      match ParseMoreItems(tail)
      case None => None
      case Some(p) => Some(Parsed([x] + p.value, p.rest))
  {
  }

  lemma MoreItemsCons(xs: seq<string>, rest: string)
    requires xs != []
    ensures MoreItems(xs) + "]" + rest == "," + (Quote(xs[0]) + (MoreItems(xs[1..]) + "]" + rest))
  {
  }

  lemma {:induction false} ParseMoreItemsOf(xs: seq<string>, rest: string)
    ensures ParseMoreItems(MoreItems(xs) + "]" + rest) == Some(Parsed(xs, rest))
    decreases |xs|
  {
    if xs == [] {
      assert MoreItems(xs) + "]" + rest == "]" + rest;
      TokenOf("]", rest);
    } else {
      var tail := MoreItems(xs[1..]) + "]" + rest;
      MoreItemsCons(xs, rest);
      CommaToken(Quote(xs[0]) + tail);
      ParseStringOfQuote(xs[0], tail);
      ParseMoreItemsStep("," + (Quote(xs[0]) + tail), Quote(xs[0]) + tail, xs[0], tail);
      ParseMoreItemsOf(xs[1..], rest);
      assert [xs[0]] + xs[1..] == xs;
    }
  }

  /** `ParseStringList` of a non-empty list, for a first element that reads back. */
  lemma ParseStringListStep(s: string, t: string, x: string, tail: string)
    requires Token(s, "[") == Some(t) && Token(t, "]") == None
    requires ParseString(t) == Some(Parsed(x, tail))
    ensures ParseStringList(s) ==
      match ParseMoreItems(tail)
      case None => None
      case Some(p) => Some(Parsed([x] + p.value, p.rest))
  {
  }

  lemma QuoteListCons(xs: seq<string>, rest: string)
    requires xs != []
    ensures QuoteList(xs) + rest == "[" + (Quote(xs[0]) + (MoreItems(xs[1..]) + "]" + rest))
  {
  }

  lemma ParseEmptyListOf(rest: string)
    ensures ParseStringList(QuoteList([]) + rest) == Some(Parsed([], rest))
  {
    assert QuoteList([]) + rest == "[" + ("]" + rest);
    TokenOf("[", "]" + rest);
    TokenOf("]", rest);
  }

  lemma ParseNonEmptyListOf(xs: seq<string>, rest: string)
    requires xs != []
    ensures ParseStringList(QuoteList(xs) + rest) == Some(Parsed(xs, rest))
  {
    var tail := MoreItems(xs[1..]) + "]" + rest;
    var body := Quote(xs[0]) + tail;
    QuoteListCons(xs, rest);
    TokenOf("[", body);
    assert body == "\"" + (Escape(xs[0]) + "\"" + tail);
    QuoteNotClose(Escape(xs[0]) + "\"" + tail);
    ParseStringOfQuote(xs[0], tail);
    ParseStringListStep("[" + body, body, xs[0], tail);
    ParseMoreItemsOf(xs[1..], rest);
    assert [xs[0]] + xs[1..] == xs;
  }

  lemma ParseStringListOf(xs: seq<string>, rest: string)
    ensures ParseStringList(QuoteList(xs) + rest) == Some(Parsed(xs, rest))
  {
    if xs == [] {
      ParseEmptyListOf(rest);
    } else {
      ParseNonEmptyListOf(xs, rest);
    }
  }

  lemma StringMemberOf(key: string, x: string, rest: string)
    ensures ParseStringMember(Member(key, Quote(x), rest), key) == Some(Parsed(x, rest))
  {
    assert Member(key, Quote(x), rest) == Name(key) + (":" + (Quote(x) + rest));
    ParseKeyOf(key, Quote(x) + rest);
    ParseStringOfQuote(x, rest);
  }

  lemma ListMemberOf(key: string, xs: seq<string>, rest: string)
    ensures ParseListMember(Member(key, QuoteList(xs), rest), key) == Some(Parsed(xs, rest))
  {
    assert Member(key, QuoteList(xs), rest) == Name(key) + (":" + (QuoteList(xs) + rest));
    ParseKeyOf(key, QuoteList(xs) + rest);
    ParseStringListOf(xs, rest);
  }

  /** `DecodeAdvice` when each of its steps succeeds. */
  lemma DecodeAdviceSteps(s: string, m: seq<string>, r1: string, s1: string, t: string, r2: string,
                          s2: string, p: seq<string>, r3: string)
    requires ParseListMember(s, "preventiveMeasures") == Some(Parsed(m, r1))
    requires Token(r1, ",") == Some(s1)
    requires ParseStringMember(s1, "treatment") == Some(Parsed(t, r2))
    requires Token(r2, ",") == Some(s2)
    requires ParseListMember(s2, "precautions") == Some(Parsed(p, r3))
    requires Token(r3, "}") == Some([])
    ensures DecodeAdvice(s) == Some(Advice(m, t, p))
  {
  }

  lemma DecodeAdviceOf(v: AnalysisResult)
    ensures DecodeAdvice(Member("preventiveMeasures", QuoteList(v.preventiveMeasures),
      "," + Member("treatment", Quote(v.treatment),
      "," + Member("precautions", QuoteList(v.precautions), "}"))))
      == Some(Advice(v.preventiveMeasures, v.treatment, v.precautions))
  {
    var r3 := "}";
    var m3 := Member("precautions", QuoteList(v.precautions), r3);
    var r2 := "," + m3;
    var m2 := Member("treatment", Quote(v.treatment), r2);
    var r1 := "," + m2;
    ListMemberOf("preventiveMeasures", v.preventiveMeasures, r1);
    TokenOf(",", m2);
    StringMemberOf("treatment", v.treatment, r2);
    TokenOf(",", m3);
    ListMemberOf("precautions", v.precautions, r3);
    TokenWhole("}");
    DecodeAdviceSteps(Member("preventiveMeasures", QuoteList(v.preventiveMeasures), r1),
      v.preventiveMeasures, r1, m2, v.treatment, r2, m3, v.precautions, r3);
  }

  /** JSON.parse(JSON.stringify(v)) gives back `v`. */
  lemma DecodeSerialize(v: AnalysisResult)
    requires v.confidence == None
    ensures Decode(Serialize(v)) == Some(v)
  {
    var m3 := Member("preventiveMeasures", QuoteList(v.preventiveMeasures),
      "," + Member("treatment", Quote(v.treatment),
      "," + Member("precautions", QuoteList(v.precautions), "}")));
    var r2 := "," + m3;
    var m2 := Member("description", Quote(v.description), r2);
    var r1 := "," + m2;
    var m1 := Member("disease", Quote(v.disease), r1);
    assert Serialize(v) == "{" + m1;
    TokenOf("{", m1);
    StringMemberOf("disease", v.disease, r1);
    TokenOf(",", m2);
    StringMemberOf("description", v.description, r2);
    TokenOf(",", m3);
    DecodeAdviceOf(v);
  }

  // ---------------------------------------------------------------------------
  // Writing never creates a code fence.

  /** The marker of a fenced code block in a model reply. */
  const Fence := "```"

  predicate FenceFree(s: string) {
    !Occurs(s, Fence)
  }

  predicate AllFenceFree(xs: seq<string>) {
    forall i :: 0 <= i < |xs| ==> FenceFree(xs[i])
  }

  /** No string of the result contains a fence. */
  predicate ResultFenceFree(v: AnalysisResult) {
    && FenceFree(v.disease) && FenceFree(v.description) && FenceFree(v.treatment)
    && AllFenceFree(v.preventiveMeasures) && AllFenceFree(v.precautions)
  }

  /** Fence-free, non-empty, and no backtick at either end, so gluing two such strings creates no fence. */
  predicate Sealed(s: string) {
    FenceFree(s) && s != [] && s[0] != '`' && s[|s| - 1] != '`'
  }

  lemma NoTickFenceFree(s: string)
    requires '`' !in s
    ensures FenceFree(s)
  {
    forall i | 0 <= i <= |s| - |Fence| ensures !OccursAt(s, Fence, i) {
      assert s[i..i + 3][0] == s[i];
    }
  }

  lemma ShortFenceFree(s: string)
    requires |s| < |Fence|
    ensures FenceFree(s)
  {
  }

  lemma FenceFreeTail(s: string)
    requires s != [] && FenceFree(s)
    ensures FenceFree(s[1..])
  {
    forall i | 0 <= i <= |s[1..]| - |Fence| ensures !OccursAt(s[1..], Fence, i) {
      assert s[1..][i..i + 3] == s[i + 1..i + 4];
      assert !OccursAt(s, Fence, i + 1);
    }
  }

  /** Gluing two fence-free strings creates no fence unless both sides of the seam are backticks. */
  lemma FenceFreeConcat(a: string, b: string)
    requires FenceFree(a) && FenceFree(b)
    requires a != [] && b != [] && (a[|a| - 1] != '`' || b[0] != '`')
    ensures FenceFree(a + b)
  {
    forall i | 0 <= i <= |a + b| - |Fence| ensures !OccursAt(a + b, Fence, i) {
      if i + 3 <= |a| {
        assert (a + b)[i..i + 3] == a[i..i + 3];
        assert !OccursAt(a, Fence, i);
      } else if i >= |a| {
        assert (a + b)[i..i + 3] == b[i - |a|..i - |a| + 3];
        assert !OccursAt(b, Fence, i - |a|);
      } else {
        var w := (a + b)[i..i + 3];
        assert w[|a| - 1 - i] == a[|a| - 1];
        assert w[|a| - i] == b[0];
        assert Fence[|a| - 1 - i] == '`' && Fence[|a| - i] == '`';
        assert w != Fence;
      }
    }
  }

  lemma SealedConcat(a: string, b: string)
    requires Sealed(a) && Sealed(b)
    ensures Sealed(a + b)
  {
    FenceFreeConcat(a, b);
  }

  lemma SealedLiteral(s: string)
    requires s != [] && '`' !in s
    ensures Sealed(s)
  {
    NoTickFenceFree(s);
  }

  /** A fence-free middle between two sealed ends gives a sealed string. */
  lemma SealedAround(a: string, m: string, c: string)
    requires Sealed(a) && FenceFree(m) && Sealed(c)
    ensures Sealed(a + m + c)
  {
    if m == [] {
      assert a + m + c == a + c;
      SealedConcat(a, c);
    } else {
      FenceFreeConcat(a, m);
      FenceFreeConcat(a + m, c);
    }
  }

  lemma EscapeCharNoTick(c: char)
    requires c != '`'
    ensures EscapeChar(c) != [] && '`' !in EscapeChar(c)
  {
    if c != '"' && c != '\\' && (c as int) < 0x20 && c != '\U{0008}' && c != '\U{000C}' && c != '\n' && c != '\r' && c != '\t' {
      var hi, lo := c as int / 16, c as int % 16;
      assert EscapeChar(c) == ['\\', 'u', '0', '0', HexDigit(hi), HexDigit(lo)];
    }
  }

  /** An escaped string starts with a backtick exactly when the original does. */
  lemma EscapeFirst(t: string)
    requires t != []
    ensures Escape(t) != [] && Escape(t) == EscapeChar(t[0]) + Escape(t[1..])
    ensures Escape(t)[0] == '`' <==> t[0] == '`'
  {
    if t[0] != '`' {
      EscapeCharNoTick(t[0]);
      assert Escape(t)[0] == EscapeChar(t[0])[0];
    }
  }

  /** Escaping keeps a string fence-free: backticks pass through, every other character becomes backtick-free text. */
  lemma {:induction false} EscapeFenceFree(x: string)
    requires FenceFree(x)
    ensures FenceFree(Escape(x))
    decreases |x|
  {
    if x == [] {
      NoTickFenceFree(Escape(x));
    } else {
      FenceFreeTail(x);
      EscapeFenceFree(x[1..]);
      var a, b := EscapeChar(x[0]), Escape(x[1..]);
      assert Escape(x) == a + b;
      if b == [] {
        assert a + b == a;
        if x[0] != '`' {
          EscapeCharNoTick(x[0]);
          NoTickFenceFree(a);
        } else {
          assert a == "`";
          ShortFenceFree(a);
        }
      } else if x[0] != '`' {
        EscapeCharNoTick(x[0]);
        NoTickFenceFree(a);
        FenceFreeConcat(a, b);
      } else {
        assert a == "`";
        assert !(|b| >= 2 && b[0] == '`' && b[1] == '`') by {
          EscapeFirst(x[1..]);
          if x[1] == '`' && |x| > 2 {
            assert !OccursAt(x, Fence, 0);
            assert x[..3] == [x[0], x[1], x[2]];
            EscapeFirst(x[2..]);
            assert x[1..][1..] == x[2..];
            assert b == "`" + Escape(x[2..]);
          }
        }
        TickThenFenceFree(b);
      }
    }
  }

  /** One backtick in front creates no fence when the string does not already start with two. */
  lemma TickThenFenceFree(b: string)
    requires FenceFree(b) && !(|b| >= 2 && b[0] == '`' && b[1] == '`')
    ensures FenceFree("`" + b)
  {
    forall i | 0 <= i <= |"`" + b| - |Fence| ensures !OccursAt("`" + b, Fence, i) {
      if i == 0 {
        assert ("`" + b)[0..3] == ['`', b[0], b[1]];
      } else {
        assert ("`" + b)[i..i + 3] == b[i - 1..i + 2];
        assert !OccursAt(b, Fence, i - 1);
      }
    }
  }

  lemma QuoteSealed(x: string)
    requires FenceFree(x)
    ensures Sealed(Quote(x))
  {
    SealedLiteral("\"");
    EscapeFenceFree(x);
    SealedAround("\"", Escape(x), "\"");
  }

  lemma {:induction false} MoreItemsFenceFree(xs: seq<string>)
    requires AllFenceFree(xs)
    ensures FenceFree(MoreItems(xs))
    ensures MoreItems(xs) != [] ==> Sealed(MoreItems(xs))
    decreases |xs|
  {
    if xs == [] {
      NoTickFenceFree(MoreItems(xs));
    } else {
      SealedLiteral(",");
      QuoteSealed(xs[0]);
      SealedConcat(",", Quote(xs[0]));
      MoreItemsFenceFree(xs[1..]);
      var tail := MoreItems(xs[1..]);
      if tail == [] {
        assert MoreItems(xs) == "," + Quote(xs[0]);
      } else {
        SealedConcat("," + Quote(xs[0]), tail);
      }
    }
  }

  lemma QuoteListSealed(xs: seq<string>)
    requires AllFenceFree(xs)
    ensures Sealed(QuoteList(xs))
  {
    if xs == [] {
      SealedLiteral("[]");
    } else {
      SealedLiteral("[");
      SealedLiteral("]");
      QuoteSealed(xs[0]);
      SealedConcat("[", Quote(xs[0]));
      MoreItemsFenceFree(xs[1..]);
      SealedAround("[" + Quote(xs[0]), MoreItems(xs[1..]), "]");
    }
  }

  lemma MemberSealed(key: string, json: string, rest: string)
    requires key != [] && '`' !in key
    requires Sealed(json) && Sealed(rest)
    ensures Sealed(Member(key, json, rest))
    ensures Member(key, json, rest)[|Member(key, json, rest)| - 1] == rest[|rest| - 1]
  {
    SealedLiteral("\"");
    NoTickFenceFree(key);
    SealedAround("\"", key, "\"");
    SealedLiteral(":");
    SealedConcat(json, rest);
    SealedConcat(":", json + rest);
    SealedConcat(Name(key), ":" + (json + rest));
  }

  /** `,` followed by a sealed string ending in `}` is sealed and still ends in `}`. */
  lemma CommaSealed(m: string)
    requires Sealed(m) && m[|m| - 1] == '}'
    ensures Sealed("," + m) && ("," + m)[|"," + m| - 1] == '}'
  {
    SealedLiteral(",");
    SealedConcat(",", m);
  }

  /** The last two members of the object, from the comma before `treatment`. */
  lemma TailSealed(v: AnalysisResult)
    requires ResultFenceFree(v)
    ensures var t := "," + Member("treatment", Quote(v.treatment), "," + Member("precautions", QuoteList(v.precautions), "}"));
      Sealed(t) && t[|t| - 1] == '}'
  {
    SealedLiteral("}");
    QuoteListSealed(v.precautions);
    MemberSealed("precautions", QuoteList(v.precautions), "}");
    CommaSealed(Member("precautions", QuoteList(v.precautions), "}"));
    QuoteSealed(v.treatment);
    var m5 := "," + Member("precautions", QuoteList(v.precautions), "}");
    MemberSealed("treatment", Quote(v.treatment), m5);
    CommaSealed(Member("treatment", Quote(v.treatment), m5));
  }

  /** A member after a comma, in front of a sealed rest ending in `}`, keeps both facts. */
  lemma CommaMemberSealed(key: string, json: string, rest: string)
    requires key != [] && '`' !in key
    requires Sealed(json) && Sealed(rest) && rest[|rest| - 1] == '}'
    ensures var t := "," + Member(key, json, rest); Sealed(t) && t[|t| - 1] == '}'
  {
    MemberSealed(key, json, rest);
    CommaSealed(Member(key, json, rest));
  }

  /** An object text: `{` in front of a sealed string ending in `}`. */
  lemma ObjectSealed(m: string)
    requires Sealed(m) && m[|m| - 1] == '}'
    ensures Sealed("{" + m) && ("{" + m)[0] == '{' && ("{" + m)[|"{" + m| - 1] == '}'
  {
    SealedLiteral("{");
    SealedConcat("{", m);
  }

  /** The last three members of the object, from the comma before `preventiveMeasures`. */
  lemma AdviceSealed(v: AnalysisResult)
    requires ResultFenceFree(v)
    ensures var t := "," + Member("preventiveMeasures", QuoteList(v.preventiveMeasures),
      "," + Member("treatment", Quote(v.treatment), "," + Member("precautions", QuoteList(v.precautions), "}")));
      Sealed(t) && t[|t| - 1] == '}'
  {
    TailSealed(v);
    QuoteListSealed(v.preventiveMeasures);
    CommaMemberSealed("preventiveMeasures", QuoteList(v.preventiveMeasures),
      "," + Member("treatment", Quote(v.treatment), "," + Member("precautions", QuoteList(v.precautions), "}")));
  }

  /** The text of a result opens with `{`, closes with `}`, and holds a fence only if one of its strings does. */
  lemma SerializeSealed(v: AnalysisResult)
    requires ResultFenceFree(v)
    ensures Sealed(Serialize(v))
    ensures Serialize(v)[0] == '{' && Serialize(v)[|Serialize(v)| - 1] == '}'
  {
    var t3 := "," + Member("preventiveMeasures", QuoteList(v.preventiveMeasures),
      "," + Member("treatment", Quote(v.treatment), "," + Member("precautions", QuoteList(v.precautions), "}")));
    AdviceSealed(v);
    QuoteSealed(v.description);
    CommaMemberSealed("description", Quote(v.description), t3);
    var t2 := "," + Member("description", Quote(v.description), t3);
    QuoteSealed(v.disease);
    MemberSealed("disease", Quote(v.disease), t2);
    var m1 := Member("disease", Quote(v.disease), t2);
    ObjectSealed(m1);
    assert Serialize(v) == "{" + m1;
  }
}
