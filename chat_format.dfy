/**
 * `formatMessage` (src/components/ChatMessage.tsx): the Markdown-like
 * rewriting of a chat message into the HTML fragment the bubble renders.
 * Each `String.prototype.replace` with a global regular expression is one
 * function here, written as the left-to-right scan the regular-expression
 * engine performs: a match is tried at each position in turn, the first one
 * found is replaced, and the scan resumes after it.
 *
 * The rules `/## (.*?)(\n|$)/g`, `/# (.*?)(\n|$)/g` and `/- (.*?)(\n|$)/g`
 * share one shape: a marker, then the shortest run of characters other
 * than line terminators up to a newline (consumed) or the end of the whole
 * text (there is no `m` flag, so `$` is the end of the string only).
 */
module ChatFormat {
  import opened Wrappers
  import opened JsText

  // ---------------------------------------------------------------------------
  // `text.replace(/\n/g, "<br>")`.

  const LineBreak := "<br>"

  function ReplaceNewlines(s: string): (r: string)
    ensures '\n' !in r
    ensures '\n' !in s ==> r == s
  {
    if s == [] then []
    else (if s[0] == '\n' then LineBreak else [s[0]]) + ReplaceNewlines(s[1..])
  }

  /** The rewrite works character by character, so it distributes over concatenation. */
  lemma {:induction false} ReplaceNewlinesConcat(a: string, b: string)
    ensures ReplaceNewlines(a + b) == ReplaceNewlines(a) + ReplaceNewlines(b)
    decreases |a|
  {
    if a != [] {
      var h := if a[0] == '\n' then LineBreak else [a[0]];
      assert (a + b)[0] == a[0] && (a + b)[1..] == a[1..] + b;
      assert ReplaceNewlines(a + b) == h + ReplaceNewlines(a[1..] + b);
      ReplaceNewlinesConcat(a[1..], b);
      assert h + (ReplaceNewlines(a[1..]) + ReplaceNewlines(b)) == h + ReplaceNewlines(a[1..]) + ReplaceNewlines(b);
    } else {
      assert a + b == b;
    }
  }

  // ---------------------------------------------------------------------------
  // Line rules: marker, shortest run, then newline or the end of the text.

  /**
   * Where the lazy `(.*?)(\n|$)` stops in `t`: the first newline or the end
   * of `t`, provided no line terminator comes earlier (`.` matches none of
   * them); None when a carriage return or U+2028/U+2029 comes first.
   */
  function LineEnd(t: string): (r: Option<nat>)
    ensures r.Some? ==> r.value <= |t| && NoLineTerminator(t[..r.value]) && (r.value == |t| || t[r.value] == '\n')
    ensures NoLineTerminator(t) ==> r == Some(|t|)
    ensures r.None? ==> !NoLineTerminator(t)
  {
    if t == [] then Some(0)
    else if t[0] == '\n' then Some(0)
    else if IsLineTerminator(t[0]) then None
    else
      match LineEnd(t[1..])
      case None => None
      case Some(e) =>
        assert t[..e + 1] == [t[0]] + t[1..][..e];
        Some(e + 1)
  }

  /** A line with no terminator of its own ends at the newline after it. */
  lemma {:induction false} LineEndOfLine(t: string, rest: string)
    requires NoLineTerminator(t)
    ensures LineEnd(t + "\n" + rest) == Some(|t|)
    decreases |t|
  {
    var s := t + "\n" + rest;
    if t == [] {
      assert s[0] == '\n';
    } else {
      assert s[0] == t[0] && s[1..] == t[1..] + "\n" + rest;
      LineEndOfLine(t[1..], rest);
    }
  }

  /**
   * `s.replace(/MARKER(.*?)(\n|$)/g, OPEN + "$1" + CLOSE)`. A match puts the
   * run between `open` and `close` and drops the newline it consumed; text
   * without the marker is left as it is.
   */
  function LineRule(s: string, marker: string, open: string, close: string): (r: string)
    requires marker != []
    ensures !Occurs(s, marker) ==> r == s
    decreases |s|
  {
    if s == [] then []
    else if StartsWith(s, marker) && LineEnd(s[|marker|..]).Some? then
      var rest := s[|marker|..];
      var e := LineEnd(rest).value;
      var next := if e < |rest| then e + 1 else e;
      assert OccursAt(s, marker, 0);
      open + rest[..e] + close + LineRule(rest[next..], marker, open, close)
    else
      OccursInTail(s, marker);
      [s[0]] + LineRule(s[1..], marker, open, close)
  }

  /** A marker followed by a run that reaches the end of the text: the whole run is wrapped. */
  lemma LineRuleToEnd(marker: string, t: string, open: string, close: string)
    requires marker != [] && NoLineTerminator(t)
    ensures LineRule(marker + t, marker, open, close) == open + t + close
  {
    var s := marker + t;
    assert s[..|marker|] == marker && s[|marker|..] == t;
    assert t[|t|..] == [];
  }

  /** A marker followed by a run and a newline: the run is wrapped, the newline dropped, and the scan resumes after it. */
  lemma LineRuleOneLine(marker: string, t: string, rest: string, open: string, close: string)
    requires marker != [] && NoLineTerminator(t)
    ensures LineRule(marker + t + "\n" + rest, marker, open, close) == open + t + close + LineRule(rest, marker, open, close)
  {
    var s := marker + t + "\n" + rest;
    assert s[..|marker|] == marker && s[|marker|..] == t + "\n" + rest;
    LineEndOfLine(t, rest);
    assert (t + "\n" + rest)[..|t|] == t;
    assert (t + "\n" + rest)[|t| + 1..] == rest;
  }

  const H3Marker := "## "
  const H2Marker := "# "
  const ListMarker := "- "

  /** The list bullet as the component's source file encodes it: U+00E2 U+20AC U+00A2, then a space. */
  const Bullet := "\U{00E2}\U{20AC}\U{00A2} "

  function Heading3(s: string): (r: string)
    ensures !Occurs(s, H3Marker) ==> r == s
  {
    LineRule(s, H3Marker, "<h3>", "</h3>")
  }

  function Heading2(s: string): (r: string)
    ensures !Occurs(s, H2Marker) ==> r == s
  {
    LineRule(s, H2Marker, "<h2>", "</h2>")
  }

  function ListItems(s: string): (r: string)
    ensures !Occurs(s, ListMarker) ==> r == s
  {
    LineRule(s, ListMarker, Bullet, LineBreak)
  }

  // ---------------------------------------------------------------------------
  // `replace(/\*\*(.*?)\*\*/g, "<strong>$1</strong>")`.

  const BoldMarker := "**"

  /** Where the lazy run after an opening `**` meets the nearest `**`, with no line terminator before it. */
  function BoldClose(t: string): (r: Option<nat>)
    ensures r.Some? ==> OccursAt(t, BoldMarker, r.value) && NoLineTerminator(t[..r.value])
    ensures r.Some? ==> forall k :: 0 <= k < r.value ==> !OccursAt(t, BoldMarker, k)
    ensures '*' !in t ==> r.None?
  {
    if |t| < 2 then None
    else if t[..2] == BoldMarker then
      assert t[0] == t[..2][0] && t[0..2] == t[..2];
      Some(0)
    else if IsLineTerminator(t[0]) then None
    else
      match BoldClose(t[1..])
      case None => None
      case Some(e) =>
        BoldCloseStep(t, e);
        Some(e + 1)
  }

  /** A closing `**` found in the tail is found one position further on in the whole. */
  lemma BoldCloseStep(t: string, e: nat)
    requires |t| >= 2 && t[..2] != BoldMarker && !IsLineTerminator(t[0])
    requires OccursAt(t[1..], BoldMarker, e) && NoLineTerminator(t[1..][..e])
    requires forall k :: 0 <= k < e ==> !OccursAt(t[1..], BoldMarker, k)
    ensures OccursAt(t, BoldMarker, e + 1) && NoLineTerminator(t[..e + 1])
    ensures forall k :: 0 <= k < e + 1 ==> !OccursAt(t, BoldMarker, k)
  {
    assert t[1..] == t[1..|t|];
    OccursInSlice(t, 1, |t|, BoldMarker, e);
    assert t[..e + 1] == [t[0]] + t[1..][..e];
    forall k | 1 <= k < e + 1 ensures !OccursAt(t, BoldMarker, k) {
      OccursInSlice(t, 1, |t|, BoldMarker, k - 1);
    }
  }

  /** A run on one line without `**` and not ending in `*` ends at the `**` after it. */
  lemma {:induction false} BoldCloseAfter(t: string, rest: string)
    requires NoLineTerminator(t) && BoldRun(t)
    ensures BoldClose(t + BoldMarker + rest) == Some(|t|)
    decreases |t|
  {
    var u := t + BoldMarker + rest;
    if t == [] {
      assert u[..2] == BoldMarker;
    } else {
      assert u[0] == t[0] && u[1..] == t[1..] + BoldMarker + rest;
      assert u[..2] != BoldMarker by {
        if |t| >= 2 {
          assert u[..2] == t[..2];
          assert !OccursAt(t, BoldMarker, 0);
        } else {
          assert u[..2][0] == t[|t| - 1];
        }
      }
      BoldRunTail(t);
      BoldCloseAfter(t[1..], rest);
    }
  }

  /** What the bold rule can wrap whole: no `**` inside, and no `*` at the end to pair with the closing marker. */
  predicate BoldRun(t: string) {
    !Occurs(t, BoldMarker) && (t == [] || t[|t| - 1] != '*')
  }

  lemma BoldRunTail(t: string)
    requires t != [] && BoldRun(t)
    ensures BoldRun(t[1..])
  {
    OccursInTail(t, BoldMarker);
  }

  /**
   * Each `**run**` on one line becomes `<strong>run</strong>`, pairs taken
   * leftmost and shortest first; text without `**` is left as it is.
   */
  function Bold(s: string): (r: string)
    ensures !Occurs(s, BoldMarker) ==> r == s
    decreases |s|
  {
    if s == [] then []
    else if StartsWith(s, BoldMarker) && BoldClose(s[2..]).Some? then
      var rest := s[2..];
      var e := BoldClose(rest).value;
      assert OccursAt(s, BoldMarker, 0);
      "<strong>" + rest[..e] + "</strong>" + Bold(rest[e + 2..])
    else
      OccursInTail(s, BoldMarker);
      [s[0]] + Bold(s[1..])
  }

  /** A pair of `**` around a run on one line with no `**` in it and no `*` at its end becomes one `<strong>` element. */
  lemma BoldPair(t: string, rest: string)
    requires NoLineTerminator(t) && BoldRun(t)
    ensures Bold(BoldMarker + t + BoldMarker + rest) == "<strong>" + t + "</strong>" + Bold(rest)
  {
    PairLayout(t, rest);
    BoldCloseAfter(t, rest);
    BoldStep(BoldMarker + t + BoldMarker + rest, |t|);
  }

  lemma PairLayout(t: string, rest: string)
    ensures var s := BoldMarker + t + BoldMarker + rest;
      && StartsWith(s, BoldMarker) && s[2..] == t + BoldMarker + rest
      && s[2..][..|t|] == t && s[2..][|t| + 2..] == rest
  {
    var s := BoldMarker + t + BoldMarker + rest;
    assert s[..2] == BoldMarker;
    assert s[2..] == t + BoldMarker + rest;
  }

  /** One step of the bold scan at an opening `**` whose closing `**` is `e` characters further on. */
  lemma BoldStep(s: string, e: nat)
    requires StartsWith(s, BoldMarker) && BoldClose(s[2..]) == Some(e)
    ensures Bold(s) == "<strong>" + s[2..][..e] + "</strong>" + Bold(s[2..][e + 2..])
  {
  }

  /** A line rule whose inserted pieces hold no newline introduces none. */
  lemma {:induction false} LineRuleNoNewline(s: string, marker: string, open: string, close: string)
    requires marker != [] && '\n' !in s && '\n' !in open && '\n' !in close
    ensures '\n' !in LineRule(s, marker, open, close)
    decreases |s|
  {
    if s != [] {
      if StartsWith(s, marker) && LineEnd(s[|marker|..]).Some? {
        var rest := s[|marker|..];
        var e := LineEnd(rest).value;
        var next := if e < |rest| then e + 1 else e;
        assert '\n' !in rest[..e];
        assert rest[next..] == s[|marker| + next..];
        LineRuleNoNewline(rest[next..], marker, open, close);
      } else {
        LineRuleNoNewline(s[1..], marker, open, close);
      }
    }
  }

  lemma {:induction false} BoldNoNewline(s: string)
    requires '\n' !in s
    ensures '\n' !in Bold(s)
    decreases |s|
  {
    if s != [] {
      if StartsWith(s, BoldMarker) && BoldClose(s[2..]).Some? {
        var rest := s[2..];
        var e := BoldClose(rest).value;
        assert '\n' !in rest[..e];
        assert rest[e + 2..] == s[e + 4..];
        BoldNoNewline(rest[e + 2..]);
      } else {
        BoldNoNewline(s[1..]);
      }
    }
  }

  // ---------------------------------------------------------------------------
  // The pipeline.

  /** The characters the rules look for. */
  predicate NoMarks(s: string) {
    '#' !in s && '*' !in s && '-' !in s
  }

  /** Text with no line terminator and none of the characters the rules look for. */
  predicate Plain(s: string) {
    NoLineTerminator(s) && NoMarks(s)
  }

  /** Text without the rules' characters holds none of their markers, so every rule leaves it alone. */
  lemma NoMarksUntouched(s: string)
    ensures NoMarks(s) ==> Heading3(s) == s && Heading2(s) == s && Bold(s) == s && ListItems(s) == s
  {
    if NoMarks(s) {
      AbsentFirstChar(s, H3Marker);
      AbsentFirstChar(s, H2Marker);
      AbsentFirstChar(s, ListMarker);
    }
  }

  /** None of the patterns the rules match: no newline, `# ` (so no `## `), `**` or `- `. */
  predicate MarkerFree(s: string) {
    '\n' !in s && !Occurs(s, H2Marker) && !Occurs(s, BoldMarker) && !Occurs(s, ListMarker)
  }

  /** One line holding none of the rules' patterns: no line terminator, no `# ` (so no `## `), `**` or `- `. */
  predicate PlainLine(s: string) {
    NoLineTerminator(s) && MarkerFree(s)
  }

  /** Text without the rules' characters holds none of their patterns. */
  lemma PlainIsPlainLine(s: string)
    requires Plain(s)
    ensures PlainLine(s)
  {
    PlainNoNewline(s);
    AbsentFirstChar(s, H2Marker);
    AbsentFirstChar(s, BoldMarker);
    AbsentFirstChar(s, ListMarker);
  }

  /** Every occurrence of `## ` holds one of `# `. */
  lemma H3HoldsH2(s: string)
    ensures Occurs(s, H3Marker) ==> Occurs(s, H2Marker)
  {
    if Occurs(s, H3Marker) {
      var i :| 0 <= i <= |s| - |H3Marker| && OccursAt(s, H3Marker, i);
      assert s[i + 1..i + 3] == s[i..i + 3][1..];
      assert OccursAt(s, H2Marker, i + 1);
    }
  }

  /**
   * `formatMessage(text)` in the order the code applies the rules: newlines
   * first. The result holds no newline, and text with none of the patterns
   * comes out exactly as it went in.
   */
  function FormatMessage(text: string): (r: string)
    ensures '\n' !in r
    ensures MarkerFree(text) ==> r == text
  {
    H3HoldsH2(text);
    var once := ReplaceNewlines(text);
    LineRuleNoNewline(once, H3Marker, "<h3>", "</h3>");
    LineRuleNoNewline(Heading3(once), H2Marker, "<h2>", "</h2>");
    BoldNoNewline(Heading2(Heading3(once)));
    LineRuleNoNewline(Bold(Heading2(Heading3(once))), ListMarker, Bullet, LineBreak);
    ListItems(Bold(Heading2(Heading3(once))))
  }

  /** Text without `#` or `*` passes the heading and bold rules unchanged. */
  lemma NoHeadingNoBold(s: string)
    requires '#' !in s && '*' !in s
    ensures Bold(Heading2(Heading3(s))) == s
  {
    AbsentFirstChar(s, H3Marker);
    AbsentFirstChar(s, H2Marker);
    AbsentFirstChar(s, BoldMarker);
  }

  lemma NewlinesOfTwoLines(first: string, second: string)
    requires '\n' !in first && '\n' !in second
    ensures ReplaceNewlines(first + "\n" + second) == first + LineBreak + second
  {
    assert first + "\n" + second == first + ("\n" + second);
    ReplaceNewlinesConcat(first, "\n" + second);
    ReplaceNewlinesConcat("\n", second);
  }

  lemma PlainLinesJoined(a: string, b: string)
    requires NoLineTerminator(a) && NoLineTerminator(b)
    ensures NoLineTerminator(a + LineBreak + b)
  {
    NoLineTerminatorConcat(a, LineBreak);
    NoLineTerminatorConcat(a + LineBreak, b);
  }

  lemma PlainNoNewline(s: string)
    requires NoLineTerminator(s)
    ensures '\n' !in s
  {
    forall k | 0 <= k < |s| ensures s[k] != '\n' {
      assert !IsLineTerminator(s[k]);
    }
  }

  /** Chains the stages of the pipeline. */
  lemma FormatMessageStages(text: string, once: string, out: string)
    requires ReplaceNewlines(text) == once
    requires ListItems(Bold(Heading2(Heading3(once)))) == out
    ensures FormatMessage(text) == out
  {
  }

  /** `<h3>` around text without the rules' characters: the later rules leave it alone. */
  lemma HeadingUntouchedLater(run: string)
    requires NoMarks(run)
    ensures ListItems(Bold(Heading2("<h3>" + run + "</h3>"))) == "<h3>" + run + "</h3>"
  {
    var out := "<h3>" + run + "</h3>";
    assert NoMarks(out);
    NoMarksUntouched(out);
  }

  /**
   * A two-character pattern absent from `t` stays absent between pieces that
   * do not hold its first character, when the piece after `t` does not start
   * with its second.
   */
  lemma PatternFreeBetween(a: string, t: string, b: string, m: string)
    requires |m| == 2 && m[0] !in a && m[0] !in b && (b == [] || b[0] != m[1])
    requires !Occurs(t, m)
    ensures !Occurs(a + t + b, m)
  {
    var s := a + t + b;
    forall i | 0 <= i <= |s| - 2 ensures !OccursAt(s, m, i) {
      if i < |a| {
        assert s[i..i + 2][0] == a[i];
      } else if i + 2 <= |a| + |t| {
        assert s[i..i + 2] == t[i - |a|..i - |a| + 2];
        assert !OccursAt(t, m, i - |a|);
      } else if i < |a| + |t| {
        assert s[i..i + 2][1] == b[0];
      } else {
        assert s[i..i + 2][0] == b[i - |a| - |t|];
      }
    }
  }

  /** Text with none of the patterns passes every rule after the newline rewrite unchanged. */
  lemma RulesSkip(s: string)
    requires !Occurs(s, H2Marker) && !Occurs(s, BoldMarker) && !Occurs(s, ListMarker)
    ensures Heading3(s) == s && Heading2(s) == s && Bold(s) == s && ListItems(s) == s
  {
    H3HoldsH2(s);
  }

  /** A wrapped line holds none of the patterns its run does not hold. */
  lemma WrappedSkips(open: string, t: string, close: string)
    requires PlainLine(t) && NoMarks(open) && NoMarks(close) && close != [] && close[0] == '<'
    ensures var w := open + t + close; Heading2(w) == w && Bold(w) == w && ListItems(w) == w
  {
    PatternFreeBetween(open, t, close, H2Marker);
    PatternFreeBetween(open, t, close, BoldMarker);
    PatternFreeBetween(open, t, close, ListMarker);
    RulesSkip(open + t + close);
  }

  /** A `## ` heading line on its own becomes an `<h3>` element. */
  lemma FormatsHeading3(t: string)
    requires PlainLine(t)
    ensures FormatMessage(H3Marker + t) == "<h3>" + t + "</h3>"
  {
    PlainNoNewline(t);
    assert '\n' !in H3Marker + t;
    LineRuleToEnd(H3Marker, t, "<h3>", "</h3>");
    WrappedSkips("<h3>", t, "</h3>");
    FormatMessageStages(H3Marker + t, H3Marker + t, "<h3>" + t + "</h3>");
  }

  /** `# ` followed by text without `# ` holds no `## `. */
  lemma NoH3InH2Line(t: string)
    requires !Occurs(t, H2Marker)
    ensures !Occurs(H2Marker + t, H3Marker)
  {
    var s := H2Marker + t;
    forall i | 0 <= i <= |s| - |H3Marker| ensures !OccursAt(s, H3Marker, i) {
      if i == 0 {
        assert s[0..3][1] == ' ';
      } else {
        assert s[i..i + 3][1..] == t[i - 1..i + 1];
        assert !OccursAt(t, H2Marker, i - 1);
      }
    }
  }

  /** A `# ` heading line on its own becomes an `<h2>` element. */
  lemma FormatsHeading2(t: string)
    requires PlainLine(t)
    ensures FormatMessage(H2Marker + t) == "<h2>" + t + "</h2>"
  {
    PlainNoNewline(t);
    assert '\n' !in H2Marker + t;
    Heading2Line(t);
    FormatMessageStages(H2Marker + t, H2Marker + t, "<h2>" + t + "</h2>");
  }

  lemma Heading2Line(t: string)
    requires PlainLine(t)
    ensures ListItems(Bold(Heading2(Heading3(H2Marker + t)))) == "<h2>" + t + "</h2>"
  {
    var line, out := H2Marker + t, "<h2>" + t + "</h2>";
    NoH3InH2Line(t);
    assert Heading3(line) == line;
    LineRuleToEnd(H2Marker, t, "<h2>", "</h2>");
    assert Heading2(line) == out;
    WrappedSkips("<h2>", t, "</h2>");
  }

  /** A `- ` line holds no heading or bold pattern that its item does not hold. */
  lemma ListLineSkipsHeadingsAndBold(t: string)
    requires PlainLine(t)
    ensures Bold(Heading2(Heading3(ListMarker + t))) == ListMarker + t
  {
    assert ListMarker + t + "" == ListMarker + t;
    PatternFreeBetween(ListMarker, t, "", H2Marker);
    PatternFreeBetween(ListMarker, t, "", BoldMarker);
    H3HoldsH2(ListMarker + t);
  }

  /** A `- ` item on its own becomes the bullet, the item text and a line break. */
  lemma FormatsListItem(t: string)
    requires PlainLine(t)
    ensures FormatMessage(ListMarker + t) == Bullet + t + LineBreak
  {
    PlainNoNewline(t);
    assert '\n' !in ListMarker + t;
    ListLineSkipsHeadingsAndBold(t);
    LineRuleToEnd(ListMarker, t, Bullet, LineBreak);
    FormatMessageStages(ListMarker + t, ListMarker + t, Bullet + t + LineBreak);
  }

  lemma BoldAlone(t: string)
    requires NoLineTerminator(t) && BoldRun(t)
    ensures Bold(BoldMarker + t + BoldMarker) == "<strong>" + t + "</strong>"
  {
    BoldPair(t, "");
    assert BoldMarker + t + BoldMarker + "" == BoldMarker + t + BoldMarker;
    assert "<strong>" + t + "</strong>" + Bold("") == "<strong>" + t + "</strong>";
  }

  /** A `**` pair around a run holds no heading pattern the run does not hold. */
  lemma BoldLineSkipsHeadings(t: string)
    requires PlainLine(t)
    ensures Heading2(Heading3(BoldMarker + t + BoldMarker)) == BoldMarker + t + BoldMarker
  {
    PatternFreeBetween(BoldMarker, t, BoldMarker, H2Marker);
    H3HoldsH2(BoldMarker + t + BoldMarker);
  }

  /** The `<strong>` element holds no list pattern the run does not hold. */
  lemma StrongSkipsList(t: string)
    requires PlainLine(t)
    ensures ListItems("<strong>" + t + "</strong>") == "<strong>" + t + "</strong>"
  {
    PatternFreeBetween("<strong>", t, "</strong>", ListMarker);
  }

  /** `**t**` on its own becomes a `<strong>` element; `t` must not end in `*`, which would pair with the closing marker. */
  lemma FormatsBold(t: string)
    requires PlainLine(t) && (t == [] || t[|t| - 1] != '*')
    ensures FormatMessage(BoldMarker + t + BoldMarker) == "<strong>" + t + "</strong>"
  {
    PlainNoNewline(t);
    assert '\n' !in BoldMarker + t + BoldMarker;
    BoldLineSkipsHeadings(t);
    BoldAlone(t);
    StrongSkipsList(t);
    FormatMessageStages(BoldMarker + t + BoldMarker, BoldMarker + t + BoldMarker, "<strong>" + t + "</strong>");
  }

  lemma HeadingLineJoined(title: string, body: string)
    requires Plain(title) && Plain(body)
    ensures ReplaceNewlines(H3Marker + title + "\n" + body) == H3Marker + (title + LineBreak + body)
  {
    NewlinesOfTwoLines(H3Marker + title, body);
    assert H3Marker + title + LineBreak + body == H3Marker + (title + LineBreak + body);
  }

  lemma HeadingToEnd(run: string)
    requires NoLineTerminator(run) && NoMarks(run)
    ensures ListItems(Bold(Heading2(Heading3(H3Marker + run)))) == "<h3>" + run + "</h3>"
  {
    LineRuleToEnd(H3Marker, run, "<h3>", "</h3>");
    HeadingUntouchedLater(run);
  }

  /**
   * As written, a heading swallows the rest of the message: the newline has
   * already become `<br>`, so the heading's run no longer stops at it and
   * reaches the end of the text.
   */
  lemma HeadingSwallowsFollowingLines(title: string, body: string)
    requires Plain(title) && Plain(body)
    ensures FormatMessage(H3Marker + title + "\n" + body) == "<h3>" + (title + LineBreak + body) + "</h3>"
  {
    var run := title + LineBreak + body;
    HeadingLineJoined(title, body);
    PlainLinesJoined(title, body);
    HeadingToEnd(run);
    FormatMessageStages(H3Marker + title + "\n" + body, H3Marker + run, "<h3>" + run + "</h3>");
  }

  lemma ListLinesJoined(a: string, b: string)
    requires Plain(a) && Plain(b)
    ensures ReplaceNewlines(ListMarker + a + "\n" + ListMarker + b) == ListMarker + (a + LineBreak + (ListMarker + b))
  {
    NewlinesOfTwoLines(ListMarker + a, ListMarker + b);
    assert ListMarker + a + "\n" + ListMarker + b == ListMarker + a + "\n" + (ListMarker + b);
    assert ListMarker + a + LineBreak + (ListMarker + b) == ListMarker + (a + LineBreak + (ListMarker + b));
  }

  lemma ListToEnd(run: string)
    requires NoLineTerminator(run) && '#' !in run && '*' !in run
    ensures ListItems(Bold(Heading2(Heading3(ListMarker + run)))) == Bullet + run + LineBreak
  {
    NoHeadingNoBold(ListMarker + run);
    LineRuleToEnd(ListMarker, run, Bullet, LineBreak);
  }

  /**
   * As written, only the first item of a list becomes a bullet: the rest of
   * the message, later items included, is that item's text.
   */
  lemma ListKeepsOnlyFirstBullet(a: string, b: string)
    requires Plain(a) && Plain(b)
    ensures FormatMessage(ListMarker + a + "\n" + ListMarker + b) == Bullet + (a + LineBreak + (ListMarker + b)) + LineBreak
  {
    var run := a + LineBreak + (ListMarker + b);
    ListLinesJoined(a, b);
    NoLineTerminatorConcat(ListMarker, b);
    PlainLinesJoined(a, ListMarker + b);
    ListToEnd(run);
    FormatMessageStages(ListMarker + a + "\n" + ListMarker + b, ListMarker + run, Bullet + run + LineBreak);
  }

  /** The evidently intended order: every rule first, newlines last, so each rule stops at its line's end. */
  function FormatMessageIntended(text: string): (r: string)
    ensures '\n' !in r
    ensures MarkerFree(text) ==> r == text
  {
    H3HoldsH2(text);
    ReplaceNewlines(ListItems(Bold(Heading2(Heading3(text)))))
  }

  lemma FormatMessageIntendedStages(text: string, out: string)
    requires ListItems(Bold(Heading2(Heading3(text)))) == out && '\n' !in out
    ensures FormatMessageIntended(text) == out
  {
  }

  lemma HeadingLine(title: string, body: string)
    requires Plain(title) && Plain(body)
    ensures ListItems(Bold(Heading2(Heading3(H3Marker + title + "\n" + body)))) == "<h3>" + title + "</h3>" + body
  {
    HeadingLineAlone(title, body);
    HeadingLineMarkless(title, body);
    LaterRulesSkip("<h3>" + title + "</h3>" + body);
  }

  lemma HeadingLineAlone(title: string, body: string)
    requires Plain(title) && Plain(body)
    ensures Heading3(H3Marker + title + "\n" + body) == "<h3>" + title + "</h3>" + body
  {
    AbsentFirstChar(body, H3Marker);
    LineRuleOneLine(H3Marker, title, body, "<h3>", "</h3>");
  }

  lemma HeadingLineMarkless(title: string, body: string)
    requires Plain(title) && Plain(body)
    ensures NoMarks("<h3>" + title + "</h3>" + body)
  {
  }

  /** Text without the rules' characters passes the rules after the first unchanged. */
  lemma LaterRulesSkip(s: string)
    requires NoMarks(s)
    ensures ListItems(Bold(Heading2(s))) == s
  {
    NoMarksUntouched(s);
  }

  /** With newlines converted last, a heading ends at its own line and the next line follows it. */
  lemma HeadingEndsAtLine(title: string, body: string)
    requires Plain(title) && Plain(body)
    ensures FormatMessageIntended(H3Marker + title + "\n" + body) == "<h3>" + title + "</h3>" + body
  {
    var out := "<h3>" + title + "</h3>" + body;
    HeadingLine(title, body);
    PlainNoNewline(title);
    PlainNoNewline(body);
    assert '\n' !in out;
    FormatMessageIntendedStages(H3Marker + title + "\n" + body, out);
  }

  lemma TwoItemLines(a: string, b: string)
    requires Plain(a) && Plain(b)
    ensures ListItems(ListMarker + a + "\n" + ListMarker + b) == Bullet + a + LineBreak + Bullet + b + LineBreak
  {
    assert ListMarker + a + "\n" + ListMarker + b == ListMarker + a + "\n" + (ListMarker + b);
    LineRuleOneLine(ListMarker, a, ListMarker + b, Bullet, LineBreak);
    LineRuleToEnd(ListMarker, b, Bullet, LineBreak);
  }

  lemma TwoItems(a: string, b: string)
    requires Plain(a) && Plain(b)
    ensures ListItems(Bold(Heading2(Heading3(ListMarker + a + "\n" + ListMarker + b)))) == Bullet + a + LineBreak + Bullet + b + LineBreak
  {
    var text := ListMarker + a + "\n" + ListMarker + b;
    assert '#' !in text && '*' !in text;
    NoHeadingNoBold(text);
    TwoItemLines(a, b);
  }

  lemma ItemsNoNewline(a: string, b: string)
    requires Plain(a) && Plain(b)
    ensures '\n' !in Bullet + a + LineBreak + Bullet + b + LineBreak
  {
    PlainNoNewline(a);
    PlainNoNewline(b);
  }

  /** With newlines converted last, every item of a list becomes a bullet line. */
  lemma EveryItemBulleted(a: string, b: string)
    requires Plain(a) && Plain(b)
    ensures FormatMessageIntended(ListMarker + a + "\n" + ListMarker + b) == Bullet + a + LineBreak + Bullet + b + LineBreak
  {
    TwoItems(a, b);
    ItemsNoNewline(a, b);
    FormatMessageIntendedStages(ListMarker + a + "\n" + ListMarker + b, Bullet + a + LineBreak + Bullet + b + LineBreak);
  }
}
