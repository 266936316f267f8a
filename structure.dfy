/** `_improve_answer_structure` (rag/generator.py): the post-processing the
    generator applies to a model response.  It scans the lines once with an
    "inside a list" flag, rewrites list items, and inserts an empty line
    where a list run begins or ends. */
module Structure {
  import opened Text
  import opened Lines

  /** The prefix written before `-` and `*` items: the three characters
      U+00E2 U+20AC U+00A2 (the UTF-8 bytes of a bullet read as Windows-1252)
      and a space. */
  const Bullet: String := "\U{E2}\U{20AC}\U{A2} "

  /** A stripped, non-empty line is a list item when it is numbered or starts
      with `-` or `*`. */
  predicate IsListLine(s: String) {
    IsNumberedItem(s) || (|s| > 0 && (s[0] == '-' || s[0] == '*'))
  }

  /** How the scan classifies one input line, and what it writes for it: a
      blank line becomes empty, a `-`/`*` item is stripped and gets the
      bullet, a numbered item is only stripped, and any other line is kept
      verbatim, indentation included. */
  function Classify(line: String): LineKind {
    var s := Strip(line);
    if s == [] then Empty([])
    else if IsListLine(s) then Item(if IsDigit(s[0]) then s else Bullet + s)
    else Plain(line)
  }

  function KindsOf(lines: seq<String>): seq<LineKind> {
    seq(|lines|, i requires 0 <= i < |lines| => Classify(lines[i]))
  }

  /** The empty line inserted before a line: before an item that opens a
      run, and before a plain line that closes one. */
  function Gap(afterItem: bool, kind: LineKind): seq<Emit> {
    match kind
    case Empty(_) => []
    case Item(_) => if afterItem then [] else [Blank]
    case Plain(_) => if afterItem then [Blank] else []
  }

  /** The output lines for the first `n` classified lines.  The scan is
      inside a list exactly when the line before is an item. */
  function Layout(kinds: seq<LineKind>, n: nat): seq<Emit>
    requires n <= |kinds|
  {
    if n == 0 then []
    else Layout(kinds, n - 1) + Gap(n > 1 && kinds[n - 2].Item?, kinds[n - 1]) + [Kept(kinds[n - 1].text)]
  }

  /** The post-processed answer.  An answer that contains the not-found
      marker passes unchanged; otherwise its lines are laid out, joined and
      stripped. */
  function Improved(answer: String): String {
    if Contains(answer, NotFoundMarker) then answer
    else
      var lines := Split(answer, "\n");
      Strip(Join("\n", Render(Layout(KindsOf(lines), |lines|))))
  }

  /** The scan itself, with the `in_list` flag of the source. */
  method ImproveStructure(answer: String) returns (r: String)
    ensures r == Improved(answer)
  {
    if Contains(answer, NotFoundMarker) {
      return answer;
    }
    var lines := Split(answer, "\n");
    ghost var kinds := KindsOf(lines);
    var improved: seq<String> := [];
    var inList := false;
    ghost var layout: seq<Emit> := [];
    for i := 0 to |lines|
      invariant layout == Layout(kinds, i)
      invariant improved == Render(layout)
      invariant inList == (i > 0 && kinds[i - 1].Item?)
    {
      var line := lines[i];
      var stripped := Strip(line);
      ghost var next := layout + Gap(inList, Classify(line)) + [Kept(Classify(line).text)];
      ScanStep(layout, line, inList);
      if stripped == [] {
        if inList {
          inList := false;
        }
        improved := improved + [[]];
      } else if IsListLine(stripped) {
        if !inList {
          improved := improved + [[]];
        }
        var prefix := if !IsDigit(stripped[0]) then Bullet else [];
        improved := improved + [prefix + stripped];
        inList := true;
      } else {
        if inList {
          improved := improved + [[]];
          inList := false;
        }
        improved := improved + [line];
      }
      layout := next;
    }
    r := Strip(Join("\n", improved));
  }

  /** What one step of the scan appends to the rendered lines, for each of
      the three kinds of line. */
  lemma ScanStep(layout: seq<Emit>, line: String, inList: bool)
    ensures var s := Strip(line); var k := Classify(line);
      var next := Render(layout + Gap(inList, k) + [Kept(k.text)]);
      && (s == [] ==> k.Empty? && next == Render(layout) + [[]])
      && (s != [] && IsListLine(s) && inList ==>
            k.Item? && next == Render(layout) + [(if !IsDigit(s[0]) then Bullet else []) + s])
      && (s != [] && IsListLine(s) && !inList ==>
            k.Item? && next == Render(layout) + [[]] + [(if !IsDigit(s[0]) then Bullet else []) + s])
      && (s != [] && !IsListLine(s) && inList ==> k.Plain? && next == Render(layout) + [[]] + [line])
      && (s != [] && !IsListLine(s) && !inList ==> k.Plain? && next == Render(layout) + [line])
  {
    var s := Strip(line);
    var k := Classify(line);
    if s != [] && IsListLine(s) && IsDigit(s[0]) {
      assert [] + s == s;
    }
    RenderStep(layout, Gap(inList, k), k.text);
  }

  /** Only empty lines are inserted: deleting them leaves exactly one output
      line per input line, each what that line is rewritten to, in order. */
  lemma {:induction false} LayoutKeepsEveryLine(kinds: seq<LineKind>, n: nat)
    requires n <= |kinds|
    ensures KeptTexts(Layout(kinds, n)) == TextsOf(kinds, n)
  {
    if n > 0 {
      LayoutKeepsEveryLine(kinds, n - 1);
      KeptTextsStep(Layout(kinds, n - 1), Gap(n > 1 && kinds[n - 2].Item?, kinds[n - 1]), kinds[n - 1].text);
    }
  }

  /** An inserted line never ends the layout and never follows another
      inserted line. */
  lemma {:induction false} LayoutWellSpaced(kinds: seq<LineKind>, n: nat)
    requires n <= |kinds|
    ensures WellSpaced(Layout(kinds, n))
  {
    if n > 0 {
      LayoutWellSpaced(kinds, n - 1);
      WellSpacedStep(Layout(kinds, n - 1), Gap(n > 1 && kinds[n - 2].Item?, kinds[n - 1]), kinds[n - 1].text);
    }
  }

  /** A line without a line feed is rewritten to a line without one. */
  lemma ClassifyNoLineFeed(line: String)
    requires !Contains(line, "\n")
    ensures !Contains(Classify(line).text, "\n")
  {
    var s := Strip(line);
    ContainsChar(line, '\n');
    StripKeepsChars(line);
    ContainsChar(Classify(line).text, '\n');
    if s != [] && IsListLine(s) && !IsDigit(s[0]) {
      assert '\n' !in Bullet;
    }
  }

  /** Every output line is a rewritten line or empty, so when no rewritten
      line holds a line feed, no output line does. */
  lemma {:induction false} LayoutHasNoLineFeed(kinds: seq<LineKind>, n: nat)
    requires n <= |kinds|
    requires forall j :: 0 <= j < |kinds| ==> !Contains(kinds[j].text, "\n")
    ensures NoLineFeeds(Render(Layout(kinds, n)))
    ensures n > 0 ==> |Render(Layout(kinds, n))| > 0
  {
    if n > 0 {
      var m := n - 1;
      assert m + 1 == n;
      LayoutHasNoLineFeed(kinds, m);
      LayoutStep(kinds, m);
      RenderStep(Layout(kinds, m), GapBefore(kinds, m), kinds[m].text);
      NoLineFeedStep(Render(Layout(kinds, m)), GapBefore(kinds, m) == [Blank], kinds[m].text, Render(Layout(kinds, n)));
    }
  }

  /** The empty line, if any, written before line `m`. */
  function GapBefore(kinds: seq<LineKind>, m: nat): seq<Emit>
    requires m < |kinds|
  {
    Gap(m > 0 && kinds[m - 1].Item?, kinds[m])
  }

  /** One more line adds at most one empty line, then the rewritten line. */
  lemma LayoutStep(kinds: seq<LineKind>, m: nat)
    requires m < |kinds|
    ensures GapBefore(kinds, m) == [] || GapBefore(kinds, m) == [Blank]
    ensures Layout(kinds, m + 1) == Layout(kinds, m) + GapBefore(kinds, m) + [Kept(kinds[m].text)]
  {
    var n := m + 1;
    assert n - 1 == m;
  }

  /** The answer's lines as the scan rewrites them, with the inserted empty
      lines, are exactly the lines of the text that is stripped to give the
      result: deleting the inserted ones leaves one rewritten line per input
      line, in order, and insertions only ever separate two lines. */
  lemma ImprovedLines(answer: String)
    requires !Contains(answer, NotFoundMarker)
    ensures var lines := Split(answer, "\n");
      var layout := Layout(KindsOf(lines), |lines|);
      var body := Join("\n", Render(layout));
      && Improved(answer) == Strip(body)
      && Split(body, "\n") == Render(layout)
      && KeptTexts(layout) == TextsOf(KindsOf(lines), |lines|)
      && WellSpaced(layout)
  {
    var lines := Split(answer, "\n");
    var kinds := KindsOf(lines);
    forall j | 0 <= j < |kinds|
      ensures !Contains(kinds[j].text, "\n")
    {
      ClassifyNoLineFeed(lines[j]);
    }
    LayoutHasNoLineFeed(kinds, |lines|);
    SplitJoinLines(Render(Layout(kinds, |lines|)));
    LayoutKeepsEveryLine(kinds, |lines|);
    LayoutWellSpaced(kinds, |lines|);
  }

  /** `-` and `*` items get the bullet in front of their stripped text;
      numbered items keep their stripped text with no prefix; a two-digit
      number such as `10.` is not an item and the line is kept as it was. */
  lemma ItemPrefixes(line: String)
    ensures var s := Strip(line);
      && (|s| > 0 && (s[0] == '-' || s[0] == '*') ==> Classify(line) == Item(Bullet + s))
      && (IsNumberedItem(s) ==> Classify(line) == Item(s))
      && (|s| > 2 && IsDigit(s[0]) && IsDigit(s[1]) ==> Classify(line) == Plain(line))
  {
  }

  /** Outside the pass-through case the answer has no leading or trailing
      whitespace; inside it the answer is returned as it came. */
  lemma ImprovedShape(answer: String)
    ensures Contains(answer, NotFoundMarker) ==> Improved(answer) == answer
    ensures !Contains(answer, NotFoundMarker) ==> IsTrimmed(Improved(answer))
  {
  }
}
