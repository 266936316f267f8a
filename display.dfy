/** `format_answer` (app.py): the display-side formatting of an answer.  A
    not-found answer gets a cross mark in front; any other answer is stripped
    and an empty line is put around each run of list items, the lines
    themselves being kept exactly as they are. */
module Display {
  import opened Text
  import opened Lines
  import Structure

  /** The cross mark U+274C and a space, put before a not-found answer. */
  const CrossMark: String := "\U{274C} "

  /** The display bullet U+2022. */
  const DisplayBullet: char := '\U{2022}'

  /** A stripped line is shown as a list item when it is non-empty and is
      numbered, or starts with the bullet, `-` or `*`. */
  predicate IsDisplayItem(s: String) {
    |s| > 0 && (IsNumberedItem(s) || s[0] == DisplayBullet || s[0] == '-' || s[0] == '*')
  }

  /** How the formatter sees one line; the line itself is always what it
      writes. */
  function Classify(line: String): (k: LineKind)
    ensures k.text == line
  {
    var s := Strip(line);
    if IsDisplayItem(s) then Item(line)
    else if s == [] then Empty(line)
    else Plain(line)
  }

  function KindsOf(lines: seq<String>): seq<LineKind> {
    seq(|lines|, i requires 0 <= i < |lines| => Classify(lines[i]))
  }

  /** The empty line written before line `j`: before an item whose previous
      line is a non-blank line outside a list, and before a non-item whose
      previous line is an item.  Nothing is written before the first line. */
  function GapAt(kinds: seq<LineKind>, j: nat): seq<Emit>
    requires j < |kinds|
  {
    if j == 0 then []
    else if kinds[j].Item? then (if kinds[j - 1].Plain? then [Blank] else [])
    else (if kinds[j - 1].Item? then [Blank] else [])
  }

  /** The output lines for the first `n` lines. */
  function Layout(kinds: seq<LineKind>, n: nat): seq<Emit>
    requires n <= |kinds|
  {
    if n == 0 then []
    else Layout(kinds, n - 1) + GapAt(kinds, n - 1) + [Kept(kinds[n - 1].text)]
  }

  /** What `format_answer` returns. */
  function Formatted(answer: String): String {
    if Contains(answer, NotFoundMarker) then CrossMark + answer
    else
      var lines := Split(Strip(answer), "\n");
      Join("\n", Render(Layout(KindsOf(lines), |lines|)))
  }

  /** The scan with the `prev_was_list` flag, looking back at the last line
      written. */
  method FormatAnswer(answer: String) returns (r: String)
    ensures r == Formatted(answer)
  {
    if Contains(answer, NotFoundMarker) {
      return CrossMark + answer;
    }
    var formatted := Strip(answer);
    var lines := Split(formatted, "\n");
    ghost var kinds := KindsOf(lines);
    var result: seq<String> := [];
    var prevWasList := false;
    for i := 0 to |lines|
      invariant result == Render(Layout(kinds, i))
      invariant prevWasList == (i > 0 && kinds[i - 1].Item?)
      invariant i == 0 ==> result == []
      invariant i > 0 ==> |result| > 0 && result[|result| - 1] == lines[i - 1]
    {
      var line := lines[i];
      var isListItem := IsDisplayItem(Strip(line));
      ScanGap(lines, i, result, prevWasList);
      LayoutStep(kinds, i);
      ghost var before := result;
      if isListItem && !prevWasList && |result| > 0 && Strip(result[|result| - 1]) != [] {
        result := result + [[]];
      } else if !isListItem && prevWasList {
        result := result + [[]];
      }
      assert result == before + (if NeedsGap(before, prevWasList, isListItem) then [[]] else []);
      result := result + [line];
      assert result[|result| - 1] == lines[i];
      prevWasList := isListItem;
    }
    r := Join("\n", result);
  }

  /** The scan's test for an empty line before the next line, from what it
      has written so far and whether the next line is an item. */
  predicate NeedsGap(result: seq<String>, prevWasList: bool, isItem: bool) {
    (isItem && !prevWasList && |result| > 0 && Strip(result[|result| - 1]) != []) || (!isItem && prevWasList)
  }

  /** One step of the layout: an empty line when the gap rule asks for one,
      then the line itself. */
  lemma LayoutStep(kinds: seq<LineKind>, i: nat)
    requires i < |kinds|
    ensures GapAt(kinds, i) == [] || GapAt(kinds, i) == [Blank]
    ensures Render(Layout(kinds, i + 1)) ==
      Render(Layout(kinds, i)) + (if GapAt(kinds, i) == [Blank] then [[]] else []) + [kinds[i].text]
  {
    var layout := Layout(kinds, i);
    var gap := GapAt(kinds, i);
    RenderStep(layout, gap, kinds[i].text);
    if gap == [Blank] {
      assert Render(layout) + [[]] + [kinds[i].text] == Render(layout) + [[], kinds[i].text];
    }
  }

  /** The scan's test, looking back at the last line written, asks for an
      empty line exactly where the layout has one. */
  lemma ScanGap(lines: seq<String>, i: nat, result: seq<String>, prevWasList: bool)
    requires i < |lines|
    requires prevWasList == (i > 0 && KindsOf(lines)[i - 1].Item?)
    requires i == 0 ==> result == []
    requires i > 0 ==> |result| > 0 && result[|result| - 1] == lines[i - 1]
    ensures NeedsGap(result, prevWasList, IsDisplayItem(Strip(lines[i]))) <==> GapAt(KindsOf(lines), i) == [Blank]
    ensures IsDisplayItem(Strip(lines[i])) <==> KindsOf(lines)[i].Item?
  {
    var kinds := KindsOf(lines);
    var isItem := IsDisplayItem(Strip(lines[i]));
    assert kinds[i] == Classify(lines[i]);
    ClassifyCases(lines[i]);
    if i > 0 {
      assert kinds[i - 1] == Classify(lines[i - 1]);
      ClassifyCases(lines[i - 1]);
      assert Strip(result[|result| - 1]) == Strip(lines[i - 1]);
      GapCases(kinds, i, isItem, prevWasList, Strip(lines[i - 1]) != []);
    }
  }

  /** The gap rule on the kinds of two neighbouring lines, in the scan's
      terms: whether the line is an item, whether the previous one was, and
      whether the previous one strips to something. */
  lemma GapCases(kinds: seq<LineKind>, i: nat, isItem: bool, prevWasList: bool, prevHasText: bool)
    requires 0 < i < |kinds|
    requires isItem == kinds[i].Item?
    requires prevWasList == kinds[i - 1].Item?
    requires prevHasText == !kinds[i - 1].Empty?
    ensures GapAt(kinds, i) == [Blank] <==> (isItem && !prevWasList && prevHasText) || (!isItem && prevWasList)
  {
  }

  /** The three kinds of line, in the scan's own terms. */
  lemma ClassifyCases(line: String)
    ensures Classify(line).Item? <==> IsDisplayItem(Strip(line))
    ensures Classify(line).Plain? <==> !IsDisplayItem(Strip(line)) && Strip(line) != []
  {
  }

  /** The gap before line `i` in the scan's own terms: the line is an item,
      the previous one is not and strips to something; or the line is not an
      item and the previous one is. */
  lemma GapRule(lines: seq<String>, i: nat)
    requires i < |lines|
    ensures GapAt(KindsOf(lines), i) == [] || GapAt(KindsOf(lines), i) == [Blank]
    ensures GapAt(KindsOf(lines), i) == [Blank] <==>
      i > 0 &&
      ((IsDisplayItem(Strip(lines[i])) && !IsDisplayItem(Strip(lines[i - 1])) && Strip(lines[i - 1]) != []) ||
       (!IsDisplayItem(Strip(lines[i])) && IsDisplayItem(Strip(lines[i - 1]))))
  {
    var kinds := KindsOf(lines);
    ClassifyCases(lines[i]);
    assert kinds[i] == Classify(lines[i]);
    if i > 0 {
      ClassifyCases(lines[i - 1]);
      assert kinds[i - 1] == Classify(lines[i - 1]);
    }
  }

  /** Only empty lines are inserted: deleting them gives back the lines, in
      order. */
  lemma {:induction false} LayoutKeepsEveryLine(kinds: seq<LineKind>, n: nat)
    requires n <= |kinds|
    ensures KeptTexts(Layout(kinds, n)) == TextsOf(kinds, n)
  {
    if n > 0 {
      LayoutKeepsEveryLine(kinds, n - 1);
      KeptTextsStep(Layout(kinds, n - 1), GapAt(kinds, n - 1), kinds[n - 1].text);
    }
  }

  /** An inserted line never ends the output and never follows another
      inserted line, and the first line written is the first input line. */
  lemma {:induction false} LayoutWellSpaced(kinds: seq<LineKind>, n: nat)
    requires n <= |kinds|
    ensures WellSpaced(Layout(kinds, n))
    ensures n > 0 ==> |Layout(kinds, n)| > 0 && Layout(kinds, n)[0] == Kept(kinds[0].text)
  {
    if n > 0 {
      LayoutWellSpaced(kinds, n - 1);
      WellSpacedStep(Layout(kinds, n - 1), GapAt(kinds, n - 1), kinds[n - 1].text);
    }
  }

  /** Every output line is an input line or empty, so none holds a line
      feed. */
  lemma {:induction false} LayoutHasNoLineFeed(kinds: seq<LineKind>, n: nat)
    requires n <= |kinds|
    requires forall j :: 0 <= j < |kinds| ==> !Contains(kinds[j].text, "\n")
    ensures NoLineFeeds(Render(Layout(kinds, n)))
  {
    if n > 0 {
      var m := n - 1;
      var prev := Render(Layout(kinds, m));
      var gap := GapAt(kinds, m) == [Blank];
      var text := kinds[m].text;
      LayoutHasNoLineFeed(kinds, m);
      LayoutStep(kinds, m);
      assert m + 1 == n;
      NoLineFeedStep(prev, gap, text, Render(Layout(kinds, n)));
    } else {
      assert Render(Layout(kinds, n)) == [];
    }
  }

  /** The formatted answer, read back line by line, is the stripped answer's
      lines with empty lines inserted only where the list rule puts them:
      deleting the inserted lines gives the lines back exactly. */
  lemma FormattedLines(answer: String)
    requires !Contains(answer, NotFoundMarker)
    ensures var lines := Split(Strip(answer), "\n");
      var layout := Layout(KindsOf(lines), |lines|);
      && Split(Formatted(answer), "\n") == Render(layout)
      && KeptTexts(layout) == lines
      && WellSpaced(layout)
      && layout[0] == Kept(lines[0])
  {
    var lines := Split(Strip(answer), "\n");
    LayoutOfLines(lines);
    RenderedLinesRoundTrip(lines);
  }

  /** The layout of non-empty input keeps every line, in order, spaces its
      inserted lines apart and starts with the first line. */
  lemma LayoutOfLines(lines: seq<String>)
    requires |lines| > 0
    ensures var layout := Layout(KindsOf(lines), |lines|);
      && KeptTexts(layout) == lines
      && WellSpaced(layout)
      && layout[0] == Kept(lines[0])
  {
    var kinds := KindsOf(lines);
    TextsOfKinds(lines);
    LayoutKeepsEveryLine(kinds, |lines|);
    LayoutWellSpaced(kinds, |lines|);
  }

  /** The texts of the classified lines are the lines themselves. */
  lemma TextsOfKinds(lines: seq<String>)
    ensures TextsOf(KindsOf(lines), |lines|) == lines
  {
    var kinds := KindsOf(lines);
    var texts := TextsOf(kinds, |lines|);
    forall i | 0 <= i < |lines|
      ensures texts[i] == lines[i]
    {
      assert kinds[i] == Classify(lines[i]);
    }
  }

  /** The output lines of input lines without line feeds, joined with line
      feeds, split back into the same output lines. */
  lemma RenderedLinesRoundTrip(lines: seq<String>)
    requires |lines| > 0
    requires NoLineFeeds(lines)
    ensures var out := Render(Layout(KindsOf(lines), |lines|));
      Split(Join("\n", out), "\n") == out
  {
    var kinds := KindsOf(lines);
    LayoutHasNoLineFeed(kinds, |lines|);
    var out := Render(Layout(kinds, |lines|));
    LayoutStep(kinds, |lines| - 1);
    SplitJoinLines(out);
  }

  /** A not-found answer is shown behind the cross mark and is otherwise
      unchanged. */
  lemma NotFoundShown(answer: String)
    requires Contains(answer, NotFoundMarker)
    ensures Formatted(answer) == CrossMark + answer
    ensures |Formatted(answer)| == |answer| + 2 && Formatted(answer)[2..] == answer
  {
  }

  /** Lines bulleted by the generator's restructuring start with the three
      characters U+00E2 U+20AC U+00A2 rather than the display bullet, so the
      display does not take them for list items; numbered and `-`/`*` items
      it does recognise. */
  lemma GeneratorBulletsAreNotItems(s: String)
    ensures !IsDisplayItem(Structure.Bullet + s)
    ensures Structure.IsListLine(s) && !IsDigit(s[0]) ==> IsDisplayItem(s)
    ensures IsNumberedItem(s) ==> IsDisplayItem(s)
  {
    assert (Structure.Bullet + s)[0] == '\U{E2}';
  }
}
