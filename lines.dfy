/** What the two answer formatters (`_improve_answer_structure` in
    rag/generator.py and `format_answer` in app.py) share: the marker that
    switches them off, the numbered-item test, and a layout of output lines
    that remembers which lines were inserted. */
module Lines {
  import opened Text

  /** An answer containing this text is passed through untouched. */
  const NotFoundMarker: String := "I cannot find the answer"

  /** A stripped line opens a numbered item: one digit, then `.` or `)`. */
  predicate IsNumberedItem(s: String) {
    |s| > 1 && IsDigit(s[0]) && (s[1] == '.' || s[1] == ')')
  }

  /** How a formatter classifies one input line, with the text it writes
      for that line. */
  datatype LineKind = Empty(text: String) | Item(text: String) | Plain(text: String)

  /** The texts of the first `n` classified lines, in order. */
  function TextsOf(kinds: seq<LineKind>, n: nat): (r: seq<String>)
    requires n <= |kinds|
    ensures |r| == n
    ensures forall i :: 0 <= i < n ==> r[i] == kinds[i].text
  {
    if n == 0 then [] else TextsOf(kinds, n - 1) + [kinds[n - 1].text]
  }

  /** One output line: a line produced from an input line, or an empty line
      the formatter inserted. */
  datatype Emit = Kept(text: String) | Blank

  /** The text of the output lines, inserted lines being empty. */
  function Render(layout: seq<Emit>): seq<String>
    decreases |layout|
  {
    if |layout| == 0 then []
    else Render(layout[..|layout| - 1]) + [if layout[|layout| - 1].Kept? then layout[|layout| - 1].text else []]
  }

  /** Rendering a layout extended by an optional inserted line and one
      produced line. */
  lemma RenderStep(layout: seq<Emit>, gap: seq<Emit>, text: String)
    requires gap == [] || gap == [Blank]
    ensures gap == [] ==> Render(layout + gap + [Kept(text)]) == Render(layout) + [text]
    ensures gap == [Blank] ==> Render(layout + gap + [Kept(text)]) == Render(layout) + [[], text]
  {
    if gap == [Blank] {
      assert (layout + gap + [Kept(text)])[..|layout| + 1] == layout + [Blank];
      assert (layout + [Blank])[..|layout|] == layout;
    } else {
      assert (layout + gap + [Kept(text)])[..|layout|] == layout;
    }
  }

  /** The output lines that came from input lines, in order: the layout with
      its inserted lines deleted. */
  function KeptTexts(layout: seq<Emit>): seq<String>
    decreases |layout|
  {
    if |layout| == 0 then []
    else KeptTexts(layout[..|layout| - 1]) + (if layout[|layout| - 1].Kept? then [layout[|layout| - 1].text] else [])
  }

  /** No inserted line is the last line, and none directly follows another
      inserted line: insertions only ever separate two produced lines. */
  predicate WellSpaced(layout: seq<Emit>) {
    (|layout| > 0 ==> layout[|layout| - 1].Kept?) &&
    forall i :: 0 <= i < |layout| - 1 && layout[i].Blank? ==> layout[i + 1].Kept?
  }

  /** At most one inserted line followed by a produced line keeps a layout
      well spaced. */
  lemma WellSpacedStep(layout: seq<Emit>, gap: seq<Emit>, text: String)
    requires WellSpaced(layout)
    requires gap == [] || gap == [Blank]
    ensures WellSpaced(layout + gap + [Kept(text)])
  {
  }

  /** An inserted line adds nothing to the produced lines. */
  lemma KeptTextsStep(layout: seq<Emit>, gap: seq<Emit>, text: String)
    requires gap == [] || gap == [Blank]
    ensures KeptTexts(layout + gap + [Kept(text)]) == KeptTexts(layout) + [text]
  {
    var whole := layout + gap + [Kept(text)];
    assert whole[..|whole| - 1] == layout + gap;
    assert KeptTexts(whole) == KeptTexts(layout + gap) + [text];
    if gap == [Blank] {
      assert (layout + gap)[..|layout|] == layout;
      assert KeptTexts(layout + gap) == KeptTexts(layout);
    } else {
      assert layout + gap == layout;
    }
  }

  /** No line holds a line feed. */
  predicate NoLineFeeds(lines: seq<String>) {
    forall i :: 0 <= i < |lines| ==> !Contains(lines[i], "\n")
  }

  /** Appending an optional empty line and a line without a line feed keeps
      every line free of line feeds. */
  lemma NoLineFeedStep(prev: seq<String>, gap: bool, text: String, out: seq<String>)
    requires NoLineFeeds(prev)
    requires !Contains(text, "\n")
    requires out == prev + (if gap then [[]] else []) + [text]
    ensures NoLineFeeds(out)
  {
    assert !Contains([], "\n");
    forall i | 0 <= i < |out|
      ensures !Contains(out[i], "\n")
    {
      if i < |prev| {
        assert out[i] == prev[i];
      } else if i == |out| - 1 {
        assert out[i] == text;
      } else {
        assert out[i] == [];
      }
    }
  }

  /** Lines without a line feed, joined with line feeds, split back into the
      same lines. */
  lemma SplitJoinLines(out: seq<String>)
    requires |out| > 0
    requires NoLineFeeds(out)
    ensures Split(Join("\n", out), "\n") == out
  {
    forall i | 0 <= i < |out|
      ensures !Contains(out[i] + "\n"[..|"\n"| - 1], "\n")
    {
      assert out[i] + "\n"[..0] == out[i];
    }
    SplitJoin(out, "\n");
  }
}
