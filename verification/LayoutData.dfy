/** Which blank lines of block-scalar data survive formatting. */
module LayoutData {
  import opened Text
  import opened YamlLines
  import opened Layout
  import opened LayoutPasses

  /** What the strip pass removes before a line with a colon does not change where a blank line goes. */
  lemma {:induction false} StripKeepsInserts(content: seq<string>, gaps: seq<seq<string>>, p: nat)
    requires |gaps| == |content| + 1
    ensures Inserts(content, Stripped(content, gaps), p) <==> Inserts(content, gaps, p)
  {
  }

  /** Formatting keeps a blank run of scalar data exactly unless a scalar that keeps its trailing line
      breaks is directly followed by a task: then the separating blank line becomes data. */
  lemma {:induction false} PipelineKeepsDataRun(content: seq<string>, gaps: seq<seq<string>>, p: nat)
    requires |gaps| == |content| + 1 && p <= |content| && IsDataRun(content, p)
    ensures Pipeline(content, gaps)[p] == gaps[p] <==> !(gaps[p] == [] && Inserts(content, Collapsed(content, gaps), p))
    ensures Pipeline(content, gaps)[p] in {gaps[p], [""]}
    ensures p < |content| && IsScalarLine(content, p) ==> Pipeline(content, gaps)[p] == gaps[p]
  {
    hide SiblingKeys, Scan;
    StripKeepsInserts(content, Collapsed(content, gaps), p);
  }

  /** The same on text: non-blank lines and interior blank runs of every block scalar survive, and the
      trailing run of a keeping scalar survives exactly when no task directly follows it. */
  lemma {:induction false} FormatKeepsData(text: string)
    ensures var content, gaps, out := Content(Split(text)), Gaps(Split(text)), Gaps(Split(FormatLayout(text)));
            && Content(Split(FormatLayout(text))) == content && |out| == |gaps|
            && (forall p | 0 <= p < |content| && IsScalarLine(content, p) :: out[p] == gaps[p])
            && (forall p | 0 <= p <= |content| && IsDataRun(content, p) ::
                  out[p] == gaps[p] <==> !(gaps[p] == [] && Inserts(content, Collapsed(content, gaps), p)))
  {
    hide Inserts, Pipeline, IsScalarLine, IsDataRun;
    var content, gaps := Content(Split(text)), Gaps(Split(text));
    FormatKeepsContent(text);
    forall p | 0 <= p <= |content| && IsDataRun(content, p)
      ensures Pipeline(content, gaps)[p] == gaps[p] <==> !(gaps[p] == [] && Inserts(content, Collapsed(content, gaps), p))
    {
      PipelineKeepsDataRun(content, gaps, p);
    }
    forall p | 0 <= p < |content| && IsScalarLine(content, p) ensures Pipeline(content, gaps)[p] == gaps[p] {
      ScalarLineIsData(content, p);
      PipelineKeepsDataRun(content, gaps, p);
    }
  }

  lemma ScalarLineIsData(content: seq<string>, p: nat)
    requires p < |content| && IsScalarLine(content, p)
    ensures IsDataRun(content, p)
  {
  }

  // ---------- a scalar that grows ----------

  /** A list item whose value is a keeping block scalar. */
  predicate IsKeepingItem(line: string) {
    && ItemIndent(line) == Some(0) && !IsCommentLine(line) && Trim(line, IsSpace) != "---" && !IsPlayLine(line)
    && HeaderOf(line) == Some(Header(2, None, true))
  }

  predicate IsScalarText(line: string) { Indent(line) == 3 && !IsListOpener(line) }

  /** A list item with a key. */
  predicate IsPlainItem(line: string) {
    && ItemIndent(line) == Some(0) && !IsCommentLine(line) && Trim(line, IsSpace) != "---"
    && Indent(line) == 0 && ':' in line && !IsTaskListHeader(line)
  }

  lemma {:induction false} KeepingScan(content: seq<string>)
    requires |content| == 3 && IsKeepingItem(content[0]) && IsScalarText(content[1]) && IsPlainItem(content[2])
    ensures Scan(content[..2]) == Inside(2, None, Some(3), true)
    ensures !IsScalarLine(content, 0) && IsScalarLine(content, 1) && !IsScalarLine(content, 2)
  {
    hide HeaderOf, IsPlayLine, ItemIndent, IsListOpener, IsTaskListHeader;
    assert content[..1][..0] == [] && content[..2][..1] == content[..1];
    assert Scan(content[..0]) == Outside;
    assert Scan(content[..1]) == Inside(2, None, None, true);
  }

  lemma {:induction false} KeepingIsBare(content: seq<string>)
    requires |content| == 3 && IsKeepingItem(content[0]) && IsScalarText(content[1]) && IsPlainItem(content[2])
    ensures IsBare(content)
  {
    hide Relevant, IsPlayLine, IsCommentLine, ItemIndent, Trim, HeaderOf, IsTaskListHeader, IsScalarText;
    KeepingRelevant(content);
    assert NextItem([content[0], content[2]], 1) == 1;
  }

  lemma {:induction false} KeepingRelevant(content: seq<string>)
    requires |content| == 3 && IsKeepingItem(content[0]) && IsScalarText(content[1]) && IsPlainItem(content[2])
    ensures Relevant(content) == [content[0], content[2]]
  {
    hide Relevant, IsScalarLine, IsPlayLine, IsCommentLine, ItemIndent, Trim, HeaderOf, IsTaskListHeader, IsScalarText;
    KeepingScan(content);
    RelevantNothing();
    RelevantNext(content, 0);
    RelevantNext(content, 1);
    RelevantNext(content, 2);
    assert content[..3] == content && content[..0] == [];
  }

  lemma RelevantNothing()
    ensures Relevant([]) == []
  {
  }

  /** A keeping scalar directly followed by a task: the passes add a line to the scalar. */
  lemma {:induction false} KeepingRunGrows(content: seq<string>)
    requires |content| == 3 && IsKeepingItem(content[0]) && IsScalarText(content[1]) && IsPlainItem(content[2])
    ensures IsDataRun(content, 2) && Pipeline(content, [[], [], [], []])[2] == [""]
  {
    var gaps: seq<seq<string>> := [[], [], [], []];
    KeepingScan(content);
    KeepingIsBare(content);
    hide IsScalarLine, IsBare, Scan, Members, HeaderOf, IsTaskListHeader, IsListOpener;
    assert Collapsed(content, gaps)[0] == [];
    assert content[..3] == content;
    SpacingNext(content, 1, 1, true);
    SpacingNext(content, 2, 1, true);
    PipelineKeepsDataRun(content, gaps, 2);
  }

  /** An empty run stays empty at the ends of a text and before scalar content. */
  lemma {:induction false} EmptyRunStays(content: seq<string>, gaps: seq<seq<string>>, p: nat)
    requires |gaps| == |content| + 1 && p < |gaps| && gaps[p] == []
    requires p == 0 || p == |content| || IsScalarLine(content, p)
    ensures Pipeline(content, gaps)[p] == []
  {
    hide Separates, IsBare, IsTaskListHeader, Removes;
  }

  lemma {:induction false} KeepingPipeline(content: seq<string>)
    requires |content| == 3 && IsKeepingItem(content[0]) && IsScalarText(content[1]) && IsPlainItem(content[2])
    ensures IsDataRun(content, 2) && Pipeline(content, [[], [], [], []]) == [[], [], [""], []]
  {
    var gaps: seq<seq<string>> := [[], [], [], []];
    hide *;
    KeepingScan(content);
    KeepingRunGrows(content);
    EmptyRunStays(content, gaps, 0);
    EmptyRunStays(content, gaps, 1);
    EmptyRunStays(content, gaps, 3);
    assert Pipeline(content, gaps) == [[], [], [""], []];
  }

  lemma {:induction false} WeaveThree(content: seq<string>, run: seq<string>)
    requires |content| == 3
    ensures Weave(content, [[], [], run, []]) == [content[0], content[1]] + run + [content[2]]
  {
    var gaps := [[], [], run, []];
    assert content[..2][..1] == content[..1] && content[..1][..0] == content[..0];
    assert gaps[..3][..2] == gaps[..2] && gaps[..2][..1] == gaps[..1];
    assert Weave(content[..0], gaps[..1]) == [];
    assert Weave(content[..1], gaps[..2]) == [content[0]];
    assert Weave(content[..2], gaps[..3]) == [content[0]] + [content[1]] + run;
  }

  /** A text of three non-blank lines with this run before the last. */
  lemma {:induction false} ThreeLines(content: seq<string>, run: seq<string>)
    requires |content| == 3 && (forall p | 0 <= p < 3 :: !Blank(content[p]) && NoNewline(content[p]))
    requires run == [] || run == [""]
    ensures var text := Join([content[0], content[1]] + run + [content[2]]);
            Content(Split(text)) == content && Gaps(Split(text)) == [[], [], run, []]
  {
    var lines := [content[0], content[1]] + run + [content[2]];
    hide Join, Split, Content, Gaps, NoNewline, Blank, Weave;
    EmptyLine();
    WeaveThree(content, run);
    SplitJoin(lines);
    PartsOfWeave(content, [[], [], run, []]);
  }

  lemma EmptyLine()
    ensures Blank("") && NoNewline("")
  {
  }

  lemma ItemIsNotBlank(line: string)
    ensures IsKeepingItem(line) || IsPlainItem(line) ==> !Blank(line)
  {
    hide HeaderOf, IsPlayLine, Trim, Indent;
  }

  /** A bare list of two items, the first a keeping scalar of one line: formatting puts an empty line at
      the end of the scalar. */
  lemma {:induction false} KeepingScalarGrows(first: string, scalar: string, second: string)
    requires IsKeepingItem(first) && IsScalarText(scalar) && IsPlainItem(second)
    requires !Blank(scalar) && NoNewline(first) && NoNewline(scalar) && NoNewline(second)
    ensures IsDataRun([first, scalar, second], 2)
    ensures FormatLayout(Join([first, scalar, second])) == Join([first, scalar, "", second])
  {
    var content := [first, scalar, second];
    hide *;
    ItemIsNotBlank(first);
    ItemIsNotBlank(second);
    ThreeLines(content, []);
    ThreeLines(content, [""]);
    assert [first, scalar] + [] + [second] == content;
    assert [first, scalar] + [""] + [second] == [first, scalar, "", second];
    FormatKeepsContent(Join(content));
    KeepingPipeline(content);
    SameParts(FormatLayout(Join(content)), Join([first, scalar, "", second]));
  }

  lemma {:induction false} KeepingHeaderExists()
    ensures HeaderOf("- a: |+") == Some(Header(2, None, true))
  {
    var text := "- a: |+";
    assert BeforeComment(text) == text;
    assert SkipWhile(text, 6, NotSpace) == 7;
    assert text[6..7] == "+";
    assert ModifiersAt(text, 6) == Some("+");
    assert StyleAt(text, 4) == Some(5);
    assert StyleAfterColon(text, 3) == Some(5);
    assert StyleAfterColon(text, 0) == Some(5);
    assert text[0..5][3] == ':' && text[0..5][3..][0] == ':';
    assert FirstDigit("+") == None;
  }

  lemma {:induction false} KeepingItemExists()
    ensures IsKeepingItem("- a: |+")
  {
    hide HeaderOf;
    KeepingHeaderExists();
    var text := "- a: |+";
    assert TrimRight(text, IsSpace) == text && SkipWhile(text, 0, IsSpace) == 0;
    assert Trim(text, IsSpace) == text;
    assert SkipWhile(text, 0, IsDashOrSpace) == 2;
    var bare := text[2..];
    assert SkipWhile(bare, 0, NotColon) == 1 && bare[..1] == "a";
    assert Trim("a", IsSpace) == "a";
  }

  lemma {:induction false} PlainItemExists()
    ensures IsPlainItem("- b: c") && IsScalarText("   t")
  {
    var item, scalar := "- b: c", "   t";
    assert TrimRight(item, IsSpace) == item && SkipWhile(item, 0, IsSpace) == 0;
    assert item[3] == ':';
    assert TrimRight(scalar, IsSpace) == scalar;
    assert Indent(scalar) == 3;
  }

  /** Such texts exist, so formatting does not keep scalar data in general. */
  lemma {:induction false} KeepingExample()
    ensures FormatLayout("- a: |+\n   t\n- b: c") == "- a: |+\n   t\n\n- b: c"
    ensures IsDataRun(["- a: |+", "   t", "- b: c"], 2)
  {
    hide *;
    ExampleJoins();
    ExampleLines();
    KeepingItemExists();
    PlainItemExists();
    KeepingScalarGrows("- a: |+", "   t", "- b: c");
  }

  lemma {:induction false} ExampleLines()
    ensures !Blank("   t") && NoNewline("- a: |+") && NoNewline("   t") && NoNewline("- b: c")
  {
    assert "   t"[3] == 't';
  }

  lemma {:induction false} ExampleJoins()
    ensures Join(["- a: |+", "   t", "- b: c"]) == "- a: |+\n   t\n- b: c"
    ensures Join(["- a: |+", "   t", "", "- b: c"]) == "- a: |+\n   t\n\n- b: c"
  {
    var first, scalar, second := "- a: |+", "   t", "- b: c";
    assert [first, scalar, second][1..] == [scalar, second] && [scalar, second][1..] == [second];
    assert [first, scalar, "", second][1..] == [scalar, "", second];
    assert [scalar, "", second][1..] == ["", second] && ["", second][1..] == [second];
    assert Join([second]) == second;
    assert Join(["", second]) == "\n" + second;
  }
}
