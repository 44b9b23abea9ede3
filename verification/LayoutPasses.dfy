/** The three layout passes of the formatter as maps on blank runs, and what the passes promise:
    they never touch a non-blank line, block-scalar data survives, and formatting twice is
    formatting once. */
module LayoutPasses {
  import opened Text
  import opened YamlLines
  import opened Layout

  // ---------- block scalars ----------

  /** The explicit indentation of a scalar or else that of its first line; an explicit zero counts as none. */
  function FirstIndent(explicitIndent: Option<nat>, contentIndent: Option<nat>): Option<nat> {
    if explicitIndent.Some? && explicitIndent.value != 0 then explicitIndent else contentIndent
  }

  /** Where a reader of the non-blank lines stands: outside block scalars, or after the header of
      one with the indentations that decide which line still belongs to it. */
  datatype Block =
    | Outside
    | Inside(parent: nat, explicitIndent: Option<nat>, contentIndent: Option<nat>, keep: bool)
  {
    function Minimum(): Option<nat>
      requires Inside?
    {
      FirstIndent(explicitIndent, contentIndent)
    }

    /** The non-blank line belongs to the scalar. */
    predicate Holds(line: string) {
      && Inside?
      && Indent(line) > parent
      && (Minimum().Some? ==> Indent(line) >= Minimum().value)
    }

    /** The state after one more non-blank line. */
    function After(line: string): Block {
      if Holds(line) then
        if contentIndent.None? && explicitIndent.None? then this.(contentIndent := Some(Indent(line))) else this
      else match HeaderOf(line)
        case Some(h) => Inside(h.parent, h.explicitIndent, None, h.keep)
        case None => Outside
    }
  }

  /** The state after these non-blank lines. Blank lines do not change it. */
  function Scan(content: seq<string>): Block {
    if content == [] then Outside else Scan(content[..|content| - 1]).After(content[|content| - 1])
  }

  /** Whether line `i` is block-scalar content, or a blank line seen while a scalar is open. */
  predicate InScalar(lines: seq<string>, i: nat)
    requires i < |lines|
  {
    var block := Scan(Content(lines[..i]));
    if Blank(lines[i]) then block.Inside? else block.Holds(lines[i])
  }

  /** Whether non-blank line `p` is block-scalar content. */
  predicate IsScalarLine(content: seq<string>, p: nat)
    requires p < |content|
  {
    Scan(content[..p]).Holds(content[p])
  }

  // ---------- collapsing blank lines ----------

  function AtMostOne(run: seq<string>): seq<string> {
    if run == [] then [] else [""]
  }

  /** A run seen in state `block` and followed by `next`: verbatim when it is interior to a scalar
      or trails one that keeps its trailing line breaks, otherwise at most one empty line. */
  function CollapseRun(block: Block, next: Option<string>, run: seq<string>): seq<string> {
    if block.Inside? && (block.keep || (next.Some? && block.Holds(next.value))) then run else AtMostOne(run)
  }

  function NextLine(content: seq<string>, p: nat): Option<string> {
    if p < |content| then Some(content[p]) else None
  }

  function Collapsed(content: seq<string>, gaps: seq<seq<string>>): (r: seq<seq<string>>)
    requires |gaps| == |content| + 1
    ensures |r| == |gaps|
  {
    seq(|gaps|, p requires 0 <= p < |gaps| => CollapseRun(Scan(content[..p]), NextLine(content, p), gaps[p]))
  }

  // ---------- which lines are task items and task keys ----------

  predicate IsItem(line: string) { ItemIndent(line).Some? }

  /** The first character that is not white space is a hash. */
  predicate IsCommentLine(line: string) {
    WideIndent(line) < |line| && line[WideIndent(line)] == '#'
  }

  /** The non-blank lines a structural reader looks at: no scalar content, comments or `---`. */
  function Relevant(content: seq<string>): seq<string> {
    if content == [] then []
    else
      var n := |content| - 1;
      var before := Relevant(content[..n]);
      if IsScalarLine(content, n) || IsCommentLine(content[n]) || Trim(content[n], IsSpace) == "---"
      then before
      else before + [content[n]]
  }

  /** The key a line of the first list item starts with is one that only plays have. */
  predicate IsPlayLine(line: string) {
    var bare := TrimLeft(Trim(line, IsSpace), IsDashOrSpace);
    Trim(bare[..SkipWhile(bare, 0, NotColon)], IsSpace) in PLAY_KEYS
  }

  /** The first position at or after `i` that holds a list item, or the end. */
  function NextItem(lines: seq<string>, i: nat): (j: nat)
    requires i <= |lines|
    ensures i <= j <= |lines|
    ensures forall k | i <= k < j :: !IsItem(lines[k])
    ensures j < |lines| ==> IsItem(lines[j])
    decreases |lines| - i
  {
    if i < |lines| && !IsItem(lines[i]) then NextItem(lines, i + 1) else i
  }

  /** The text is a list at top level whose first item has none of the keys of a play. */
  predicate IsBare(content: seq<string>) {
    var r := Relevant(content);
    && r != [] && IsItem(r[0])
    && forall i | 0 <= i < NextItem(r, 1) :: !IsPlayLine(r[i])
  }

  /** The innermost key and item seen at each indentation, and the lines found to be task items
      and task keys so far. */
  datatype Membership = Membership(lastKeys: map<int, string>, lastItems: map<int, bool>,
                                   items: set<nat>, keys: set<nat>)

  function Below<T>(m: map<int, T>, indent: int): map<int, T> {
    map k | k in m && k < indent :: m[k]
  }

  function AfterItem(m: Membership, bare: bool, index: nat, item: nat): Membership {
    var parent := if item - 2 in m.lastKeys then m.lastKeys[item - 2] else "";
    var isTask := (item == 0 && bare) || IsTaskListKey(parent);
    m.(lastItems := m.lastItems[item := isTask], items := if isTask then m.items + {index} else m.items)
  }

  function AfterKey(m: Membership, index: nat, key: Key): Membership {
    var isTaskKey := key.indent - 2 in m.lastItems && m.lastItems[key.indent - 2];
    m.(lastKeys := m.lastKeys[key.indent := Trim(key.name, IsDashOrSpace)],
       keys := if isTaskKey then m.keys + {index} else m.keys)
  }

  function AfterLine(m: Membership, bare: bool, index: nat, line: string): Membership {
    var kept := m.(lastKeys := Below(m.lastKeys, Indent(line)), lastItems := Below(m.lastItems, Indent(line)));
    var item := ItemIndent(line);
    var withItem := if item.Some? then AfterItem(kept, bare, index, item.value) else kept;
    var key := KeyOf(line);
    if key.Some? then AfterKey(withItem, index, key.value) else withItem
  }

  function Members(content: seq<string>, bare: bool): Membership {
    if content == [] then Membership(map[], map[], {}, {})
    else
      var n := |content| - 1;
      var before := Members(content[..n], bare);
      if IsScalarLine(content, n) || IsCommentLine(content[n]) then before
      else AfterLine(before, bare, n, content[n])
  }

  // ---------- stripping blank lines inside tasks ----------

  /** Non-blank lines `p - 1` and `p` are neighbouring keys of one task: two keys of equal indentation,
      or the item line of a task and the key below it. */
  predicate SiblingKeys(content: seq<string>, p: nat)
    requires 0 < p < |content|
  {
    var m := Members(content, IsBare(content));
    var above, below, item := KeyOf(content[p - 1]), KeyOf(content[p]), ItemIndent(content[p - 1]);
    && above.Some? && below.Some?
    && (|| (above.value.indent == below.value.indent && above.value.indent >= 2 && p - 1 in m.keys)
        || (item.Some? && below.value.indent == item.value + 2 && p - 1 in m.items))
  }

  /** The strip pass removes run `p`. */
  predicate Removes(content: seq<string>, p: nat) {
    0 < p < |content| && Scan(content[..p]).Outside? && SiblingKeys(content, p)
  }

  function StripRun(content: seq<string>, p: nat, run: seq<string>): seq<string> {
    if Removes(content, p) then [] else run
  }

  function Stripped(content: seq<string>, gaps: seq<seq<string>>): (r: seq<seq<string>>)
    requires |gaps| == |content| + 1
    ensures |r| == |gaps|
  {
    seq(|gaps|, p requires 0 <= p < |gaps| => StripRun(content, p, gaps[p]))
  }

  // ---------- adding blank lines between tasks ----------

  datatype Spacing = Spacing(inList: bool, indent: int) {
    /** The state after a line outside block scalars. */
    function After(line: string): Spacing {
      if IsTaskListHeader(line) then Spacing(true, WideIndent(line))
      else if inList && !StartsWith(line, "#") && WideIndent(line) <= indent && !IsItem(line)
      then this.(inList := false)
      else this
    }
  }

  function StartSpacing(bare: bool): Spacing {
    Spacing(bare, if bare then 0 else -1)
  }

  /** The state after these non-blank lines, of which the pass skips the first `skip`. */
  function SpacingOf(content: seq<string>, skip: nat, bare: bool): Spacing {
    if |content| <= skip then StartSpacing(bare)
    else
      var n := |content| - 1;
      var before := SpacingOf(content[..n], skip, bare);
      if IsScalarLine(content, n) then before else before.After(content[n])
  }

  /** The pass never looks at the very first line of the text. */
  function Skipped(gaps: seq<seq<string>>): nat
    requires gaps != []
  {
    if gaps[0] == [] then 1 else 0
  }

  /** An item line that the spacing pass may separate from `above`; `after` is the raw line below it. */
  predicate Separates(s: Spacing, above: string, line: string, after: Option<string>) {
    var item := ItemIndent(line);
    && s.inList && item.Some?
    && !(s.indent >= 0 && item.value > s.indent + 2)
    && (':' in line || (after.Some? && StartsWith(after.value, line[..item.value] + "  ")))
    && !IsListOpener(above)
  }

  /** The spacing pass puts a blank line before non-blank line `p` if none is there. */
  predicate Inserts(content: seq<string>, gaps: seq<seq<string>>, p: nat)
    requires |gaps| == |content| + 1
  {
    && 0 < p < |content|
    && !IsScalarLine(content, p)
    && !IsTaskListHeader(content[p])
    && Separates(SpacingOf(content[..p + 1], Skipped(gaps), IsBare(content)), content[p - 1], content[p],
                 Layout.LineAfter(content, gaps, p))
  }

  function SpaceRun(content: seq<string>, gaps: seq<seq<string>>, p: nat): seq<string>
    requires |gaps| == |content| + 1 && p < |gaps|
  {
    if gaps[p] == [] && Inserts(content, gaps, p) then [""] else gaps[p]
  }

  function Spaced(content: seq<string>, gaps: seq<seq<string>>): (r: seq<seq<string>>)
    requires |gaps| == |content| + 1
    ensures |r| == |gaps|
  {
    seq(|gaps|, p requires 0 <= p < |gaps| => SpaceRun(content, gaps, p))
  }

  // ---------- the passes on lines and on text ----------

  function CollapseLines(lines: seq<string>): seq<string> {
    Weave(Content(lines), Collapsed(Content(lines), Gaps(lines)))
  }

  function StripLines(lines: seq<string>): seq<string> {
    Weave(Content(lines), Stripped(Content(lines), Gaps(lines)))
  }

  function SpaceLines(lines: seq<string>): seq<string> {
    Weave(Content(lines), Spaced(Content(lines), Gaps(lines)))
  }

  function CollapseText(text: string): string { Join(CollapseLines(Split(text))) }

  function StripText(text: string): string { Join(StripLines(Split(text))) }

  function SpaceText(text: string): string { Join(SpaceLines(Split(text))) }

  /** What `format_content` does to the dumped text. */
  function FormatLayout(text: string): string {
    SpaceText(StripText(CollapseText(text)))
  }

  // ---------- one more line ----------

  lemma {:induction false} RelevantNext(content: seq<string>, n: nat)
    requires n < |content|
    ensures Relevant(content[..n + 1]) ==
            if IsScalarLine(content, n) || IsCommentLine(content[n]) || Trim(content[n], IsSpace) == "---"
            then Relevant(content[..n])
            else Relevant(content[..n]) + [content[n]]
  {
    assert content[..n + 1][..n] == content[..n];
  }

  lemma {:induction false} MembersNext(content: seq<string>, n: nat, bare: bool)
    requires n < |content|
    ensures Members(content[..n + 1], bare) ==
            if IsScalarLine(content, n) || IsCommentLine(content[n]) then Members(content[..n], bare)
            else AfterLine(Members(content[..n], bare), bare, n, content[n])
  {
    assert content[..n + 1][..n] == content[..n];
  }

  lemma {:induction false} SpacingNext(content: seq<string>, n: nat, skip: nat, bare: bool)
    requires n < |content|
    ensures SpacingOf(content[..n + 1], skip, bare) ==
            if n < skip then StartSpacing(bare)
            else if IsScalarLine(content, n) then SpacingOf(content[..n], skip, bare)
            else SpacingOf(content[..n], skip, bare).After(content[n])
  {
    assert content[..n + 1][..n] == content[..n];
  }

  // ---------- on runs ----------

  function Pipeline(content: seq<string>, gaps: seq<seq<string>>): (r: seq<seq<string>>)
    requires |gaps| == |content| + 1
    ensures |r| == |gaps|
  {
    Spaced(content, Stripped(content, Collapsed(content, gaps)))
  }

  lemma CollapsedTwice(content: seq<string>, gaps: seq<seq<string>>)
    requires |gaps| == |content| + 1
    ensures Collapsed(content, Collapsed(content, gaps)) == Collapsed(content, gaps)
  {
  }

  lemma StrippedTwice(content: seq<string>, gaps: seq<seq<string>>)
    requires |gaps| == |content| + 1
    ensures Stripped(content, Stripped(content, gaps)) == Stripped(content, gaps)
  {
  }

  /** `more` is `fewer` with some empty runs replaced by one empty line. */
  ghost predicate Filled(fewer: seq<seq<string>>, more: seq<seq<string>>) {
    && |fewer| == |more|
    && (fewer != [] ==> fewer[0] == more[0])
    && forall p | 0 <= p < |fewer| :: more[p] == fewer[p] || (fewer[p] == [] && more[p] == [""])
  }

  /** Filling empty runs never creates a new place to insert at: it can only hide the line below
      an item. Where the item line itself has a colon it changes nothing. */
  lemma FillingInserts(content: seq<string>, fewer: seq<seq<string>>, more: seq<seq<string>>, p: nat)
    requires |fewer| == |content| + 1 && Filled(fewer, more)
    ensures Inserts(content, more, p) ==> Inserts(content, fewer, p)
    ensures p < |content| && ':' in content[p] ==> (Inserts(content, more, p) <==> Inserts(content, fewer, p))
  {
  }

  lemma SpacedFills(content: seq<string>, gaps: seq<seq<string>>)
    requires |gaps| == |content| + 1
    ensures Filled(gaps, Spaced(content, gaps))
  {
  }

  lemma SpacedTwice(content: seq<string>, gaps: seq<seq<string>>)
    requires |gaps| == |content| + 1
    ensures Spaced(content, Spaced(content, gaps)) == Spaced(content, gaps)
  {
  }

  lemma PipelineIsCollapsed(content: seq<string>, gaps: seq<seq<string>>)
    requires |gaps| == |content| + 1
    ensures Collapsed(content, Pipeline(content, gaps)) == Pipeline(content, gaps)
  {
  }

  /** The whole pipeline, run twice. What the strip pass removes between sibling keys of a task the
      spacing pass may put back; it then does so both times, because the line below has a colon. */
  lemma PipelineTwice(content: seq<string>, gaps: seq<seq<string>>)
    requires |gaps| == |content| + 1
    ensures Pipeline(content, Pipeline(content, gaps)) == Pipeline(content, gaps)
  {
    var first := Stripped(content, Collapsed(content, gaps));
    var final := Pipeline(content, gaps);
    PipelineIsCollapsed(content, gaps);
    var second := Stripped(content, final);
    SpacedFills(content, first);
    assert Filled(first, second);
    forall p | 0 <= p < |gaps|
      ensures Spaced(content, second)[p] == final[p]
    {
      FillingInserts(content, first, second, p);
    }
  }

  // ---------- on text ----------

  /** Runs rewritten from `gaps`: every line is empty or an old one of the same run, and run 0 is
      empty only if it was. */
  ghost predicate Rewrites(gaps: seq<seq<string>>, newGaps: seq<seq<string>>) {
    && |newGaps| == |gaps| > 0
    && (newGaps[0] == [] ==> gaps[0] == [])
    && forall p, k | 0 <= p < |gaps| && 0 <= k < |newGaps[p]| :: newGaps[p][k] == "" || newGaps[p][k] in gaps[p]
  }

  /** Rewritten runs woven back, joined into text and split again are the same lines and parts. */
  lemma {:induction false} Reparse(lines: seq<string>, newGaps: seq<seq<string>>)
    requires lines != [] && forall i | 0 <= i < |lines| :: NoNewline(lines[i])
    requires Rewrites(Gaps(lines), newGaps)
    ensures var out := Weave(Content(lines), newGaps);
            Split(Join(out)) == out && Content(out) == Content(lines) && Gaps(out) == newGaps
  {
    var content, gaps := Content(lines), Gaps(lines);
    var out := Weave(content, newGaps);
    PartsMembers(lines);
    WeaveParts(lines);
    forall p | 0 <= p < |newGaps| ensures AllBlank(newGaps[p]) {
      assert AllBlank(gaps[p]);
    }
    PartsOfWeave(content, newGaps);
    forall i | 0 <= i < |out| ensures NoNewline(out[i]) {
      WeaveMembers(content, newGaps, out[i]);
      if out[i] !in content {
        var p :| 0 <= p < |newGaps| && out[i] in newGaps[p];
        var k :| 0 <= k < |newGaps[p]| && newGaps[p][k] == out[i];
      }
    }
    SplitJoin(out);
  }

  lemma CollapsedRewrites(content: seq<string>, gaps: seq<seq<string>>)
    requires |gaps| == |content| + 1
    ensures Rewrites(gaps, Collapsed(content, gaps))
  {
  }

  lemma StrippedRewrites(content: seq<string>, gaps: seq<seq<string>>)
    requires |gaps| == |content| + 1
    ensures Rewrites(gaps, Stripped(content, gaps))
  {
  }

  lemma SpacedRewrites(content: seq<string>, gaps: seq<seq<string>>)
    requires |gaps| == |content| + 1
    ensures Rewrites(gaps, Spaced(content, gaps))
  {
  }

  /** The parts of a text after each pass. No pass changes a non-blank line. */
  lemma {:induction false} PassParts(text: string)
    ensures var content, gaps := Content(Split(text)), Gaps(Split(text));
            && Content(Split(CollapseText(text))) == content
            && Gaps(Split(CollapseText(text))) == Collapsed(content, gaps)
            && Content(Split(StripText(text))) == content
            && Gaps(Split(StripText(text))) == Stripped(content, gaps)
            && Content(Split(SpaceText(text))) == content
            && Gaps(Split(SpaceText(text))) == Spaced(content, gaps)
  {
    var lines := Split(text);
    CollapsedRewrites(Content(lines), Gaps(lines));
    StrippedRewrites(Content(lines), Gaps(lines));
    SpacedRewrites(Content(lines), Gaps(lines));
    Reparse(lines, Collapsed(Content(lines), Gaps(lines)));
    Reparse(lines, Stripped(Content(lines), Gaps(lines)));
    Reparse(lines, Spaced(Content(lines), Gaps(lines)));
  }

  /** Formatting the layout of a text keeps the sequence of its non-blank lines. */
  lemma {:induction false} FormatKeepsContent(text: string)
    ensures Content(Split(FormatLayout(text))) == Content(Split(text))
    ensures Gaps(Split(FormatLayout(text))) == Pipeline(Content(Split(text)), Gaps(Split(text)))
  {
    PassParts(text);
    PassParts(CollapseText(text));
    PassParts(StripText(CollapseText(text)));
  }

  /** Two texts with the same parts are equal. */
  lemma {:induction false} SameParts(a: string, b: string)
    requires Content(Split(a)) == Content(Split(b)) && Gaps(Split(a)) == Gaps(Split(b))
    ensures a == b
  {
    WeaveParts(Split(a));
    WeaveParts(Split(b));
    JoinSplit(a);
    JoinSplit(b);
  }

  /** Formatting the layout of a formatted text changes nothing. */
  lemma {:induction false} FormatIsIdempotent(text: string)
    ensures FormatLayout(FormatLayout(text)) == FormatLayout(text)
  {
    FormatKeepsContent(text);
    FormatKeepsContent(FormatLayout(text));
    PipelineTwice(Content(Split(text)), Gaps(Split(text)));
    SameParts(FormatLayout(FormatLayout(text)), FormatLayout(text));
  }

  /** So is each pass on its own. */
  lemma {:induction false} PassesAreIdempotent(text: string)
    ensures CollapseText(CollapseText(text)) == CollapseText(text)
    ensures StripText(StripText(text)) == StripText(text)
    ensures SpaceText(SpaceText(text)) == SpaceText(text)
  {
    var content, gaps := Content(Split(text)), Gaps(Split(text));
    PassParts(text);
    PassParts(CollapseText(text));
    PassParts(StripText(text));
    PassParts(SpaceText(text));
    CollapsedTwice(content, gaps);
    StrippedTwice(content, gaps);
    SpacedTwice(content, gaps);
    SameParts(CollapseText(CollapseText(text)), CollapseText(text));
    SameParts(StripText(StripText(text)), StripText(text));
    SameParts(SpaceText(SpaceText(text)), SpaceText(text));
  }

  // ---------- what collapsing keeps and leaves ----------

  lemma {:induction false} CollapseParts(lines: seq<string>)
    ensures Content(CollapseLines(lines)) == Content(lines)
    ensures Gaps(CollapseLines(lines)) == Collapsed(Content(lines), Gaps(lines))
  {
    PartsMembers(lines);
    forall q | 0 <= q < |Gaps(lines)| ensures AllBlank(Collapsed(Content(lines), Gaps(lines))[q]) {
      assert AllBlank(Gaps(lines)[q]);
    }
    PartsOfWeave(Content(lines), Collapsed(Content(lines), Gaps(lines)));
  }

  /** Run `p` is scalar data: it is interior to a scalar, or trails one that keeps line breaks. */
  predicate IsDataRun(content: seq<string>, p: nat)
    requires p <= |content|
  {
    var block := Scan(content[..p]);
    block.Inside? && (block.keep || (p < |content| && IsScalarLine(content, p)))
  }

  /** Collapsing keeps scalar data verbatim, and what is data before is data after. */
  lemma {:induction false} CollapseKeepsScalars(lines: seq<string>, p: nat)
    requires p <= |Content(lines)|
    ensures Content(CollapseLines(lines)) == Content(lines)
    ensures IsDataRun(Content(lines), p) ==> Gaps(CollapseLines(lines))[p] == Gaps(lines)[p]
    ensures !IsDataRun(Content(lines), p) ==> Gaps(CollapseLines(lines))[p] == AtMostOne(Gaps(lines)[p])
  {
    CollapseParts(lines);
  }

  lemma {:induction false} PairIsInRun(lines: seq<string>, i: nat)
    requires i + 1 < |lines| && Blank(lines[i]) && Blank(lines[i + 1])
    ensures var p := |Content(lines[..i])|;
            && p < |Gaps(lines)| && |Gaps(lines)[p]| >= 2
            && Content(lines)[..p] == Content(lines[..i]) == Content(lines[..i + 1])
  {
    PartsStep(lines, i);
    PartsStep(lines, i + 1);
    PartsOfPrefix(lines, i + 2);
    PartsOfPrefix(lines, i);
  }

  /** After collapsing, two blank lines in a row are scalar data. */
  lemma {:induction false} CollapseLeavesNoPairs(lines: seq<string>, i: nat)
    requires i + 1 < |CollapseLines(lines)|
    requires Blank(CollapseLines(lines)[i]) && Blank(CollapseLines(lines)[i + 1])
    ensures InScalar(CollapseLines(lines), i) && InScalar(CollapseLines(lines), i + 1)
    ensures |Content(CollapseLines(lines)[..i])| <= |Content(lines)|
    ensures IsDataRun(Content(lines), |Content(CollapseLines(lines)[..i])|)
  {
    var out := CollapseLines(lines);
    PairIsInRun(out, i);
    CollapseParts(lines);
  }
}
