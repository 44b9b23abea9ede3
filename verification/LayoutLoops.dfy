/** The formatter's line loops as it runs them, each proved to compute its pass. */
module LayoutLoops {
  import opened Text
  import opened YamlLines
  import opened Layout
  import opened LayoutPasses

  // ---------- block scalars ----------

  /** The three optional indentations the scanners carry stand for this state. */
  ghost predicate Carries(parent: Option<nat>, explicitIndent: Option<nat>, contentIndent: Option<nat>, block: Block) {
    && (parent.None? ==> block.Outside? && explicitIndent.None? && contentIndent.None?)
    && (parent.Some? ==> && block.Inside? && block.parent == parent.value
                         && block.explicitIndent == explicitIndent && block.contentIndent == contentIndent)
  }

  lemma {:induction false} ScanStep(lines: seq<string>, k: nat, block: Block)
    requires k < |lines| && block == Scan(Content(lines[..k]))
    ensures Scan(Content(lines[..k + 1])) == if Blank(lines[k]) then block else block.After(lines[k])
    ensures InScalar(lines, k) <==> if Blank(lines[k]) then block.Inside? else block.Holds(lines[k])
  {
    PartsStep(lines, k);
  }

  /** The mask scanner marks exactly the scalar content and the blank lines of open scalars. */
  method BlockScalarContentLines(lines: seq<string>) returns (mask: seq<bool>)
    ensures |mask| == |lines|
    ensures forall i | 0 <= i < |lines| :: mask[i] <==> InScalar(lines, i)
  {
    hide HeaderOf, Indent;
    mask := seq(|lines|, _ => false);
    var parent: Option<nat>, explicitIndent: Option<nat>, contentIndent: Option<nat> := None, None, None;
    ghost var block := Outside;
    for index := 0 to |lines|
      invariant |mask| == |lines|
      invariant forall i | 0 <= i < index :: mask[i] <==> InScalar(lines, i)
      invariant forall i | index <= i < |lines| :: !mask[i]
      invariant block == Scan(Content(lines[..index]))
      invariant Carries(parent, explicitIndent, contentIndent, block)
    {
      var line := lines[index];
      ghost var before := block;
      ScanStep(lines, index, block);
      block := if Blank(line) then block else block.After(line);
      if parent.Some? {
        if Blank(line) {
          mask := mask[index := true];
          continue;
        }
        var minimum := FirstIndent(explicitIndent, contentIndent);
        if Indent(line) > parent.value && (minimum.None? || Indent(line) >= minimum.value) {
          assert before.Holds(line);
          mask := mask[index := true];
          if contentIndent.None? && explicitIndent.None? {
            contentIndent := Some(Indent(line));
          }
          continue;
        }
        assert !before.Holds(line);
        parent, contentIndent, explicitIndent := None, None, None;
      }
      if Blank(line) {
        continue;
      }
      var header := HeaderOf(line);
      if header.Some? {
        parent, explicitIndent := Some(header.value.parent), header.value.explicitIndent;
      }
    }
  }

  // ---------- collapsing blank lines ----------

  /** The runs of a text read so far, with the last one still to be decided left empty. */
  ghost function Undecided(content: seq<string>, gaps: seq<seq<string>>): (r: seq<seq<string>>)
    requires |gaps| == |content| + 1
    ensures |r| == |gaps|
  {
    Collapsed(content, gaps)[|content| := []]
  }

  /** One more line closes the last run; the runs before it are decided already. */
  lemma {:induction false} CollapsedStep(content: seq<string>, gaps: seq<seq<string>>, line: string)
    requires |gaps| == |content| + 1
    ensures Collapsed(content + [line], gaps + [[]])
            == Undecided(content, gaps)[|content| := CollapseRun(Scan(content), Some(line), gaps[|content|])] + [[]]
  {
    var n := |content|;
    var more := content + [line];
    forall p | 0 <= p < n ensures more[..p] == content[..p] && NextLine(more, p) == NextLine(content, p) {
    }
    assert more[..n] == content;
  }

  lemma {:induction false} UndecidedAppend(content: seq<string>, gaps: seq<seq<string>>, line: string)
    requires |gaps| == |content| + 1
    ensures Weave(content + [line], Collapsed(content + [line], gaps + [[]]))
            == Weave(content, Undecided(content, gaps)) + CollapseRun(Scan(content), Some(line), gaps[|content|]) + [line]
    ensures Collapsed(content + [line], gaps + [[]])[|content| + 1] == []
  {
    var n := |content|;
    var undecided := Undecided(content, gaps);
    var run := CollapseRun(Scan(content), Some(line), gaps[n]);
    CollapsedStep(content, gaps, line);
    assert [] + run == run;
    WeaveExtendRun(content, undecided, run);
    WeaveAppendLine(content, undecided[n := run], line);
  }

  lemma {:induction false} UndecidedFinish(content: seq<string>, gaps: seq<seq<string>>)
    requires |gaps| == |content| + 1
    ensures Weave(content, Collapsed(content, gaps))
            == Weave(content, Undecided(content, gaps)) + CollapseRun(Scan(content), None, gaps[|content|])
  {
    var n := |content|;
    assert content[..n] == content;
    var run := Collapsed(content, gaps)[n];
    assert [] + run == run;
    WeaveExtendRun(content, Undecided(content, gaps), run);
    assert Undecided(content, gaps)[n := run] == Collapsed(content, gaps);
  }

  lemma UndecidedSameRun(content: seq<string>, gaps: seq<seq<string>>, run: seq<string>)
    requires |gaps| == |content| + 1
    ensures Undecided(content, gaps[|content| := run]) == Undecided(content, gaps)
  {
  }

  lemma DecidedIsUndecided(content: seq<string>, gaps: seq<seq<string>>)
    requires |gaps| == |content| + 1
    requires gaps[|content|] == []
    ensures Undecided(content, gaps) == Collapsed(content, gaps)
  {
  }

  /** What has been read and decided after `k` lines. */
  ghost predicate ReadTo(lines: seq<string>, k: nat, content: seq<string>, gaps: seq<seq<string>>, block: Block, decided: seq<string>) {
    && k <= |lines|
    && content == Content(lines[..k]) && gaps == Gaps(lines[..k])
    && |gaps| == |content| + 1
    && block == Scan(content)
    && decided == Weave(content, Undecided(content, gaps))
  }

  ghost predicate EndsFull(decided: seq<string>) {
    decided == [] || !Blank(decided[|decided| - 1])
  }

  lemma EmptyIsBlank()
    ensures Blank("")
  {
  }

  lemma {:induction false} ReadStart(lines: seq<string>)
    ensures ReadTo(lines, 0, [], [[]], Outside, [])
  {
  }

  lemma {:induction false} ReadBlank(lines: seq<string>, k: nat, content: seq<string>, gaps: seq<seq<string>>, block: Block, decided: seq<string>)
    requires k < |lines| && Blank(lines[k]) && ReadTo(lines, k, content, gaps, block, decided)
    ensures ReadTo(lines, k + 1, content, gaps[|content| := gaps[|content|] + [lines[k]]], block, decided)
  {
    PartsStep(lines, k);
    UndecidedSameRun(content, gaps, gaps[|content|] + [lines[k]]);
  }

  ghost function Closed(decided: seq<string>, run: seq<string>, line: string): seq<string> {
    (if run == [] then decided else decided + run) + [line]
  }

  lemma {:induction false} ReadLine(lines: seq<string>, k: nat, content: seq<string>, gaps: seq<seq<string>>, block: Block, decided: seq<string>)
    requires k < |lines| && !Blank(lines[k]) && ReadTo(lines, k, content, gaps, block, decided)
    ensures ReadTo(lines, k + 1, content + [lines[k]], gaps + [[]], block.After(lines[k]),
                   Closed(decided, CollapseRun(block, Some(lines[k]), gaps[|content|]), lines[k]))
    ensures InScalar(lines, k) <==> block.Holds(lines[k])
  {
    assert decided + [] == decided;
    PartsStep(lines, k);
    UndecidedAppend(content, gaps, lines[k]);
    DecidedIsUndecided(content + [lines[k]], gaps + [[]]);
    assert (content + [lines[k]])[..|content|] == content;
  }

  lemma {:induction false} ReadEnd(lines: seq<string>, content: seq<string>, gaps: seq<seq<string>>, block: Block, decided: seq<string>)
    requires ReadTo(lines, |lines|, content, gaps, block, decided)
    ensures CollapseLines(lines) ==
            var run := CollapseRun(block, None, gaps[|content|]); if run == [] then decided else decided + run
  {
    assert lines[..|lines|] == lines;
    UndecidedFinish(content, gaps);
    assert decided + [] == decided;
  }

  /** The loop with its pending blanks is the collapse pass. The non-blank lines it takes for scalar
      content are those the mask scanner marks. */
  method CollapseBlankLines(text: string) returns (collapsed: string, ghost kept: seq<bool>)
    ensures collapsed == CollapseText(text)
    ensures var lines := Split(text);
            |kept| == |lines| && forall i | 0 <= i < |lines| && !Blank(lines[i]) :: kept[i] <==> InScalar(lines, i)
  {
    hide HeaderOf, Indent, ReadTo, Blank, Split, Join, InScalar;
    kept := [];
    EmptyIsBlank();
    var lines := Split(text);
    var result: seq<string> := [];
    var parent: Option<nat>, explicitIndent: Option<nat>, contentIndent: Option<nat> := None, None, None;
    var keep := false;
    var pending: seq<string> := [];
    ghost var content: seq<string>, gaps: seq<seq<string>>, block, decided: seq<string> := [], [[]], Outside, [];
    ReadStart(lines);
    for index := 0 to |lines|
      invariant ReadTo(lines, index, content, gaps, block, decided)
      invariant |kept| == index && forall i | 0 <= i < index && !Blank(lines[i]) :: kept[i] <==> InScalar(lines, i)
      invariant |gaps| == |content| + 1 && EndsFull(decided)
      invariant Carries(parent, explicitIndent, contentIndent, block)
      invariant parent.Some? ==> block.keep == keep && pending == gaps[|content|] && result == decided
      invariant parent.None? ==> pending == []
      invariant parent.None? && gaps[|content|] == [] ==> result == decided
      invariant parent.None? && gaps[|content|] != [] ==> result == decided + [""]
    {
      var line := lines[index];
      ghost var before, run := block, gaps[|content|];
      if Blank(line) {
        ReadBlank(lines, index, content, gaps, block, decided);
        gaps := gaps[|content| := run + [line]];
      } else {
        ReadLine(lines, index, content, gaps, block, decided);
        content, gaps := content + [line], gaps + [[]];
        decided := Closed(decided, CollapseRun(block, Some(line), run), line);
        block := block.After(line);
      }
      kept := kept + [false];
      if parent.Some? {
        if Blank(line) {
          pending := pending + [line];
          continue;
        }
        var minimum := FirstIndent(explicitIndent, contentIndent);
        if Indent(line) <= parent.value || (minimum.Some? && Indent(line) < minimum.value) {
          assert !before.Holds(line);
          if keep {
            result := result + pending;
          } else if pending != [] && (result == [] || !Blank(result[|result| - 1])) {
            result := result + [""];
          }
          pending := [];
          parent, contentIndent, explicitIndent := None, None, None;
          keep := false;
        } else {
          assert before.Holds(line);
          kept := kept[index := true];
          result := result + pending;
          pending := [];
          if contentIndent.None? && explicitIndent.None? {
            contentIndent := Some(Indent(line));
          }
          result := result + [line];
          continue;
        }
      }
      if Blank(line) {
        if result != [] && Blank(result[|result| - 1]) {
          continue;
        }
        result := result + [""];
      } else {
        result := result + [line];
        var header := HeaderOf(line);
        if header.Some? {
          parent, explicitIndent := Some(header.value.parent), header.value.explicitIndent;
          keep := header.value.keep;
        }
      }
    }
    ReadEnd(lines, content, gaps, block, decided);
    if pending != [] {
      if keep {
        result := result + pending;
      } else if result == [] || !Blank(result[|result| - 1]) {
        result := result + [""];
      }
    }
    return Join(result), kept;
  }

  // ---------- task lists ----------

  /** The mask a scanner hands to the structural passes. */
  ghost predicate IsMask(lines: seq<string>, mask: seq<bool>) {
    |mask| == |lines| && forall i | 0 <= i < |lines| :: mask[i] <==> InScalar(lines, i)
  }

  predicate IsRelevantLine(line: string, masked: bool) {
    !masked && !Blank(line) && !IsCommentLine(line) && Trim(line, IsSpace) != "---"
  }

  lemma {:induction false} RelevantStep(lines: seq<string>, k: nat)
    requires k < |lines|
    ensures Relevant(Content(lines[..k + 1])) ==
            if IsRelevantLine(lines[k], InScalar(lines, k)) then Relevant(Content(lines[..k])) + [lines[k]]
            else Relevant(Content(lines[..k]))
  {
    PartsStep(lines, k);
    var content := Content(lines[..k]);
    assert (content + [lines[k]])[..|content|] == content;
  }

  lemma {:induction false} RelevantOfPrefix(lines: seq<string>, k: nat)
    requires k <= |lines|
    ensures Relevant(Content(lines[..k])) <= Relevant(Content(lines))
    decreases |lines| - k
  {
    if k == |lines| {
      assert lines[..k] == lines;
    } else {
      RelevantStep(lines, k);
      RelevantOfPrefix(lines, k + 1);
    }
  }

  lemma {:induction false} NextItemIs(lines: seq<string>, i: nat, j: nat)
    requires i <= j <= |lines|
    requires forall k | i <= k < j :: !IsItem(lines[k])
    requires j < |lines| ==> IsItem(lines[j])
    ensures NextItem(lines, i) == j
    decreases j - i
  {
  }

  /** Reading the lines of the first list item decides whether the file is a bare task list. */
  method IsBareTaskList(lines: seq<string>, mask: seq<bool>) returns (bare: bool)
    requires IsMask(lines, mask)
    ensures bare <==> IsBare(Content(lines))
  {
    hide ItemIndent, Relevant, Content, InScalar, IsCommentLine, Blank, Trim, IsPlayLine;
    var firstItemLines: seq<string> := [];
    var foundFirst := false;
    var index := 0;
    ghost var read: seq<string> := [];
    NothingRelevant(lines);
    while index < |lines|
      invariant 0 <= index <= |lines|
      invariant read == Relevant(Content(lines[..index]))
      invariant firstItemLines == read
      invariant foundFirst <==> read != []
      invariant foundFirst ==> IsItem(read[0])
      invariant forall i | 1 <= i < |read| :: !IsItem(read[i])
      decreases |lines| - index
    {
      var line := lines[index];
      RelevantStep(lines, index);
      if !IsRelevantLine(line, mask[index]) {
        index := index + 1;
        continue;
      }
      RelevantOfPrefix(lines, index + 1);
      if !foundFirst {
        if !IsItem(line) {
          return false;
        }
        foundFirst := true;
      } else if IsItem(line) {
        break;
      }
      firstItemLines := firstItemLines + [line];
      read := read + [line];
      index := index + 1;
    }
    ghost var all := Relevant(Content(lines));
    assert lines[..|lines|] == lines;
    RelevantOfPrefix(lines, index);
    if !foundFirst {
      return false;
    }
    NextItemIs(all, 1, |read|);
    for i := 0 to |firstItemLines|
      invariant forall j | 0 <= j < i :: !IsPlayLine(firstItemLines[j])
    {
      if IsPlayLine(firstItemLines[i]) {
        assert all[i] == read[i];
        return false;
      }
    }
    return true;
  }

  lemma NothingRelevant(lines: seq<string>)
    ensures Relevant(Content(lines[..0])) == []
  {
  }

  // ---------- task membership ----------

  function Deeper<T>(m: map<int, T>, indent: int): set<int> {
    set s | s in m && s >= indent
  }

  /** Popping the entries saved at this indentation or deeper, one at a time. */
  method PopDeeper<T>(saved: map<int, T>, indent: int) returns (kept: map<int, T>)
    ensures kept == Below(saved, indent)
    ensures forall k :: k in kept <==> k in saved && k < indent
    ensures forall k | k in kept :: kept[k] == saved[k]
  {
    kept := saved;
    var deeper := Deeper(saved, indent);
    while deeper != {}
      invariant deeper == Deeper(kept, indent)
      invariant Below(kept, indent) == Below(saved, indent)
      decreases |deeper|
    {
      var s :| s in deeper;
      PopKeepsBelow(kept, s, indent);
      kept, deeper := kept - {s}, deeper - {s};
    }
    NothingDeeper(kept, indent);
  }

  lemma PopKeepsBelow<T>(m: map<int, T>, s: int, indent: int)
    requires s >= indent
    ensures Below(m - {s}, indent) == Below(m, indent)
  {
  }

  lemma NothingDeeper<T>(m: map<int, T>, indent: int)
    requires Deeper(m, indent) == {}
    ensures m == Below(m, indent)
  {
    assert forall s | s in m :: s in Deeper(m, indent) <==> s >= indent;
  }

  /** The number of non-blank lines before line `i`. */
  ghost function Rank(lines: seq<string>, i: nat): nat
    requires i <= |lines|
  {
    |Content(lines[..i])|
  }

  /** `marked` holds the positions among the first `k` lines of the non-blank lines `numbered`. */
  ghost predicate Marks(lines: seq<string>, k: nat, marked: set<nat>, numbered: set<nat>)
    requires k <= |lines|
  {
    && (forall i | i in marked :: i < k)
    && (forall p | p in numbered :: p < Rank(lines, k))
    && (forall i | 0 <= i < k && !Blank(lines[i]) :: i in marked <==> Rank(lines, i) in numbered)
  }

  lemma {:induction false} RankStep(lines: seq<string>, k: nat)
    requires k < |lines|
    ensures Rank(lines, k + 1) == if Blank(lines[k]) then Rank(lines, k) else Rank(lines, k) + 1
  {
    PartsStep(lines, k);
  }

  lemma {:induction false} RankBefore(lines: seq<string>, i: nat, k: nat)
    requires i < k <= |lines| && !Blank(lines[i])
    ensures Rank(lines, i) < Rank(lines, k)
  {
    RankStep(lines, i);
    ContentOfPrefix(lines[..k], i + 1);
    assert lines[..k][..i + 1] == lines[..i + 1];
  }

  lemma {:induction false} MarksStep(lines: seq<string>, k: nat, marked: set<nat>, numbered: set<nat>)
    requires k < |lines| && Marks(lines, k, marked, numbered)
    ensures Marks(lines, k + 1, marked, numbered)
    ensures !Blank(lines[k]) ==> Marks(lines, k + 1, marked + {k}, numbered + {Rank(lines, k)})
  {
    RankStep(lines, k);
    forall i | 0 <= i < k && !Blank(lines[i]) ensures Rank(lines, i) < Rank(lines, k) {
      RankBefore(lines, i, k);
    }
  }

  lemma {:induction false} MembersStep(lines: seq<string>, k: nat, bare: bool)
    requires k < |lines|
    ensures Members(Content(lines[..k + 1]), bare) ==
            var before := Members(Content(lines[..k]), bare);
            if Blank(lines[k]) || InScalar(lines, k) || IsCommentLine(lines[k]) then before
            else AfterLine(before, bare, Rank(lines, k), lines[k])
  {
    PartsStep(lines, k);
    var content := Content(lines[..k]);
    assert (content + [lines[k]])[..|content|] == content;
  }

  lemma NoMembers(lines: seq<string>, bare: bool)
    ensures Members(Content(lines[..0]), bare) == Membership(map[], map[], {}, {})
    ensures Marks(lines, 0, {}, {})
  {
  }

  /** One forward pass over the lines finds the task items and the keys directly inside tasks. */
  method TaskLayoutMembership(lines: seq<string>, mask: seq<bool>) returns (taskItems: set<nat>, taskKeys: set<nat>)
    requires IsMask(lines, mask)
    ensures var m := Members(Content(lines), IsBare(Content(lines)));
            Marks(lines, |lines|, taskItems, m.items) && Marks(lines, |lines|, taskKeys, m.keys)
  {
    hide Members, Content, Marks, Below, InScalar, IsCommentLine, Blank, ItemIndent, KeyOf, Indent, Trim, Rank, IsBare, IsTaskListKey;
    var bareTaskList := IsBareTaskList(lines, mask);
    var lastKeys: map<int, string>, lastItems: map<int, bool> := map[], map[];
    taskItems, taskKeys := {}, {};
    NoMembers(lines, bareTaskList);
    ghost var m := Members(Content(lines[..0]), bareTaskList);
    for index := 0 to |lines|
      invariant m == Members(Content(lines[..index]), bareTaskList)
      invariant lastKeys == m.lastKeys && lastItems == m.lastItems
      invariant Marks(lines, index, taskItems, m.items)
      invariant Marks(lines, index, taskKeys, m.keys)
    {
      var line := lines[index];
      MembersStep(lines, index, bareTaskList);
      MarksStep(lines, index, taskItems, m.items);
      MarksStep(lines, index, taskKeys, m.keys);
      if mask[index] || Blank(line) || IsCommentLine(line) {
        continue;
      }
      m := AfterLine(m, bareTaskList, Rank(lines, index), line);
      lastKeys := PopDeeper(lastKeys, Indent(line));
      lastItems := PopDeeper(lastItems, Indent(line));
      var item := ItemIndent(line);
      if item.Some? {
        var itemIndent: int := item.value;
        var parentKey := if itemIndent - 2 in lastKeys then lastKeys[itemIndent - 2] else "";
        var isTaskItem := (itemIndent == 0 && bareTaskList) || IsTaskListKey(parentKey);
        lastItems := lastItems[itemIndent := isTaskItem];
        if isTaskItem {
          taskItems := taskItems + {index};
        }
      }
      var key := KeyOf(line);
      if key.Some? {
        var keyIndent: int := key.value.indent;
        if keyIndent - 2 in lastItems && lastItems[keyIndent - 2] {
          taskKeys := taskKeys + {index};
        }
        lastKeys := lastKeys[keyIndent := Trim(key.value.name, IsDashOrSpace)];
      }
    }
    assert lines[..|lines|] == lines;
  }

  // ---------- stripping blank lines inside tasks ----------

  /** The strip pass on the runs read so far, decided by the whole text. */
  ghost function StrippedSoFar(whole: seq<string>, gaps: seq<seq<string>>): (r: seq<seq<string>>)
    ensures |r| == |gaps|
  {
    seq(|gaps|, p requires 0 <= p < |gaps| => StripRun(whole, p, gaps[p]))
  }

  /** What the strip loop has written after `k` lines. */
  ghost predicate StrippedTo(lines: seq<string>, k: nat, result: seq<string>) {
    && k <= |lines|
    && result == Weave(Content(lines[..k]), StrippedSoFar(Content(lines), Gaps(lines[..k])))
  }

  lemma {:induction false} StripStep(lines: seq<string>, k: nat, result: seq<string>)
    requires k < |lines| && StrippedTo(lines, k, result)
    ensures !Blank(lines[k]) || !Removes(Content(lines), Rank(lines, k)) ==> StrippedTo(lines, k + 1, result + [lines[k]])
    ensures Blank(lines[k]) && Removes(Content(lines), Rank(lines, k)) ==> StrippedTo(lines, k + 1, result)
  {
    hide Removes, Content, Gaps, Weave, Blank;
    var whole, content, gaps := Content(lines), Content(lines[..k]), Gaps(lines[..k]);
    var n := |content|;
    PartsStep(lines, k);
    if !Blank(lines[k]) {
      assert StrippedSoFar(whole, gaps + [[]]) == StrippedSoFar(whole, gaps) + [[]];
      WeaveAppendLine(content, StrippedSoFar(whole, gaps), lines[k]);
    } else if Removes(whole, n) {
      assert StrippedSoFar(whole, gaps[n := gaps[n] + [lines[k]]]) == StrippedSoFar(whole, gaps);
    } else {
      assert StrippedSoFar(whole, gaps[n := gaps[n] + [lines[k]]])
          == StrippedSoFar(whole, gaps)[n := StrippedSoFar(whole, gaps)[n] + [lines[k]]];
      WeaveExtendRun(content, StrippedSoFar(whole, gaps), [lines[k]]);
    }
  }

  lemma StripStart(lines: seq<string>)
    ensures StrippedTo(lines, 0, [])
  {
  }

  lemma StripEnd(lines: seq<string>, result: seq<string>)
    requires StrippedTo(lines, |lines|, result)
    ensures result == StripLines(lines)
  {
    assert lines[..|lines|] == lines;
  }

  /** Blank lines do not move the reader. */
  lemma {:induction false} BlanksBetween(lines: seq<string>, i: nat, j: nat)
    requires i <= j <= |lines|
    requires forall k | i <= k < j :: Blank(lines[k])
    ensures Content(lines[..i]) == Content(lines[..j])
    decreases j - i
  {
    if i < j {
      PartsStep(lines, i);
      BlanksBetween(lines, i + 1, j);
    }
  }

  /** The nearest non-blank lines above and below a blank line are its neighbours by number. */
  lemma {:induction false} Neighbours(lines: seq<string>, previous: int, index: nat, following: nat)
    requires -1 <= previous < index < following <= |lines|
    requires forall k | previous < k < following :: Blank(lines[k])
    requires previous >= 0 ==> !Blank(lines[previous])
    requires following < |lines| ==> !Blank(lines[following])
    ensures Rank(lines, index) == 0 <==> previous < 0
    ensures Rank(lines, index) == |Content(lines)| <==> following == |lines|
    ensures Rank(lines, index) <= |Content(lines)| && Content(lines)[..Rank(lines, index)] == Content(lines[..index])
    ensures previous >= 0 ==> Rank(lines, previous) == Rank(lines, index) - 1
                              && Content(lines)[Rank(lines, index) - 1] == lines[previous]
    ensures following < |lines| ==> Content(lines)[Rank(lines, index)] == lines[following]
  {
    BlanksBetween(lines, previous + 1, index);
    BlanksBetween(lines, index, following);
    ContentOfPrefix(lines, index);
    if previous >= 0 {
      PartsAt(lines, previous);
      RankStep(lines, previous);
    }
    if following < |lines| {
      PartsAt(lines, following);
    } else {
      assert lines[..following] == lines;
    }
  }

  /** The strip loop's condition on the nearest non-blank lines decides as the pass does. */
  method IsInsideTask(lines: seq<string>, mask: seq<bool>, taskItems: set<nat>, taskKeys: set<nat>, index: nat)
    returns (inside: bool)
    requires IsMask(lines, mask) && index < |lines| && Blank(lines[index]) && !mask[index]
    requires var m := Members(Content(lines), IsBare(Content(lines)));
             Marks(lines, |lines|, taskItems, m.items) && Marks(lines, |lines|, taskKeys, m.keys)
    ensures inside <==> Removes(Content(lines), Rank(lines, index))
  {
    hide Members, Content, IsBare, ItemIndent, KeyOf, Blank, Scan;
    var previous: int := index - 1;
    while previous >= 0 && Blank(lines[previous])
      invariant -1 <= previous < index
      invariant forall k | previous < k <= index :: Blank(lines[k])
    {
      previous := previous - 1;
    }
    var following := index + 1;
    while following < |lines| && Blank(lines[following])
      invariant index < following <= |lines|
      invariant forall k | index <= k < following :: Blank(lines[k])
    {
      following := following + 1;
    }
    Neighbours(lines, previous, index, following);
    assert !InScalar(lines, index);
    if previous < 0 || following >= |lines| {
      return false;
    }
    var previousKey, followingKey := KeyOf(lines[previous]), KeyOf(lines[following]);
    if previousKey.Some? && followingKey.Some? {
      var indent := previousKey.value.indent;
      if indent == followingKey.value.indent && indent >= 2 && previous in taskKeys {
        return true;
      }
      var taskItem := ItemIndent(lines[previous]);
      if taskItem.Some? {
        if followingKey.value.indent == taskItem.value + 2 && previous in taskItems {
          return true;
        }
      }
    }
    return false;
  }

  /** The loop that drops blank lines between sibling keys of a task is the strip pass. */
  method StripTaskInternalBlanks(text: string) returns (stripped: string)
    ensures stripped == StripText(text)
  {
    hide Split, Join, Content, Gaps, Weave, StrippedTo, Removes, Members, IsBare, Marks, InScalar, StripLines, Blank;
    var lines := Split(text);
    var mask := BlockScalarContentLines(lines);
    var taskItems, taskKeys := TaskLayoutMembership(lines, mask);
    var result: seq<string> := [];
    StripStart(lines);
    for index := 0 to |lines|
      invariant StrippedTo(lines, index, result)
    {
      var line := lines[index];
      StripStep(lines, index, result);
      if !Blank(line) {
        result := result + [line];
        continue;
      }
      if mask[index] {
        OpenScalarKeepsRun(lines, index);
        result := result + [line];
        continue;
      }
      var inside := IsInsideTask(lines, mask, taskItems, taskKeys, index);
      if !inside {
        result := result + [line];
      }
    }
    StripEnd(lines, result);
    return Join(result);
  }

  lemma {:induction false} OpenScalarKeepsRun(lines: seq<string>, k: nat)
    requires k < |lines| && Blank(lines[k]) && InScalar(lines, k)
    ensures !Removes(Content(lines), Rank(lines, k))
  {
    hide SiblingKeys, Content, Scan;
    ContentOfPrefix(lines, k);
    assert Content(lines)[..Rank(lines, k)] == Content(lines[..k]);
  }

  // ---------- adding blank lines between tasks ----------

  /** The spacing pass on the runs read so far; the last one may still grow. */
  ghost function SpacedSoFar(lines: seq<string>, k: nat): (r: seq<seq<string>>)
    requires k <= |lines|
    ensures |r| == Rank(lines, k) + 1
  {
    var gaps := Gaps(lines[..k]);
    var n := Rank(lines, k);
    seq(n + 1, p requires 0 <= p <= n =>
      if p < n && p <= |Content(lines)| then SpaceRun(Content(lines), Gaps(lines), p) else gaps[p])
  }

  ghost predicate SpacedTo(lines: seq<string>, k: nat, result: seq<string>) {
    && k <= |lines|
    && result == Weave(Content(lines[..k]), SpacedSoFar(lines, k))
  }

  lemma {:induction false} SpaceBlank(lines: seq<string>, k: nat, result: seq<string>)
    requires k < |lines| && SpacedTo(lines, k, result) && Blank(lines[k])
    ensures SpacedTo(lines, k + 1, result + [lines[k]])
  {
    hide Content, Gaps, Weave, Inserts, Blank;
    PartsStep(lines, k);
    var n := Rank(lines, k);
    assert SpacedSoFar(lines, k + 1) == SpacedSoFar(lines, k)[n := SpacedSoFar(lines, k)[n] + [lines[k]]];
    WeaveExtendRun(Content(lines[..k]), SpacedSoFar(lines, k), [lines[k]]);
  }

  /** A non-blank line closes a run: the pass inserts before it only if the run is empty. */
  lemma {:induction false} SpaceLine(lines: seq<string>, k: nat, result: seq<string>)
    requires k < |lines| && SpacedTo(lines, k, result) && !Blank(lines[k])
    ensures Rank(lines, k) < |Content(lines)|
    ensures Gaps(lines)[Rank(lines, k)] == [] && Inserts(Content(lines), Gaps(lines), Rank(lines, k))
            ==> SpacedTo(lines, k + 1, result + [""] + [lines[k]])
    ensures !(Gaps(lines)[Rank(lines, k)] == [] && Inserts(Content(lines), Gaps(lines), Rank(lines, k)))
            ==> SpacedTo(lines, k + 1, result + [lines[k]])
  {
    hide Content, Gaps, Weave, Inserts, Blank;
    PartsStep(lines, k);
    PartsAt(lines, k);
    var n := Rank(lines, k);
    var before := SpacedSoFar(lines, k);
    var run := SpaceRun(Content(lines), Gaps(lines), n);
    assert SpacedSoFar(lines, k + 1) == before[n := run] + [[]];
    WeaveAppendLine(Content(lines[..k]), before[n := run], lines[k]);
    if Gaps(lines)[n] == [] && Inserts(Content(lines), Gaps(lines), n) {
      assert [] + run == run;
      WeaveExtendRun(Content(lines[..k]), before, run);
    } else {
      assert before[n := run] == before;
    }
  }

  /** What was written last is a blank line exactly when the run being read is not empty. */
  lemma {:induction false} SpacedEnd(lines: seq<string>, k: nat, result: seq<string>)
    requires 0 < k < |lines| && SpacedTo(lines, k, result) && !Blank(lines[k])
    ensures result != [] && Rank(lines, k) < |Content(lines)|
    ensures Gaps(lines)[Rank(lines, k)] == [] <==> !Blank(result[|result| - 1])
    ensures !Blank(result[|result| - 1]) ==> 0 < Rank(lines, k) && result[|result| - 1] == Content(lines)[Rank(lines, k) - 1]
  {
    PartsAt(lines, k);
    var content, gaps := Content(lines[..k]), Gaps(lines[..k]);
    PartsMembers(lines[..k]);
    WeaveParts(lines[..k]);
    var n := |content|;
    assert AllBlank(gaps[n]);
    assert SpacedSoFar(lines, k)[n] == gaps[n];
  }

  lemma {:induction false} SpacingStep(lines: seq<string>, k: nat, skip: nat, bare: bool)
    requires k < |lines| && (skip > Rank(lines, k) ==> Blank(lines[k]))
    ensures SpacingOf(Content(lines[..k + 1]), skip, bare) ==
            var before := SpacingOf(Content(lines[..k]), skip, bare);
            if Blank(lines[k]) || InScalar(lines, k) then before else before.After(lines[k])
  {
    PartsStep(lines, k);
    var content := Content(lines[..k]);
    assert (content + [lines[k]])[..|content|] == content;
  }

  lemma NeverAtEnds(content: seq<string>, gaps: seq<seq<string>>)
    requires |gaps| == |content| + 1
    ensures !Inserts(content, gaps, 0) && !Inserts(content, gaps, |content|)
  {
  }

  lemma {:induction false} SpaceStart(lines: seq<string>, bare: bool)
    requires lines != []
    ensures SpacedTo(lines, 1, [lines[0]])
    ensures Skipped(Gaps(lines)) == if Blank(lines[0]) then 0 else 1
    ensures SpacingOf(Content(lines[..1]), Skipped(Gaps(lines)), bare) == StartSpacing(bare)
    ensures forall k | 1 <= k < |lines| && Skipped(Gaps(lines)) > Rank(lines, k) :: Blank(lines[k])
  {
    hide Inserts, Blank, IsScalarLine;
    PartsStep(lines, 0);
    PartsOfPrefix(lines, 1);
    NeverAtEnds(Content(lines), Gaps(lines));
    assert lines[..0] == [] && Gaps([]) == [[]] && [] + [lines[0]] == [lines[0]];
    if !Blank(lines[0]) {
      assert SpaceRun(Content(lines), Gaps(lines), 0) == Gaps(lines)[0];
      assert SpacedSoFar(lines, 1) == [[]] + [[]];
      assert Content(lines[..1]) == [lines[0]] == [] + [lines[0]];
      WeaveAppendLine([], [[]], lines[0]);
      assert Weave([], [[]]) + [lines[0]] == [lines[0]];
      forall k | 1 <= k < |lines| ensures Rank(lines, k) >= 1 {
        RankBefore(lines, 0, k);
      }
    } else {
      assert SpacedSoFar(lines, 1) == [[lines[0]]];
    }
  }

  lemma SpaceEnd(lines: seq<string>, result: seq<string>)
    requires SpacedTo(lines, |lines|, result)
    ensures result == SpaceLines(lines)
  {
    hide Inserts, Content, Gaps;
    assert lines[..|lines|] == lines;
    NeverAtEnds(Content(lines), Gaps(lines));
    assert SpacedSoFar(lines, |lines|) == Spaced(Content(lines), Gaps(lines));
  }

  /** Whether the pass inserts before line `k`, from the state after it and its raw neighbours. */
  lemma {:induction false} InsertsAt(lines: seq<string>, k: nat, s: Spacing)
    requires 0 < k < |lines| && !Blank(lines[k]) && 0 < Rank(lines, k) < |Content(lines)|
    requires s == SpacingOf(Content(lines[..k + 1]), Skipped(Gaps(lines)), IsBare(Content(lines)))
    ensures Inserts(Content(lines), Gaps(lines), Rank(lines, k)) <==>
            && !InScalar(lines, k) && !IsTaskListHeader(lines[k])
            && Separates(s, Content(lines)[Rank(lines, k) - 1], lines[k],
                         if k + 1 < |lines| then Some(lines[k + 1]) else None)
  {
    hide Separates, SpacingOf, Scan, IsBare, Content, Gaps, IsTaskListHeader;
    PartsAt(lines, k);
    PartsStep(lines, k);
    LineAfterIs(lines, k);
    var content := Content(lines);
    assert content[..Rank(lines, k) + 1] == content[..Rank(lines, k)] + [content[Rank(lines, k)]];
  }

  /** The loop that separates task items is the spacing pass. */
  method AddTaskSpacing(text: string) returns (spaced: string)
    ensures spaced == SpaceText(text)
  {
    hide Split, Join, Content, Gaps, SpacedTo, Inserts, InScalar, IsBare, SpacingOf, SpaceLines, Blank, Rank,
         ItemIndent, IsTaskListHeader, WideIndent, IsListOpener, StartsWith;
    var lines := Split(text);
    var result := [lines[0]];
    var mask := BlockScalarContentLines(lines);
    var inTaskList := IsBareTaskList(lines, mask);
    var taskListIndent: int := if inTaskList then 0 else -1;
    ghost var bare, skip := inTaskList, Skipped(Gaps(lines));
    SpaceStart(lines, bare);
    for i := 1 to |lines|
      invariant SpacedTo(lines, i, result)
      invariant Spacing(inTaskList, taskListIndent) == SpacingOf(Content(lines[..i]), skip, bare)
    {
      var line := lines[i];
      SpacingStep(lines, i, skip, bare);
      if Blank(line) {
        SpaceBlank(lines, i, result);
        result := result + [line];
        continue;
      }
      SpaceLine(lines, i, result);
      SpacedEnd(lines, i, result);
      ghost var after := SpacingOf(Content(lines[..i + 1]), skip, bare);
      if 0 < Rank(lines, i) {
        InsertsAt(lines, i, after);
      }
      if mask[i] {
        result := result + [line];
        continue;
      }
      if IsTaskListHeader(line) {
        inTaskList, taskListIndent := true, WideIndent(line);
        result := result + [line];
        continue;
      }
      if inTaskList && !StartsWith(line, "#") {
        if WideIndent(line) <= taskListIndent && ItemIndent(line).None? {
          inTaskList := false;
        }
      }
      var item := ItemIndent(line);
      if inTaskList && item.Some? && result != [] && !Blank(result[|result| - 1]) {
        if taskListIndent >= 0 && item.value > taskListIndent + 2 {
          result := result + [line];
          continue;
        }
        var isMapping := i + 1 < |lines| && StartsWith(lines[i + 1], line[..item.value] + "  ");
        var isAction := ':' in line;
        if (isMapping || isAction) && !IsListOpener(result[|result| - 1]) {
          result := result + [""];
        }
      }
      result := result + [line];
    }
    SpaceEnd(lines, result);
    return Join(result);
  }

  /** The three loops in the order the formatter runs them. */
  method FormatDumpedText(text: string) returns (formatted: string)
    ensures formatted == FormatLayout(text)
    ensures Content(Split(formatted)) == Content(Split(text))
  {
    hide Content, Split, CollapseText, StripText, SpaceText;
    ghost var kept;
    formatted, kept := CollapseBlankLines(text);
    formatted := StripTaskInternalBlanks(formatted);
    formatted := AddTaskSpacing(formatted);
    FormatKeepsContent(text);
  }
}
