/** A text as its non-blank lines and the runs of blank lines around them.

    Every layout pass keeps the non-blank lines and rewrites the runs, so a pass is a map on
    runs. A run is numbered by how many non-blank lines come before it: run 0 leads the text. */
module Layout {
  import opened Text

  /** The non-blank lines, in order. */
  function Content(lines: seq<string>): (content: seq<string>)
    ensures forall p | 0 <= p < |content| :: !Blank(content[p])
  {
    if lines == [] then []
    else
      var before := Content(lines[..|lines| - 1]);
      if Blank(lines[|lines| - 1]) then before else before + [lines[|lines| - 1]]
  }

  /** The blank runs before, between and after the non-blank lines. */
  function Gaps(lines: seq<string>): (gaps: seq<seq<string>>)
    ensures |gaps| == |Content(lines)| + 1
  {
    if lines == [] then [[]]
    else
      var before := Gaps(lines[..|lines| - 1]);
      var n := |before| - 1;
      if Blank(lines[|lines| - 1]) then before[n := before[n] + [lines[|lines| - 1]]] else before + [[]]
  }

  /** The text with these non-blank lines and these blank runs. */
  function Weave(content: seq<string>, gaps: seq<seq<string>>): (lines: seq<string>)
    requires |gaps| == |content| + 1
  {
    var n := |content|;
    if n == 0 then gaps[0] else Weave(content[..n - 1], gaps[..n]) + [content[n - 1]] + gaps[n]
  }

  /** The blank runs hold only blank lines, and both parts only lines of the text. */
  lemma {:induction false} PartsMembers(lines: seq<string>)
    ensures forall p | 0 <= p < |Gaps(lines)| :: AllBlank(Gaps(lines)[p])
    ensures forall p | 0 <= p < |Content(lines)| :: Content(lines)[p] in lines
    ensures forall p, k | 0 <= p < |Gaps(lines)| && 0 <= k < |Gaps(lines)[p]| :: Gaps(lines)[p][k] in lines
  {
    if lines != [] {
      PartsMembers(lines[..|lines| - 1]);
    }
  }

  predicate AllBlank(run: seq<string>) {
    forall k | 0 <= k < |run| :: Blank(run[k])
  }

  lemma {:induction false} WeaveAppendLine(content: seq<string>, gaps: seq<seq<string>>, line: string)
    requires |gaps| == |content| + 1
    ensures Weave(content + [line], gaps + [[]]) == Weave(content, gaps) + [line]
  {
  }

  lemma {:induction false} WeaveExtendRun(content: seq<string>, gaps: seq<seq<string>>, more: seq<string>)
    requires |gaps| == |content| + 1
    ensures Weave(content, gaps[|content| := gaps[|content|] + more]) == Weave(content, gaps) + more
  {
  }

  /** A text is determined by its non-blank lines and its blank runs. */
  lemma {:induction false} WeaveParts(lines: seq<string>)
    ensures Weave(Content(lines), Gaps(lines)) == lines
  {
    if lines != [] {
      var n := |lines| - 1;
      WeaveParts(lines[..n]);
      assert lines == lines[..n] + [lines[n]];
      if Blank(lines[n]) {
        WeaveExtendRun(Content(lines[..n]), Gaps(lines[..n]), [lines[n]]);
      } else {
        WeaveAppendLine(Content(lines[..n]), Gaps(lines[..n]), lines[n]);
      }
    }
  }

  lemma {:induction false} PartsAppendRun(lines: seq<string>, run: seq<string>)
    requires AllBlank(run)
    ensures Content(lines + run) == Content(lines)
    ensures Gaps(lines + run) ==
            var n := |Content(lines)|; Gaps(lines)[n := Gaps(lines)[n] + run]
  {
    if run == [] {
      assert lines + run == lines;
      var n := |Content(lines)|;
      assert Gaps(lines)[n] + run == Gaps(lines)[n];
    } else {
      var k := |run| - 1;
      PartsAppendRun(lines, run[..k]);
      assert (lines + run)[..|lines| + k] == lines + run[..k];
      assert run == run[..k] + [run[k]];
      var n := |Content(lines)|;
      assert Gaps(lines)[n] + run == Gaps(lines)[n] + run[..k] + [run[k]];
    }
  }

  lemma PartsAppend(lines: seq<string>, line: string, run: seq<string>)
    requires !Blank(line) && AllBlank(run)
    ensures Content(lines + [line] + run) == Content(lines) + [line]
    ensures Gaps(lines + [line] + run) == Gaps(lines) + [run]
  {
    assert (lines + [line])[..|lines|] == lines;
    PartsAppendRun(lines + [line], run);
    assert [] + run == run;
  }

  /** Any choice of non-blank lines and blank runs is the parts of the text it makes. */
  lemma {:induction false} PartsOfWeave(content: seq<string>, gaps: seq<seq<string>>)
    requires |gaps| == |content| + 1
    requires forall p | 0 <= p < |content| :: !Blank(content[p])
    requires forall p | 0 <= p < |gaps| :: AllBlank(gaps[p])
    ensures Content(Weave(content, gaps)) == content
    ensures Gaps(Weave(content, gaps)) == gaps
  {
    var n := |content|;
    if n == 0 {
      PartsAppendRun([], gaps[0]);
      assert [] + gaps[0] == gaps[0];
    } else {
      var before := Weave(content[..n - 1], gaps[..n]);
      PartsOfWeave(content[..n - 1], gaps[..n]);
      PartsAppend(before, content[n - 1], gaps[n]);
      assert content == content[..n - 1] + [content[n - 1]];
      assert gaps == gaps[..n] + [gaps[n]];
    }
  }

  /** One more line, seen from the parts before it. */
  lemma {:induction false} PartsStep(lines: seq<string>, k: nat)
    requires k < |lines|
    ensures Blank(lines[k]) ==>
              && Content(lines[..k + 1]) == Content(lines[..k])
              && var n := |Content(lines[..k])|;
                 Gaps(lines[..k + 1]) == Gaps(lines[..k])[n := Gaps(lines[..k])[n] + [lines[k]]]
    ensures !Blank(lines[k]) ==>
              && Content(lines[..k + 1]) == Content(lines[..k]) + [lines[k]]
              && Gaps(lines[..k + 1]) == Gaps(lines[..k]) + [[]]
  {
    assert lines[..k + 1][..k] == lines[..k];
  }

  /** The non-blank lines of a prefix are a prefix of the non-blank lines. */
  lemma {:induction false} ContentOfPrefix(lines: seq<string>, k: nat)
    requires k <= |lines|
    ensures Content(lines[..k]) <= Content(lines)
    decreases |lines| - k
  {
    if k == |lines| {
      assert lines[..k] == lines;
    } else {
      ContentOfPrefix(lines, k + 1);
      PartsStep(lines, k);
    }
  }

  /** The runs of a prefix are those of the whole text; only the last one may be cut short. */
  lemma {:induction false} PartsOfPrefix(lines: seq<string>, k: nat)
    requires k <= |lines|
    ensures Content(lines[..k]) <= Content(lines)
    ensures Gaps(lines)[..|Content(lines[..k])|] == Gaps(lines[..k])[..|Content(lines[..k])|]
    ensures Gaps(lines[..k])[|Content(lines[..k])|] <= Gaps(lines)[|Content(lines[..k])|]
    decreases |lines| - k
  {
    ContentOfPrefix(lines, k);
    if k == |lines| {
      assert lines[..k] == lines;
    } else {
      PartsOfPrefix(lines, k + 1);
      PartsStep(lines, k);
      var n := |Content(lines[..k])|;
      if !Blank(lines[k]) {
        assert Gaps(lines[..k + 1])[..n + 1] == Gaps(lines[..k]);
        assert Gaps(lines)[n] == Gaps(lines)[..n + 1][n];
        assert Gaps(lines)[..n] == Gaps(lines)[..n + 1][..n];
      }
    }
  }

  /** A non-blank line `k` closes the run before it, and what it is numbered in the whole text. */
  lemma {:induction false} PartsAt(lines: seq<string>, k: nat)
    requires k < |lines| && !Blank(lines[k])
    ensures var n := |Content(lines[..k])|;
            && n < |Content(lines)|
            && Content(lines)[..n] == Content(lines[..k])
            && Content(lines)[n] == lines[k]
            && Gaps(lines)[n] == Gaps(lines[..k])[n]
  {
    PartsStep(lines, k);
    PartsOfPrefix(lines, k + 1);
    PartsOfPrefix(lines, k);
  }

  /** The raw line that follows non-blank line `p`: the first blank of the run after it, or the
      next non-blank line. */
  function LineAfter(content: seq<string>, gaps: seq<seq<string>>, p: nat): Option<string>
    requires |gaps| == |content| + 1 && p < |content|
  {
    if gaps[p + 1] != [] then Some(gaps[p + 1][0])
    else if p + 1 < |content| then Some(content[p + 1])
    else None
  }

  lemma {:induction false} LineAfterIs(lines: seq<string>, k: nat)
    requires k < |lines| && !Blank(lines[k])
    ensures |Content(lines[..k])| < |Content(lines)|
    ensures LineAfter(Content(lines), Gaps(lines), |Content(lines[..k])|)
            == if k + 1 < |lines| then Some(lines[k + 1]) else None
  {
    PartsAt(lines, k);
    PartsStep(lines, k);
    if k + 1 < |lines| {
      PartsStep(lines, k + 1);
      PartsOfPrefix(lines, k + 2);
      if !Blank(lines[k + 1]) { PartsAt(lines, k + 1); }
    } else {
      assert lines[..k + 1] == lines;
    }
  }

  /** Every line of a woven text is one of its non-blank lines or lies in one of its runs. */
  lemma {:induction false} WeaveMembers(content: seq<string>, gaps: seq<seq<string>>, line: string)
    requires |gaps| == |content| + 1
    requires line in Weave(content, gaps)
    ensures line in content || exists p | 0 <= p < |gaps| :: line in gaps[p]
  {
    var n := |content|;
    if n > 0 && line in Weave(content[..n - 1], gaps[..n]) {
      WeaveMembers(content[..n - 1], gaps[..n], line);
      if line !in content[..n - 1] {
        var p :| 0 <= p < n && line in gaps[..n][p];
        assert line in gaps[p];
      }
    } else if n == 0 || line in gaps[n] {
      assert line in gaps[n];
    }
  }
}
