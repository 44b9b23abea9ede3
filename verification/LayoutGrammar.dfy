/** Task files written out: what formatting makes of the blank lines of every such file. */
module LayoutGrammar {
  import opened Text
  import opened YamlLines
  import opened Layout
  import opened LayoutPasses

  // ---------- rows and their lines ----------

  /** What a line is: the item line of a task or play at the margin, one of its keys, the key of a list of
      tasks, the item line of a task in such a list, or one of its keys; or a key whose value is a list of
      data, and an item of that list. */
  datatype Kind = OuterItem | Field | ListKey | InnerItem | InnerField | DataKey | DataItem

  datatype Row = Row(kind: Kind, key: string, value: string)

  /** Letters, digits and a few more characters that mean nothing to YAML. */
  predicate IsPlainChar(c: char) {
    'a' <= c <= 'z' || 'A' <= c <= 'Z' || IsDigit(c) || c in {'_', '.', '/'}
  }

  predicate IsPlain(s: string) { s != "" && forall k | 0 <= k < |s| :: IsPlainChar(s[k]) }

  function Column(kind: Kind): nat {
    match kind
    case OuterItem => 0
    case Field => 2
    case ListKey => 2
    case InnerItem => 4
    case InnerField => 6
    case DataKey => 2
    case DataItem => 4
  }

  predicate HasDash(kind: Kind) { kind.OuterItem? || kind.InnerItem? || kind.DataItem? }

  predicate OpensList(kind: Kind) { kind.ListKey? || kind.DataKey? }

  predicate IsOuterKey(kind: Kind) { kind.Field? || kind.DataKey? }

  function Spaces(n: nat): string { seq(n, _ => ' ') }

  function Mark(kind: Kind): string { if HasDash(kind) then "- " else "" }

  /** What follows the colon. */
  function Tail(row: Row): string { if OpensList(row.kind) then "" else " " + row.value }

  function Written(column: nat, mark: string, key: string, tail: string): string {
    Spaces(column) + mark + key + ":" + tail
  }

  function Line(row: Row): string { Written(Column(row.kind), Mark(row.kind), row.key, Tail(row)) }

  predicate IsRow(row: Row) {
    && IsPlain(row.key)
    && (if OpensList(row.kind)
        then row.kind.ListKey? <==>
             row.key in {"tasks", "pre_tasks", "post_tasks", "handlers", "block", "rescue", "always"}
        else IsPlain(row.value))
  }

  lemma PlainChars(c: char)
    requires IsPlainChar(c)
    ensures !IsSpace(c) && c !in {' ', ':', '#', '-', '|', '>', '&', '!', '"', '\'', '\n'}
  {
  }

  /** The characters of a line: spaces, mark, key, colon, tail. */
  lemma {:induction false} WrittenChars(column: nat, mark: string, key: string, tail: string)
    ensures var s, m := Written(column, mark, key, tail), column + |mark|;
            && |s| == m + |key| + 1 + |tail|
            && (forall k | 0 <= k < column :: s[k] == ' ')
            && (forall k | column <= k < m :: s[k] == mark[k - column])
            && (forall k | m <= k < m + |key| :: s[k] == key[k - m])
            && s[m + |key|] == ':'
            && (forall k | m + |key| < k < |s| :: s[k] == tail[k - m - |key| - 1])
  {
  }

  ghost predicate IsMark(mark: string) { mark == "" || mark == "- " }

  ghost predicate IsTail(tail: string) { tail == "" || (|tail| > 1 && tail[0] == ' ' && IsPlain(tail[1..])) }

  ghost predicate IsWritten(column: nat, mark: string, key: string, tail: string) {
    IsMark(mark) && IsPlain(key) && IsTail(tail)
  }

  lemma {:induction false} WrittenStart(column: nat, mark: string, key: string, tail: string)
    requires IsWritten(column, mark, key, tail)
    ensures var s := Written(column, mark, key, tail);
            && column < |s| && s[column] == (if mark == "" then key[0] else '-') && !IsSpace(s[column])
            && Indent(s) == column && WideIndent(s) == column
            && s[|s| - 1] == (if tail == "" then ':' else tail[|tail| - 1]) && !IsSpace(s[|s| - 1])
            && ':' in s && !Blank(s)
  {
    hide Written, IsSpace;
    var s := Written(column, mark, key, tail);
    WrittenChars(column, mark, key, tail);
    PlainChars(key[0]);
    if tail != "" { PlainChars(tail[1..][|tail| - 2]); }
    BasicChars();
    SkipTo(s, 0, IsBlankChar, column);
    SkipTo(s, 0, IsSpace, column);
  }

  lemma BasicChars()
    ensures IsSpace(' ') && !IsSpace('-') && !IsSpace(':')
  {
  }

  lemma {:induction false} WrittenItem(column: nat, mark: string, key: string, tail: string)
    requires IsWritten(column, mark, key, tail)
    ensures ItemIndent(Written(column, mark, key, tail)) == if mark == "" then None else Some(column)
  {
    hide Written, IsSpace;
    WrittenChars(column, mark, key, tail);
    WrittenStart(column, mark, key, tail);
    PlainChars(key[0]);
    var s := Written(column, mark, key, tail);
    assert mark != "" ==> s[column + 1] == ' ' && s[column + 2] == key[0];
  }

  /** An item line: a dash, a space and anything but white space, behind any spaces. */
  lemma {:induction false} ItemsAre(column: nat, c: char, rest: string)
    ensures ItemIndent(Spaces(column) + "- " + [c] + rest) == if IsSpace(c) then None else Some(column)
    ensures ItemIndent(Spaces(column) + "-" + rest).Some? ==> |rest| > 1 && rest[0] == ' ' && !IsSpace(rest[1])
  {
    hide IsSpace;
    BasicChars();
    var s, t := Spaces(column) + "- " + [c] + rest, Spaces(column) + "-" + rest;
    assert s[column] == '-' && t[column] == '-';
    SkipTo(s, 0, IsSpace, column);
    SkipTo(t, 0, IsSpace, column);
  }

  /** A document start is an opener: no blank line is put below it. */
  lemma {:induction false} DocumentStart(n: nat)
    ensures IsListOpener("---" + Spaces(n))
  {
    StartTrims(n);
  }

  lemma {:induction false} StartTrims(n: nat)
    ensures TrimRight("---" + Spaces(n), IsSpace) == "---"
  {
    hide IsSpace, TrimRight;
    var s := "---" + Spaces(n);
    BasicChars();
    if n == 0 {
      assert s == "---";
      KeepsRight(s, IsSpace);
    } else {
      StartTrims(n - 1);
      assert s[..|s| - 1] == "---" + Spaces(n - 1);
      DropsLast(s, IsSpace);
    }
  }

  /** Which item lines are separated from the line above: in a list, at most two columns inside it, with a key
      or with a further line two columns in. */
  lemma {:induction false} SeparatesIs(s: Spacing, above: string, column: nat, c: char, rest: string, after: Option<string>)
    requires !IsSpace(c)
    ensures var line := Spaces(column) + "- " + [c] + rest;
            Separates(s, above, line, after) <==>
            && s.inList && (s.indent < 0 || column <= s.indent + 2)
            && (':' in line || (after.Some? && Spaces(column + 2) <= after.value))
            && !IsListOpener(above)
  {
    hide IsSpace, IsListOpener, ItemIndent;
    ItemsAre(column, c, rest);
    assert (Spaces(column) + "- " + [c] + rest)[..column] + "  " == Spaces(column + 2);
  }

  lemma WrittenName(column: nat, mark: string, key: string, tail: string)
    ensures var s, q := Written(column, mark, key, tail), column + |mark| + |key|;
            q < |s| && s[column..q] == mark + key
  {
  }

  lemma {:induction false} WrittenKey(column: nat, mark: string, key: string, tail: string)
    requires IsWritten(column, mark, key, tail)
    ensures KeyOf(Written(column, mark, key, tail)) == Some(Key(column, mark + key))
  {
    hide Written, IsSpace;
    var s, q := Written(column, mark, key, tail), column + |mark| + |key|;
    WrittenChars(column, mark, key, tail);
    WrittenStart(column, mark, key, tail);
    BasicChars();
    forall k | column <= k < q ensures s[k] != ':' && s[k] != '#' {
      if k >= column + |mark| { PlainChars(key[k - column - |mark|]); }
    }
    SkipTo(s, column + 1, NotColon, q);
    WrittenName(column, mark, key, tail);
    assert tail != "" ==> s[q + 1] == ' ';
  }

  lemma {:induction false} NoStyle(text: string, i: nat)
    requires i <= |text| && forall k | 0 <= k < |text| :: text[k] != '|' && text[k] != '>'
    ensures StyleAt(text, i) == None
    decreases |text| - i
  {
    hide IsSpace, ModifiersAt;
    var s := SkipWhile(text, i, IsSpace);
    if s < |text| && (text[s] == '&' || text[s] == '!') {
      var e := SkipWhile(text, s, NotSpace);
      if s + 2 <= e < |text| { NoStyle(text, e); }
    }
  }

  lemma {:induction false} NoStyleAfterColon(text: string, i: nat)
    requires i <= |text| && forall k | 0 <= k < |text| :: text[k] != '|' && text[k] != '>'
    ensures StyleAfterColon(text, i) == None
    decreases |text| - i
  {
    hide StyleAt;
    if i < |text| {
      NoStyle(text, i + 1);
      NoStyleAfterColon(text, i + 1);
    }
  }

  /** A line without style characters starts no block scalar. */
  lemma {:induction false} NoHeader(line: string)
    requires forall k | 0 <= k < |line| :: line[k] != '|' && line[k] != '>'
    ensures HeaderOf(line) == None
  {
    hide StyleAt, StyleAfterColon, IsSpace, CommentStart;
    var text := TrimRight(BeforeComment(line), IsSpace);
    assert text <= line;
    assert forall k | 0 <= k < |text| :: text[k] == line[k];
    var k := Indent(text);
    NoStyleAfterColon(text, k);
    if k + 1 < |text| { NoStyle(text, k + 1); }
  }

  lemma {:induction false} WrittenHasNoHeader(column: nat, mark: string, key: string, tail: string)
    requires IsWritten(column, mark, key, tail)
    ensures HeaderOf(Written(column, mark, key, tail)) == None && NoNewline(Written(column, mark, key, tail))
  {
    hide Written, HeaderOf;
    var s := Written(column, mark, key, tail);
    WrittenChars(column, mark, key, tail);
    forall k | 0 <= k < |s| ensures s[k] != '|' && s[k] != '>' && s[k] != '\n' {
      var m := column + |mark|;
      if m <= k < m + |key| { PlainChars(key[k - m]); }
      if m + |key| + 1 < k { PlainChars(tail[1..][k - m - |key| - 2]); }
    }
    NoHeader(s);
  }

  lemma KeepsRight(s: string, p: char -> bool)
    requires s != "" && !p(s[|s| - 1])
    ensures TrimRight(s, p) == s
  {
  }

  lemma {:induction false} CutsLeft(front: string, rest: string, p: char -> bool)
    requires (forall k | 0 <= k < |front| :: p(front[k])) && rest != "" && !p(rest[0])
    ensures TrimLeft(front + rest, p) == rest
  {
    var s := front + rest;
    assert forall k | 0 <= k < |front| :: s[k] == front[k];
    SkipTo(s, 0, p, |front|);
  }

  lemma WrittenSplits(column: nat, mark: string, key: string, tail: string)
    ensures Written(column, mark, key, tail) == Spaces(column) + (mark + (key + ":" + tail))
    ensures Written(column, mark, key, tail) == (Spaces(column) + mark) + (key + ":" + tail)
  {
  }

  lemma DropsLast(s: string, p: char -> bool)
    requires s != "" && p(s[|s| - 1])
    ensures TrimRight(s, p) == TrimRight(s[..|s| - 1], p)
  {
  }

  lemma {:induction false} WrittenTrims(column: nat, mark: string, key: string, tail: string)
    requires IsWritten(column, mark, key, tail)
    ensures var s := Written(column, mark, key, tail);
            && TrimRight(s, IsSpace) == s
            && Trim(s, IsSpace) == mark + (key + ":" + tail)
            && TrimLeft(mark + (key + ":" + tail), IsDashOrSpace) == key + ":" + tail
            && TrimLeft(s, IsDashOrSpace) == key + ":" + tail
  {
    hide IsSpace, TrimRight, TrimLeft, Written, IsPlainChar, IsTail, Indent, WideIndent, Blank;
    var s, t := Written(column, mark, key, tail), key + ":" + tail;
    WrittenSplits(column, mark, key, tail);
    WrittenStart(column, mark, key, tail);
    PlainChars(key[0]);
    BasicChars();
    KeepsRight(s, IsSpace);
    assert t[0] == key[0] && (mark + t)[0] == s[column];
    CutsLeft(Spaces(column), mark + t, IsSpace);
    CutsLeft(mark, t, IsDashOrSpace);
    assert forall k | 0 <= k < column + |mark| :: IsDashOrSpace((Spaces(column) + mark)[k]);
    CutsLeft(Spaces(column) + mark, t, IsDashOrSpace);
  }

  lemma {:induction false} TrimsTo(front: string, key: string, p: char -> bool)
    requires (forall k | 0 <= k < |front| :: p(front[k])) && key != "" && !p(key[0]) && !p(key[|key| - 1])
    ensures Trim(front + key, p) == key
  {
    hide TrimLeft, TrimRight;
    var s := front + key;
    assert s[|s| - 1] == key[|key| - 1];
    KeepsRight(s, p);
    CutsLeft(front, key, p);
  }

  lemma {:induction false} PlainTrims(key: string)
    requires IsPlain(key)
    ensures Trim(key, IsSpace) == key && Trim(key, IsDashOrSpace) == key && Trim("- " + key, IsDashOrSpace) == key
  {
    hide IsSpace, Trim, IsPlainChar;
    PlainChars(key[0]);
    PlainChars(key[|key| - 1]);
    assert "" + key == key;
    TrimsTo("", key, IsSpace);
    TrimsTo("", key, IsDashOrSpace);
    TrimsTo("- ", key, IsDashOrSpace);
  }

  lemma {:induction false} ColonTrims(key: string)
    requires IsPlain(key)
    ensures TrimRight(key + ":", IsColon) == key
  {
    hide TrimRight, IsPlainChar, IsSpace;
    PlainChars(key[|key| - 1]);
    var s := key + ":";
    assert s[..|s| - 1] == key;
    KeepsRight(key, IsColon);
    DropsLast(s, IsColon);
  }

  lemma {:induction false} KeyEndsAtColon(key: string, tail: string)
    requires IsPlain(key)
    ensures SkipWhile(key + ":" + tail, 0, NotColon) == |key|
  {
    var s := key + ":" + tail;
    forall k | 0 <= k < |key| ensures NotColon(s[k]) { PlainChars(key[k]); }
    SkipTo(s, 0, NotColon, |key|);
  }

  /** What the formatter reads off a written line. */
  lemma {:induction false} WrittenReads(column: nat, mark: string, key: string, tail: string)
    requires IsWritten(column, mark, key, tail)
    ensures var s := Written(column, mark, key, tail);
            && !IsCommentLine(s) && Trim(s, IsSpace) != "---" && !StartsWith(s, "#")
            && (IsPlayLine(s) <==> key in {"hosts", "import_playbook"})
            && (IsTaskListHeader(s) <==> tail == "" && IsTaskListKey(key))
            && (IsListOpener(s) <==> tail == "" && IsTaskListKey(key))
  {
    hide IsSpace, Trim, TrimLeft, TrimRight, IsTaskListKey, SkipWhile, Written;
    var s := Written(column, mark, key, tail);
    WrittenStart(column, mark, key, tail);
    WrittenTrims(column, mark, key, tail);
    PlainTrims(key);
    ColonTrims(key);
    KeyEndsAtColon(key, tail);
    PlainChars(key[0]);
    WrittenChars(column, mark, key, tail);
    assert s[0] != '#';
    assert (mark + (key + ":" + tail))[|mark| + |key|] == ':';
    assert (key + ":" + tail)[..|key|] == key;
    assert tail == "" ==> key + ":" + tail == key + ":";
  }

  /** What the formatter reads off the line of a row. */
  ghost predicate Reads(s: string, row: Row) {
    && !Blank(s) && NoNewline(s) && Indent(s) == Column(row.kind) && WideIndent(s) == Column(row.kind) && ':' in s
    && ItemIndent(s) == (if HasDash(row.kind) then Some(Column(row.kind)) else None)
    && KeyOf(s) == Some(Key(Column(row.kind), Mark(row.kind) + row.key))
    && Trim(Mark(row.kind) + row.key, IsDashOrSpace) == row.key
    && HeaderOf(s) == None && !IsCommentLine(s) && Trim(s, IsSpace) != "---" && !StartsWith(s, "#")
    && (IsPlayLine(s) <==> row.key in {"hosts", "import_playbook"})
    && (IsTaskListHeader(s) <==> row.kind.ListKey?) && (IsListOpener(s) <==> row.kind.ListKey?)
    && (OpensList(row.kind) ==> (IsTaskListKey(row.key) <==> row.kind.ListKey?))
  }

  lemma {:induction false} RowIsWritten(row: Row)
    requires IsRow(row)
    ensures IsWritten(Column(row.kind), Mark(row.kind), row.key, Tail(row))
    ensures (Tail(row) == "" <==> OpensList(row.kind)) && (OpensList(row.kind) ==> (IsTaskListKey(row.key) <==> row.kind.ListKey?))
  {
    hide IsPlainChar;
    assert Tail(row) != "" ==> Tail(row)[1..] == row.value;
  }

  lemma {:induction false} RowReads(row: Row)
    requires IsRow(row)
    ensures Reads(Line(row), row)
  {
    hide HeaderOf, IsSpace, IsTaskListHeader, IsListOpener, IsPlayLine, IsCommentLine, KeyOf, ItemIndent, Trim, Blank,
         IsTaskListKey, Written, IsPlainChar, Indent, WideIndent, NoNewline, StartsWith, IsRow;
    var column, mark, key, tail := Column(row.kind), Mark(row.kind), row.key, Tail(row);
    RowIsWritten(row);
    assert "" + key == key;
    WrittenStart(column, mark, key, tail);
    WrittenItem(column, mark, key, tail);
    WrittenKey(column, mark, key, tail);
    WrittenHasNoHeader(column, mark, key, tail);
    WrittenReads(column, mark, key, tail);
    PlainTrims(key);
  }

  // ---------- files ----------

  /** Which kind of row may follow which. */
  predicate Follows(above: Kind, below: Kind) {
    && (below.InnerItem? ==> above in {ListKey, InnerItem, InnerField})
    && (below.InnerField? ==> above in {InnerItem, InnerField})
    && (below.DataItem? ==> above in {DataKey, DataItem})
  }

  /** A file of tasks or plays: it starts with an item, tasks of a list stand below its key, and the keys
      of such a task below its item line. */
  ghost predicate IsFile(rows: seq<Row>) {
    && rows != [] && rows[0].kind.OuterItem?
    && (forall p | 0 <= p < |rows| :: IsRow(rows[p]))
    && (forall p | 0 < p < |rows| :: Follows(rows[p - 1].kind, rows[p].kind))
  }

  function Lines(rows: seq<Row>): (lines: seq<string>)
    ensures |lines| == |rows| && forall p | 0 <= p < |rows| :: lines[p] == Line(rows[p])
  {
    seq(|rows|, p requires 0 <= p < |rows| => Line(rows[p]))
  }

  /** Lines that are read as these rows. */
  ghost predicate AreRead(content: seq<string>, rows: seq<Row>) {
    |content| == |rows| && forall p | 0 <= p < |rows| :: Reads(content[p], rows[p])
  }

  lemma {:induction false} LinesAreRead(rows: seq<Row>)
    requires IsFile(rows)
    ensures AreRead(Lines(rows), rows)
  {
    hide Reads, IsRow, Line;
    forall p | 0 <= p < |rows| ensures Reads(Lines(rows)[p], rows[p]) { RowReads(rows[p]); }
  }

  lemma {:induction false} NoScalars(content: seq<string>, rows: seq<Row>, p: nat)
    requires AreRead(content, rows) && p <= |content|
    ensures Scan(content[..p]) == Outside && (p < |content| ==> !IsScalarLine(content, p))
  {
    hide HeaderOf, KeyOf, ItemIndent, IsPlayLine, IsTaskListHeader, IsListOpener, Trim, Indent, WideIndent, IsCommentLine, Blank;
    if p > 0 {
      NoScalars(content, rows, p - 1);
      assert content[..p][..p - 1] == content[..p - 1];
    }
  }

  lemma {:induction false} AllRelevant(content: seq<string>, rows: seq<Row>, p: nat)
    requires AreRead(content, rows) && p <= |content|
    ensures Relevant(content[..p]) == content[..p]
  {
    hide HeaderOf, KeyOf, ItemIndent, IsPlayLine, IsTaskListHeader, IsListOpener, Trim, Indent, WideIndent, IsCommentLine, Blank,
         IsScalarLine, Relevant, Scan;
    if p == 0 {
      RelevantOfNothing(content);
    } else {
      AllRelevant(content, rows, p - 1);
      NoScalars(content, rows, p - 1);
      RelevantNext(content, p - 1);
      assert content[..p] == content[..p - 1] + [content[p - 1]];
    }
  }

  lemma RelevantOfNothing(content: seq<string>)
    ensures Relevant(content[..0]) == content[..0]
  {
  }

  ghost predicate InFirstItem(rows: seq<Row>, i: nat) {
    i < |rows| && forall j | 0 < j <= i :: !HasDash(rows[j].kind)
  }

  /** No row before the second item line has a key that only plays have. */
  ghost predicate IsTaskFile(rows: seq<Row>) {
    forall i: nat | InFirstItem(rows, i) :: rows[i].key !in {"hosts", "import_playbook"}
  }

  lemma {:induction false} BareIsTaskFile(content: seq<string>, rows: seq<Row>)
    requires IsFile(rows) && AreRead(content, rows)
    ensures IsBare(content) <==> IsTaskFile(rows)
  {
    hide HeaderOf, KeyOf, IsPlayLine, IsTaskListHeader, IsListOpener, Trim, Indent, WideIndent, IsCommentLine, Blank, Relevant,
         ItemIndent, IsRow;
    assert content[..|content|] == content;
    AllRelevant(content, rows, |content|);
    var next := NextItem(content, 1);
    assert forall j | 0 <= j < |rows| :: IsItem(content[j]) <==> HasDash(rows[j].kind);
    forall i | 0 <= i < |rows| ensures i < next <==> InFirstItem(rows, i) {
      if i >= next { assert IsItem(content[next]); }
    }
  }

  // ---------- task items and task keys ----------

  predicate IsTaskItem(kind: Kind, bare: bool) { kind.InnerItem? || (kind.OuterItem? && bare) }

  predicate IsTaskKey(kind: Kind, bare: bool) { kind.InnerField? || ((IsOuterKey(kind) || kind.ListKey?) && bare) }

  /** What the membership pass remembers after a row. */
  ghost predicate Remembers(m: Membership, kind: Kind, bare: bool) {
    && (forall k | k in m.lastKeys :: k >= 0) && (forall k | k in m.lastItems :: k >= 0)
    && 0 in m.lastItems && m.lastItems[0] == bare && 2 !in m.lastItems
    && (kind in {InnerItem, InnerField} ==> 4 in m.lastItems && m.lastItems[4])
    && (kind in {ListKey, InnerItem, InnerField} ==> 2 in m.lastKeys && IsTaskListKey(m.lastKeys[2]))
    && (kind in {DataKey, DataItem} ==> 2 in m.lastKeys && !IsTaskListKey(m.lastKeys[2]))
  }

  ghost predicate Found(m: Membership, rows: seq<Row>, p: nat, bare: bool)
    requires p <= |rows|
  {
    && (forall i: nat :: i in m.items <==> i < p && IsTaskItem(rows[i].kind, bare))
    && (forall i: nat :: i in m.keys <==> i < p && IsTaskKey(rows[i].kind, bare))
  }

  lemma {:induction false} MembershipStep(m: Membership, line: string, row: Row, above: Option<Kind>, p: nat, bare: bool)
    requires Reads(line, row)
    requires if above.Some? then Remembers(m, above.value, bare) && Follows(above.value, row.kind)
             else row.kind.OuterItem? && m.lastKeys == map[] && m.lastItems == map[]
    ensures var r := AfterLine(m, bare, p, line);
            && Remembers(r, row.kind, bare)
            && r.items == (if IsTaskItem(row.kind, bare) then m.items + {p} else m.items)
            && r.keys == (if IsTaskKey(row.kind, bare) then m.keys + {p} else m.keys)
  {
    NothingIsNoList();
    hide HeaderOf, KeyOf, ItemIndent, IsPlayLine, IsTaskListHeader, IsListOpener, Trim, Indent, WideIndent, IsCommentLine, Blank,
         IsTaskListKey, NoNewline, StartsWith;
  }

  lemma NothingIsNoList()
    ensures !IsTaskListKey("")
  {
  }

  /** The membership pass finds the task items and the task keys among the rows. */
  lemma {:induction false} MembersFound(content: seq<string>, rows: seq<Row>, p: nat, bare: bool)
    requires IsFile(rows) && AreRead(content, rows) && p <= |content|
    ensures var m := Members(content[..p], bare);
            && Found(m, rows, p, bare)
            && (if p == 0 then m.lastKeys == map[] && m.lastItems == map[] else Remembers(m, rows[p - 1].kind, bare))
  {
    hide Members, AfterLine, Remembers, Reads, IsRow, IsScalarLine, Scan, IsCommentLine;
    if p == 0 {
      NoMembers(content, bare);
    } else {
      var m, line, row := Members(content[..p - 1], bare), content[p - 1], rows[p - 1];
      MembersFound(content, rows, p - 1, bare);
      NoScalars(content, rows, p - 1);
      MembersNext(content, p - 1, bare);
      NotAComment(line, row);
      MembershipStep(m, line, row, if p == 1 then None else Some(rows[p - 2].kind), p - 1, bare);
    }
  }

  lemma NoMembers(content: seq<string>, bare: bool)
    ensures Members(content[..0], bare) == Membership(map[], map[], {}, {})
  {
  }

  lemma NotAComment(line: string, row: Row)
    requires Reads(line, row)
    ensures !IsCommentLine(line)
  {
  }

  // ---------- which runs the passes remove and fill ----------

  /** A row is a key of the task whose item line or key stands right above it. */
  predicate IsKeyBelow(above: Kind, below: Kind, bare: bool) {
    || below.InnerField?
    || (bare && below in {Field, ListKey, DataKey} && above in {OuterItem, Field, ListKey, DataKey})
  }

  predicate IsNextKey(rows: seq<Row>, p: nat, bare: bool) {
    0 < p < |rows| && IsKeyBelow(rows[p - 1].kind, rows[p].kind, bare)
  }

  lemma NextKeyKinds(above: Kind, below: Kind, bare: bool)
    requires Follows(above, below)
    ensures IsKeyBelow(above, below, bare) <==>
            || (Column(above) == Column(below) >= 2 && IsTaskKey(above, bare))
            || (HasDash(above) && Column(below) == Column(above) + 2 && IsTaskItem(above, bare))
  {
  }

  lemma {:induction false} RemovesNextKeys(content: seq<string>, rows: seq<Row>, p: nat)
    requires IsFile(rows) && AreRead(content, rows)
    ensures Removes(content, p) <==> IsNextKey(rows, p, IsTaskFile(rows))
  {
    hide Members, AfterLine, Remembers, IsRow, IsScalarLine, Scan, IsCommentLine, IsBare, IsTaskFile, HeaderOf, KeyOf, ItemIndent,
         IsPlayLine, IsTaskListHeader, IsListOpener, Trim, Indent, WideIndent, Blank, NoNewline, StartsWith,
         Column, HasDash, IsTaskKey, IsTaskItem, IsKeyBelow, OpensList, Mark;
    if 0 < p < |rows| {
      NoScalars(content, rows, p);
      BareIsTaskFile(content, rows);
      MembersFound(content, rows, |content|, IsTaskFile(rows));
      assert content[..|content|] == content;
      assert Reads(content[p], rows[p]) && Reads(content[p - 1], rows[p - 1]);
      assert Follows(rows[p - 1].kind, rows[p].kind);
      NextKeyKinds(rows[p - 1].kind, rows[p].kind, IsTaskFile(rows));
    }
  }

  ghost predicate HasListKey(rows: seq<Row>, p: nat) {
    exists h | 0 <= h < p && h < |rows| :: rows[h].kind.ListKey?
  }

  /** Before row `p` the spacing pass is in a list of tasks: no key at the outer level came after the last
      key of a list, or there was none and the file is a list of tasks. */
  ghost predicate InList(rows: seq<Row>, p: nat, bare: bool)
    requires p <= |rows|
  {
    || (exists h | 0 <= h < p :: rows[h].kind.ListKey? && forall k | h < k < p :: !IsOuterKey(rows[k].kind))
    || (bare && !HasListKey(rows, p))
  }

  lemma {:induction false} InListNext(rows: seq<Row>, p: nat, bare: bool)
    requires p < |rows|
    ensures InList(rows, p + 1, bare) <==>
            || rows[p].kind.ListKey?
            || (InList(rows, p, bare) && !(IsOuterKey(rows[p].kind) && HasListKey(rows, p)))
    ensures HasListKey(rows, p + 1) <==> HasListKey(rows, p) || rows[p].kind.ListKey?
  {
    if h :| 0 <= h < p && rows[h].kind.ListKey? && (forall k | h < k < p :: !IsOuterKey(rows[k].kind)) {
      if !IsOuterKey(rows[p].kind) { assert forall k | h < k < p + 1 :: !IsOuterKey(rows[k].kind); }
    }
  }

  lemma {:induction false} SpacingIs(content: seq<string>, rows: seq<Row>, p: nat, skip: nat, bare: bool)
    requires IsFile(rows) && AreRead(content, rows) && skip <= 1 && p <= |content|
    ensures SpacingOf(content[..p], skip, bare) ==
            Spacing(InList(rows, p, bare), if HasListKey(rows, p) then 2 else if bare then 0 else -1)
  {
    hide SpacingOf, IsRow, IsScalarLine, Scan, IsCommentLine, HeaderOf, KeyOf, ItemIndent, InList, HasListKey,
         IsPlayLine, IsTaskListHeader, IsListOpener, Trim, Indent, WideIndent, Blank, NoNewline, StartsWith;
    if p == 0 {
      SpacingStart(content, rows, skip, bare);
    } else {
      SpacingIs(content, rows, p - 1, skip, bare);
      SpacingNext(content, p - 1, skip, bare);
      NoScalars(content, rows, p - 1);
      InListNext(rows, p - 1, bare);
      assert Reads(content[p - 1], rows[p - 1]);
      if p == 1 { SpacingStart(content, rows, skip, bare); }
    }
  }

  lemma SpacingStart(content: seq<string>, rows: seq<Row>, skip: nat, bare: bool)
    ensures SpacingOf(content[..0], skip, bare) == StartSpacing(bare)
    ensures InList(rows, 0, bare) == bare && !HasListKey(rows, 0)
  {
  }

  /** A task of a list, and its keys, have the key of the list above them with nothing but tasks between. */
  lemma {:induction false} InnerIsInList(rows: seq<Row>, p: nat, bare: bool)
    requires IsFile(rows) && p < |rows| && rows[p].kind in {InnerItem, InnerField}
    ensures InList(rows, p, bare) && HasListKey(rows, p)
  {
    hide IsRow, InList, HasListKey;
    assert Follows(rows[p - 1].kind, rows[p].kind);
    InListNext(rows, p - 1, bare);
    if !rows[p - 1].kind.ListKey? { InnerIsInList(rows, p - 1, bare); }
  }

  lemma InListNeeds(rows: seq<Row>, p: nat, bare: bool)
    requires p <= |rows|
    ensures InList(rows, p, bare) ==> bare || HasListKey(rows, p)
  {
  }

  /** An item of a list of data has the key of that list above it, which ends any list of tasks before it. */
  lemma {:induction false} DataIsInNoList(rows: seq<Row>, p: nat, bare: bool)
    requires IsFile(rows) && p < |rows| && rows[p].kind.DataItem?
    ensures InList(rows, p, bare) ==> bare && !HasListKey(rows, p)
  {
    hide IsRow, InList, HasListKey;
    InListNeeds(rows, p, bare);
    assert Follows(rows[p - 1].kind, rows[p].kind);
    InListNext(rows, p - 1, bare);
    if rows[p - 1].kind.DataItem? { DataIsInNoList(rows, p - 1, bare); }
  }

  /** Row `p` is an item line that is set off from what stands above it. */
  ghost predicate IsSetOff(rows: seq<Row>, p: nat, bare: bool) {
    && 0 < p < |rows| && !rows[p - 1].kind.ListKey?
    && (rows[p].kind.InnerItem? || (rows[p].kind.OuterItem? && InList(rows, p, bare)))
  }

  lemma {:induction false} InsertsSetOff(content: seq<string>, rows: seq<Row>, gaps: seq<seq<string>>, p: nat)
    requires IsFile(rows) && AreRead(content, rows) && |gaps| == |content| + 1
    ensures Inserts(content, gaps, p) <==> IsSetOff(rows, p, IsTaskFile(rows))
  {
    hide SpacingOf, IsRow, IsScalarLine, Scan, IsCommentLine, HeaderOf, KeyOf, ItemIndent, InList, HasListKey, IsBare, IsTaskFile,
         IsPlayLine, IsTaskListHeader, IsListOpener, Trim, Indent, WideIndent, Blank, NoNewline, StartsWith;
    if 0 < p < |rows| {
      var bare := IsTaskFile(rows);
      NoScalars(content, rows, p);
      BareIsTaskFile(content, rows);
      SpacingIs(content, rows, p + 1, Skipped(gaps), bare);
      InListNext(rows, p, bare);
      assert Reads(content[p], rows[p]) && Reads(content[p - 1], rows[p - 1]);
      if rows[p].kind.InnerItem? { InnerIsInList(rows, p, bare); }
      if rows[p].kind.DataItem? { DataIsInNoList(rows, p, bare); }
    }
  }

  // ---------- formatting a file ----------

  /** The run before row `p` of the formatted file, where the file has `run`. */
  ghost function RunBefore(rows: seq<Row>, p: nat, run: seq<string>): seq<string> {
    if IsNextKey(rows, p, IsTaskFile(rows)) then []
    else if IsSetOff(rows, p, IsTaskFile(rows)) then [""]
    else if run == [] then []
    else [""]
  }

  ghost function Runs(rows: seq<Row>, gaps: seq<seq<string>>): (runs: seq<seq<string>>)
    ensures |runs| == |gaps| && forall p | 0 <= p < |gaps| :: runs[p] == RunBefore(rows, p, gaps[p])
  {
    seq(|gaps|, p requires 0 <= p < |gaps| => RunBefore(rows, p, gaps[p]))
  }

  lemma {:induction false} PipelineRun(content: seq<string>, rows: seq<Row>, gaps: seq<seq<string>>, p: nat)
    requires IsFile(rows) && AreRead(content, rows) && |gaps| == |content| + 1 && p < |gaps|
    ensures Pipeline(content, gaps)[p] == RunBefore(rows, p, gaps[p])
  {
    hide Inserts, Removes, IsTaskFile, IsFile, AreRead, Scan, InList;
    NoScalars(content, rows, p);
    RemovesNextKeys(content, rows, p);
    InsertsSetOff(content, rows, Stripped(content, Collapsed(content, gaps)), p);
    assert !(IsNextKey(rows, p, IsTaskFile(rows)) && IsSetOff(rows, p, IsTaskFile(rows)));
  }

  /** Runs of blank lines to put around the lines of `rows`. */
  ghost predicate AreRuns(gaps: seq<seq<string>>, rows: seq<Row>) {
    && |gaps| == |rows| + 1
    && forall p | 0 <= p < |gaps| :: AllBlank(gaps[p]) && forall k | 0 <= k < |gaps[p]| :: NoNewline(gaps[p][k])
  }

  lemma {:induction false} RenderingParts(rows: seq<Row>, gaps: seq<seq<string>>)
    requires IsFile(rows) && AreRuns(gaps, rows)
    ensures var text := Join(Weave(Lines(rows), gaps));
            Content(Split(text)) == Lines(rows) && Gaps(Split(text)) == gaps
  {
    hide IsRow, Weave, Content, Gaps, Line, Split, Join, HeaderOf, KeyOf, ItemIndent, IsPlayLine, IsTaskListHeader,
         IsListOpener, Trim, Indent, WideIndent, IsCommentLine, Blank;
    var content := Lines(rows);
    var lines := Weave(content, gaps);
    LinesAreRead(rows);
    assert forall p | 0 <= p < |content| :: Reads(content[p], rows[p]);
    PartsOfWeave(content, gaps);
    forall i | 0 <= i < |lines| ensures NoNewline(lines[i]) {
      WeaveMembers(content, gaps, lines[i]);
      if lines[i] !in content {
        var p :| 0 <= p < |gaps| && lines[i] in gaps[p];
        var k :| 0 <= k < |gaps[p]| && gaps[p][k] == lines[i];
      }
    }
    PartsOfNothing();
    SplitJoin(lines);
  }

  lemma PartsOfNothing()
    ensures Content([]) == []
  {
  }

  lemma {:induction false} RunsAreRuns(rows: seq<Row>, gaps: seq<seq<string>>)
    requires AreRuns(gaps, rows)
    ensures AreRuns(Runs(rows, gaps), rows)
  {
    hide IsNextKey, IsSetOff, IsTaskFile;
  }

  /** Formatting a file, whatever blank lines stand in it, keeps its lines and leaves exactly these runs. */
  lemma {:induction false} FormatsFile(rows: seq<Row>, gaps: seq<seq<string>>)
    requires IsFile(rows) && AreRuns(gaps, rows)
    ensures FormatLayout(Join(Weave(Lines(rows), gaps))) == Join(Weave(Lines(rows), Runs(rows, gaps)))
  {
    hide IsFile, AreRead, Weave, Content, Gaps, Line, Split, Join, FormatLayout, Pipeline, RunBefore;
    var content, runs := Lines(rows), Runs(rows, gaps);
    var text := Join(Weave(content, gaps));
    LinesAreRead(rows);
    RunsAreRuns(rows, gaps);
    RenderingParts(rows, gaps);
    RenderingParts(rows, runs);
    FormatKeepsContent(text);
    forall p | 0 <= p < |gaps| ensures Pipeline(content, gaps)[p] == runs[p] {
      PipelineRun(content, rows, gaps, p);
    }
    assert Pipeline(content, gaps) == runs;
    SameParts(FormatLayout(text), Join(Weave(content, runs)));
  }

  // ---------- what that means for tasks ----------

  /** A list of tasks: formatting leaves one blank line before every task but the first and none between two
      keys of a task, whatever blank lines were there; only around the items of a list of data, one blank line
      stays where there were any. */
  lemma {:induction false} TaskListIsSpaced(rows: seq<Row>, gaps: seq<seq<string>>)
    requires IsFile(rows) && AreRuns(gaps, rows) && IsTaskFile(rows)
    requires forall p | 0 <= p < |rows| :: rows[p].kind in {OuterItem, Field, DataKey, DataItem}
    ensures FormatLayout(Join(Weave(Lines(rows), gaps))) == Join(Weave(Lines(rows), Runs(rows, gaps)))
    ensures forall p | 0 < p < |rows| ::
              Runs(rows, gaps)[p] ==
              if rows[p].kind.OuterItem? then [""]
              else if rows[p].kind.DataItem? || rows[p - 1].kind.DataItem? then (if gaps[p] == [] then [] else [""])
              else []
  {
    hide IsTaskFile, IsRow, Weave, Join, FormatLayout, AreRuns;
    FormatsFile(rows, gaps);
    RunCount(rows, gaps);
    forall p | 0 < p < |rows|
      ensures Runs(rows, gaps)[p] ==
              if rows[p].kind.OuterItem? then [""]
              else if rows[p].kind.DataItem? || rows[p - 1].kind.DataItem? then (if gaps[p] == [] then [] else [""])
              else []
    {
      assert !HasListKey(rows, p);
      assert rows[p - 1].kind in {OuterItem, Field, DataKey, DataItem} && rows[p].kind in {OuterItem, Field, DataKey, DataItem};
    }
  }

  lemma RunCount(rows: seq<Row>, gaps: seq<seq<string>>)
    requires AreRuns(gaps, rows)
    ensures |gaps| == |rows| + 1
  {
  }

  /** Tasks under the key of a list, in any file: one blank line before every one but the first, none before
      a task's further keys. */
  lemma {:induction false} ListedTasksAreSpaced(rows: seq<Row>, gaps: seq<seq<string>>)
    requires IsFile(rows) && AreRuns(gaps, rows)
    ensures FormatLayout(Join(Weave(Lines(rows), gaps))) == Join(Weave(Lines(rows), Runs(rows, gaps)))
    ensures forall p | 0 < p < |rows| && rows[p].kind.InnerField? :: Runs(rows, gaps)[p] == []
    ensures forall p | 0 < p < |rows| && rows[p].kind.InnerItem? && !rows[p - 1].kind.ListKey? :: Runs(rows, gaps)[p] == [""]
  {
    hide IsTaskFile, IsRow, Weave, Join, FormatLayout;
    FormatsFile(rows, gaps);
  }

  lemma {:induction false} LastListKey(rows: seq<Row>, p: nat) returns (last: nat)
    requires p <= |rows| && HasListKey(rows, p)
    ensures last < p && rows[last].kind.ListKey? && !exists l | last < l < p :: rows[l].kind.ListKey?
  {
    last := p - 1;
    if !rows[last].kind.ListKey? {
      assert HasListKey(rows, last);
      last := LastListKey(rows, last);
    }
  }

  lemma {:induction false} InListMeans(rows: seq<Row>, p: nat)
    requires p <= |rows|
    ensures InList(rows, p, true) <==>
            forall h, k | 0 <= h < k < p && rows[h].kind.ListKey? && IsOuterKey(rows[k].kind) :: HasListKey(rows[k..], p - k)
  {
    if HasListKey(rows, p) {
      var last := LastListKey(rows, p);
      if k :| last < k < p && IsOuterKey(rows[k].kind) {
        assert !HasListKey(rows[k..], p - k);
      } else {
        forall h, k | 0 <= h < k < p && rows[h].kind.ListKey? && IsOuterKey(rows[k].kind) ensures HasListKey(rows[k..], p - k) {
          assert rows[k..][last - k].kind.ListKey?;
        }
      }
    }
  }

  /** Tasks at the margin of a file that also holds lists: a task written without a blank line before it gets
      one exactly when every plain key that comes after the key of a list has another such key below it. */
  lemma {:induction false} OuterTaskIsSpaced(rows: seq<Row>, gaps: seq<seq<string>>, p: nat)
    requires IsFile(rows) && AreRuns(gaps, rows) && IsTaskFile(rows)
    requires 0 < p < |rows| && rows[p].kind.OuterItem? && !rows[p - 1].kind.ListKey? && gaps[p] == []
    ensures FormatLayout(Join(Weave(Lines(rows), gaps))) == Join(Weave(Lines(rows), Runs(rows, gaps)))
    ensures Runs(rows, gaps)[p] == [""] <==>
            forall h, k | 0 <= h < k < p && rows[h].kind.ListKey? && IsOuterKey(rows[k].kind) :: HasListKey(rows[k..], p - k)
  {
    hide IsTaskFile, IsRow, Weave, Join, FormatLayout, InList, HasListKey;
    FormatsFile(rows, gaps);
    InListMeans(rows, p);
  }

  function BlockFile(): seq<Row> {
    [Row(OuterItem, "name", "a"), Row(ListKey, "block", ""), Row(InnerItem, "debug", "x"),
     Row(OuterItem, "name", "b"), Row(Field, "debug", "y"),
     Row(OuterItem, "name", "c")]
  }

  function BlockLines(): seq<string> {
    ["- name: a", "  block:", "    - debug: x", "- name: b", "  debug: y", "- name: c"]
  }

  lemma BlockTask()
    ensures var rows := BlockFile(); IsRow(rows[0]) && IsRow(rows[1]) && IsRow(rows[2])
    ensures var rows := BlockFile();
            Line(rows[0]) == "- name: a" && Line(rows[1]) == "  block:" && Line(rows[2]) == "    - debug: x"
  {
    assert Spaces(0) == "" && Spaces(2) == "  " && Spaces(4) == "    ";
  }

  lemma PlainTasks()
    ensures var rows := BlockFile(); IsRow(rows[3]) && IsRow(rows[4]) && IsRow(rows[5])
    ensures var rows := BlockFile();
            Line(rows[3]) == "- name: b" && Line(rows[4]) == "  debug: y" && Line(rows[5]) == "- name: c"
  {
    assert Spaces(0) == "" && Spaces(2) == "  ";
  }

  lemma {:induction false} BlockFileIsFile()
    ensures IsFile(BlockFile()) && IsTaskFile(BlockFile()) && Lines(BlockFile()) == BlockLines()
  {
    hide Line, IsRow;
    BlockTask();
    PlainTasks();
  }

  lemma {:induction false} BlockFileRuns(p: nat)
    requires p < 7
    ensures RunBefore(BlockFile(), p, []) == if p == 3 then [""] else []
  {
    hide IsTaskFile, IsRow;
    var rows := BlockFile();
    BlockFileIsFile();
    if p == 3 {
      assert rows[1].kind.ListKey? && forall k | 1 < k < 3 :: !IsOuterKey(rows[k].kind);
    } else if p == 5 {
      assert rows[1].kind.ListKey? && IsOuterKey(rows[4].kind);
    }
  }

  lemma {:induction false} WeaveSix(content: seq<string>, a: seq<seq<string>>)
    requires |content| == 6 && |a| == 7
    ensures Weave(content, a) == a[0] + [content[0]] + a[1] + [content[1]] + a[2] + [content[2]] + a[3] + [content[3]]
                                 + a[4] + [content[4]] + a[5] + [content[5]] + a[6]
  {
    WeaveLast(content, a, 6);
    WeaveLast(content, a, 5);
    WeaveLast(content, a, 4);
    WeaveLast(content, a, 3);
    WeaveLast(content, a, 2);
    WeaveLast(content, a, 1);
    assert content[..6] == content && a[..7] == a;
  }

  lemma WeaveLast(content: seq<string>, gaps: seq<seq<string>>, n: nat)
    requires |gaps| == |content| + 1 && 0 < n <= |content|
    ensures Weave(content[..n], gaps[..n + 1]) == Weave(content[..n - 1], gaps[..n]) + [content[n - 1]] + gaps[n]
    ensures Weave(content[..0], gaps[..1]) == gaps[0]
  {
    assert content[..n][..n - 1] == content[..n - 1] && gaps[..n + 1][..n] == gaps[..n];
  }

  /** So a block takes the blank line away from tasks further down: here the second task is set off and the
      third is not. */
  lemma {:induction false} BlockStopsSpacing()
    ensures FormatLayout(Join(["- name: a", "  block:", "    - debug: x", "- name: b", "  debug: y", "- name: c"])) ==
            Join(["- name: a", "  block:", "    - debug: x", "", "- name: b", "  debug: y", "- name: c"])
  {
    hide IsFile, IsTaskFile, AreRead, Weave, Line, Join, FormatLayout, RunBefore, BlockFile;
    var rows, gaps: seq<seq<string>> := BlockFile(), seq(7, _ => []);
    BlockFileIsFile();
    FormatsFile(rows, gaps);
    forall p | 0 <= p < 7 ensures Runs(rows, gaps)[p] == if p == 3 then [""] else [] { BlockFileRuns(p); }
    WeaveSix(BlockLines(), gaps);
    WeaveSix(BlockLines(), Runs(rows, gaps));
    assert Weave(BlockLines(), gaps) == BlockLines();
    assert Weave(BlockLines(), Runs(rows, gaps)) ==
           ["- name: a", "  block:", "    - debug: x", "", "- name: b", "  debug: y", "- name: c"];
  }
}
