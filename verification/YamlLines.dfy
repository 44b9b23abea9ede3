/** What the formatter reads off a single YAML line: its indentation, comment, mapping key,
    task-item dash and block-scalar header. */
module YamlLines {
  import opened Text

  // ---------- comments ----------

  /** Where a left-to-right reader of a line stands with respect to quotes. `Closing` is the
      position after a single quote that ends the scalar unless another one doubles it. */
  datatype Quote = Plain | Double | Escaped | Single | Closing

  function AfterPlain(c: char): Quote {
    if c == '"' then Double else if c == '\'' then Single else Plain
  }

  function AfterChar(q: Quote, c: char): Quote {
    match q
    case Plain => AfterPlain(c)
    case Double => if c == '\\' then Escaped else if c == '"' then Plain else Double
    case Escaped => Double
    case Single => if c == '\'' then Closing else Single
    case Closing => if c == '\'' then Single else AfterPlain(c)
  }

  /** The quote state after reading `s`. */
  function QuoteAfter(s: string): Quote {
    if s == "" then Plain else AfterChar(QuoteAfter(s[..|s| - 1]), s[|s| - 1])
  }

  /** A hash starts a comment outside quotes, at the start of the line or after white space. */
  predicate StartsComment(line: string, i: nat)
    requires i < |line|
  {
    && line[i] == '#'
    && (i == 0 || IsSpace(line[i - 1]))
    && QuoteAfter(line[..i]) in {Plain, Closing}
  }

  /** The first comment start at or after `i`, or the length of the line. */
  function CommentStart(line: string, i: nat): (k: nat)
    requires i <= |line|
    ensures i <= k <= |line|
    ensures k < |line| ==> StartsComment(line, k)
    ensures forall j | i <= j < k :: !StartsComment(line, j)
    decreases |line| - i
  {
    if i == |line| || StartsComment(line, i) then i else CommentStart(line, i + 1)
  }

  function BeforeComment(line: string): string {
    line[..CommentStart(line, 0)]
  }

  // ---------- indentation, keys and items ----------

  /** How many spaces lead the line. */
  function Indent(line: string): nat {
    SkipWhile(line, 0, IsBlankChar)
  }

  /** How many white-space characters of any kind lead the line. */
  function WideIndent(line: string): nat {
    SkipWhile(line, 0, IsSpace)
  }

  predicate NotColon(c: char) { c != ':' }

  datatype Key = Key(indent: nat, name: string)

  /** The match of `^( *)([^#\s][^:]*):(?:\s|$)`. The key starts at the first non-space character
      and, since it holds no colon after its first character, runs to the next colon. */
  function KeyOf(line: string): (key: Option<Key>)
    ensures key.Some? ==> ':' in line && !Blank(line)
  {
    var k := Indent(line);
    if k == |line| || line[k] == '#' || IsSpace(line[k]) then None
    else
      var q := SkipWhile(line, k + 1, NotColon);
      if q < |line| && (q + 1 == |line| || IsSpace(line[q + 1]))
      then assert line[q] == ':'; Some(Key(k, line[k..q]))
      else None
  }

  /** The match of `^(\s*)- \S`: the width of the white space before the dash. */
  function ItemIndent(line: string): (item: Option<nat>)
    ensures item.Some? ==> item.value == WideIndent(line) < |line| && !Blank(line)
  {
    var w := WideIndent(line);
    if w + 2 < |line| && line[w] == '-' && line[w + 1] == ' ' && !IsSpace(line[w + 2])
    then assert !IsSpace(line[w]); Some(w)
    else None
  }

  // ---------- block scalar headers ----------

  /** The indentation a block scalar is measured against, the content indentation its header
      fixes (if any), and whether trailing blank lines are kept (`+`). */
  datatype Header = Header(parent: nat, explicitIndent: Option<nat>, keep: bool)

  predicate IsSign(c: char) { c == '+' || c == '-' }

  /** `(?:[+-]?\d?|\d?[+-]?)` on a whole string */
  predicate IsModifiers(m: string) {
    || m == ""
    || (|m| == 1 && (IsSign(m[0]) || IsDigit(m[0])))
    || (|m| == 2 && IsSign(m[0]) && IsDigit(m[1]))
    || (|m| == 2 && IsDigit(m[0]) && IsSign(m[1]))
  }

  /** The modifiers that follow the style character, when nothing but a comment follows them. */
  function ModifiersAt(text: string, i: nat): Option<string>
    requires i <= |text|
  {
    var j := SkipWhile(text, i, NotSpace);
    var h := SkipWhile(text, j, IsSpace);
    if IsModifiers(text[i..j]) && (j == |text| || (h < |text| && text[h] == '#'))
    then Some(text[i..j])
    else None
  }

  /** The position of the style character when `text[i..]` is node properties (`&anchor`, `!tag`)
      followed by a block scalar indicator up to the end of the line. */
  function StyleAt(text: string, i: nat): (at: Option<nat>)
    requires i <= |text|
    ensures at.Some? ==> i <= at.value < |text|
    decreases |text| - i
  {
    var s := SkipWhile(text, i, IsSpace);
    if s == |text| then None
    else if text[s] == '&' || text[s] == '!' then
      var e := SkipWhile(text, s, NotSpace);
      if e < s + 2 || e == |text| then None else StyleAt(text, e)
    else if (text[s] == '>' || text[s] == '|') && ModifiersAt(text, s + 1).Some? then Some(s)
    else None
  }

  /** The style character found after the first colon, at or after `i`, that one follows. */
  function StyleAfterColon(text: string, i: nat): (at: Option<nat>)
    requires i <= |text|
    ensures at.Some? ==> i < at.value < |text|
    decreases |text| - i
  {
    if i == |text| then None
    else if text[i] == ':' && StyleAt(text, i + 1).Some? then StyleAt(text, i + 1)
    else StyleAfterColon(text, i + 1)
  }

  /** `^-\s+.+?:` matches a prefix of `s` */
  predicate IsSequenceMapping(s: string) {
    |s| > 3 && s[0] == '-' && IsSpace(s[1]) && ':' in s[3..]
  }

  function FirstDigit(m: string): Option<nat> {
    if m == "" then None
    else if IsDigit(m[0]) then Some(m[0] as int - '0' as int)
    else FirstDigit(m[1..])
  }

  function HeaderFrom(text: string, indent: nat, at: nat): Header
    requires indent <= at < |text|
  {
    var modifiers := if ModifiersAt(text, at + 1).Some? then ModifiersAt(text, at + 1).value else "";
    var parent := if IsSequenceMapping(text[indent..at]) then indent + 2 else indent;
    var digit := FirstDigit(modifiers);
    Header(parent, if digit.Some? then Some(parent + digit.value) else None, '+' in modifiers)
  }

  /** The block scalar header a line carries once its comment is removed. */
  function HeaderOf(line: string): Option<Header> {
    var text := TrimRight(BeforeComment(line), IsSpace);
    var k := Indent(text);
    var colon := StyleAfterColon(text, k);
    if colon.Some? then Some(HeaderFrom(text, k, colon.value))
    else if k + 1 < |text| && text[k] == '-' && IsSpace(text[k + 1]) then
      var dash := StyleAt(text, k + 1);
      if dash.Some? then Some(HeaderFrom(text, k, dash.value)) else None
    else None
  }

  // ---------- task-list headers ----------

  const TASK_LIST_KEYS := {"tasks", "pre_tasks", "post_tasks", "handlers", "block", "rescue", "always"}
  const PLAY_KEYS := {"hosts", "import_playbook"}

  predicate IsTaskListKey(key: string) { key in TASK_LIST_KEYS }

  predicate IsDashOrSpace(c: char) { c == '-' || c == ' ' }

  predicate IsColon(c: char) { c == ':' }

  /** The line ends in a colon and its key, without leading dashes, names a list of tasks. */
  predicate IsTaskListHeader(line: string) {
    var stripped := TrimRight(line, IsSpace);
    && stripped != "" && stripped[|stripped| - 1] == ':'
    && IsTaskListKey(Trim(TrimRight(TrimLeft(stripped, IsDashOrSpace), IsColon), IsSpace))
  }

  /** A document start or a task-list header: no blank line is put after such a line. */
  predicate IsListOpener(line: string) {
    TrimRight(line, IsSpace) == "---" || IsTaskListHeader(line)
  }

  // ---------- the comment scanner as written ----------

  lemma QuoteStep(line: string, i: nat)
    requires i < |line|
    ensures QuoteAfter(line[..i + 1]) == AfterChar(QuoteAfter(line[..i]), line[i])
  {
    assert line[..i + 1][..i] == line[..i];
  }

  /** The scanner that walks the line with a quote and an escape flag cuts it exactly at the first
      comment start, and leaves a line without one alone. */
  method WithoutYamlComment(line: string) returns (r: string)
    ensures r == BeforeComment(line)
    ensures r == line <==> forall j: nat | j < |line| :: !StartsComment(line, j)
  {
    var quote: Option<char> := None;
    var escaped := false;
    var index := 0;
    while index < |line|
      invariant 0 <= index <= |line|
      invariant forall j | 0 <= j < index :: !StartsComment(line, j)
      invariant quote in {None, Some('"'), Some('\'')}
      invariant escaped ==> quote == Some('"')
      invariant quote == Some('"') ==> QuoteAfter(line[..index]) == if escaped then Escaped else Double
      invariant quote == Some('\'') ==> QuoteAfter(line[..index]) == Single
      invariant quote == None ==>
        || QuoteAfter(line[..index]) == Plain
        || (QuoteAfter(line[..index]) == Closing && (index < |line| ==> line[index] != '\''))
      decreases |line| - index
    {
      var c := line[index];
      QuoteStep(line, index);
      if quote == Some('"') {
        if escaped {
          escaped := false;
        } else if c == '\\' {
          escaped := true;
        } else if c == '"' {
          quote := None;
        }
      } else if quote == Some('\'') {
        if c == '\'' {
          if index + 1 < |line| && line[index + 1] == '\'' {
            index := index + 1;
            QuoteStep(line, index);
          } else {
            quote := None;
          }
        }
      } else if c == '"' || c == '\'' {
        quote := Some(c);
      } else if c == '#' && (index == 0 || IsSpace(line[index - 1])) {
        assert StartsComment(line, index);
        CommentStartIs(line, index);
        return line[..index];
      }
      index := index + 1;
    }
    CommentStartIs(line, |line|);
    assert line[..|line|] == line;
    return line;
  }

  lemma CommentStartIs(line: string, k: nat)
    requires k <= |line|
    requires k < |line| ==> StartsComment(line, k)
    requires forall j | 0 <= j < k :: !StartsComment(line, j)
    ensures CommentStart(line, 0) == k
  {
  }

  // ---------- comments and quotes as written ----------

  /** A string between double quotes, as YAML writes it. */
  function InDouble(s: string): string {
    if s == "" then ""
    else InDouble(s[..|s| - 1]) + (if s[|s| - 1] in {'"', '\\'} then ['\\', s[|s| - 1]] else [s[|s| - 1]])
  }

  /** A string between single quotes, as YAML writes it. */
  function InSingle(s: string): string {
    if s == "" then ""
    else InSingle(s[..|s| - 1]) + (if s[|s| - 1] == '\'' then "''" else [s[|s| - 1]])
  }

  /** Reading `s` ends in state `q` and meets no comment. */
  ghost predicate Quiet(s: string, q: Quote) {
    QuoteAfter(s) == q && forall j | 0 <= j < |s| :: !StartsComment(s, j)
  }

  lemma {:induction false} QuietNext(s: string, q: Quote, c: char)
    requires Quiet(s, q)
    requires c == '#' ==> q !in {Plain, Closing} || (s != "" && !IsSpace(s[|s| - 1]))
    ensures Quiet(s + [c], AfterChar(q, c))
  {
    hide IsSpace;
    var t := s + [c];
    assert t[..|s|] == s;
    forall j | 0 <= j < |t| ensures !StartsComment(t, j) {
      if j < |s| { assert t[..j] == s[..j] && !StartsComment(s, j); }
    }
  }

  lemma {:induction false} PlainIsQuiet(s: string)
    requires forall k | 0 <= k < |s| :: s[k] !in {'"', '\'', '#'}
    ensures Quiet(s, Plain)
  {
    if s != "" {
      var n := |s| - 1;
      PlainIsQuiet(s[..n]);
      QuietNext(s[..n], Plain, s[n]);
      assert s[..n] + [s[n]] == s;
    }
  }

  lemma {:induction false} DoubleIsQuiet(front: string, s: string)
    requires Quiet(front, Plain)
    ensures Quiet(front + "\"" + InDouble(s), Double)
  {
    hide Quiet;
    if s == "" {
      QuietNext(front, Plain, '"');
      assert front + "\"" + "" == front + ['"'];
    } else {
      var n := |s| - 1;
      var t := front + "\"" + InDouble(s[..n]);
      DoubleIsQuiet(front, s[..n]);
      if s[n] in {'"', '\\'} {
        QuietNext(t, Double, '\\');
        QuietNext(t + ['\\'], Escaped, s[n]);
        assert front + "\"" + InDouble(s) == t + ['\\'] + [s[n]];
      } else {
        QuietNext(t, Double, s[n]);
        assert front + "\"" + InDouble(s) == t + [s[n]];
      }
    }
  }

  lemma {:induction false} SingleIsQuiet(front: string, s: string)
    requires Quiet(front, Plain)
    ensures Quiet(front + "'" + InSingle(s), Single)
  {
    hide Quiet;
    if s == "" {
      QuietNext(front, Plain, '\'');
      assert front + "'" + "" == front + ['\''];
    } else {
      var n := |s| - 1;
      var t := front + "'" + InSingle(s[..n]);
      SingleIsQuiet(front, s[..n]);
      if s[n] == '\'' {
        QuietNext(t, Single, '\'');
        QuietNext(t + ['\''], Closing, '\'');
        assert front + "'" + InSingle(s) == t + ['\''] + ['\''];
      } else {
        QuietNext(t, Single, s[n]);
        assert front + "'" + InSingle(s) == t + [s[n]];
      }
    }
  }

  lemma {:induction false} CutAfter(s: string, q: Quote, comment: string)
    requires Quiet(s, q) && q in {Plain, Closing} && (s == "" || IsSpace(s[|s| - 1]))
    ensures BeforeComment(s + "#" + comment) == s
  {
    hide IsSpace;
    var line := s + "#" + comment;
    assert line[..|s|] == s;
    forall j | 0 <= j < |s| ensures !StartsComment(line, j) { assert line[..j] == s[..j] && !StartsComment(s, j); }
    CommentStartIs(line, |s|);
  }

  /** A comment is cut off and nothing else: whatever stands between quotes, hashes and quotes included, stays. */
  lemma {:induction false} QuotedTextStays(front: string, s: string, double: bool, comment: string)
    requires forall k | 0 <= k < |front| :: front[k] !in {'"', '\'', '#'}
    ensures var quoted := front + (if double then "\"" + InDouble(s) + "\"" else "'" + InSingle(s) + "'");
            BeforeComment(quoted) == quoted && BeforeComment(quoted + " #" + comment) == quoted + " "
  {
    hide Quiet, CommentStart;
    PlainIsQuiet(front);
    var c, q, open := if double then '"' else '\'', if double then Double else Single,
      front + (if double then "\"" + InDouble(s) else "'" + InSingle(s));
    if double {
      DoubleIsQuiet(front, s);
      assert open == front + "\"" + InDouble(s);
    } else {
      SingleIsQuiet(front, s);
      assert open == front + "'" + InSingle(s);
    }
    QuietNext(open, q, c);
    var quoted := front + (if double then "\"" + InDouble(s) + "\"" else "'" + InSingle(s) + "'");
    assert quoted == open + [c];
    QuietNext(quoted, AfterChar(q, c), ' ');
    CutAfter(quoted + [' '], Plain, comment);
    assert quoted + [' '] + "#" + comment == quoted + " #" + comment;
    QuietIsKept(quoted, AfterChar(q, c));
  }

  lemma {:induction false} QuietIsKept(s: string, q: Quote)
    requires Quiet(s, q)
    ensures BeforeComment(s) == s
  {
    CommentStartIs(s, |s|);
    assert s[..|s|] == s;
  }
}
