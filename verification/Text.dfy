/** Strings as Python sees them: white space, trimming, and text as a list of lines. Also what several
    modules need of sequences and sets. */
module Text {

  datatype Option<+T> = None | Some(value: T)

  /** The characters `str.isspace`, `str.strip` and the pattern `\s` treat as white space. */
  predicate IsSpace(c: char) {
    var n := c as int;
    9 <= n <= 13 || 28 <= n <= 32 || n == 0x85 || n == 0xA0 || n == 0x1680 || 0x2000 <= n <= 0x200A
    || n == 0x2028 || n == 0x2029 || n == 0x202F || n == 0x205F || n == 0x3000
  }

  predicate IsBlankChar(c: char) { c == ' ' }

  predicate IsDigit(c: char) { '0' <= c <= '9' }

  predicate NotSpace(c: char) { !IsSpace(c) }

  /** A line of white space only, or empty. */
  predicate Blank(line: string) {
    forall i | 0 <= i < |line| :: IsSpace(line[i])
  }

  ghost predicate Distinct<T>(s: seq<T>) {
    forall i, j | 0 <= i < j < |s| :: s[i] != s[j]
  }

  /** The first position at or after `i` whose character does not satisfy `p`. */
  function SkipWhile(s: string, i: nat, p: char -> bool): (j: nat)
    requires i <= |s|
    ensures i <= j <= |s|
    ensures forall k | i <= k < j :: p(s[k])
    ensures j < |s| ==> !p(s[j])
    decreases |s| - i
  {
    if i < |s| && p(s[i]) then SkipWhile(s, i + 1, p) else i
  }

  lemma {:induction false} SkipTo(s: string, i: nat, p: char -> bool, j: nat)
    requires i <= j <= |s|
    requires forall k | i <= k < j :: p(s[k])
    requires j < |s| ==> !p(s[j])
    ensures SkipWhile(s, i, p) == j
  {
  }

  function TrimLeft(s: string, p: char -> bool): string {
    s[SkipWhile(s, 0, p)..]
  }

  function TrimRight(s: string, p: char -> bool): (r: string)
    ensures r <= s
    ensures r != "" ==> !p(r[|r| - 1])
    ensures forall k | |r| <= k < |s| :: p(s[k])
  {
    if s != "" && p(s[|s| - 1]) then TrimRight(s[..|s| - 1], p) else s
  }

  function Trim(s: string, p: char -> bool): string {
    TrimLeft(TrimRight(s, p), p)
  }

  predicate StartsWith(s: string, prefix: string) {
    |prefix| <= |s| && s[..|prefix|] == prefix
  }

  predicate NoNewline(line: string) {
    '\n' !in line
  }

  /** `"\n".join(lines)` */
  function Join(lines: seq<string>): string {
    if lines == [] then ""
    else if |lines| == 1 then lines[0]
    else lines[0] + "\n" + Join(lines[1..])
  }

  /** `text.split("\n")` */
  function Split(text: string): (lines: seq<string>)
    ensures lines != []
    ensures forall i | 0 <= i < |lines| :: NoNewline(lines[i])
  {
    if text == "" then [""]
    else
      var rest := Split(text[1..]);
      if text[0] == '\n' then [""] + rest else [[text[0]] + rest[0]] + rest[1..]
  }

  /** Joining what was split gives the text back. */
  lemma {:induction false} JoinSplit(text: string)
    ensures Join(Split(text)) == text
  {
    if text != "" {
      JoinSplit(text[1..]);
      var rest := Split(text[1..]);
      if text[0] != '\n' {
        if |rest| > 1 { assert Split(text)[1..] == rest[1..]; }
      } else {
        assert Split(text)[1..] == rest;
      }
      assert text == [text[0]] + text[1..];
    }
  }

  /** A line followed by a line break and more text splits into that line and the rest. */
  lemma {:induction false} SplitCons(line: string, rest: string)
    requires NoNewline(line)
    ensures Split(line + "\n" + rest) == [line] + Split(rest)
  {
    var text := line + "\n" + rest;
    if line == "" {
      assert text[1..] == rest;
    } else {
      assert text[1..] == line[1..] + "\n" + rest;
      SplitCons(line[1..], rest);
      assert [line[0]] + line[1..] == line;
    }
  }

  lemma {:induction false} SplitSingle(line: string)
    requires NoNewline(line)
    ensures Split(line) == [line]
  {
    if line != "" {
      SplitSingle(line[1..]);
      assert [line[0]] + line[1..] == line;
    }
  }

  /** Splitting what was joined gives the lines back, for lines that hold no line break. */
  lemma {:induction false} SplitJoin(lines: seq<string>)
    requires lines != []
    requires forall i | 0 <= i < |lines| :: NoNewline(lines[i])
    ensures Split(Join(lines)) == lines
  {
    if |lines| == 1 {
      SplitSingle(lines[0]);
    } else {
      SplitJoin(lines[1..]);
      SplitCons(lines[0], Join(lines[1..]));
    }
  }

  /** A number above all members of a set. */
  lemma {:induction false} Above(numbers: set<nat>) returns (bound: nat)
    ensures forall n | n in numbers :: n < bound
    decreases |numbers|
  {
    bound := 0;
    if numbers != {} {
      var n :| n in numbers;
      var below := Above(numbers - {n});
      bound := if n < below then below else n + 1;
      assert numbers == (numbers - {n}) + {n};
    }
  }
}
