/** Old-style `key=value key2="other value"` module arguments. */
module KvString {
  import opened Text

  predicate IsWord(c: char) {
    'a' <= c <= 'z' || 'A' <= c <= 'Z' || IsDigit(c) || c == '_'
  }

  predicate IsQuote(c: char) { c == '"' || c == '\'' }

  lemma {:induction false} LettersAre(c: char)
    ensures 'A' <= c <= 'Z' <==> c in "ABCDEFGHIJKLMNOPQRSTUVWXYZ"
  {
    if 'A' <= c <= 'Z' { assert "ABCDEFGHIJKLMNOPQRSTUVWXYZ"[c as int - 'A' as int] == c; }
  }

  lemma {:induction false} SmallLettersAre(c: char)
    ensures 'a' <= c <= 'z' <==> c in "abcdefghijklmnopqrstuvwxyz"
  {
    if 'a' <= c <= 'z' { assert "abcdefghijklmnopqrstuvwxyz"[c as int - 'a' as int] == c; }
  }

  lemma {:induction false} DigitsAre(c: char)
    ensures '0' <= c <= '9' <==> c in "0123456789"
  {
    if '0' <= c <= '9' { assert "0123456789"[c as int - '0' as int] == c; }
  }

  /** The characters of keys, `\w` for ASCII, and the two quotes. */
  lemma {:induction false} CharactersAre(c: char)
    ensures IsWord(c) <==>
            c in "ABCDEFGHIJKLMNOPQRSTUVWXYZ" || c in "abcdefghijklmnopqrstuvwxyz" || c in "0123456789" || c == '_'
    ensures IsQuote(c) <==> c in {'\'', '"'}
  {
    LettersAre(c);
    SmallLettersAre(c);
    DigitsAre(c);
  }

  // ---------- closing quotes ----------

  /** How many backslashes stand directly before position `i`, not counting the opening quote. */
  function BackslashesBefore(s: string, i: nat): nat
    requires i <= |s|
  {
    if i <= 1 || s[i - 1] != '\\' then 0 else 1 + BackslashesBefore(s, i - 1)
  }

  /** A quote closes the value unless an odd run of backslashes stands before it. */
  predicate Closes(s: string, q: char, i: nat) {
    1 <= i < |s| && s[i] == q && BackslashesBefore(s, i) % 2 == 0
  }

  /** The first closing quote at or after `i`, or -1. */
  function ClosingQuote(s: string, q: char, i: nat): (k: int)
    requires 1 <= i
    ensures k == -1 || (i <= k < |s| && Closes(s, q, k))
    ensures forall j | i <= j < (if k == -1 then |s| else k) :: !Closes(s, q, j)
    decreases |s| - i
  {
    if i >= |s| then -1 else if Closes(s, q, i) then i else ClosingQuote(s, q, i + 1)
  }

  lemma {:induction false} ClosingQuoteIs(s: string, q: char, i: nat, k: nat)
    requires 1 <= i <= k
    requires k < |s| ==> Closes(s, q, k)
    requires forall j | i <= j < k :: !Closes(s, q, j)
    ensures ClosingQuote(s, q, i) == if k < |s| then k else -1
    decreases k - i
  {
  }

  /** The scan that jumps over escaped characters finds the first closing quote. */
  method FindClosingQuote(s: string, quoteChar: char) returns (end: int)
    requires IsQuote(quoteChar)
    ensures end == ClosingQuote(s, quoteChar, 1)
  {
    var i := 1;
    while i < |s|
      invariant 1 <= i
      invariant i < |s| ==> BackslashesBefore(s, i) % 2 == 0
      invariant forall j | 1 <= j < i :: !Closes(s, quoteChar, j)
      decreases |s| - i
    {
      if s[i] == '\\' && i + 1 < |s| {
        i := i + 2;
        continue;
      }
      if s[i] == quoteChar {
        ClosingQuoteIs(s, quoteChar, 1, i);
        return i;
      }
      i := i + 1;
    }
    ClosingQuoteIs(s, quoteChar, 1, i);
    return -1;
  }

  // ---------- the parser ----------

  /** An ordered mapping from keys to values. */
  type Pairs = seq<(string, string)>

  /** `result[key] = val`: a new key goes to the end, a known key keeps its place. */
  function Put(pairs: Pairs, key: string, val: string): Pairs {
    if pairs == [] then [(key, val)]
    else if pairs[0].0 == key then [(key, val)] + pairs[1..]
    else [pairs[0]] + Put(pairs[1..], key, val)
  }

  /** A new key goes to the end; a known one keeps its place and takes the new value. */
  lemma {:induction false} PutIs(pairs: Pairs, key: string, val: string, i: nat)
    requires i <= |pairs| && (forall j | 0 <= j < i :: pairs[j].0 != key) && (i < |pairs| ==> pairs[i].0 == key)
    ensures Put(pairs, key, val) == pairs[..i] + [(key, val)] + if i < |pairs| then pairs[i + 1..] else []
  {
    if i > 0 {
      PutIs(pairs[1..], key, val, i - 1);
      assert pairs == [pairs[0]] + pairs[1..];
    }
  }

  /** Parsed pairs, text that is not key=value pairs, or the `IndexError` of a key with no value. */
  datatype Outcome = Parsed(pairs: Pairs) | NotPairs | IndexError

  datatype Token = Pair(key: string, val: string, rest: string) | NoPair | NoValue

  /** The position of the first `}}` at or after `i`, or the length. */
  function CloseBraces(s: string, i: nat): (k: nat)
    requires i <= |s|
    ensures i <= k <= |s|
    ensures k < |s| ==> k + 1 < |s| && s[k] == '}' && s[k + 1] == '}'
    ensures forall j | i <= j < k && j + 1 < |s| :: !(s[j] == '}' && s[j + 1] == '}')
    decreases |s| - i
  {
    if i + 1 >= |s| then |s| else if s[i] == '}' && s[i + 1] == '}' then i else CloseBraces(s, i + 1)
  }

  function QuotedValue(key: string, s: string): Token
    requires s != ""
  {
    var end := ClosingQuote(s, s[0], 1);
    if end == -1 then NoPair else Pair(key, s[1..end], TrimLeft(s[end + 1..], IsSpace))
  }

  function JinjaValue(key: string, s: string): Token {
    var end := CloseBraces(s, 0);
    if end == |s| then NoPair else Pair(key, s[..end + 2], TrimLeft(s[end + 2..], IsSpace))
  }

  /** `remaining.split(None, 1)`, whose first part is missing when nothing but spaces is left. */
  function BareValue(key: string, s: string): Token {
    var from := SkipWhile(s, 0, IsSpace);
    var to := SkipWhile(s, from, NotSpace);
    if from == |s| then NoValue else Pair(key, s[from..to], TrimLeft(s[to..], IsSpace))
  }

  function ValueToken(key: string, s: string): Token {
    if s != "" && IsQuote(s[0]) then QuotedValue(key, s)
    else if StartsWith(s, "{{") then JinjaValue(key, s)
    else BareValue(key, s)
  }

  /** One `key=value` off the front; every token that is found consumes at least its key. */
  function NextToken(s: string): (t: Token)
    ensures t.Pair? ==> |t.rest| < |s|
  {
    var w := SkipWhile(s, 0, IsWord);
    if w == 0 || w == |s| || s[w] != '=' then NoPair else ValueToken(s[..w], s[w + 1..])
  }

  function Run(s: string, pairs: Pairs): Outcome
    decreases |s|
  {
    if s == "" then Parsed(pairs)
    else match NextToken(s)
      case Pair(key, val, rest) => Run(rest, Put(pairs, key, val))
      case NoPair => NotPairs
      case NoValue => IndexError
  }

  function Parse(value: string): Outcome {
    if '=' !in value then NotPairs else Run(Trim(value, IsSpace), [])
  }

  lemma TrimHasEquals(value: string)
    requires '=' in value
    ensures Trim(value, IsSpace) != ""
  {
    var i :| 0 <= i < |value| && value[i] == '=';
    var right := TrimRight(value, IsSpace);
    assert i < |right|;
    assert right[i] == '=';
  }

  lemma {:induction false} PutIsNotEmpty(pairs: Pairs, key: string, val: string)
    ensures Put(pairs, key, val) != []
  {
  }

  /** The loop over what remains terminates, because each round consumes input, and parses. */
  method ParseKvString(value: string) returns (outcome: Outcome)
    ensures outcome == Parse(value)
  {
    hide Trim, IsSpace, NextToken;
    if '=' !in value {
      return NotPairs;
    }
    TrimHasEquals(value);
    var result: Pairs := [];
    var remaining := Trim(value, IsSpace);
    while remaining != ""
      invariant Run(remaining, result) == Parse(value)
      invariant remaining == "" ==> result != []
      decreases |remaining|
    {
      match NextToken(remaining) {
        case NoPair => return NotPairs;
        case NoValue => return IndexError;
        case Pair(key, val, rest) =>
          PutIsNotEmpty(result, key, val);
          result, remaining := Put(result, key, val), rest;
      }
    }
    return if |result| > 0 then Parsed(result) else NotPairs;
  }

  // ---------- the printer it inverts ----------

  datatype Val = Bare(text: string) | Quoted(quote: char, text: string) | Jinja(inner: string) {
    function Render(): string {
      match this
      case Bare(text) => text
      case Quoted(quote, text) => [quote] + text + [quote]
      case Jinja(inner) => "{{" + inner + "}}"
    }

    /** What the parser makes of it. */
    function Read(): string {
      if Quoted? then text else Render()
    }

    /** A bare word, a quoted text without escapes, or an expression without inner braces. */
    ghost predicate Valid() {
      match this
      case Bare(text) =>
        && text != "" && !IsQuote(text[0]) && !StartsWith(text, "{{")
        && forall i | 0 <= i < |text| :: !IsSpace(text[i])
      case Quoted(quote, text) => IsQuote(quote) && quote !in text && '\\' !in text
      case Jinja(inner) => forall i | 0 <= i < |inner| && inner[i] == '}' :: i + 1 < |inner| && inner[i + 1] != '}'
    }
  }

  datatype Arg = Arg(key: string, val: Val) {
    function Render(): string { key + "=" + val.Render() }

    ghost predicate Valid() {
      key != "" && (forall i | 0 <= i < |key| :: IsWord(key[i])) && val.Valid()
    }
  }

  function Print(args: seq<Arg>): string
    decreases |args|, 0
  {
    if args == [] then "" else args[0].Render() + PrintRest(args[1..])
  }

  function PrintRest(args: seq<Arg>): string
    decreases |args|, 1
  {
    if args == [] then "" else " " + Print(args)
  }

  function Expected(args: seq<Arg>): Pairs {
    seq(|args|, i requires 0 <= i < |args| => (args[i].key, args[i].val.Read()))
  }

  ghost predicate Printable(args: seq<Arg>) {
    && (forall i | 0 <= i < |args| :: args[i].Valid())
    && forall i, j | 0 <= i < j < |args| :: args[i].key != args[j].key
  }

  /** What may follow a value: nothing, or one space and a text that does not start with one. */
  ghost predicate Follows(tail: string) {
    tail == "" || (|tail| > 1 && tail[0] == ' ' && !IsSpace(tail[1]))
  }

  lemma {:induction false} NoBackslashes(s: string, i: nat)
    requires 1 <= i <= |s| && forall k | 1 <= k < i :: s[k] != '\\'
    ensures BackslashesBefore(s, i) == 0
  {
  }

  lemma {:induction false} CloseBracesIs(s: string, i: nat, k: nat)
    requires i <= k && k + 1 < |s| && s[k] == '}' && s[k + 1] == '}'
    requires forall j | i <= j < k :: !(s[j] == '}' && s[j + 1] == '}')
    ensures CloseBraces(s, i) == k
    decreases k - i
  {
    if i < k { CloseBracesIs(s, i + 1, k); }
  }

  lemma {:induction false} ReadQuoted(key: string, v: Val, tail: string)
    requires v.Quoted? && v.Valid() && Follows(tail)
    ensures QuotedValue(key, v.Render() + tail) == Pair(key, v.Read(), TrimLeft(tail, IsSpace))
  {
    var s := v.Render() + tail;
    var end := |v.text| + 1;
    assert s[1..end] == v.text && s[end + 1..] == tail && s[0] == v.quote == s[end];
    forall j | 1 <= j < end ensures s[j] != v.quote && s[j] != '\\' {
      assert s[j] == v.text[j - 1];
    }
    NoBackslashes(s, end);
    ClosingQuoteIs(s, v.quote, 1, end);
  }

  lemma {:induction false} ReadJinja(key: string, v: Val, tail: string)
    requires v.Jinja? && v.Valid() && Follows(tail)
    ensures JinjaValue(key, v.Render() + tail) == Pair(key, v.Read(), TrimLeft(tail, IsSpace))
  {
    var s := v.Render() + tail;
    var end := |v.inner| + 2;
    assert s[..end + 2] == v.Render() && s[end + 2..] == tail && s[0] == s[1] == '{';
    forall j | 0 <= j < end ensures !(s[j] == '}' && s[j + 1] == '}') {
      if j >= 2 {
        var i := j - 2;
        assert s[j] == v.inner[i];
        if i + 1 < |v.inner| { assert s[j + 1] == v.inner[i + 1]; }
      }
    }
    CloseBracesIs(s, 0, end);
  }

  lemma {:induction false} ReadBare(key: string, v: Val, tail: string)
    requires v.Bare? && v.Valid() && Follows(tail)
    ensures BareValue(key, v.Render() + tail) == Pair(key, v.Read(), TrimLeft(tail, IsSpace))
  {
    var s := v.text + tail;
    SkipTo(s, 0, IsSpace, 0);
    SkipTo(s, 0, NotSpace, |v.text|);
    assert s[..|v.text|] == v.text && s[|v.text|..] == tail;
  }

  lemma {:induction false} RenderStart(v: Val, tail: string)
    requires v.Bare? && v.Valid() && Follows(tail)
    ensures var s := v.Render() + tail; s != "" && !IsQuote(s[0]) && !StartsWith(s, "{{")
  {
    hide IsSpace;
    var s, text := v.Render() + tail, v.text;
    assert s[0] == text[0];
    if |text| == 1 && tail != "" { assert s[1] == ' '; }
    if |text| > 1 { assert s[1] == text[1] && text[..2] == [text[0], text[1]]; }
    if |s| > 1 { assert s[..2] == [s[0], s[1]]; }
  }

  lemma {:induction false} ReadValue(key: string, v: Val, tail: string)
    requires v.Valid() && Follows(tail)
    ensures ValueToken(key, v.Render() + tail) == Pair(key, v.Read(), TrimLeft(tail, IsSpace))
  {
    hide IsSpace, QuotedValue, JinjaValue, BareValue, TrimLeft, Val.Valid;
    var s := v.Render() + tail;
    match v
    case Bare(_) =>
      ReadBare(key, v, tail);
      RenderStart(v, tail);
    case Quoted(_, _) =>
      ReadQuoted(key, v, tail);
      QuotedStart(v, tail);
    case Jinja(_) =>
      ReadJinja(key, v, tail);
      assert s[..2] == "{{" && s[0] == '{';
  }

  lemma QuotedStart(v: Val, tail: string)
    requires v.Quoted? && v.Valid()
    ensures var s := v.Render() + tail; s != "" && IsQuote(s[0])
  {
  }

  lemma {:induction false} ReadArg(arg: Arg, tail: string)
    requires arg.Valid() && Follows(tail)
    ensures NextToken(arg.Render() + tail) == Pair(arg.key, arg.val.Read(), TrimLeft(tail, IsSpace))
  {
    hide IsSpace;
    var s := arg.Render() + tail;
    var w := |arg.key|;
    assert s[..w] == arg.key && s[w] == '=' && s[w + 1..] == arg.val.Render() + tail;
    SkipTo(s, 0, IsWord, w);
    ReadValue(arg.key, arg.val, tail);
  }

  lemma WordIsNotSpace(c: char)
    requires IsWord(c)
    ensures !IsSpace(c)
  {
  }

  lemma {:induction false} RestFollows(args: seq<Arg>)
    requires forall i | 0 <= i < |args| :: args[i].Valid()
    ensures Follows(PrintRest(args)) && TrimLeft(PrintRest(args), IsSpace) == Print(args)
  {
  }

  lemma PrintEmpty()
    ensures Print([]) == ""
  {
  }

  lemma PrintStarts(args: seq<Arg>)
    requires args != [] && args[0].key != ""
    ensures Print(args) != "" && Print(args)[0] == args[0].key[0]
  {
  }

  /** No argument has a key among these pairs. */
  ghost predicate Apart(args: seq<Arg>, pairs: Pairs) {
    forall i, j | 0 <= i < |args| && 0 <= j < |pairs| :: args[i].key != pairs[j].0
  }

  function FirstPair(args: seq<Arg>): (string, string)
    requires args != []
  {
    (args[0].key, args[0].val.Read())
  }

  lemma {:induction false} FirstApart(args: seq<Arg>, pairs: Pairs)
    requires args != [] && Printable(args) && Apart(args, pairs)
    ensures Put(pairs, args[0].key, args[0].val.Read()) == pairs + [FirstPair(args)]
    ensures Printable(args[1..]) && Apart(args[1..], pairs + [FirstPair(args)])
    ensures pairs + Expected(args) == pairs + [FirstPair(args)] + Expected(args[1..])
  {
    PutIs(pairs, args[0].key, args[0].val.Read(), |pairs|);
    assert pairs[..|pairs|] + [(args[0].key, args[0].val.Read())] + [] == pairs + [(args[0].key, args[0].val.Read())];
  }

  lemma {:induction false} TakeFirst(args: seq<Arg>)
    requires args != [] && Printable(args)
    ensures Print(args) != ""
    ensures NextToken(Print(args)) == Pair(args[0].key, args[0].val.Read(), Print(args[1..]))
  {
    hide NextToken, TrimLeft, IsSpace, PrintRest;
    PrintStarts(args);
    RestFollows(args[1..]);
    ReadArg(args[0], PrintRest(args[1..]));
  }

  lemma {:induction false} RunPrint(args: seq<Arg>, pairs: Pairs)
    requires Printable(args) && Apart(args, pairs)
    ensures Run(Print(args), pairs) == Parsed(pairs + Expected(args))
    decreases |args|
  {
    hide NextToken, Put, Print, Printable, Apart;
    if args == [] {
      PrintEmpty();
      assert pairs + Expected(args) == pairs;
    } else {
      FirstApart(args, pairs);
      TakeFirst(args);
      RunPrint(args[1..], pairs + [FirstPair(args)]);
    }
  }

  lemma RenderEnds(v: Val)
    requires v.Valid()
    ensures var shown := v.Render(); shown != "" && !IsSpace(shown[|shown| - 1])
  {
  }

  lemma LastOf(a: string, b: string)
    requires b != ""
    ensures (a + b)[|a + b| - 1] == b[|b| - 1]
  {
  }

  lemma {:induction false} PrintEnds(args: seq<Arg>)
    requires args != [] && forall i | 0 <= i < |args| :: args[i].Valid()
    ensures var s := Print(args); s != "" && !IsSpace(s[0]) && !IsSpace(s[|s| - 1]) && '=' in s
    decreases |args|
  {
    hide IsSpace;
    var arg, rest := args[0], PrintRest(args[1..]);
    PrintStarts(args);
    WordIsNotSpace(arg.key[0]);
    assert Print(args)[|arg.key|] == '=';
    if |args| == 1 {
      RenderEnds(arg.val);
      LastOf(arg.key + "=", arg.val.Render());
      assert Print(args) == arg.key + "=" + arg.val.Render();
    } else {
      PrintEnds(args[1..]);
      LastOf(" ", Print(args[1..]));
      LastOf(arg.Render(), rest);
    }
  }

  lemma TrimNothing(s: string)
    requires s != "" && !IsSpace(s[0]) && !IsSpace(s[|s| - 1])
    ensures Trim(s, IsSpace) == s
  {
  }

  /** Parsing inverts printing, for distinct word keys and every kind of printable value. */
  lemma {:induction false} ParsePrint(args: seq<Arg>)
    requires args != [] && Printable(args)
    ensures Parse(Print(args)) == Parsed(Expected(args))
  {
    hide Print, Expected, Run;
    PrintEnds(args);
    TrimNothing(Print(args));
    assert Apart(args, []);
    RunPrint(args, []);
    assert [] + Expected(args) == Expected(args);
  }

  // ---------- what every text gives ----------

  predicate NoSpace(s: string) { forall i | 0 <= i < |s| :: !IsSpace(s[i]) }

  predicate IsKey(s: string) { s != "" && forall i | 0 <= i < |s| :: IsWord(s[i]) }

  /** An argument as it is written: key, equals sign, spaces, value, spaces. */
  datatype Part = Part(key: string, lead: string, body: string, gap: string)

  function PartText(p: Part): string { p.key + "=" + (p.lead + p.body + p.gap) }

  /** The value is a quoted text, an expression in braces, or a word with a space behind it unless it is
      the last. */
  predicate IsPart(p: Part, last: bool) {
    && IsKey(p.key) && Blank(p.lead) && Blank(p.gap) && p.body != ""
    && (if p.lead == "" && IsQuote(p.body[0]) then ClosingQuote(p.body, p.body[0], 1) == |p.body| - 1
        else if p.lead == "" && StartsWith(p.body, "{{") then CloseBraces(p.body, 0) == |p.body| - 2
        else NoSpace(p.body) && (last || p.gap != ""))
  }

  /** The value without its quotes. */
  function ReadOf(p: Part): string {
    if p.lead == "" && |p.body| > 1 && IsQuote(p.body[0]) then p.body[1..|p.body| - 1] else p.body
  }

  function Spell(parts: seq<Part>, last: string): string {
    if parts == [] then last else PartText(parts[0]) + Spell(parts[1..], last)
  }

  /** The text is complete arguments followed by a key and an equals sign. */
  ghost predicate Dangles(s: string, parts: seq<Part>, key: string) {
    (forall i | 0 <= i < |parts| :: IsPart(parts[i], false)) && IsKey(key) && s == Spell(parts, key + "=")
  }

  lemma {:induction false} SameBackslashes(s: string, t: string, i: nat)
    requires i <= |s| && i <= |t| && s[..i] == t[..i]
    ensures BackslashesBefore(s, i) == BackslashesBefore(t, i)
  {
    if i > 1 {
      assert s[i - 1] == s[..i][i - 1] == t[i - 1];
      assert s[..i - 1] == s[..i][..i - 1] == t[..i - 1];
      SameBackslashes(s, t, i - 1);
    }
  }

  /** A quoted value is read the same whatever follows it. */
  lemma {:induction false} QuotedIsLocal(body: string, tail: string, end: nat)
    requires body != "" && end < |body|
    ensures ClosingQuote(body + tail, body[0], 1) == end <==> ClosingQuote(body[..end + 1], body[0], 1) == end
  {
    var s, t, q := body + tail, body[..end + 1], body[0];
    forall j | 1 <= j <= end ensures Closes(s, q, j) <==> Closes(t, q, j) {
      assert s[..j] == t[..j];
      SameBackslashes(s, t, j);
    }
    if ClosingQuote(s, q, 1) == end { ClosingQuoteIs(t, q, 1, end); }
    if ClosingQuote(t, q, 1) == end { ClosingQuoteIs(s, q, 1, end); }
  }

  lemma {:induction false} BracesAreLocal(body: string, tail: string, end: nat)
    requires end + 1 < |body|
    ensures CloseBraces(body + tail, 0) == end <==> CloseBraces(body[..end + 2], 0) == end
  {
    var s, t := body + tail, body[..end + 2];
    assert forall j | 0 <= j < end + 2 :: s[j] == t[j];
    if CloseBraces(s, 0) == end { CloseBracesIs(t, 0, end); }
    if CloseBraces(t, 0) == end { CloseBracesIs(s, 0, end); }
  }

  lemma {:induction false} SkipSpaces(spaces: string, tail: string)
    requires Blank(spaces) && (tail != "" ==> !IsSpace(tail[0]))
    ensures SkipWhile(spaces + tail, 0, IsSpace) == |spaces| && TrimLeft(spaces + tail, IsSpace) == tail
  {
    hide IsSpace;
    assert forall k | 0 <= k < |spaces| :: (spaces + tail)[k] == spaces[k];
    SkipTo(spaces + tail, 0, IsSpace, |spaces|);
  }

  lemma {:induction false} QuotedReads(key: string, body: string, more: string)
    requires |body| > 1 && ClosingQuote(body, body[0], 1) == |body| - 1
    ensures QuotedValue(key, body + more) == Pair(key, body[1..|body| - 1], TrimLeft(more, IsSpace))
  {
    hide IsSpace, TrimLeft;
    assert body[..|body|] == body && (body + more)[|body|..] == more;
    assert (body + more)[1..|body| - 1] == body[1..|body| - 1];
    QuotedIsLocal(body, more, |body| - 1);
  }

  lemma {:induction false} JinjaReads(key: string, body: string, more: string)
    requires |body| >= 2 && CloseBraces(body, 0) == |body| - 2
    ensures JinjaValue(key, body + more) == Pair(key, body, TrimLeft(more, IsSpace))
  {
    hide IsSpace, TrimLeft;
    assert body[..|body|] == body && (body + more)[..|body|] == body && (body + more)[|body|..] == more;
    BracesAreLocal(body, more, |body| - 2);
  }

  lemma {:induction false} BareReads(key: string, lead: string, body: string, more: string)
    requires Blank(lead) && NoSpace(body) && body != "" && (more != "" ==> IsSpace(more[0]))
    ensures BareValue(key, lead + (body + more)) == Pair(key, body, TrimLeft(more, IsSpace))
  {
    hide IsSpace, SkipWhile, TrimLeft, Blank;
    var v, n, m := lead + (body + more), |lead|, |lead| + |body|;
    SkipSpaces(lead, body + more);
    assert forall k | n <= k < m :: v[k] == body[k - n];
    assert v[n..m] == body && v[m..] == more && (more != "" ==> v[m] == more[0]);
    SkipTo(v, n, NotSpace, m);
  }

  /** The value of a written argument as the parser reads it, with another text behind it. */
  lemma {:induction false} PartValueReads(p: Part, tail: string)
    requires IsPart(p, tail == "") && (tail != "" ==> !IsSpace(tail[0]))
    ensures ValueToken(p.key, p.lead + p.body + p.gap + tail) == Pair(p.key, ReadOf(p), tail)
  {
    hide IsSpace, TrimLeft, QuotedValue, JinjaValue, BareValue;
    var v, more := p.lead + p.body + p.gap + tail, p.gap + tail;
    assert v == p.lead + (p.body + more);
    SkipSpaces(p.gap, tail);
    if p.lead == "" && IsQuote(p.body[0]) {
      assert v == p.body + more && v[0] == p.body[0];
      QuotedReads(p.key, p.body, more);
    } else if p.lead == "" && StartsWith(p.body, "{{") {
      assert v == p.body + more && v[0] == p.body[0] && v[..2] == p.body[..2];
      JinjaReads(p.key, p.body, more);
    } else {
      BareIsNeither(p, tail);
      assert more != "" ==> more[0] == p.gap[0];
      BareReads(p.key, p.lead, p.body, more);
    }
  }

  lemma {:induction false} BareIsNeither(p: Part, tail: string)
    requires IsPart(p, tail == "") && !(p.lead == "" && (IsQuote(p.body[0]) || StartsWith(p.body, "{{")))
    ensures var v := p.lead + p.body + p.gap + tail; !IsQuote(v[0]) && !StartsWith(v, "{{")
  {
    var v := p.lead + p.body + p.gap + tail;
    if p.lead != "" {
      assert v[0] == p.lead[0];
    } else {
      assert v[0] == p.body[0];
      if |v| > 1 {
        assert v[1] == if |p.body| > 1 then p.body[1] else p.gap[0];
        assert v[..2] == [v[0], v[1]];
      }
    }
  }

  lemma {:induction false} PartReads(p: Part, tail: string)
    requires IsPart(p, tail == "") && (tail != "" ==> !IsSpace(tail[0]))
    ensures NextToken(PartText(p) + tail) == Pair(p.key, ReadOf(p), tail)
  {
    hide IsSpace, ValueToken;
    var s, w := PartText(p) + tail, |p.key|;
    assert s[..w] == p.key && s[w] == '=' && s[w + 1..] == p.lead + p.body + p.gap + tail;
    SkipTo(s, 0, IsWord, w);
    PartValueReads(p, tail);
  }

  lemma {:induction false} GapOf(s: string) returns (gap: string)
    ensures Blank(gap) && s == gap + TrimLeft(s, IsSpace)
    ensures TrimLeft(s, IsSpace) != "" ==> !IsSpace(TrimLeft(s, IsSpace)[0])
    ensures s != "" && IsSpace(s[0]) ==> gap != ""
  {
    hide IsSpace;
    gap := s[..SkipWhile(s, 0, IsSpace)];
  }

  lemma BareStart(v: string, n: nat)
    requires !(v != "" && IsQuote(v[0])) && !StartsWith(v, "{{") && 0 < n <= |v|
    ensures !StartsWith(v[0..n], "{{") && !IsQuote(v[0..n][0])
  {
    assert n >= 2 ==> v[0..n][..2] == v[..2];
  }

  lemma {:induction false} BareIsPart(key: string, v: string) returns (p: Part)
    requires IsKey(key) && !(v != "" && IsQuote(v[0])) && !StartsWith(v, "{{")
    requires BareValue(key, v).Pair?
    ensures IsPart(p, BareValue(key, v).rest == "") && p.key == key && v == p.lead + p.body + p.gap + BareValue(key, v).rest
    ensures BareValue(key, v).rest != "" ==> !IsSpace(BareValue(key, v).rest[0])
  {
    hide IsSpace, TrimLeft, StartsWith, IsQuote, ClosingQuote, CloseBraces, IsKey, SkipWhile;
    var from := SkipWhile(v, 0, IsSpace);
    var to := SkipWhile(v, from, NotSpace);
    var gap := GapOf(v[to..]);
    p := Part(key, v[..from], v[from..to], gap);
    assert v == v[..from] + v[from..to] + v[to..];
    if from == 0 { BareStart(v, to); }
  }

  lemma {:induction false} QuotedIsPart(key: string, v: string) returns (p: Part)
    requires IsKey(key) && v != "" && IsQuote(v[0]) && QuotedValue(key, v).Pair?
    ensures IsPart(p, false) && p.key == key && v == p.lead + p.body + p.gap + QuotedValue(key, v).rest
    ensures QuotedValue(key, v).rest != "" ==> !IsSpace(QuotedValue(key, v).rest[0])
  {
    hide IsSpace, TrimLeft, ClosingQuote, CloseBraces, IsKey, StartsWith, IsQuote, NoSpace;
    var end := ClosingQuote(v, v[0], 1);
    assert v + "" == v;
    QuotedIsLocal(v, "", end);
    var gap := GapOf(v[end + 1..]);
    p := Part(key, "", v[..end + 1], gap);
    assert v == v[..end + 1] + v[end + 1..] && p.body[0] == v[0];
  }

  lemma BracesStart(v: string, n: nat)
    requires StartsWith(v, "{{") && 2 <= n <= |v|
    ensures StartsWith(v[..n], "{{") && !IsQuote(v[..n][0])
  {
    assert v[..n][..2] == v[..2] && v[..2][0] == '{';
  }

  lemma {:induction false} JinjaIsPart(key: string, v: string) returns (p: Part)
    requires IsKey(key) && StartsWith(v, "{{") && JinjaValue(key, v).Pair?
    ensures IsPart(p, false) && p.key == key && v == p.lead + p.body + p.gap + JinjaValue(key, v).rest
    ensures JinjaValue(key, v).rest != "" ==> !IsSpace(JinjaValue(key, v).rest[0])
  {
    hide IsSpace, TrimLeft, CloseBraces, ClosingQuote, IsKey, StartsWith, IsQuote;
    var end := CloseBraces(v, 0);
    assert v + "" == v;
    BracesAreLocal(v, "", end);
    var gap := GapOf(v[end + 2..]);
    p := Part(key, "", v[..end + 2], gap);
    assert v == v[..end + 2] + v[end + 2..];
    BracesStart(v, end + 2);
  }

  /** What a token was read from is a written argument. */
  lemma {:induction false} ValueIsPart(key: string, v: string) returns (p: Part)
    requires IsKey(key) && ValueToken(key, v).Pair?
    ensures IsPart(p, ValueToken(key, v).rest == "") && p.key == key && v == p.lead + p.body + p.gap + ValueToken(key, v).rest
    ensures ValueToken(key, v).rest != "" ==> !IsSpace(ValueToken(key, v).rest[0])
  {
    hide IsSpace, QuotedValue, JinjaValue, BareValue, IsKey, ClosingQuote, CloseBraces, NoSpace, Blank;
    if v != "" && IsQuote(v[0]) {
      p := QuotedIsPart(key, v);
    } else if StartsWith(v, "{{") {
      p := JinjaIsPart(key, v);
    } else {
      p := BareIsPart(key, v);
    }
  }

  lemma {:induction false} TokenIsPart(s: string) returns (p: Part)
    requires NextToken(s).Pair?
    ensures IsPart(p, NextToken(s).rest == "") && s == PartText(p) + NextToken(s).rest
    ensures NextToken(s).rest != "" ==> !IsSpace(NextToken(s).rest[0])
  {
    hide IsSpace, ValueToken;
    var w := SkipWhile(s, 0, IsWord);
    p := ValueIsPart(s[..w], s[w + 1..]);
    assert s == s[..w] + "=" + s[w + 1..];
  }

  lemma {:induction false} KeyAloneRaises(key: string, pairs: Pairs)
    requires IsKey(key)
    ensures Run(key + "=", pairs) == IndexError
  {
    var s := key + "=";
    SkipTo(s, 0, IsWord, |key|);
    assert s[|key| + 1..] == "" && s[..|key|] == key;
  }

  /** What is behind an equals sign inside a trimmed text is not all spaces. */
  lemma EndsInValue(s: string, k: nat)
    ensures k < |s| && !IsSpace(s[|s| - 1]) ==> SkipWhile(s[k..], 0, IsSpace) < |s| - k
  {
    if k < |s| { assert s[k..][|s| - k - 1] == s[|s| - 1]; }
  }

  lemma {:induction false} NoValueIsKeyAlone(s: string)
    requires s != "" && !IsSpace(s[|s| - 1]) && NextToken(s).NoValue?
    ensures IsKey(s[..|s| - 1]) && s == s[..|s| - 1] + "="
  {
    hide IsSpace;
    var w := SkipWhile(s, 0, IsWord);
    EndsInValue(s, w + 1);
  }

  lemma {:induction false} SpellStarts(parts: seq<Part>, key: string)
    requires (forall i | 0 <= i < |parts| :: IsPart(parts[i], false)) && IsKey(key)
    ensures var s := Spell(parts, key + "="); s != "" && !IsSpace(s[0])
  {
    var s, first := Spell(parts, key + "="), if parts == [] then key else parts[0].key;
    assert s[0] == first[0] && IsWord(first[0]);
    WordIsNotSpace(first[0]);
  }

  /** Complete arguments followed by a key and an equals sign make the parser raise. */
  lemma {:induction false} DanglingRaises(parts: seq<Part>, key: string, pairs: Pairs)
    requires (forall i | 0 <= i < |parts| :: IsPart(parts[i], false)) && IsKey(key)
    ensures Run(Spell(parts, key + "="), pairs) == IndexError
    decreases |parts|
  {
    hide IsPart, IsSpace, NextToken, IsKey, Put;
    if parts == [] {
      KeyAloneRaises(key, pairs);
    } else {
      SpellStarts(parts, key);
      SpellStarts(parts[1..], key);
      PartReads(parts[0], Spell(parts[1..], key + "="));
      var t := NextToken(Spell(parts, key + "="));
      DanglingRaises(parts[1..], key, Put(pairs, t.key, t.val));
    }
  }

  /** Nothing else does. */
  lemma {:induction false} RaisesDangling(s: string, pairs: Pairs) returns (parts: seq<Part>, key: string)
    requires s != "" && !IsSpace(s[|s| - 1]) && Run(s, pairs) == IndexError
    ensures Dangles(s, parts, key)
    decreases |s|
  {
    hide IsPart, IsSpace, NextToken, IsKey, Put;
    var t := NextToken(s);
    if t.NoValue? {
      NoValueIsKeyAlone(s);
      parts, key := [], s[..|s| - 1];
    } else {
      assert t.rest != "";
      var p := TokenIsPart(s);
      assert s[|s| - 1] == t.rest[|t.rest| - 1];
      var more;
      more, key := RaisesDangling(t.rest, Put(pairs, t.key, t.val));
      parts := [p] + more;
      assert parts[1..] == more;
    }
  }

  /** The parser raises exactly on texts that, trimmed, are complete arguments followed by a key and an
      equals sign with nothing behind it. */
  lemma {:induction false} RaisesExactlyWhen(value: string)
    ensures Parse(value) == IndexError <==> exists parts, key :: Dangles(Trim(value, IsSpace), parts, key)
  {
    hide IsPart, IsSpace, Run, IsKey, Trim;
    var s := Trim(value, IsSpace);
    if Parse(value) == IndexError {
      TrimHasEquals(value);
      TrimEnds(value);
      var parts, key := RaisesDangling(s, []);
    }
    forall parts, key | Dangles(s, parts, key) ensures Parse(value) == IndexError {
      DanglingRaises(parts, key, []);
      SpellHasEquals(parts, key);
      TrimKeepsMembers(value, '=');
    }
  }

  /** So any key without a value raises. */
  lemma {:induction false} KeyWithoutValueRaises(key: string)
    requires IsKey(key)
    ensures Parse(key + "=") == IndexError
  {
    hide Run, IsSpace, Trim;
    var s := key + "=";
    WordIsNotSpace(key[0]);
    assert s[0] == key[0] && s[|s| - 1] == '=';
    assert !IsSpace('=') by { EqualsIsNotSpace(); }
    TrimNothing(s);
    assert Dangles(s, [], key);
    RaisesExactlyWhen(s);
  }

  lemma EqualsIsNotSpace()
    ensures !IsSpace('=')
  {
  }

  lemma {:induction false} SpellHasEquals(parts: seq<Part>, key: string)
    ensures '=' in Spell(parts, key + "=")
  {
    if parts == [] {
      assert (key + "=")[|key|] == '=';
    } else {
      SpellHasEquals(parts[1..], key);
    }
  }

  lemma TrimEnds(value: string)
    requires Trim(value, IsSpace) != ""
    ensures var s := Trim(value, IsSpace); !IsSpace(s[|s| - 1])
  {
  }

  lemma TrimKeepsMembers(value: string, c: char)
    requires c in Trim(value, IsSpace)
    ensures c in value
  {
  }

  // ---------- the texts that parse ----------

  /** The text is complete arguments and nothing else. */
  ghost predicate Complete(s: string, parts: seq<Part>) {
    parts != [] && (forall i | 0 <= i < |parts| :: IsPart(parts[i], i == |parts| - 1)) && s == Spell(parts, "")
  }

  /** The pairs of these arguments; a later value of a key replaces an earlier one in its place. */
  function Gathered(pairs: Pairs, parts: seq<Part>): Pairs
    decreases |parts|
  {
    if parts == [] then pairs else Gathered(Put(pairs, parts[0].key, ReadOf(parts[0])), parts[1..])
  }

  lemma {:induction false} CompleteParses(s: string, parts: seq<Part>, pairs: Pairs)
    requires Complete(s, parts)
    ensures s != "" && !IsSpace(s[0]) && '=' in s && Run(s, pairs) == Parsed(Gathered(pairs, parts))
    decreases |parts|
  {
    var p, rest := parts[0], Spell(parts[1..], "");
    hide IsSpace, NextToken, Put, IsPart;
    PartStarts(p, |parts| == 1);
    assert s == PartText(p) + rest && s[0] == PartText(p)[0] && s[|p.key|] == '=';
    if |parts| == 1 {
      PartReads(p, "");
      assert PartText(p) + "" == s && parts[1..] == [];
    } else {
      assert forall i | 0 <= i < |parts| - 1 :: parts[1..][i] == parts[i + 1];
      CompleteParses(rest, parts[1..], Put(pairs, p.key, ReadOf(p)));
      PartReads(p, rest);
    }
  }

  lemma {:induction false} PartStarts(p: Part, last: bool)
    requires IsPart(p, last)
    ensures PartText(p) != "" && !IsSpace(PartText(p)[0]) && |p.key| < |PartText(p)| && PartText(p)[|p.key|] == '='
  {
    WordIsNotSpace(p.key[0]);
  }

  lemma {:induction false} ParsesComplete(s: string, pairs: Pairs) returns (parts: seq<Part>)
    requires s != "" && Run(s, pairs).Parsed?
    ensures Complete(s, parts) && Run(s, pairs) == Parsed(Gathered(pairs, parts))
    decreases |s|
  {
    hide IsSpace, NextToken, Put, IsPart;
    var t := NextToken(s);
    var p := TokenIsPart(s);
    PartReads(p, t.rest);
    if t.rest == "" {
      parts := [p];
      assert parts[1..] == [] && Spell([], "") == "" && PartText(p) + "" == s;
    } else {
      var more := ParsesComplete(t.rest, Put(pairs, t.key, t.val));
      parts := [p] + more;
      assert parts[1..] == more && Spell(parts, "") == PartText(p) + Spell(more, "");
      forall i | 0 <= i < |parts| ensures IsPart(parts[i], i == |parts| - 1) {
        if i > 0 { assert parts[i] == more[i - 1]; }
      }
    }
  }

  /** The parser gives these pairs exactly when the trimmed text is complete arguments that spell them.
      So text with anything else in it, such as a bare word, is not taken for pairs. */
  lemma {:induction false} ParsesExactlyWhen(value: string, pairs: Pairs)
    ensures Parse(value) == Parsed(pairs) <==>
            exists parts :: Complete(Trim(value, IsSpace), parts) && pairs == Gathered([], parts)
  {
    hide Run, IsSpace, Trim, Complete, Gathered;
    var s := Trim(value, IsSpace);
    if Parse(value) == Parsed(pairs) {
      TrimHasEquals(value);
      var parts := ParsesComplete(s, []);
    }
    forall parts | Complete(s, parts) && pairs == Gathered([], parts) ensures Parse(value) == Parsed(pairs) {
      CompleteParses(s, parts, []);
      TrimKeepsMembers(value, '=');
    }
  }
}
