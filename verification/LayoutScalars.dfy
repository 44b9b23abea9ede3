/** Block scalars written out: which lines below a header are its text, and that formatting keeps them. */
module LayoutScalars {
  import opened Text
  import opened YamlLines
  import opened Layout
  import opened LayoutPasses
  import opened LayoutGrammar
  import opened LayoutData

  // ---------- header lines ----------

  /** What a header says after its style character: how trailing line breaks are treated, and how far its text
      is indented, in either order. */
  datatype Modifiers = Modifiers(sign: string, digit: string, signFirst: bool) {
    ghost predicate Valid() {
      && sign in {"", "+", "-"}
      && (digit == "" || (|digit| == 1 && '0' <= digit[0] <= '9'))
    }

    function Text(): string { if signFirst then sign + digit else digit + sign }
  }

  /** The rest of a header line: a key, after a dash or not, or a dash alone; anchors and tags; the style. */
  datatype Head = Head(column: nat, mark: string, key: Option<string>, properties: seq<string>, style: char) {
    ghost predicate Valid() {
      && (key.Some? ==> IsMark(mark) && IsPlain(key.value))
      && (forall p | p in properties :: IsProperty(p))
      && style in {'|', '>'}
    }

    function Lead(): string { if key.Some? then mark + key.value + ":" else "-" }

    /** Where the indentation of the text is measured from: the column of the key, or of the dash. */
    function Base(): nat { if key.Some? then column + |mark| else column }

    function Line(rest: string): string {
      Spaces(column) + Lead() + (Listed(properties) + (" " + [style] + rest))
    }
  }

  ghost predicate IsProperty(p: string) { |p| > 1 && p[0] in {'&', '!'} && IsPlain(p[1..]) }

  function Listed(properties: seq<string>): string {
    if properties == [] then "" else " " + properties[0] + Listed(properties[1..])
  }

  /** Characters that can stand behind a style: not white space, and no hash or colon. */
  ghost predicate IsRest(rest: string) {
    forall k | 0 <= k < |rest| :: !IsSpace(rest[k]) && rest[k] !in {'#', ':'}
  }

  /** How many columns past its key the text of the scalar must stand, if the header says so. */
  function DigitOf(modifiers: Modifiers): Option<nat>
    requires modifiers.Valid()
  {
    if modifiers.digit == "" then None else Some(modifiers.digit[0] as int - '0' as int)
  }

  lemma OneDigit(c: char)
    ensures FirstDigit([]) == None
    ensures FirstDigit([c]) == if '0' <= c <= '9' then Some(c as int - '0' as int) else None
  {
    assert [c][1..] == [];
  }

  lemma TwoDigits(a: char, b: char)
    ensures FirstDigit([a, b]) == if '0' <= a <= '9' then Some(a as int - '0' as int) else FirstDigit([b])
  {
    assert [a, b][1..] == [b];
  }

  lemma {:induction false} ModifiersRead(modifiers: Modifiers)
    requires modifiers.Valid()
    ensures var m := modifiers.Text();
            && IsModifiers(m) && FirstDigit(m) == DigitOf(modifiers) && ('+' in m <==> modifiers.sign == "+")
            && (forall k | 0 <= k < |m| :: m[k] in {'+', '-'} || '0' <= m[k] <= '9')
  {
    hide FirstDigit;
    var m, sign, digit := modifiers.Text(), modifiers.sign, modifiers.digit;
    if sign == "" {
      assert m == digit;
      OneDigit(if digit == "" then '0' else digit[0]);
      assert digit != "" ==> digit == [digit[0]];
    } else if digit == "" {
      assert m == sign == [sign[0]];
      OneDigit(sign[0]);
    } else {
      assert m == if modifiers.signFirst then [sign[0], digit[0]] else [digit[0], sign[0]];
      TwoDigits(m[0], m[1]);
      OneDigit(m[1]);
    }
  }

  lemma {:induction false} ColonFound(text: string, i: nat, q: nat)
    requires i <= q < |text| && forall k | i <= k < q :: text[k] != ':'
    ensures StyleAfterColon(text, i) == StyleAfterColon(text, q)
    decreases q - i
  {
    hide StyleAt;
    if i < q { ColonFound(text, i + 1, q); }
  }

  lemma StyleChars(c: char)
    requires c in {'|', '>', '+', '-', '&', '!'} || '0' <= c <= '9'
    ensures !IsSpace(c) && c !in {'#', ':'}
  {
  }

  lemma BlankIsSpace(c: char)
    ensures IsBlankChar(c) ==> IsSpace(c)
    ensures IsSpace(' ')
  {
  }

  lemma {:induction false} PropertyChars(p: string, k: nat)
    requires IsProperty(p) && k < |p|
    ensures !IsSpace(p[k]) && p[k] !in {'#', ':', '|', '>'}
  {
    hide IsSpace, IsPlainChar;
    if k == 0 { StyleChars(p[0]); } else { PlainChars(p[1..][k - 1]); }
  }

  lemma {:induction false} ListedChars(properties: seq<string>, k: nat)
    requires (forall p | p in properties :: IsProperty(p)) && k < |Listed(properties)|
    ensures Listed(properties)[k] !in {'#', ':'}
  {
    hide IsProperty;
    assert properties[0] in properties;
    var n := 1 + |properties[0]|;
    if 0 < k < n {
      PropertyChars(properties[0], k - 1);
    } else if n <= k {
      ListedChars(properties[1..], k - n);
    }
  }

  /** The style is found behind any anchors and tags, when only modifiers follow it. */
  lemma {:induction false} StyleBehind(s: string, i: nat, properties: seq<string>, style: char, rest: string)
    requires i <= |s| && s[i..] == Listed(properties) + (" " + [style] + rest)
    requires (forall p | p in properties :: IsProperty(p)) && style in {'|', '>'} && IsRest(rest)
    ensures var at := i + |Listed(properties)| + 1;
            && at < |s| && s[at] == style && s[at + 1..] == rest
            && StyleAt(s, i) == (if IsModifiers(rest) then Some(at) else None)
            && ModifiersAt(s, at + 1) == (if IsModifiers(rest) then Some(rest) else None)
    decreases |properties|
  {
    hide IsSpace, IsModifiers, IsProperty, StyleAt, ModifiersAt, IsRest, Listed;
    ListedIs(properties);
    if properties == [] {
      assert "" + (" " + [style] + rest) == " " + [style] + rest;
      LastStyle(s, i, style, rest);
    } else {
      var p, e := properties[0], i + 1 + |properties[0]|;
      var tail := Listed(properties[1..]) + (" " + [style] + rest);
      assert p in properties;
      ListedIs(properties[1..]);
      assert tail[0] == ' ';
      assert s[i..] == " " + p + tail;
      FirstProperty(s, i, p, tail);
      assert s[e..] == tail;
      assert forall x | x in properties[1..] :: x in properties;
      StyleBehind(s, e, properties[1..], style, rest);
    }
  }

  lemma ListedIs(properties: seq<string>)
    ensures properties == [] ==> Listed(properties) == ""
    ensures properties != [] ==> Listed(properties) == " " + properties[0] + Listed(properties[1..])
  {
  }

  lemma {:induction false} LastStyle(s: string, i: nat, style: char, rest: string)
    requires i <= |s| && s[i..] == " " + [style] + rest && style in {'|', '>'} && IsRest(rest)
    ensures i + 1 < |s| && s[i + 1] == style && s[i + 2..] == rest
    ensures StyleAt(s, i) == if IsModifiers(rest) then Some(i + 1) else None
    ensures ModifiersAt(s, i + 2) == if IsModifiers(rest) then Some(rest) else None
  {
    hide IsSpace, IsModifiers;
    BlankIsSpace(' ');
    StyleChars(style);
    assert s[i] == s[i..][0] && s[i + 1] == s[i..][1] && s[i + 2..] == s[i..][2..] == rest;
    assert forall k | i + 2 <= k < |s| :: s[k] == rest[k - i - 2];
    SkipTo(s, i, IsSpace, i + 1);
    SkipTo(s, i + 2, NotSpace, |s|);
    assert s[i + 2..|s|] == rest;
  }

  lemma {:induction false} WordSkipped(s: string, i: nat, e: nat)
    requires i + 2 < e < |s| && IsSpace(s[i]) && s[i + 1] in {'&', '!'} && IsSpace(s[e])
    requires forall k | i < k < e :: !IsSpace(s[k])
    ensures StyleAt(s, i) == StyleAt(s, e)
  {
    hide IsSpace, ModifiersAt;
    SkipTo(s, i, IsSpace, i + 1);
    SkipTo(s, i + 1, NotSpace, e);
  }

  lemma {:induction false} FirstProperty(s: string, i: nat, p: string, tail: string)
    requires i <= |s| && s[i..] == " " + p + tail && IsProperty(p) && tail != "" && tail[0] == ' '
    ensures i + 1 + |p| < |s| && s[i + 1 + |p|..] == tail && StyleAt(s, i) == StyleAt(s, i + 1 + |p|)
  {
    hide IsSpace, IsPlain, StyleAt;
    BlankIsSpace(' ');
    var e := i + 1 + |p|;
    assert s[i] == s[i..][0] && s[e] == s[i..][1 + |p|];
    forall k | i < k < e ensures !IsSpace(s[k]) && s[k] == p[k - i - 1] {
      assert s[k] == s[i..][k - i] == p[k - i - 1];
      PropertyChars(p, k - i - 1);
    }
    WordSkipped(s, i, e);
    assert s[e..] == s[i..][1 + |p|..] == tail;
  }

  lemma {:induction false} NoColonNoStyle(text: string, i: nat)
    requires i <= |text| && forall k | i <= k < |text| :: text[k] != ':'
    ensures StyleAfterColon(text, i) == None
    decreases |text| - i
  {
    hide StyleAt;
    if i < |text| { NoColonNoStyle(text, i + 1); }
  }

  lemma {:induction false} NoCommentIn(line: string)
    requires line != "" && !IsSpace(line[|line| - 1]) && forall k | 0 <= k < |line| :: line[k] != '#'
    ensures TrimRight(BeforeComment(line), IsSpace) == line
  {
    hide IsSpace, QuoteAfter;
    CommentStartIs(line, |line|);
    assert line[..|line|] == line;
    KeepsRight(line, IsSpace);
  }

  lemma {:induction false} LeadChars(h: Head, k: nat)
    requires h.Valid() && k < |h.Lead()|
    ensures h.Lead()[k] != '#' && (h.Lead()[k] == ':' <==> h.key.Some? && k == |h.Lead()| - 1)
    ensures !IsSpace(h.Lead()[0]) && (h.Lead()[0] == '-' <==> h.key.None? || h.mark == "- ")
  {
    hide IsPlainChar, IsSpace;
    BasicChars();
    if h.key.Some? {
      PlainChars(h.key.value[0]);
      if |h.mark| <= k < |h.mark| + |h.key.value| { PlainChars(h.key.value[k - |h.mark|]); }
    }
  }

  /** A header line taken apart: `l` is where its lead ends. */
  lemma {:induction false} HeadParts(h: Head, rest: string)
    ensures var s, l := h.Line(rest), h.column + |h.Lead()|;
            && l <= |s| && (forall k | 0 <= k < h.column :: s[k] == ' ')
            && s[h.column..l] == h.Lead() && s[l..] == Listed(h.properties) + (" " + [h.style] + rest)
  {
  }

  lemma {:induction false} TailChars(h: Head, rest: string, k: nat)
    requires h.Valid() && IsRest(rest) && k < |Listed(h.properties) + (" " + [h.style] + rest)|
    ensures (Listed(h.properties) + (" " + [h.style] + rest))[k] !in {'#', ':'}
    ensures var t := Listed(h.properties) + (" " + [h.style] + rest); !IsSpace(t[|t| - 1]) && t[0] == ' '
  {
    hide IsSpace, IsProperty, IsPlain;
    StyleChars(h.style);
    var n := |Listed(h.properties)|;
    if k < n { ListedChars(h.properties, k); }
  }

  lemma {:induction false} HeadScanned(h: Head, rest: string)
    requires h.Valid() && IsRest(rest)
    ensures var s, l := h.Line(rest), h.column + |h.Lead()|;
            && h.column < l < |s| && TrimRight(BeforeComment(s), IsSpace) == s && Indent(s) == h.column && s[l] == ' '
            && (forall k | h.column <= k < |s| :: s[k] == ':' <==> h.key.Some? && k == l - 1)
            && (s[h.column] == '-' <==> h.key.None? || h.mark == "- ")
  {
    hide IsSpace, Head.Valid, Head.Lead, Head.Line, IsRest, Listed, BeforeComment, TrimRight;
    var s, l := h.Line(rest), h.column + |h.Lead()|;
    var t := Listed(h.properties) + (" " + [h.style] + rest);
    HeadParts(h, rest);
    LeadIsThere(h);
    forall k | 0 <= k < |s| ensures s[k] != '#' && (h.column <= k ==> (s[k] == ':' <==> h.key.Some? && k == l - 1)) {
      if h.column <= k < l {
        assert s[k] == s[h.column..l][k - h.column];
        LeadChars(h, k - h.column);
      } else if l <= k {
        assert s[k] == s[l..][k - l];
        TailChars(h, rest, k - l);
      }
    }
    TailChars(h, rest, 0);
    LeadChars(h, 0);
    assert s[l] == s[l..][0] && s[|s| - 1] == s[l..][|t| - 1] && s[h.column] == s[h.column..l][0];
    NoCommentIn(s);
    BlankIsSpace(s[h.column]);
    SkipTo(s, 0, IsBlankChar, h.column);
  }

  lemma LeadIsThere(h: Head)
    ensures |h.Lead()| > 0
  {
  }

  /** Behind a dash with a key stands no style: the key does. */
  lemma {:induction false} KeyIsNoStyle(h: Head, rest: string)
    requires h.Valid() && h.key.Some? && h.mark == "- "
    ensures h.column + 1 < |h.Line(rest)| && StyleAt(h.Line(rest), h.column + 1) == None
  {
    hide IsSpace, Listed, IsPlainChar, ModifiersAt, IsProperty;
    var s, c, lead := h.Line(rest), h.column, h.Lead();
    HeadParts(h, rest);
    BlankIsSpace(' ');
    PlainChars(h.key.value[0]);
    PlainIsNoStyle(h.key.value[0]);
    assert lead[1] == ' ' && lead[2] == h.key.value[0];
    assert s[c + 1] == s[c..c + |lead|][1] && s[c + 2] == s[c..c + |lead|][2];
    SkipTo(s, c + 1, IsSpace, c + 2);
  }

  lemma PlainIsNoStyle(c: char)
    requires IsPlainChar(c)
    ensures c !in {'&', '!', '|', '>'}
  {
  }

  /** Whether the text before the style is a key after a dash. */
  lemma {:induction false} MappingPrefix(h: Head, rest: string)
    requires h.Valid() && IsRest(rest)
    ensures var s, at := h.Line(rest), h.column + |h.Lead()| + |Listed(h.properties)| + 1;
            at <= |s| && h.column <= at && (IsSequenceMapping(s[h.column..at]) <==> h.key.Some? && h.mark == "- ")
  {
    hide IsSpace, Listed, IsPlainChar, IsRest, Head.Valid, Head.Line, BeforeComment, TrimRight, Indent;
    var s, l := h.Line(rest), h.column + |h.Lead()|;
    var at := l + |Listed(h.properties)| + 1;
    HeadParts(h, rest);
    HeadScanned(h, rest);
    var t := s[h.column..at];
    assert forall k | 0 <= k < |t| :: t[k] == s[h.column + k];
    if h.key.Some? && h.mark == "- " {
      KeyIsThere(h);
      assert t[1] == s[h.column..l][1] == h.Lead()[1] == ' ';
      BlankIsSpace(' ');
      assert t[3..][|h.Lead()| - 4] == t[|h.Lead()| - 1] == s[l - 1];
    } else if h.key.None? {
      assert forall k | 0 <= k < |t| :: t[k] != ':';
      assert |t| > 3 ==> forall k | 0 <= k < |t[3..]| :: t[3..][k] == t[k + 3];
    }
  }

  lemma KeyIsThere(h: Head)
    requires h.Valid() && h.key.Some? && h.mark == "- "
    ensures |h.Lead()| > 3 && h.Lead()[1] == ' '
  {
  }

  /** Where the style of a header line is found, if what follows it are modifiers. */
  lemma {:induction false} HeadStyle(h: Head, rest: string)
    requires h.Valid() && IsRest(rest)
    ensures var s, l := h.Line(rest), h.column + |h.Lead()|;
            var at := l + |Listed(h.properties)| + 1;
            && at < |s| && ModifiersAt(s, at + 1) == (if IsModifiers(rest) then Some(rest) else None)
            && StyleAfterColon(s, h.column) == (if h.key.Some? && IsModifiers(rest) then Some(at) else None)
            && (h.key.None? ==> StyleAt(s, h.column + 1) == if IsModifiers(rest) then Some(at) else None)
  {
    hide IsSpace, Listed, IsPlain, IsRest, Head.Line, BeforeComment, TrimRight, Indent, IsModifiers, StyleAt,
         ModifiersAt, IsMark, IsProperty;
    var s, l := h.Line(rest), h.column + |h.Lead()|;
    HeadParts(h, rest);
    HeadScanned(h, rest);
    StyleBehind(s, l, h.properties, h.style, rest);
    if h.key.Some? {
      ColonFound(s, h.column, l - 1);
      NoColonNoStyle(s, l);
    } else {
      NoColonNoStyle(s, h.column);
    }
  }

  lemma {:induction false} RestIsRest(modifiers: Modifiers)
    requires modifiers.Valid()
    ensures IsRest(modifiers.Text())
  {
    hide IsSpace, Modifiers.Text, Modifiers.Valid;
    ModifiersRead(modifiers);
    var m := modifiers.Text();
    forall k | 0 <= k < |m| ensures !IsSpace(m[k]) && m[k] !in {'#', ':'} { StyleChars(m[k]); }
  }

  /** A header is read as it is written. */
  lemma {:induction false} HeaderIsRead(h: Head, modifiers: Modifiers)
    requires h.Valid() && modifiers.Valid()
    ensures var digit := DigitOf(modifiers);
            HeaderOf(h.Line(modifiers.Text())) ==
            Some(Header(h.Base(), if digit.Some? then Some(h.Base() + digit.value) else None, modifiers.sign == "+"))
  {
    hide IsSpace, Modifiers.Text, Modifiers.Valid, IsPlain, Head.Line, Indent, StyleAfterColon, StyleAt, ModifiersAt,
         IsModifiers, BeforeComment, TrimRight, IsSequenceMapping, FirstDigit, DigitOf, Listed, IsRest, IsProperty;
    var rest := modifiers.Text();
    RestIsRest(modifiers);
    ModifiersRead(modifiers);
    HeadScanned(h, rest);
    HeadStyle(h, rest);
    MappingPrefix(h, rest);
    BlankIsSpace(' ');
  }

  lemma {:induction false} ModifiersAre(m: string) returns (modifiers: Modifiers)
    requires IsModifiers(m)
    ensures modifiers.Valid() && modifiers.Text() == m
  {
    assert m != "" && IsSign(m[0]) ==> [m[0]] in {"+", "-"};
    assert |m| == 2 && IsSign(m[1]) ==> [m[1]] in {"+", "-"};
    if m == "" {
      modifiers := Modifiers("", "", true);
    } else if |m| == 1 {
      assert m == [m[0]];
      modifiers := if IsSign(m[0]) then Modifiers([m[0]], "", true) else Modifiers("", m, true);
    } else {
      modifiers := if IsSign(m[0]) then Modifiers([m[0]], [m[1]], true) else Modifiers([m[1]], [m[0]], false);
    }
  }

  /** Anything but modifiers behind the style, and the line is no header. */
  lemma {:induction false} NotAHeader(h: Head, rest: string)
    requires h.Valid() && IsRest(rest) && forall m: Modifiers | m.Valid() :: m.Text() != rest
    ensures HeaderOf(h.Line(rest)) == None
  {
    hide IsSpace, Modifiers.Text, Modifiers.Valid, IsPlain, Head.Line, Indent, StyleAfterColon, StyleAt, ModifiersAt,
         IsModifiers, BeforeComment, TrimRight, Listed, IsRest, IsProperty;
    if IsModifiers(rest) { var m := ModifiersAre(rest); }
    HeadScanned(h, rest);
    HeadStyle(h, rest);
    if h.key.Some? && h.mark == "- " { KeyIsNoStyle(h, rest); }
  }

  // ---------- the text of a scalar ----------

  /** The column the text of a scalar starts at: the one its header fixes, at least one past its key, or that
      of its first line. */
  function TextColumn(base: nat, digit: Option<nat>, first: nat): nat {
    match digit
    case None => first
    case Some(0) => base + 1
    case Some(d) => base + d
  }

  /** Line `h` is a header and the `n` lines below it are its text. */
  ghost predicate IsScalar(content: seq<string>, h: nat, n: nat, base: nat, modifiers: Modifiers) {
    && h + n < |content| && modifiers.Valid()
    && (exists head: Head | head.Valid() && head.Base() == base :: content[h] == head.Line(modifiers.Text()))
    && (n > 0 ==> Indent(content[h + 1]) > base)
    && (forall i | h < i <= h + n :: Indent(content[i]) >= TextColumn(base, DigitOf(modifiers), Indent(content[h + 1])))
  }

  /** Where the reader stands after `i` lines of the text. */
  ghost function InText(content: seq<string>, h: nat, i: nat, base: nat, modifiers: Modifiers): Block
    requires h + i < |content| && modifiers.Valid()
  {
    var digit := DigitOf(modifiers);
    Inside(base, if digit.Some? then Some(base + digit.value) else None,
           if digit.None? && i > 0 then Some(Indent(content[h + 1])) else None, modifiers.sign == "+")
  }

  lemma {:induction false} ScanText(content: seq<string>, h: nat, n: nat, base: nat, modifiers: Modifiers, i: nat)
    requires IsScalar(content, h, n, base, modifiers) && !IsScalarLine(content, h) && i <= n
    ensures Scan(content[..h + i + 1]) == InText(content, h, i, base, modifiers)
    ensures i > 0 ==> IsScalarLine(content, h + i)
  {
    hide HeaderOf, Indent, Head.Line, Head.Valid, Modifiers.Text, Modifiers.Valid, DigitOf;
    assert content[..h + i + 1][..h + i] == content[..h + i];
    if i == 0 {
      var head: Head :| head.Valid() && head.Base() == base && content[h] == head.Line(modifiers.Text());
      HeaderIsRead(head, modifiers);
    } else {
      ScanText(content, h, n, base, modifiers, i - 1);
    }
  }

  /** Lines without style characters leave no scalar open. */
  lemma {:induction false} NothingIsOpen(content: seq<string>, h: nat)
    requires h < |content|
    requires forall i | 0 <= i < h :: '|' !in content[i] && '>' !in content[i]
    ensures Scan(content[..h]) == Outside && !IsScalarLine(content, h)
  {
    hide HeaderOf, Indent;
    if h > 0 {
      NothingIsOpen(content, h - 1);
      NoHeader(content[h - 1]);
      assert content[..h][..h - 1] == content[..h - 1];
    }
  }

  /** The first line that stands further to the left than the text ends the scalar. */
  lemma {:induction false} TextEnds(content: seq<string>, h: nat, n: nat, base: nat, modifiers: Modifiers)
    requires IsScalar(content, h, n, base, modifiers) && !IsScalarLine(content, h) && h + n + 1 < |content|
    requires Indent(content[h + n + 1]) < TextColumn(base, DigitOf(modifiers), if n == 0 then base + 1 else Indent(content[h + 1]))
    ensures !IsScalarLine(content, h + n + 1)
  {
    hide HeaderOf, Indent, Head.Line, Head.Valid, Modifiers.Text, Modifiers.Valid, DigitOf, Scan;
    ScanText(content, h, n, base, modifiers, n);
  }

  /** Formatting any text keeps a block scalar in it: its header, its lines and every blank line between them.
      Blank lines after it are data only if the header says `+`; otherwise at most one of them stays. */
  lemma {:induction false} FormatKeepsScalar(text: string, h: nat, n: nat, base: nat, modifiers: Modifiers)
    requires var content := Content(Split(text));
             && IsScalar(content, h, n, base, modifiers) && !IsScalarLine(content, h)
             && (h + n + 1 < |content| ==>
                   Indent(content[h + n + 1])
                   < TextColumn(base, DigitOf(modifiers), if n == 0 then base + 1 else Indent(content[h + 1])))
    ensures var content, gaps := Content(Split(text)), Gaps(Split(text));
            var out := Gaps(Split(FormatLayout(text)));
            && Content(Split(FormatLayout(text))) == content && |out| == |gaps|
            && (forall p | h < p <= h + n :: out[p] == gaps[p])
            && (if modifiers.sign == "+" then out[h + n + 1] == gaps[h + n + 1] || (gaps[h + n + 1] == [] && out[h + n + 1] == [""])
                else out[h + n + 1] == [] || out[h + n + 1] == [""])
  {
    hide IsScalar, IsScalarLine, Scan, Content, Gaps, Split, FormatLayout, Indent, TextColumn, DigitOf, IsDataRun, Pipeline;
    var content, gaps := Content(Split(text)), Gaps(Split(text));
    FormatKeepsContent(text);
    TextFits(content, h, n, base, modifiers);
    forall p | h < p <= h + n ensures Pipeline(content, gaps)[p] == gaps[p] {
      ScanText(content, h, n, base, modifiers, p - h);
      ScalarLineIsData(content, p);
      PipelineKeepsDataRun(content, gaps, p);
    }
    TrailingRun(content, gaps, h, n, base, modifiers);
  }

  lemma TextFits(content: seq<string>, h: nat, n: nat, base: nat, modifiers: Modifiers)
    requires IsScalar(content, h, n, base, modifiers)
    ensures h + n < |content| && modifiers.Valid()
  {
  }

  lemma {:induction false} TrailingRun(content: seq<string>, gaps: seq<seq<string>>, h: nat, n: nat, base: nat, modifiers: Modifiers)
    requires IsScalar(content, h, n, base, modifiers) && !IsScalarLine(content, h) && |gaps| == |content| + 1
    requires h + n + 1 < |content| ==>
               Indent(content[h + n + 1])
               < TextColumn(base, DigitOf(modifiers), if n == 0 then base + 1 else Indent(content[h + 1]))
    ensures var q := h + n + 1; var run := Pipeline(content, gaps)[q];
            if modifiers.sign == "+" then run == gaps[q] || (gaps[q] == [] && run == [""]) else run == [] || run == [""]
  {
    hide IsScalar, Scan, Indent, TextColumn, DigitOf, SiblingKeys, Inserts, Block.Holds;
    TextFits(content, h, n, base, modifiers);
    ScanText(content, h, n, base, modifiers, n);
    if h + n + 1 < |content| { TextEnds(content, h, n, base, modifiers); }
    if modifiers.sign == "+" { PipelineKeepsDataRun(content, gaps, h + n + 1); }
  }
}
