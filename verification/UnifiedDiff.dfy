/** The line diff shown for a fixed violation, as unified-diff text. */
module UnifiedDiff {
  import opened Text

  const SCAN_LIMIT := 20

  // ---------- reading a diff ----------

  /** The line itself if it is context or has this sign. */
  function Taken(line: string, sign: char): seq<string> {
    if line != "" && line[0] in {' ', sign} then [line[1..]] else []
  }

  /** Context and lines of this sign: with `-` what the diff says the original is, with `+` the fix. */
  function Side(body: seq<string>, sign: char): seq<string> {
    if body == [] then [] else Side(body[..|body| - 1], sign) + Taken(body[|body| - 1], sign)
  }

  predicate IsHunk(body: seq<string>) {
    forall k | 0 <= k < |body| :: body[k] != "" && body[k][0] in {' ', '-', '+'} && NoNewline(body[k])
  }

  /** Applying a hunk from position `from` on: context and deleted lines must be there; `None` is a
      hunk that does not apply. */
  function Patch(lines: seq<string>, from: nat, body: seq<string>): Option<seq<string>>
    requires from <= |lines|
    decreases |body|
  {
    if body == [] then if from == |lines| then Some([]) else None
    else if body[0] == "" then None
    else if body[0][0] == '+' then
      var rest := Patch(lines, from, body[1..]);
      if rest.Some? then Some([body[0][1..]] + rest.value) else None
    else if from < |lines| && lines[from] == body[0][1..] then
      var rest := Patch(lines, from + 1, body[1..]);
      if rest.Some? then Some((if body[0][0] == ' ' then [lines[from]] else []) + rest.value) else None
    else None
  }

  lemma {:induction false} SideCons(body: seq<string>, sign: char)
    requires body != []
    ensures Side(body, sign) == Taken(body[0], sign) + Side(body[1..], sign)
  {
    hide Taken;
    var n := |body| - 1;
    if n > 0 {
      SideCons(body[..n], sign);
      assert body[..n][1..] == body[1..][..n - 1];
    }
  }

  /** A hunk applies to exactly one text, the one it calls old, and gives the one it calls new. */
  lemma {:induction false} PatchIsExact(lines: seq<string>, from: nat, body: seq<string>)
    requires from <= |lines| && IsHunk(body)
    ensures Patch(lines, from, body) == if lines[from..] == Side(body, '-') then Some(Side(body, '+')) else None
    decreases |body|
  {
    if body == [] {
      assert lines[from..] == [] <==> from == |lines|;
    } else {
      var line, rest := body[0], Side(body[1..], '-');
      SideCons(body, '-');
      SideCons(body, '+');
      hide Side;
      if line[0] == '+' {
        PatchIsExact(lines, from, body[1..]);
      } else if from < |lines| {
        PatchIsExact(lines, from + 1, body[1..]);
        assert lines[from..] == [lines[from]] + lines[from + 1..];
        SameCons(lines[from], lines[from + 1..], line[1..], rest);
      }
    }
  }

  lemma {:induction false} SameCons(x: string, s: seq<string>, y: string, t: seq<string>)
    ensures [x] + s == [y] + t <==> x == y && s == t
  {
    assert ([x] + s)[0] == x && ([y] + t)[0] == y;
    assert ([x] + s)[1..] == s && ([y] + t)[1..] == t;
  }

  // ---------- the header ----------

  /** A number in decimal. */
  function Decimal(n: nat): (s: string)
    ensures s != "" && forall k | 0 <= k < |s| :: IsDigit(s[k])
  {
    if n < 10 then [('0' as int + n) as char] else Decimal(n / 10) + Decimal(n % 10)
  }

  function Digit(c: char): nat
    requires IsDigit(c)
  {
    c as int - '0' as int
  }

  function Number(s: string): nat
    requires forall k | 0 <= k < |s| :: IsDigit(s[k])
  {
    if s == "" then 0 else Number(s[..|s| - 1]) * 10 + Digit(s[|s| - 1])
  }

  lemma {:induction false} DecimalReads(n: nat)
    ensures Number(Decimal(n)) == n
  {
    if n >= 10 {
      DecimalReads(n / 10);
      var s := Decimal(n);
      assert s[..|s| - 1] == Decimal(n / 10);
    } else {
      assert Decimal(n)[..0] == "";
    }
  }

  function Header(filename: string, oldCount: nat, newCount: nat): seq<string> {
    ["--- a/" + filename, "+++ b/" + filename,
     "@@ -1," + Decimal(oldCount) + " +1," + Decimal(newCount) + " @@"]
  }

  // ---------- making a diff ----------

  /** Deleting `d` lines lets both texts go on with the same line. */
  predicate Deletes(a: seq<string>, b: seq<string>, i: nat, j: nat, d: nat) {
    i + d < |a| && j < |b| && a[i + d] == b[j]
  }

  predicate Inserts(a: seq<string>, b: seq<string>, i: nat, j: nat, d: nat) {
    j + d < |b| && i < |a| && a[i] == b[j + d]
  }

  /** How far ahead the texts are compared. */
  function Window(a: seq<string>, b: seq<string>, i: nat, j: nat): int {
    var left := (if |a| > |b| then |a| else |b|) - (if i > j then i else j);
    if left < SCAN_LIMIT then left else SCAN_LIMIT
  }

  /** The nearest distance from `d` on, below `scan`, at which the texts meet again, or `scan`. */
  function Meeting(a: seq<string>, b: seq<string>, i: nat, j: nat, d: nat, scan: nat): (m: nat)
    requires d <= scan
    ensures d <= m <= scan && (forall e | d <= e < m :: !Deletes(a, b, i, j, e) && !Inserts(a, b, i, j, e))
    ensures m < scan ==> Deletes(a, b, i, j, m) || Inserts(a, b, i, j, m)
    decreases scan - d
  {
    if d == scan || Deletes(a, b, i, j, d) || Inserts(a, b, i, j, d) then d else Meeting(a, b, i, j, d + 1, scan)
  }

  function Signed(sign: char, lines: seq<string>): seq<string> {
    seq(|lines|, k requires 0 <= k < |lines| => [sign] + lines[k])
  }

  /** One round of the loop: a context line, or so many deleted and inserted lines. */
  datatype Round = Round(context: bool, deleted: nat, inserted: nat)

  function NextRound(a: seq<string>, b: seq<string>, i: nat, j: nat): (r: Round)
    requires i <= |a| && j <= |b| && (i < |a| || j < |b|)
    ensures i + r.deleted <= |a| && j + r.inserted <= |b| && r.deleted + r.inserted > 0
    ensures r.context ==> r == Round(true, 1, 1) && a[i] == b[j]
  {
    if i < |a| && j < |b| && a[i] == b[j] then Round(true, 1, 1)
    else
      var scan := Window(a, b, i, j);
      var m := if scan > 0 then Meeting(a, b, i, j, 0, scan) else 0;
      if m < scan && Deletes(a, b, i, j, m) then Round(false, m, 0)
      else if m < scan then Round(false, 0, m)
      else Round(false, if i < |a| then 1 else 0, if j < |b| then 1 else 0)
  }

  /** What a round writes. */
  function RoundLines(r: Round, deleted: seq<string>, inserted: seq<string>): seq<string> {
    if r.context then Signed(' ', deleted) else Signed('-', deleted) + Signed('+', inserted)
  }

  /** The diff of what is left of both texts. */
  function Diff(a: seq<string>, b: seq<string>, i: nat, j: nat): seq<string>
    requires i <= |a| && j <= |b|
    decreases |a| - i + |b| - j
  {
    if i == |a| && j == |b| then []
    else
      var r := NextRound(a, b, i, j);
      var i', j' := i + r.deleted, j + r.inserted;
      RoundLines(r, a[i..i'], b[j..j']) + Diff(a, b, i', j')
  }

  /** The scan for the nearest place within the window where the texts meet again. */
  method FindSync(a: seq<string>, b: seq<string>, i: nat, j: nat, scan: int) returns (syncA: int, syncB: int)
    ensures var m := if scan > 0 then Meeting(a, b, i, j, 0, scan) else 0;
            && syncA == (if m < scan && Deletes(a, b, i, j, m) then m else -1)
            && syncB == (if m < scan && Inserts(a, b, i, j, m) then m else -1)
  {
    syncA, syncB := -1, -1;
    var d := 0;
    while d < scan
      invariant 0 <= d && (d <= scan || d == 0)
      invariant syncA == -1 && syncB == -1
      invariant 0 < scan ==> Meeting(a, b, i, j, 0, scan) == Meeting(a, b, i, j, d, scan)
    {
      if syncA < 0 && i + d < |a| && j < |b| && a[i + d] == b[j] { syncA := d; }
      if syncB < 0 && j + d < |b| && i < |a| && a[i] == b[j + d] { syncB := d; }
      if syncA >= 0 || syncB >= 0 { break; }
      d := d + 1;
    }
  }

  /** The loop that pushes the next `count` lines of one text under one sign. */
  method PushRun(body: seq<string>, sign: char, lines: seq<string>, from: nat, count: nat) returns (more: seq<string>)
    requires from + count <= |lines|
    ensures more == body + Signed(sign, lines[from..from + count])
  {
    more := body;
    for d := 0 to count
      invariant more == body + Signed(sign, lines[from..from + d])
    {
      more := more + [[sign] + lines[from + d]];
    }
  }

  /** How many lines to delete and to insert where the texts differ. */
  method Resync(a: seq<string>, b: seq<string>, i: nat, j: nat) returns (deleted: nat, inserted: nat)
    requires i <= |a| && j <= |b| && (i < |a| || j < |b|) && !(i < |a| && j < |b| && a[i] == b[j])
    ensures NextRound(a, b, i, j) == Round(false, deleted, inserted)
  {
    hide Meeting;
    var longest := if |a| > |b| then |a| else |b|;
    var furthest := if i > j then i else j;
    var scan := if longest - furthest < SCAN_LIMIT then longest - furthest else SCAN_LIMIT;
    var syncA, syncB := FindSync(a, b, i, j, scan);
    if syncA >= 0 && (syncB < 0 || syncA <= syncB) {
      return syncA, 0;
    } else if syncB >= 0 {
      return 0, syncB;
    } else {
      return if i < |a| then 1 else 0, if j < |b| then 1 else 0;
    }
  }

  /** The loop computes the diff of the two texts' lines, under a header that counts them. */
  method MakeUnifiedDiff(original: string, fixed: string, filename: string) returns (text: string)
    ensures var a, b := Split(original), Split(fixed);
            text == Join(["--- a/" + filename, "+++ b/" + filename,
                          "@@ -1," + Decimal(|a|) + " +1," + Decimal(|b|) + " @@"] + Diff(a, b, 0, 0))
  {
    hide Split, Join, Decimal, NextRound, Signed, Diff;
    var a, b := Split(original), Split(fixed);
    var lines := Header(filename, |a|, |b|);
    ghost var whole := lines + Diff(a, b, 0, 0);
    var i: nat, j: nat := 0, 0;
    while i < |a| || j < |b|
      invariant i <= |a| && j <= |b|
      invariant lines + Diff(a, b, i, j) == whole
      decreases |a| - i + |b| - j
    {
      DiffStep(a, b, i, j, lines);
      if i < |a| && j < |b| && a[i] == b[j] {
        SameIsContext(a, b, i, j);
        lines := PushRun(lines, ' ', a, i, 1);
        i, j := i + 1, j + 1;
      } else {
        var deleted, inserted := Resync(a, b, i, j);
        lines := PushRun(lines, '-', a, i, deleted);
        lines := PushRun(lines, '+', b, j, inserted);
        i, j := i + deleted, j + inserted;
      }
    }
    DiffEnds(a, b, lines);
    return Join(lines);
  }

  lemma {:induction false} DiffStep(a: seq<string>, b: seq<string>, i: nat, j: nat, lines: seq<string>)
    requires i <= |a| && j <= |b| && (i < |a| || j < |b|)
    ensures var r := NextRound(a, b, i, j);
            var i', j' := i + r.deleted, j + r.inserted;
            lines + Diff(a, b, i, j) ==
            (if r.context then lines + Signed(' ', a[i..i']) else lines + Signed('-', a[i..i']) + Signed('+', b[j..j']))
            + Diff(a, b, i', j')
  {
    hide NextRound, Signed;
  }

  lemma DiffEnds(a: seq<string>, b: seq<string>, lines: seq<string>)
    ensures lines + Diff(a, b, |a|, |b|) == lines
  {
  }

  lemma SameIsContext(a: seq<string>, b: seq<string>, i: nat, j: nat)
    requires i < |a| && j < |b| && a[i] == b[j]
    ensures NextRound(a, b, i, j) == Round(true, 1, 1)
  {
  }

  // ---------- what the diff says ----------

  lemma {:induction false} SideAppend(x: seq<string>, y: seq<string>, sign: char)
    ensures Side(x + y, sign) == Side(x, sign) + Side(y, sign)
  {
    hide Taken;
    if y == [] {
      assert x + y == x;
    } else {
      var n := |y| - 1;
      assert (x + y)[..|x| + n] == x + y[..n];
      SideAppend(x, y[..n], sign);
    }
  }

  lemma {:induction false} SideSigned(c: char, lines: seq<string>, sign: char)
    ensures Side(Signed(c, lines), sign) == if c in {' ', sign} then lines else []
  {
    if lines != [] {
      var n := |lines| - 1;
      SideSigned(c, lines[..n], sign);
      assert Signed(c, lines)[..n] == Signed(c, lines[..n]);
      assert ([c] + lines[n])[1..] == lines[n];
    }
  }

  /** The lines spell both texts. */
  ghost predicate Spells(body: seq<string>, oldLines: seq<string>, newLines: seq<string>) {
    IsHunk(body) && Side(body, '-') == oldLines && Side(body, '+') == newLines
  }

  lemma {:induction false} RunSpells(sign: char, lines: seq<string>)
    requires sign in {' ', '-', '+'} && forall k | 0 <= k < |lines| :: NoNewline(lines[k])
    ensures Spells(Signed(sign, lines), if sign == '+' then [] else lines, if sign == '-' then [] else lines)
  {
    SideSigned(sign, lines, '-');
    SideSigned(sign, lines, '+');
  }

  lemma {:induction false} SpellsAppend(x: seq<string>, a: seq<string>, b: seq<string>, y: seq<string>, c: seq<string>, d: seq<string>)
    requires Spells(x, a, b) && Spells(y, c, d)
    ensures Spells(x + y, a + c, b + d)
  {
    SideAppend(x, y, '-');
    SideAppend(x, y, '+');
  }

  lemma {:induction false} RoundSpells(r: Round, deleted: seq<string>, inserted: seq<string>)
    requires forall k | 0 <= k < |deleted| :: NoNewline(deleted[k])
    requires forall k | 0 <= k < |inserted| :: NoNewline(inserted[k])
    requires r.context ==> deleted == inserted
    ensures Spells(RoundLines(r, deleted, inserted), deleted, inserted)
  {
    hide Spells, Signed, NoNewline;
    RunSpells(' ', deleted);
    RunSpells('-', deleted);
    RunSpells('+', inserted);
    SpellsAppend(Signed('-', deleted), deleted, [], Signed('+', inserted), [], inserted);
    assert deleted + [] == deleted && [] + inserted == inserted;
  }

  lemma NothingSpells()
    ensures Spells([], [], [])
  {
  }

  /** Context and deleted lines spell the original, context and inserted lines the fix. */
  lemma {:induction false} DiffSpells(a: seq<string>, b: seq<string>, i: nat, j: nat)
    requires i <= |a| && j <= |b|
    requires forall k | 0 <= k < |a| :: NoNewline(a[k])
    requires forall k | 0 <= k < |b| :: NoNewline(b[k])
    ensures Spells(Diff(a, b, i, j), a[i..], b[j..])
    decreases |a| - i + |b| - j
  {
    hide NextRound, RoundLines, Spells, NoNewline;
    if i == |a| && j == |b| {
      NothingSpells();
      assert a[i..] == [] && b[j..] == [];
    } else {
      var r := NextRound(a, b, i, j);
      var i', j' := i + r.deleted, j + r.inserted;
      RoundSpells(r, a[i..i'], b[j..j']);
      DiffSpells(a, b, i', j');
      SpellsAppend(RoundLines(r, a[i..i'], b[j..j']), a[i..i'], b[j..j'], Diff(a, b, i', j'), a[i'..], b[j'..]);
      assert a[i..] == a[i..i'] + a[i'..] && b[j..] == b[j..j'] + b[j'..];
    }
  }

  /** Equal texts give context lines only. */
  lemma {:induction false} DiffOfEqual(a: seq<string>, i: nat)
    requires i <= |a|
    ensures Diff(a, a, i, i) == Signed(' ', a[i..])
    decreases |a| - i
  {
    if i < |a| {
      DiffOfEqual(a, i + 1);
      assert a[i..] == a[i..i + 1] + a[i + 1..];
    }
  }

  /** Where the texts differ: how far ahead they are compared, and whether they meet `d` lines ahead. */
  ghost predicate Meet(a: seq<string>, b: seq<string>, i: nat, j: nat, d: nat) {
    || (i + d < |a| && j < |b| && a[i + d] == b[j])
    || (i < |a| && j + d < |b| && a[i] == b[j + d])
  }

  ghost predicate InWindow(a: seq<string>, b: seq<string>, i: nat, j: nat, d: nat) {
    d < 20 && (i + d < |a| || i + d < |b|) && (j + d < |a| || j + d < |b|)
  }

  /** Equal lines are context. */
  lemma {:induction false} DiffKeepsEqual(a: seq<string>, b: seq<string>, i: nat, j: nat)
    requires i < |a| && j < |b| && a[i] == b[j]
    ensures Diff(a, b, i, j) == [" " + a[i]] + Diff(a, b, i + 1, j + 1)
  {
    SameIsContext(a, b, i, j);
    hide NextRound;
    assert Signed(' ', a[i..i + 1]) == [" " + a[i]];
  }

  lemma {:induction false} MeetingIs(a: seq<string>, b: seq<string>, i: nat, j: nat, from: nat, scan: nat, d: nat)
    requires from <= d <= scan && (d < scan ==> Meet(a, b, i, j, d)) && forall e | from <= e < d :: !Meet(a, b, i, j, e)
    ensures Meeting(a, b, i, j, from, scan) == d
    decreases d - from
  {
    if from < d {
      assert !Meet(a, b, i, j, from);
      MeetingIs(a, b, i, j, from + 1, scan, d);
    }
  }

  lemma {:induction false} RoundBridges(a: seq<string>, b: seq<string>, i: nat, j: nat, d: nat)
    requires i <= |a| && j <= |b| && InWindow(a, b, i, j, d) && Meet(a, b, i, j, d) && forall e | 0 <= e < d :: !Meet(a, b, i, j, e)
    requires !(i < |a| && j < |b| && a[i] == b[j])
    ensures NextRound(a, b, i, j) ==
            if i + d < |a| && j < |b| && a[i + d] == b[j] then Round(false, d, 0) else Round(false, 0, d)
  {
    hide Meeting;
    MeetingIs(a, b, i, j, 0, Window(a, b, i, j), d);
  }

  /** Lines that differ are bridged to the nearest meeting in the window, by deleting where that is possible
      and otherwise by inserting. */
  lemma {:induction false} DiffBridges(a: seq<string>, b: seq<string>, i: nat, j: nat, d: nat)
    requires i <= |a| && j <= |b| && InWindow(a, b, i, j, d) && Meet(a, b, i, j, d) && forall e | 0 <= e < d :: !Meet(a, b, i, j, e)
    requires !(i < |a| && j < |b| && a[i] == b[j])
    ensures Diff(a, b, i, j) ==
            if i + d < |a| && j < |b| && a[i + d] == b[j]
            then Signed('-', a[i..i + d]) + ([" " + b[j]] + Diff(a, b, i + d + 1, j + 1))
            else Signed('+', b[j..j + d]) + ([" " + a[i]] + Diff(a, b, i + 1, j + d + 1))
  {
    hide NextRound, Signed, Diff;
    RoundBridges(a, b, i, j, d);
    DiffStep(a, b, i, j, []);
    SignedNothing();
    assert [] + Diff(a, b, i, j) == Diff(a, b, i, j);
    if i + d < |a| && j < |b| && a[i + d] == b[j] {
      DiffKeepsEqual(a, b, i + d, j);
      assert b[j..j + 0] == [] && [] + Signed('-', a[i..i + d]) + [] == Signed('-', a[i..i + d]);
    } else {
      DiffKeepsEqual(a, b, i, j + d);
      assert a[i..i + 0] == [] && [] + [] + Signed('+', b[j..j + d]) == Signed('+', b[j..j + d]);
    }
  }

  lemma SignedNothing()
    ensures Signed('-', []) == [] && Signed('+', []) == []
  {
  }

  lemma {:induction false} RoundReplaces(a: seq<string>, b: seq<string>, i: nat, j: nat)
    requires i < |a| && j < |b| && forall d | 0 <= d && InWindow(a, b, i, j, d) :: !Meet(a, b, i, j, d)
    ensures NextRound(a, b, i, j) == Round(false, 1, 1)
  {
    hide Meeting;
    var scan := Window(a, b, i, j);
    assert InWindow(a, b, i, j, 0) && !Meet(a, b, i, j, 0);
    assert forall e | 0 <= e < scan :: InWindow(a, b, i, j, e);
    MeetingIs(a, b, i, j, 0, scan, scan);
  }

  /** Lines that differ with no meeting in the window are replaced one by one. */
  lemma {:induction false} DiffReplaces(a: seq<string>, b: seq<string>, i: nat, j: nat)
    requires i < |a| && j < |b| && forall d | 0 <= d && InWindow(a, b, i, j, d) :: !Meet(a, b, i, j, d)
    ensures Diff(a, b, i, j) == ["-" + a[i], "+" + b[j]] + Diff(a, b, i + 1, j + 1)
  {
    hide NextRound, Diff, Meet, InWindow, Signed;
    RoundReplaces(a, b, i, j);
    DiffStep(a, b, i, j, []);
    assert [] + Diff(a, b, i, j) == Diff(a, b, i, j);
    SignedOne('-', a, i);
    SignedOne('+', b, j);
    assert [] + ["-" + a[i]] + ["+" + b[j]] == ["-" + a[i], "+" + b[j]];
  }

  lemma SignedOne(sign: char, lines: seq<string>, i: nat)
    requires i < |lines|
    ensures Signed(sign, lines[i..i + 1]) == [[sign] + lines[i]]
  {
  }

  lemma {:induction false} SignedCons(sign: char, lines: seq<string>, i: nat)
    requires i < |lines|
    ensures Signed(sign, lines[i..]) == [[sign] + lines[i]] + Signed(sign, lines[i + 1..])
  {
  }

  /** When one text is over, the rest of the other is inserted or deleted. */
  lemma {:induction false} DiffInsertsRest(a: seq<string>, b: seq<string>, j: nat)
    requires j <= |b|
    ensures Diff(a, b, |a|, j) == Signed('+', b[j..])
    decreases |b| - j
  {
    hide NextRound, Diff, Signed;
    if j == |b| {
      DiffEnds(a, b, []);
      SignedNothing();
      assert b[j..] == [] && [] + Diff(a, b, |a|, j) == Diff(a, b, |a|, j);
    } else {
      RoundAtEnd(a, b, |a|, j);
      DiffInsertsRest(a, b, j + 1);
      DiffStep(a, b, |a|, j, []);
      SignedNothing();
      SignedOne('+', b, j);
      SignedCons('+', b, j);
      assert a[|a|..|a|] == [] && [] + [] + [['+'] + b[j]] == [['+'] + b[j]];
      assert [] + Diff(a, b, |a|, j) == Diff(a, b, |a|, j);
    }
  }

  lemma {:induction false} DiffDeletesRest(a: seq<string>, b: seq<string>, i: nat)
    requires i <= |a|
    ensures Diff(a, b, i, |b|) == Signed('-', a[i..])
    decreases |a| - i
  {
    hide NextRound, Diff, Signed;
    if i == |a| {
      DiffEnds(a, b, []);
      SignedNothing();
      assert a[i..] == [] && [] + Diff(a, b, i, |b|) == Diff(a, b, i, |b|);
    } else {
      RoundAtEnd(a, b, i, |b|);
      DiffDeletesRest(a, b, i + 1);
      DiffStep(a, b, i, |b|, []);
      SignedNothing();
      SignedOne('-', a, i);
      SignedCons('-', a, i);
      assert b[|b|..|b|] == [] && [] + [['-'] + a[i]] + [] == [['-'] + a[i]];
      assert [] + Diff(a, b, i, |b|) == Diff(a, b, i, |b|);
    }
  }

  lemma {:induction false} RoundAtEnd(a: seq<string>, b: seq<string>, i: nat, j: nat)
    requires i <= |a| && j <= |b| && (i < |a| || j < |b|) && (i == |a| || j == |b|)
    ensures NextRound(a, b, i, j) == Round(false, if i < |a| then 1 else 0, if j < |b| then 1 else 0)
  {
  }

  lemma {:induction false} HeaderHasNoNewline(filename: string, oldCount: nat, newCount: nat)
    requires NoNewline(filename)
    ensures forall k | 0 <= k < 3 :: NoNewline(Header(filename, oldCount, newCount)[k])
  {
  }

  /** What a reader of the text can do: take the lines after the header, patch the original with them
      and get the fix; the hunk applies to no other text. */
  lemma {:induction false} DiffReplays(original: string, fixed: string, filename: string, other: string)
    requires NoNewline(filename)
    ensures var a, b := Split(original), Split(fixed);
            var lines := Split(Join(Header(filename, |a|, |b|) + Diff(a, b, 0, 0)));
            && |lines| >= 3 && lines[..3] == Header(filename, |a|, |b|)
            && Patch(Split(other), 0, lines[3..]) == if other == original then Some(b) else None
  {
    hide Split, Patch, Decimal, Diff;
    var a, b := Split(original), Split(fixed);
    var header, body := Header(filename, |a|, |b|), Diff(a, b, 0, 0);
    DiffSpells(a, b, 0, 0);
    HeaderHasNoNewline(filename, |a|, |b|);
    SplitJoin(header + body);
    assert (header + body)[..3] == header && (header + body)[3..] == body;
    PatchIsExact(Split(other), 0, body);
    assert Split(other)[0..] == Split(other) && a[0..] == a && b[0..] == b;
    JoinSplit(other);
    JoinSplit(original);
  }
}
