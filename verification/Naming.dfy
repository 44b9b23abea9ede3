/** Galaxy collection names and the Python package names they are served under. */
module Naming {
  import opened Text

  function Prefix(): string { "ansible-collection-" }

  predicate IsSeparator(c: char) { c in {'-', '_', '.'} }

  /** Lower case, for ASCII letters. */
  function Lower(c: char): char {
    if 'A' <= c <= 'Z' then (c as int + 32) as char else c
  }

  function Canonical(c: char): char { if IsSeparator(c) then '-' else Lower(c) }

  /** Every run of separators becomes one hyphen, and letters become lower case. */
  function Normalize(name: string): string {
    if name == "" then ""
    else
      var n := |name| - 1;
      Normalize(name[..n]) + if n > 0 && IsSeparator(name[n - 1]) && IsSeparator(name[n]) then "" else [Canonical(name[n])]
  }

  /** `s.replace("-", "_")` */
  function Underscored(s: string): (r: string)
    ensures |r| == |s| && forall k | 0 <= k < |s| :: r[k] == if s[k] == '-' then '_' else s[k]
  {
    seq(|s|, k requires 0 <= k < |s| => if s[k] == '-' then '_' else s[k])
  }

  predicate NotDash(c: char) { c != '-' }

  predicate NotDot(c: char) { c != '.' }

  datatype Collection = Collection(namespace: string, name: string)

  /** `None` is the `ValueError` for a name without a dot. */
  function FqcnToPython(fqcn: string): Option<string> {
    var k := SkipWhile(fqcn, 0, NotDot);
    if k == |fqcn| then None else Some(Normalize(Prefix() + fqcn[..k] + "-" + fqcn[k + 1..]))
  }

  /** `None` is the `ValueError`. */
  function PythonToFqcn(packageName: string): Option<Collection> {
    var normalized := Normalize(packageName);
    if !StartsWith(normalized, Prefix()) then None
    else
      var stripped := normalized[|Prefix()|..];
      var k := SkipWhile(stripped, 0, NotDash);
      if k == |stripped| then None else Some(Collection(Underscored(stripped[..k]), Underscored(stripped[k + 1..])))
  }

  function Fqcn(c: Collection): string { c.namespace + "." + c.name }

  // ---------- normal forms ----------

  predicate HasRun(s: string) {
    exists k | 0 <= k < |s| - 1 :: IsSeparator(s[k]) && IsSeparator(s[k + 1])
  }

  /** A normal form in the sense of PEP 503, section Normalized Names. */
  predicate IsNormal(s: string) {
    !HasRun(s) && forall k | 0 <= k < |s| :: Canonical(s[k]) == s[k]
  }

  function Canonicals(s: string): string {
    seq(|s|, k requires 0 <= k < |s| => Canonical(s[k]))
  }

  lemma {:induction false} NormalizeIsNormal(s: string)
    ensures IsNormal(Normalize(s))
    ensures s != "" ==> Normalize(s) != "" && Normalize(s)[|Normalize(s)| - 1] == Canonical(s[|s| - 1])
  {
    if s != "" {
      NormalizeIsNormal(s[..|s| - 1]);
    }
  }

  /** Without runs, normalizing works character by character. */
  lemma {:induction false} NormalizeWithoutRuns(s: string)
    requires !HasRun(s)
    ensures Normalize(s) == Canonicals(s)
  {
    if s != "" {
      var n := |s| - 1;
      assert forall k | 0 <= k < n :: s[..n][k] == s[k];
      NormalizeWithoutRuns(s[..n]);
    }
  }

  /** Normalizing is a projection onto the normal forms. */
  lemma {:induction false} NormalizeIsProjection(s: string)
    ensures IsNormal(Normalize(s)) && Normalize(Normalize(s)) == Normalize(s)
    ensures IsNormal(s) <==> Normalize(s) == s
  {
    NormalizeIsNormal(s);
    NormalizeWithoutRuns(Normalize(s));
    if IsNormal(s) { NormalizeWithoutRuns(s); }
  }

  /** Normalizing, character by character: a separator behind a separator goes, any other becomes a hyphen,
      a capital letter becomes its small letter, and every other character stays. */
  lemma {:induction false} NormalizeStep(name: string, c: char)
    ensures Normalize("") == ""
    ensures Normalize(name + [c]) == Normalize(name) +
            if c in {'-', '_', '.'} then
              if name != "" && name[|name| - 1] in {'-', '_', '.'} then "" else "-"
            else if 'A' <= c <= 'Z' then [(c - 'A' + 'a')]
            else [c]
  {
    assert (name + [c])[..|name|] == name;
  }

  // ---------- the two directions ----------

  predicate NoSeparator(s: string) { forall k | 0 <= k < |s| :: !IsSeparator(s[k]) }

  /** The pairs that parsing gives: a namespace without separators that is not empty, and a name whose
      only separators are single underscores, none of them first. */
  predicate IsParsed(c: Collection) {
    && c.namespace != "" && NoSeparator(c.namespace)
    && !HasRun(c.name) && (c.name != "" ==> !IsSeparator(c.name[0]))
    && '-' !in c.name && '.' !in c.name
  }

  predicate IsLower(s: string) { forall k | 0 <= k < |s| :: Lower(s[k]) == s[k] }

  function Distribution(c: Collection): string { Prefix() + c.namespace + "-" + c.name }

  lemma PrefixIsNormal()
    ensures IsNormal(Prefix()) && |Prefix()| > 0 && Prefix()[|Prefix()| - 1] == '-'
  {
  }

  lemma {:induction false} RunsOfJoin(a: string, b: string)
    ensures HasRun(a + b) <==>
            || HasRun(a) || HasRun(b)
            || (a != "" && b != "" && IsSeparator(a[|a| - 1]) && IsSeparator(b[0]))
  {
    var s := a + b;
    if HasRun(a) {
      var k :| 0 <= k < |a| - 1 && IsSeparator(a[k]) && IsSeparator(a[k + 1]);
      assert s[k] == a[k] && s[k + 1] == a[k + 1];
    } else if HasRun(b) {
      var k :| 0 <= k < |b| - 1 && IsSeparator(b[k]) && IsSeparator(b[k + 1]);
      assert s[|a| + k] == b[k] && s[|a| + k + 1] == b[k + 1];
    } else if a != "" && b != "" {
      assert s[|a| - 1] == a[|a| - 1] && s[|a| - 1 + 1] == b[0];
    }
  }

  /** A string cut at its first hyphen. */
  lemma {:induction false} CutAtDash(head: string, tail: string)
    requires '-' !in head
    ensures var s := head + "-" + tail;
            SkipWhile(s, 0, NotDash) == |head| && s[..|head|] == head && s[|head| + 1..] == tail
  {
    var s := head + "-" + tail;
    assert s[|head|] == '-';
    assert forall k | 0 <= k < |head| :: s[k] == head[k];
  }

  /** Hyphens and underscores are both separators, so exchanging them keeps runs and normal forms. */
  lemma {:induction false} UnderscoredKeeps(s: string)
    ensures HasRun(Underscored(s)) <==> HasRun(s)
    ensures Canonicals(Underscored(s)) == Canonicals(s)
    ensures '-' !in s ==> Underscored(s) == s
    ensures '-' !in Underscored(s)
  {
  }

  /** Such a pair is printed without a run, so printing only turns underscores into hyphens. */
  lemma {:induction false} ParsedPrints(c: Collection)
    requires IsParsed(c)
    ensures Normalize(Distribution(c)) == Canonicals(Distribution(c))
    ensures FqcnToPython(Fqcn(c)) == Some(Normalize(Distribution(c)))
  {
    PrefixIsNormal();
    hide Prefix, Normalize, HasRun;
    RunsOfJoin(Prefix(), c.namespace);
    RunsOfJoin(Prefix() + c.namespace, "-");
    RunsOfJoin(Prefix() + c.namespace + "-", c.name);
    NoSeparatorNoRun(c.namespace);
    NoSeparatorNoRun("");
    assert !HasRun("-") by { SingleNoRun("-"); }
    NormalizeWithoutRuns(Distribution(c));
    var m, fqcn := |c.namespace|, Fqcn(c);
    assert fqcn[m] == '.' && forall k | 0 <= k < m :: fqcn[k] == c.namespace[k];
    assert SkipWhile(fqcn, 0, NotDot) == m;
    assert fqcn[..m] == c.namespace && fqcn[m + 1..] == c.name;
  }

  lemma NoSeparatorNoRun(s: string)
    requires NoSeparator(s)
    ensures !HasRun(s)
  {
  }

  lemma SingleNoRun(s: string)
    requires |s| == 1
    ensures !HasRun(s)
  {
  }

  lemma {:induction false} CanonicalDistribution(c: Collection)
    ensures Canonicals(Distribution(c)) == Prefix() + (Canonicals(c.namespace) + "-" + Canonicals(c.name))
  {
  }

  lemma {:induction false} ParseOfParts(normalized: string, ns: string, dashed: string)
    requires Normalize(normalized) == normalized == Prefix() + (ns + "-" + dashed) && '-' !in ns
    ensures PythonToFqcn(normalized) == Some(Collection(Underscored(ns), Underscored(dashed)))
  {
    hide Prefix, Normalize, Underscored;
    assert normalized[..|Prefix()|] == Prefix() && normalized[|Prefix()|..] == ns + "-" + dashed;
    CutAtDash(ns, dashed);
  }

  lemma {:induction false} UnderscoredCanonicals(s: string)
    requires IsLower(s) && '-' !in s && '.' !in s
    ensures Underscored(Canonicals(s)) == s
  {
  }

  /** Parsing what was printed gives the pair back. */
  lemma {:induction false} ParsedParses(c: Collection)
    requires IsParsed(c) && IsLower(c.namespace) && IsLower(c.name)
    ensures PythonToFqcn(Normalize(Distribution(c))) == Some(c)
  {
    ParsedPrints(c);
    CanonicalDistribution(c);
    NormalizeIsProjection(Distribution(c));
    hide Prefix, Normalize, HasRun, Distribution, PythonToFqcn, Underscored;
    assert Canonicals(c.namespace) == c.namespace;
    ParseOfParts(Normalize(Distribution(c)), c.namespace, Canonicals(c.name));
    UnderscoredKeeps(c.namespace);
    UnderscoredCanonicals(c.name);
  }

  /** A package name that parses is, in normal form, the prefix and two parts around a hyphen. */
  lemma {:induction false} ParseReads(packageName: string) returns (ns: string, dashed: string)
    requires PythonToFqcn(packageName).Some?
    ensures PythonToFqcn(packageName).value == Collection(Underscored(ns), Underscored(dashed))
    ensures Normalize(packageName) == Prefix() + (ns + "-" + dashed) && '-' !in ns
  {
    hide Prefix, Normalize;
    var normalized := Normalize(packageName);
    var stripped := normalized[|Prefix()|..];
    var m := SkipWhile(stripped, 0, NotDash);
    ns, dashed := stripped[..m], stripped[m + 1..];
    assert stripped == ns + "-" + dashed;
  }

  /** The parts of a normal form that is the prefix and two parts around a hyphen. */
  lemma {:induction false} NormalParts(ns: string, dashed: string)
    requires IsNormal(Prefix() + (ns + "-" + dashed)) && '-' !in ns
    ensures ns != "" && !HasRun(dashed) && (dashed != "" ==> dashed[0] != '-')
    ensures Canonicals(ns) == ns && Canonicals(dashed) == dashed
  {
    PrefixIsNormal();
    var whole, p, m := Prefix() + (ns + "-" + dashed), |Prefix()|, |ns|;
    hide Prefix, HasRun;
    RunsOfJoin(Prefix(), ns + "-" + dashed);
    RunsOfJoin(ns + "-", dashed);
    assert (ns + "-")[m] == '-';
    assert forall k | 0 <= k < m :: whole[p + k] == ns[k];
    assert forall k | 0 <= k < |dashed| :: whole[p + m + 1 + k] == dashed[k];
  }

  /** What parsing gives, and how it reads. */
  lemma {:induction false} ParseGivesParsed(packageName: string)
    requires PythonToFqcn(packageName).Some?
    ensures var c := PythonToFqcn(packageName).value;
            IsParsed(c) && Canonicals(Distribution(c)) == Normalize(packageName)
  {
    hide Normalize, HasRun, PythonToFqcn, Distribution, Prefix;
    var c := PythonToFqcn(packageName).value;
    var ns, dashed := ParseReads(packageName);
    NormalizeIsNormal(packageName);
    NormalParts(ns, dashed);
    UnderscoredKeeps(ns);
    UnderscoredKeeps(dashed);
    CanonicalDistribution(c);
    assert forall k | 0 <= k < |ns| :: ns[k] == Canonicals(ns)[k];
    assert forall k | 0 <= k < |dashed| :: dashed[k] == Canonicals(dashed)[k];
  }

  /** Parsing an accepted package name and printing the pair gives its normal form. */
  lemma {:induction false} ParseThenPrint(packageName: string)
    requires PythonToFqcn(packageName).Some?
    ensures FqcnToPython(Fqcn(PythonToFqcn(packageName).value)) == Some(Normalize(packageName))
  {
    hide PythonToFqcn, FqcnToPython, Normalize;
    ParseGivesParsed(packageName);
    ParsedPrints(PythonToFqcn(packageName).value);
  }

  /** The characters Galaxy allows. */
  predicate IsGalaxyName(s: string) {
    forall k | 0 <= k < |s| :: 'a' <= s[k] <= 'z' || IsDigit(s[k]) || s[k] == '_'
  }

  predicate HasDoubleUnderscore(s: string) {
    exists k | 0 <= k < |s| - 1 :: s[k] == '_' && s[k + 1] == '_'
  }

  lemma {:induction false} GalaxyIsParsed(c: Collection)
    requires IsGalaxyName(c.namespace) && IsGalaxyName(c.name)
    ensures IsLower(c.namespace) && IsLower(c.name)
    ensures IsParsed(c) <==>
            c.namespace != "" && '_' !in c.namespace && !StartsWith(c.name, "_") && !HasDoubleUnderscore(c.name)
  {
  }

  /** Printing a Galaxy name and parsing it again gives the pair back exactly when the namespace is not
      empty and has no underscore and the name has no leading and no doubled underscore. */
  lemma {:induction false} PrintThenParse(c: Collection)
    requires IsGalaxyName(c.namespace) && IsGalaxyName(c.name)
    ensures FqcnToPython(Fqcn(c)).Some?
    ensures PythonToFqcn(FqcnToPython(Fqcn(c)).value) == Some(c) <==>
            && c.namespace != "" && '_' !in c.namespace
            && !StartsWith(c.name, "_") && !HasDoubleUnderscore(c.name)
  {
    var printed := FqcnToPython(Fqcn(c));
    assert Fqcn(c)[|c.namespace|] == '.';
    hide Normalize, Prefix, PythonToFqcn, Distribution;
    hide IsParsed, IsGalaxyName;
    GalaxyIsParsed(c);
    if IsParsed(c) {
      ParsedPrints(c);
      ParsedParses(c);
    } else if PythonToFqcn(printed.value) == Some(c) {
      ParseGivesParsed(printed.value);
    }
  }

  lemma {:induction false} NormalizeAlike(s: string, t: string)
    requires Canonicals(s) == Canonicals(t)
    ensures Normalize(s) == Normalize(t)
  {
    if s != "" {
      var n := |s| - 1;
      assert |Canonicals(s)| == |Canonicals(t)|;
      assert forall k | 0 <= k <= n :: Canonical(s[k]) == Canonicals(s)[k] == Canonicals(t)[k] == Canonical(t[k]);
      NormalizeAlike(s[..n], t[..n]);
    }
  }

  /** Printing: the normal form of the fixed prefix, the part before the first dot, a hyphen and the rest; a
      name without a dot is refused. */
  lemma {:induction false} PrintOf(namespace: string, name: string)
    requires '.' !in namespace
    ensures FqcnToPython(namespace) == None
    ensures FqcnToPython(namespace + "." + name) == Some(Normalize("ansible-collection-" + namespace + "-" + name))
  {
    hide Normalize;
    var m, fqcn := |namespace|, namespace + "." + name;
    assert fqcn[m] == '.' && forall k | 0 <= k < m :: fqcn[k] == namespace[k];
    assert SkipWhile(fqcn, 0, NotDot) == m;
    assert fqcn[..m] == namespace && fqcn[m + 1..] == name;
  }

  lemma PrefixIs()
    ensures Prefix() == "ansible-collection-"
  {
  }

  /** Parsing: the normal form must be the fixed prefix and two parts around a hyphen, the first without
      another one; the parts are the pair, with hyphens turned into underscores. */
  lemma {:induction false} ParseOf(packageName: string, ns: string, dashed: string)
    requires '-' !in ns
    ensures Normalize(packageName) == "ansible-collection-" + ns + "-" + dashed ==>
              PythonToFqcn(packageName) == Some(Collection(Underscored(ns), Underscored(dashed)))
    ensures PythonToFqcn(packageName).Some? ==>
              exists head, rest | '-' !in head :: Normalize(packageName) == "ansible-collection-" + head + "-" + rest
  {
    hide Prefix, Normalize, Underscored;
    PrefixIs();
    NormalizeIsProjection(packageName);
    if Normalize(packageName) == "ansible-collection-" + ns + "-" + dashed {
      assert Normalize(packageName) == Prefix() + (ns + "-" + dashed);
      ParseOfParts(Normalize(packageName), ns, dashed);
    }
    if PythonToFqcn(packageName).Some? {
      var head, rest := ParseReads(packageName);
      assert Normalize(packageName) == "ansible-collection-" + head + "-" + rest;
    }
  }

  /** The mapping is not reversible in general: an underscore of the namespace can as well be the dot. */
  lemma {:induction false} NamesCollide(a: string, b: string, c: string)
    requires '.' !in a && '.' !in b
    ensures FqcnToPython(a + "_" + b + "." + c) == FqcnToPython(a + "." + (b + "_" + c)) != None
  {
    hide Normalize, FqcnToPython;
    PrintOf(a + "_" + b, c);
    PrintOf(a, b + "_" + c);
    var left, right := "ansible-collection-" + (a + "_" + b) + "-" + c, "ansible-collection-" + a + "-" + (b + "_" + c);
    assert left == "ansible-collection-" + a + "_" + b + "-" + c;
    assert right == "ansible-collection-" + a + "-" + b + "_" + c;
    assert Canonicals(left) == Canonicals(right);
    NormalizeAlike(left, right);
  }
}
