/** Matching violations against suppression entries by content fingerprint. The hash and the YAML
    normalization are parameters. */
module Suppressions {
  import opened Text

  // ---------- fingerprints ----------

  const LEGACY_PREFIXES := ["native:", "opa:", "ansible:", "gitleaks:"]

  const NUL: char := 0 as char

  predicate HasLegacyPrefix(id: string) { exists k | 0 <= k < |LEGACY_PREFIXES| :: StartsWith(id, LEGACY_PREFIXES[k]) }

  function WithoutPrefix(id: string): string {
    if StartsWith(id, "native:") then id[7..]
    else if StartsWith(id, "opa:") then id[4..]
    else if StartsWith(id, "ansible:") then id[8..]
    else if StartsWith(id, "gitleaks:") then id[9..]
    else id
  }

  function CanonicalId(rawId: string): string { WithoutPrefix(Trim(rawId, IsSpace)) }

  datatype Mode = Full | RuleModule | RuleOnly | OtherMode

  /** The function that turns YAML text into its normal form, and the one that hashes a payload. */
  datatype Digest = Digest(normalize: string -> string, hash: string -> string)

  function Payload(ruleId: string, text: string): string { CanonicalId(ruleId) + [NUL] + text }

  /** `None` is the `ValueError` for a mode that is not one of the three, or a module mode without a module. */
  function Fingerprint(d: Digest, ruleId: string, yaml: string, mode: Mode, moduleFqcn: string): Option<string> {
    match mode
    case Full => Some(d.hash(Payload(ruleId, d.normalize(yaml))))
    case RuleModule => if moduleFqcn == "" then None else Some(d.hash(Payload(ruleId, moduleFqcn)))
    case RuleOnly => Some(d.hash(Payload(ruleId, "")))
    case OtherMode => None
  }

  ghost predicate Injective(hash: string -> string) {
    forall s, t :: hash(s) == hash(t) ==> s == t
  }

  /** The longer id is the shorter one, a NUL and the start of the shorter one's text. */
  ghost predicate Shifts(long: string, x: string, short: string, y: string) {
    exists z :: long == short + [NUL] + z && y == z + [NUL] + x
  }

  lemma {:induction false} ShiftsWhenLonger(a: string, x: string, b: string, y: string)
    requires |a| > |b|
    ensures a + [NUL] + x == b + [NUL] + y <==> Shifts(a, x, b, y)
  {
    var s, t := a + [NUL] + x, b + [NUL] + y;
    if s == t {
      var z := a[|b| + 1..];
      assert s[..|a|] == a && s[|b|] == a[|b|] && t[|b|] == NUL && t[..|b|] == b;
      assert a == s[..|a|][..|b|] + [s[..|a|][|b|]] + z;
      assert s[|b| + 1..] == z + [NUL] + x && t[|b| + 1..] == y;
    }
    forall z | a == b + [NUL] + z && y == z + [NUL] + x ensures s == t {
    }
  }

  /** When two ids and texts make one payload: they are equal, or a NUL in one id lets it reach into the
      other's text. */
  lemma {:induction false} SplitAtNul(a: string, x: string, b: string, y: string)
    ensures a + [NUL] + x == b + [NUL] + y <==> (a == b && x == y) || Shifts(a, x, b, y) || Shifts(b, y, a, x)
  {
    if |a| > |b| {
      ShiftsWhenLonger(a, x, b, y);
    } else if |b| > |a| {
      ShiftsWhenLonger(b, y, a, x);
    } else {
      var s, t := a + [NUL] + x, b + [NUL] + y;
      assert a == s[..|a|] && b == t[..|a|] && x == s[|a| + 1..] && y == t[|a| + 1..];
    }
  }

  lemma {:induction false} NoShiftWithoutNul(a: string, x: string, b: string, y: string)
    requires NUL !in a
    ensures !Shifts(a, x, b, y)
  {
    forall z ensures a != b + [NUL] + z {
      assert (b + [NUL] + z)[|b|] == NUL;
    }
  }

  lemma {:induction false} PayloadMeans(id: string, text: string, id': string, text': string)
    requires NUL !in CanonicalId(id) && NUL !in CanonicalId(id')
    ensures Payload(id, text) == Payload(id', text') <==> CanonicalId(id) == CanonicalId(id') && text == text'
  {
    hide CanonicalId, Shifts;
    var a, b := CanonicalId(id), CanonicalId(id');
    SplitAtNul(a, text, b, text');
    NoShiftWithoutNul(a, text, b, text');
    NoShiftWithoutNul(b, text', a, text);
  }

  /** With a hash without collisions and ids without NUL, equal fingerprints of one mode mean equal
      canonical ids and equal text of that mode. */
  lemma {:induction false} FingerprintMeans(d: Digest, mode: Mode, id: string, yaml: string, moduleFqcn: string,
                                            id': string, yaml': string, moduleFqcn': string)
    requires Injective(d.hash) && NUL !in CanonicalId(id) && NUL !in CanonicalId(id')
    requires Fingerprint(d, id, yaml, mode, moduleFqcn).Some? && Fingerprint(d, id', yaml', mode, moduleFqcn').Some?
    ensures Fingerprint(d, id, yaml, mode, moduleFqcn) == Fingerprint(d, id', yaml', mode, moduleFqcn') <==>
            && CanonicalId(id) == CanonicalId(id')
            && (mode == Full ==> d.normalize(yaml) == d.normalize(yaml'))
            && (mode == RuleModule ==> moduleFqcn == moduleFqcn')
  {
    hide CanonicalId;
    PayloadMeans(id, d.normalize(yaml), id', d.normalize(yaml'));
    PayloadMeans(id, moduleFqcn, id', moduleFqcn');
    PayloadMeans(id, "", id', "");
  }

  /** A legacy prefix with something behind it that canonicalizing would strip as well. */
  predicate Stacks(id: string) {
    exists k | 0 <= k < |LEGACY_PREFIXES| ::
      && StartsWith(id, LEGACY_PREFIXES[k])
      && var rest := id[|LEGACY_PREFIXES[k]|..]; rest != "" && (IsSpace(rest[0]) || HasLegacyPrefix(rest))
  }

  lemma {:induction false} StacksBehindPrefix(id: string)
    ensures Stacks(id) <==>
            HasLegacyPrefix(id) && var rest := WithoutPrefix(id); rest != "" && (IsSpace(rest[0]) || HasLegacyPrefix(rest))
  {
    hide IsSpace, WithoutPrefix, StartsWith;
    forall k | 0 <= k < |LEGACY_PREFIXES| && StartsWith(id, LEGACY_PREFIXES[k])
      ensures |LEGACY_PREFIXES[k]| <= |id| && WithoutPrefix(id) == id[|LEGACY_PREFIXES[k]|..]
    {
      PrefixIsStripped(id, k);
    }
  }

  /** No prefix starts another, so the one an id has is the one that goes. */
  lemma {:induction false} PrefixIsStripped(id: string, k: nat)
    requires k < |LEGACY_PREFIXES| && StartsWith(id, LEGACY_PREFIXES[k])
    ensures |LEGACY_PREFIXES[k]| <= |id| && WithoutPrefix(id) == id[|LEGACY_PREFIXES[k]|..]
  {
    assert LEGACY_PREFIXES[0] == "native:" && LEGACY_PREFIXES[1] == "opa:";
    assert LEGACY_PREFIXES[2] == "ansible:" && LEGACY_PREFIXES[3] == "gitleaks:";
    assert id[0] == LEGACY_PREFIXES[k][0];
  }

  /** An id is canonical when it has no prefix and no white space around it. */
  lemma {:induction false} CanonicalFixes(id: string)
    ensures CanonicalId(id) == id <==> !HasLegacyPrefix(id) && Trim(id, IsSpace) == id
  {
    hide HasLegacyPrefix, WithoutPrefix, Trim;
    TrimShrinks(id);
    PrefixCases(Trim(id, IsSpace));
  }

  /** Canonicalizing strips one prefix. Canonicalizing again changes nothing exactly when the id, without
      the white space around it, is not a prefix followed by white space or by another prefix. */
  lemma {:induction false} CanonicalTwice(rawId: string)
    ensures CanonicalId(CanonicalId(rawId)) == CanonicalId(rawId) <==> !Stacks(Trim(rawId, IsSpace))
  {
    hide HasLegacyPrefix, Stacks, IsSpace, Trim;
    var trimmed := Trim(rawId, IsSpace);
    var id := WithoutPrefix(trimmed);
    StacksBehindPrefix(trimmed);
    PrefixCases(trimmed);
    CanonicalFixes(id);
    TrimmedEnds(rawId);
    TrimOfSuffix(trimmed, |trimmed| - |id|);
  }

  lemma TrimmedEnds(s: string)
    ensures var t := Trim(s, IsSpace); t != "" ==> !IsSpace(t[0]) && !IsSpace(t[|t| - 1])
  {
  }

  /** The end of a trimmed text needs trimming exactly when it starts with white space. */
  lemma {:induction false} TrimOfSuffix(s: string, k: nat)
    requires k <= |s| && (s != "" ==> !IsSpace(s[|s| - 1]))
    ensures Trim(s[k..], IsSpace) == s[k..] <==> !(k < |s| && IsSpace(s[k]))
  {
    hide IsSpace;
    var t := s[k..];
    assert t != "" ==> t[|t| - 1] == s[|s| - 1] && t[0] == s[k];
    assert TrimRight(t, IsSpace) == t;
  }

  lemma {:induction false} TrimShrinks(s: string)
    ensures |Trim(s, IsSpace)| <= |s|
    ensures |Trim(s, IsSpace)| == |s| ==> Trim(s, IsSpace) == s
  {
  }

  lemma {:induction false} PrefixCases(id: string)
    ensures HasLegacyPrefix(id) <==> |WithoutPrefix(id)| < |id|
    ensures !HasLegacyPrefix(id) ==> WithoutPrefix(id) == id
  {
    assert LEGACY_PREFIXES[0] == "native:" && LEGACY_PREFIXES[1] == "opa:";
    assert LEGACY_PREFIXES[2] == "ansible:" && LEGACY_PREFIXES[3] == "gitleaks:";
  }

  /** The four prefixes, written out: each is stripped, and an id that starts with none stays as it is. */
  lemma {:induction false} PrefixesAre(id: string, prefix: string)
    requires prefix in {"native:", "opa:", "ansible:", "gitleaks:"}
    ensures WithoutPrefix(prefix + id) == id
    ensures !StartsWith(id, "native:") && !StartsWith(id, "opa:") && !StartsWith(id, "ansible:") && !StartsWith(id, "gitleaks:")
            ==> WithoutPrefix(id) == id
  {
    var s := prefix + id;
    assert LEGACY_PREFIXES[0] == "native:" && LEGACY_PREFIXES[1] == "opa:";
    assert LEGACY_PREFIXES[2] == "ansible:" && LEGACY_PREFIXES[3] == "gitleaks:";
    var k :| 0 <= k < 4 && LEGACY_PREFIXES[k] == prefix;
    assert s[..|prefix|] == prefix && s[|prefix|..] == id;
    PrefixIsStripped(s, k);
  }

  lemma TrimNothing(s: string)
    requires s != "" && !IsSpace(s[0]) && !IsSpace(s[|s| - 1])
    ensures Trim(s, IsSpace) == s
  {
  }

  lemma PrefixStart(prefix: string)
    requires prefix in {"native:", "opa:", "ansible:", "gitleaks:"}
    ensures prefix != "" && !IsSpace(prefix[0])
  {
  }

  /** What is hashed: the rule id without its legacy prefix, a NUL, and the normalized YAML, the module or
      nothing, by mode. A module mode without a module and an unknown mode are refused. */
  lemma {:induction false} FingerprintIs(d: Digest, prefix: string, id: string, yaml: string, moduleFqcn: string)
    requires prefix in {"", "native:", "opa:", "ansible:", "gitleaks:"}
    requires id != "" && !IsSpace(id[0]) && !IsSpace(id[|id| - 1])
    requires !StartsWith(id, "native:") && !StartsWith(id, "opa:") && !StartsWith(id, "ansible:") && !StartsWith(id, "gitleaks:")
    ensures Fingerprint(d, prefix + id, yaml, Full, moduleFqcn) == Some(d.hash(id + [0 as char] + d.normalize(yaml)))
    ensures Fingerprint(d, prefix + id, yaml, RuleModule, moduleFqcn) ==
            if moduleFqcn == "" then None else Some(d.hash(id + [0 as char] + moduleFqcn))
    ensures Fingerprint(d, prefix + id, yaml, RuleOnly, moduleFqcn) == Some(d.hash(id + [0 as char]))
    ensures Fingerprint(d, prefix + id, yaml, OtherMode, moduleFqcn) == None
  {
    hide IsSpace, Trim, WithoutPrefix, StartsWith;
    var raw := prefix + id;
    if prefix == "" {
      assert raw == id;
      PrefixesAre(id, "opa:");
    } else {
      PrefixesAre(id, prefix);
      PrefixStart(prefix);
    }
    TrimNothing(raw);
    assert id + [NUL] + "" == id + [NUL];
  }

  lemma {:induction false} PrefixesStack()
    ensures CanonicalId("native:opa:L1") == "opa:L1" && CanonicalId("opa:L1") == "L1"
  {
    var once, twice := "native:opa:L1", "opa:L1";
    assert TrimRight(once, IsSpace) == once && SkipWhile(once, 0, IsSpace) == 0;
    assert TrimRight(twice, IsSpace) == twice && SkipWhile(twice, 0, IsSpace) == 0;
    assert once[..7] == "native:" && once[7..] == twice;
    assert twice[..4] == "opa:" && twice[4..] == "L1";
  }

  /** Different canonical ids share a payload exactly when one is the other, a NUL and the start of the
      other's text. */
  lemma {:induction false} NulCollides(id: string, text: string, id': string, text': string)
    requires CanonicalId(id) != CanonicalId(id')
    ensures Payload(id, text) == Payload(id', text') <==>
            || Shifts(CanonicalId(id), text, CanonicalId(id'), text')
            || Shifts(CanonicalId(id'), text', CanonicalId(id), text)
  {
    hide CanonicalId, Shifts;
    SplitAtNul(CanonicalId(id), text, CanonicalId(id'), text');
  }

  // ---------- entries and violations ----------

  datatype Suppression = Suppression(fingerprint: string, ruleId: string, mode: Mode)

  /** A violation's fields; a missing one is empty. */
  datatype Violation = Violation(ruleId: string, originalYaml: string, moduleFqcn: string, resolvedFqcn: string,
                                 originalModule: string, fqcn: string)
  {
    /** The first of the module fields that is not empty. */
    function Module(): (m: string)
      ensures var fields := [moduleFqcn, resolvedFqcn, originalModule, fqcn];
              if m == "" then forall i | 0 <= i < 4 :: fields[i] == ""
              else exists i | 0 <= i < 4 :: fields[i] == m && forall j | 0 <= j < i :: fields[j] == ""
    {
      assert [moduleFqcn, resolvedFqcn, originalModule, fqcn][0] == moduleFqcn;
      assert [moduleFqcn, resolvedFqcn, originalModule, fqcn][1] == resolvedFqcn;
      assert [moduleFqcn, resolvedFqcn, originalModule, fqcn][2] == originalModule;
      assert [moduleFqcn, resolvedFqcn, originalModule, fqcn][3] == fqcn;
      if moduleFqcn != "" then moduleFqcn
      else if resolvedFqcn != "" then resolvedFqcn
      else if originalModule != "" then originalModule
      else fqcn
    }
  }

  predicate IsEnforced(enforced: set<string>, v: Violation) {
    CanonicalId(v.ruleId) in enforced || v.ruleId in enforced
  }

  /** Direct search: the entry's fingerprint is that of the violation in the entry's own mode. */
  predicate Matches(d: Digest, s: Suppression, v: Violation) {
    Fingerprint(d, v.ruleId, v.originalYaml, s.mode, v.Module()) == Some(s.fingerprint)
  }

  /** What a pass is given beside the violations. */
  datatype Policy = Policy(digest: Digest, suppressions: seq<Suppression>, enforced: set<string>)

  predicate IsSuppressed(p: Policy, v: Violation) {
    !IsEnforced(p.enforced, v) && exists s | s in p.suppressions :: Matches(p.digest, s, v)
  }

  /** The violations that are suppressed (or not), in order. */
  function Select(p: Policy, violations: seq<Violation>, which: bool): seq<Violation> {
    if violations == [] then []
    else
      var n := |violations| - 1;
      Select(p, violations[..n], which)
      + if IsSuppressed(p, violations[n]) == which then [violations[n]] else []
  }

  /** The fingerprints of the first entries that have this mode. */
  ghost predicate Indexes(index: map<string, Suppression>, suppressions: seq<Suppression>, mode: Mode) {
    && (forall s | s in suppressions && s.mode == mode :: s.fingerprint in index)
    && (forall fp | fp in index :: index[fp] in suppressions && index[fp].mode == mode && index[fp].fingerprint == fp)
  }

  lemma {:induction false} IndexStep(index: map<string, Suppression>, suppressions: seq<Suppression>, i: nat, mode: Mode)
    requires i < |suppressions| && Indexes(index, suppressions[..i], mode)
    ensures suppressions[i].mode == mode ==> Indexes(index[suppressions[i].fingerprint := suppressions[i]], suppressions[..i + 1], mode)
    ensures suppressions[i].mode != mode ==> Indexes(index, suppressions[..i + 1], mode)
  {
  }

  /** The three lookups together are the direct search. */
  lemma {:induction false} LookupIsSearch(d: Digest, suppressions: seq<Suppression>, v: Violation, full: map<string, Suppression>,
                                          modules: map<string, Suppression>, rules: map<string, Suppression>)
    requires Indexes(full, suppressions, Full) && Indexes(modules, suppressions, RuleModule) && Indexes(rules, suppressions, RuleOnly)
    ensures (exists s | s in suppressions :: Matches(d, s, v)) <==>
            || d.hash(Payload(v.ruleId, "")) in rules
            || (v.Module() != "" && d.hash(Payload(v.ruleId, v.Module())) in modules)
            || d.hash(Payload(v.ruleId, d.normalize(v.originalYaml))) in full
  {
  }

  method ApplySuppressions(d: Digest, violations: seq<Violation>, suppressions: seq<Suppression>, enforced: set<string>)
    returns (active: seq<Violation>, suppressed: seq<Violation>)
    ensures active == Select(Policy(d, suppressions, enforced), violations, false)
    ensures suppressed == Select(Policy(d, suppressions, enforced), violations, true)
  {
    ghost var p := Policy(d, suppressions, enforced);
    if suppressions == [] {
      SelectNone(p, violations);
      return violations, [];
    }
    var full, modules, rules: map<string, Suppression> := map[], map[], map[];
    for i := 0 to |suppressions|
      invariant Indexes(full, suppressions[..i], Full)
      invariant Indexes(modules, suppressions[..i], RuleModule)
      invariant Indexes(rules, suppressions[..i], RuleOnly)
    {
      IndexStep(full, suppressions, i, Full);
      IndexStep(modules, suppressions, i, RuleModule);
      IndexStep(rules, suppressions, i, RuleOnly);
      var s := suppressions[i];
      if s.mode == Full {
        full := full[s.fingerprint := s];
      } else if s.mode == RuleModule {
        modules := modules[s.fingerprint := s];
      } else if s.mode == RuleOnly {
        rules := rules[s.fingerprint := s];
      }
    }
    assert suppressions[..|suppressions|] == suppressions;
    active, suppressed := [], [];
    for i := 0 to |violations|
      invariant active == Select(p, violations[..i], false)
      invariant suppressed == Select(p, violations[..i], true)
    {
      var v := violations[i];
      assert violations[..i + 1][..i] == violations[..i];
      var hit := Lookup(d, v, suppressions, full, modules, rules, enforced);
      if hit {
        suppressed := suppressed + [v];
      } else {
        active := active + [v];
      }
    }
    assert violations[..|violations|] == violations;
  }

  /** The body of the loop over violations up to the verdict. */
  method Lookup(d: Digest, v: Violation, ghost suppressions: seq<Suppression>, full: map<string, Suppression>,
                modules: map<string, Suppression>, rules: map<string, Suppression>, enforced: set<string>) returns (suppressed: bool)
    requires Indexes(full, suppressions, Full) && Indexes(modules, suppressions, RuleModule) && Indexes(rules, suppressions, RuleOnly)
    ensures suppressed <==> IsSuppressed(Policy(d, suppressions, enforced), v)
  {
    hide CanonicalId;
    LookupIsSearch(d, suppressions, v, full, modules, rules);
    if CanonicalId(v.ruleId) in enforced || v.ruleId in enforced {
      return false;
    }
    var moduleFqcn := v.Module();
    suppressed := false;
    if rules != map[] {
      if Fingerprint(d, v.ruleId, v.originalYaml, RuleOnly, "").value in rules {
        suppressed := true;
      }
    }
    if !suppressed && modules != map[] && moduleFqcn != "" {
      if Fingerprint(d, v.ruleId, v.originalYaml, RuleModule, moduleFqcn).value in modules {
        suppressed := true;
      }
    }
    if !suppressed && full != map[] {
      if Fingerprint(d, v.ruleId, v.originalYaml, Full, "").value in full {
        suppressed := true;
      }
    }
  }

  lemma {:induction false} SelectNone(p: Policy, violations: seq<Violation>)
    requires p.suppressions == []
    ensures Select(p, violations, false) == violations && Select(p, violations, true) == []
  {
    if violations != [] {
      SelectNone(p, violations[..|violations| - 1]);
    }
  }

  // ---------- what the partition means ----------

  /** Positions, from first to last, of violations that are suppressed (or not). */
  ghost predicate ArePositions(p: Policy, violations: seq<Violation>, which: bool, at: seq<nat>) {
    && (forall k | 0 <= k < |at| :: at[k] < |violations| && IsSuppressed(p, violations[at[k]]) == which)
    && (forall j, k | 0 <= j < k < |at| :: at[j] < at[k])
  }

  lemma {:induction false} PositionsStep(p: Policy, violations: seq<Violation>, which: bool, at: seq<nat>)
    requires violations != []
    requires ArePositions(p, violations[..|violations| - 1], which, at)
    ensures var n := |violations| - 1;
            ArePositions(p, violations, which,
                         if IsSuppressed(p, violations[n]) == which then at + [n] else at)
  {
    hide IsSuppressed;
    var n := |violations| - 1;
    assert forall i | 0 <= i < n :: violations[..n][i] == violations[i];
  }

  /** Each list holds the violations of its kind at increasing positions. */
  lemma {:induction false} SelectIsOrdered(p: Policy, violations: seq<Violation>, which: bool)
    returns (at: seq<nat>)
    ensures ArePositions(p, violations, which, at)
    ensures |at| == |Select(p, violations, which)|
    ensures forall k | 0 <= k < |at| :: at[k] < |violations| && Select(p, violations, which)[k] == violations[at[k]]
  {
    hide IsSuppressed, ArePositions;
    if violations == [] {
      at := [];
      assert ArePositions(p, violations, which, at) by { NoPositions(p, which); }
    } else {
      var n := |violations| - 1;
      var before := SelectIsOrdered(p, violations[..n], which);
      at := if IsSuppressed(p, violations[n]) == which then before + [n] else before;
      PositionsStep(p, violations, which, before);
    }
  }

  lemma NoPositions(p: Policy, which: bool)
    ensures ArePositions(p, [], which, [])
  {
  }

  /** No violation is lost or made up. */
  lemma {:induction false} SelectPartitions(p: Policy, violations: seq<Violation>)
    ensures multiset(Select(p, violations, true)) + multiset(Select(p, violations, false))
            == multiset(violations)
  {
    hide IsSuppressed;
    if violations != [] {
      var n := |violations| - 1;
      SelectPartitions(p, violations[..n]);
      assert violations == violations[..n] + [violations[n]];
    }
  }

  /** No violation of an enforced rule is suppressed, under its raw or its canonical id. */
  lemma {:induction false} EnforcedStaysActive(p: Policy, violations: seq<Violation>, v: Violation)
    requires v in violations && (CanonicalId(v.ruleId) in p.enforced || v.ruleId in p.enforced)
    ensures v in Select(p, violations, false) && v !in Select(p, violations, true)
  {
    hide CanonicalId, Matches;
    var n := |violations| - 1;
    if v in violations[..n] {
      EnforcedStaysActive(p, violations[..n], v);
    } else {
      SelectMembers(p, violations[..n], true);
    }
  }

  lemma {:induction false} SelectMembers(p: Policy, violations: seq<Violation>, which: bool)
    ensures forall v | v in Select(p, violations, which) :: v in violations
  {
    if violations != [] {
      SelectMembers(p, violations[..|violations| - 1], which);
    }
  }

  /** A violation of a rule that is not enforced is suppressed exactly when some entry matches it. */
  lemma {:induction false} SuppressedExactlyWhen(p: Policy, violations: seq<Violation>, v: Violation)
    requires v in violations && CanonicalId(v.ruleId) !in p.enforced && v.ruleId !in p.enforced
    ensures v in Select(p, violations, true) <==> exists s | s in p.suppressions :: Matches(p.digest, s, v)
  {
    hide Matches, CanonicalId;
    var n := |violations| - 1;
    if v in violations[..n] {
      SuppressedExactlyWhen(p, violations[..n], v);
    } else {
      SelectMembers(p, violations[..n], true);
    }
  }

  /** An entry that was made from a rule and a task suppresses exactly the violations that agree with
      them in what its mode covers. */
  lemma {:induction false} EntryMatches(d: Digest, s: Suppression, id: string, yaml: string, moduleFqcn: string, v: Violation)
    requires Injective(d.hash) && NUL !in CanonicalId(id) && NUL !in CanonicalId(v.ruleId)
    requires Fingerprint(d, id, yaml, s.mode, moduleFqcn) == Some(s.fingerprint)
    ensures Matches(d, s, v) <==>
            && CanonicalId(v.ruleId) == CanonicalId(id)
            && (s.mode == Full ==> d.normalize(v.originalYaml) == d.normalize(yaml))
            && (s.mode == RuleModule ==> v.Module() == moduleFqcn)
  {
    hide CanonicalId;
    if Fingerprint(d, v.ruleId, v.originalYaml, s.mode, v.Module()).Some? {
      FingerprintMeans(d, s.mode, v.ruleId, v.originalYaml, v.Module(), id, yaml, moduleFqcn);
    }
  }
}
