/** Whether an npm comparator range can meet an advisory's version interval. Versions are any totally
    ordered type. */
module VersionRanges {
  import opened Text

  datatype Op = Ge | Gt | Le | Lt

  datatype Comparator<V> = Comparator(op: Op, bound: V)

  /** A bound of an interval and whether it belongs to it. */
  datatype Bound<V> = Bound(version: V, inclusive: bool)

  /** The affected versions: from `min` on, below `max`. */
  datatype Target<V> = Target(min: V, max: V)

  ghost predicate TotalOrder<V(!new)>(less: (V, V) -> bool) {
    && (forall a, b :: !(less(a, b) && less(b, a)))
    && (forall a, b, c :: less(a, b) && less(b, c) ==> less(a, c))
    && (forall a, b :: less(a, b) || less(b, a) || a == b)
  }

  ghost predicate Dense<V(!new)>(less: (V, V) -> bool) {
    forall a, b {:trigger HasBetween(less, a, b)} | less(a, b) :: HasBetween(less, a, b)
  }

  ghost predicate HasBetween<V(!new)>(less: (V, V) -> bool, a: V, b: V) {
    exists c :: less(a, c) && less(c, b)
  }

  // ---------- what a range means ----------

  predicate Meets<V>(less: (V, V) -> bool, v: V, c: Comparator<V>) {
    match c.op
    case Ge => !less(v, c.bound)
    case Gt => less(c.bound, v)
    case Le => !less(c.bound, v)
    case Lt => less(v, c.bound)
  }

  ghost predicate MeetsAll<V>(less: (V, V) -> bool, v: V, cs: seq<Comparator<V>>) {
    forall c | c in cs :: Meets(less, v, c)
  }

  ghost predicate InTarget<V(!new)>(less: (V, V) -> bool, v: V, t: Target<V>) {
    !less(v, t.min) && less(v, t.max)
  }

  /** The loop over comparators with its early exits. */
  method VersionSatisfies<V(!new)>(less: (V, V) -> bool, v: V, cs: seq<Comparator<V>>) returns (ok: bool)
    requires TotalOrder(less)
    ensures ok <==> MeetsAll(less, v, cs)
  {
    for i := 0 to |cs|
      invariant forall k | 0 <= k < i :: Meets(less, v, cs[k])
    {
      var c := cs[i];
      assert c in cs;
      if c.op.Ge? && less(v, c.bound) { return false; }
      if c.op.Gt? && !less(c.bound, v) { return false; }
      if c.op.Le? && less(c.bound, v) { return false; }
      if c.op.Lt? && !less(v, c.bound) { return false; }
    }
    return true;
  }

  // ---------- intervals ----------

  predicate IsLower(op: Op) { op in {Ge, Gt} }

  function BoundOf<V>(c: Comparator<V>): Bound<V> { Bound(c.bound, c.op in {Ge, Le}) }

  function MergeLower<V>(less: (V, V) -> bool, current: Option<Bound<V>>, candidate: Bound<V>): Bound<V> {
    if current.None? then candidate
    else if less(current.value.version, candidate.version) then candidate
    else if less(candidate.version, current.value.version) then current.value
    else if current.value.inclusive && !candidate.inclusive then candidate
    else current.value
  }

  function MergeUpper<V>(less: (V, V) -> bool, current: Option<Bound<V>>, candidate: Bound<V>): Bound<V> {
    if current.None? then candidate
    else if less(candidate.version, current.value.version) then candidate
    else if less(current.value.version, candidate.version) then current.value
    else if current.value.inclusive && !candidate.inclusive then candidate
    else current.value
  }

  /** The interval between two bounds is not empty, as far as the bounds can tell. */
  predicate Compatible<V>(less: (V, V) -> bool, lower: Bound<V>, upper: Bound<V>) {
    if less(lower.version, upper.version) then true
    else if less(upper.version, lower.version) then false
    else lower.inclusive && upper.inclusive
  }

  predicate Above<V>(less: (V, V) -> bool, v: V, lower: Bound<V>) {
    less(lower.version, v) || (lower.inclusive && !less(v, lower.version))
  }

  predicate Under<V>(less: (V, V) -> bool, v: V, upper: Bound<V>) {
    less(v, upper.version) || (upper.inclusive && !less(upper.version, v))
  }

  /** The merged bound is the stricter one: it admits exactly what both admit. */
  lemma {:induction false} MergeMeans<V(!new)>(less: (V, V) -> bool, a: Bound<V>, b: Bound<V>, v: V)
    requires TotalOrder(less)
    ensures Above(less, v, MergeLower(less, Some(a), b)) <==> Above(less, v, a) && Above(less, v, b)
    ensures Under(less, v, MergeUpper(less, Some(a), b)) <==> Under(less, v, a) && Under(less, v, b)
  {
  }

  /** The same for partners: the merged bound is compatible with exactly what both are. */
  lemma {:induction false} MergeCompatible<V(!new)>(less: (V, V) -> bool, a: Bound<V>, b: Bound<V>, other: Bound<V>)
    requires TotalOrder(less)
    ensures Compatible(less, MergeLower(less, Some(a), b), other) <==> Compatible(less, a, other) && Compatible(less, b, other)
    ensures Compatible(less, other, MergeUpper(less, Some(a), b)) <==> Compatible(less, other, a) && Compatible(less, other, b)
  {
  }

  /** Every lower bound goes with every upper bound. No order of the comparators is involved. */
  ghost predicate Pairwise<V(!new)>(less: (V, V) -> bool, cs: seq<Comparator<V>>) {
    forall c, d | c in cs && d in cs && IsLower(c.op) && !IsLower(d.op) :: Compatible(less, BoundOf(c), BoundOf(d))
  }

  /** The affected versions as two comparators. */
  function TargetRange<V>(t: Target<V>): seq<Comparator<V>> { [Comparator(Ge, t.min), Comparator(Lt, t.max)] }

  /** The folded bound stands for all bounds of its side. */
  ghost predicate FoldsLower<V(!new)>(less: (V, V) -> bool, lower: Option<Bound<V>>, cs: seq<Comparator<V>>) {
    && (lower.None? ==> forall c | c in cs :: !IsLower(c.op))
    && (lower.Some? ==> forall u: Bound<V> ::
          Compatible(less, lower.value, u) <==> forall c | c in cs && IsLower(c.op) :: Compatible(less, BoundOf(c), u))
  }

  ghost predicate FoldsUpper<V(!new)>(less: (V, V) -> bool, upper: Option<Bound<V>>, cs: seq<Comparator<V>>) {
    && (upper.None? ==> forall c | c in cs :: IsLower(c.op))
    && (upper.Some? ==> forall l: Bound<V> ::
          Compatible(less, l, upper.value) <==> forall c | c in cs && !IsLower(c.op) :: Compatible(less, l, BoundOf(c)))
  }

  /** The fold over the comparators decides whether all bounds go together pairwise. */
  method RangeOverlaps<V(!new)>(less: (V, V) -> bool, t: Target<V>, cs: seq<Comparator<V>>) returns (overlaps: bool)
    requires TotalOrder(less)
    ensures overlaps <==> Pairwise(less, TargetRange(t) + cs)
  {
    var lower: Option<Bound<V>>, upper: Option<Bound<V>> := None, None;
    for i := 0 to |cs|
      invariant FoldsLower(less, lower, cs[..i]) && FoldsUpper(less, upper, cs[..i])
    {
      var c := cs[i];
      FoldStep(less, lower, upper, cs, i);
      match c.op {
        case Ge => lower := Some(MergeLower(less, lower, Bound(c.bound, true)));
        case Gt => lower := Some(MergeLower(less, lower, Bound(c.bound, false)));
        case Le => upper := Some(MergeUpper(less, upper, Bound(c.bound, true)));
        case Lt => upper := Some(MergeUpper(less, upper, Bound(c.bound, false)));
      }
    }
    assert cs[..|cs|] == cs;
    var effectiveLower := if lower.Some? then MergeLower(less, Some(Bound(t.min, true)), lower.value) else Bound(t.min, true);
    var effectiveUpper := if upper.Some? then MergeUpper(less, Some(Bound(t.max, false)), upper.value) else Bound(t.max, false);
    FoldEnds(less, t, lower, upper, cs);
    return Compatible(less, effectiveLower, effectiveUpper);
  }

  lemma {:induction false} FoldStep<V(!new)>(less: (V, V) -> bool, lower: Option<Bound<V>>, upper: Option<Bound<V>>,
                                             cs: seq<Comparator<V>>, i: nat)
    requires TotalOrder(less) && i < |cs|
    requires FoldsLower(less, lower, cs[..i]) && FoldsUpper(less, upper, cs[..i])
    ensures var next := if IsLower(cs[i].op) then Some(MergeLower(less, lower, BoundOf(cs[i]))) else lower;
            FoldsLower(less, next, cs[..i + 1])
    ensures var next := if IsLower(cs[i].op) then upper else Some(MergeUpper(less, upper, BoundOf(cs[i])));
            FoldsUpper(less, next, cs[..i + 1])
  {
    assert cs[..i + 1] == cs[..i] + [cs[i]];
    var b := BoundOf(cs[i]);
    var nextLower, nextUpper := MergeLower(less, lower, b), MergeUpper(less, upper, b);
    forall other: Bound<V>
      ensures IsLower(cs[i].op) && lower.Some? ==>
                (Compatible(less, nextLower, other) <==> Compatible(less, lower.value, other) && Compatible(less, b, other))
      ensures !IsLower(cs[i].op) && upper.Some? ==>
                (Compatible(less, other, nextUpper) <==> Compatible(less, other, upper.value) && Compatible(less, other, b))
    {
      if lower.Some? { MergeCompatible(less, lower.value, b, other); }
      if upper.Some? { MergeCompatible(less, upper.value, b, other); }
    }
  }

  lemma {:induction false} FoldEnds<V(!new)>(less: (V, V) -> bool, t: Target<V>, lower: Option<Bound<V>>,
                                             upper: Option<Bound<V>>, cs: seq<Comparator<V>>)
    requires TotalOrder(less) && FoldsLower(less, lower, cs) && FoldsUpper(less, upper, cs)
    ensures var l := if lower.Some? then MergeLower(less, Some(Bound(t.min, true)), lower.value) else Bound(t.min, true);
            var u := if upper.Some? then MergeUpper(less, Some(Bound(t.max, false)), upper.value) else Bound(t.max, false);
            Compatible(less, l, u) <==> Pairwise(less, TargetRange(t) + cs)
  {
    var l := if lower.Some? then MergeLower(less, Some(Bound(t.min, true)), lower.value) else Bound(t.min, true);
    var u := if upper.Some? then MergeUpper(less, Some(Bound(t.max, false)), upper.value) else Bound(t.max, false);
    var all := TargetRange(t) + cs;
    forall other: Bound<V>
      ensures Compatible(less, l, other) <==> forall c | c in all && IsLower(c.op) :: Compatible(less, BoundOf(c), other)
      ensures Compatible(less, other, u) <==> forall c | c in all && !IsLower(c.op) :: Compatible(less, other, BoundOf(c))
    {
      if lower.Some? { MergeCompatible(less, Bound(t.min, true), lower.value, other); }
      if upper.Some? { MergeCompatible(less, Bound(t.max, false), upper.value, other); }
    }
  }

  // ---------- what the answer means ----------

  /** The answer is never "no" while an affected version satisfies the range. */
  lemma {:induction false} OverlapIsComplete<V(!new)>(less: (V, V) -> bool, t: Target<V>, cs: seq<Comparator<V>>, v: V)
    requires TotalOrder(less) && InTarget(less, v, t) && MeetsAll(less, v, cs)
    ensures Pairwise(less, TargetRange(t) + cs)
  {
  }

  /** The strictest lower and upper comparator of a list that has both. */
  lemma {:induction false} Strictest<V(!new)>(less: (V, V) -> bool, cs: seq<Comparator<V>>) returns (lo: Comparator<V>, hi: Comparator<V>)
    requires TotalOrder(less) && |cs| >= 2 && IsLower(cs[0].op) && !IsLower(cs[1].op)
    ensures lo in cs && hi in cs && IsLower(lo.op) && !IsLower(hi.op)
    ensures forall v | Meets(less, v, lo) && Meets(less, v, hi) :: MeetsAll(less, v, cs)
  {
    if |cs| == 2 {
      lo, hi := cs[0], cs[1];
    } else {
      var n := |cs| - 1;
      var c := cs[n];
      assert cs == cs[..n] + [c];
      var lo', hi' := Strictest(less, cs[..n]);
      lo := if IsLower(c.op) && MergeLower(less, Some(BoundOf(lo')), BoundOf(c)) == BoundOf(c) then c else lo';
      hi := if !IsLower(c.op) && MergeUpper(less, Some(BoundOf(hi')), BoundOf(c)) == BoundOf(c) then c else hi';
      forall v | Meets(less, v, lo) && Meets(less, v, hi) ensures MeetsAll(less, v, cs) {
        assert Meets(less, v, lo') && Meets(less, v, hi') && Meets(less, v, c);
      }
    }
  }

  /** Between every `>` bound and every `<` bound of the range lies a version. */
  ghost predicate LeavesRoom<V(!new)>(less: (V, V) -> bool, cs: seq<Comparator<V>>) {
    forall c, d | c in cs && d in cs && c.op.Gt? && d.op.Lt? :: HasBetween(less, c.bound, d.bound)
  }

  /** Two strictest comparators that go together, and leave room, meet in a version. */
  lemma {:induction false} StrictestMeet<V(!new)>(less: (V, V) -> bool, lo: Comparator<V>, hi: Comparator<V>) returns (v: V)
    requires TotalOrder(less) && IsLower(lo.op) && !IsLower(hi.op) && Compatible(less, BoundOf(lo), BoundOf(hi))
    requires lo.op.Gt? && hi.op.Lt? ==> HasBetween(less, lo.bound, hi.bound)
    ensures Meets(less, v, lo) && Meets(less, v, hi)
  {
    if lo.op.Ge? {
      v := lo.bound;
    } else if hi.op.Le? {
      v := hi.bound;
    } else {
      v :| less(lo.bound, v) && less(v, hi.bound);
    }
  }

  /** In every total order, an affected version satisfies the range exactly when the answer is "yes" and
      the bounds leave room. So a "yes" is wrong exactly when some `>` and `<` bound have nothing between. */
  lemma {:induction false} OverlapIsExact<V(!new)>(less: (V, V) -> bool, t: Target<V>, cs: seq<Comparator<V>>)
    requires TotalOrder(less)
    ensures (exists v :: InTarget(less, v, t) && MeetsAll(less, v, cs)) <==>
            Pairwise(less, TargetRange(t) + cs) && LeavesRoom(less, TargetRange(t) + cs)
  {
    var all := TargetRange(t) + cs;
    if Pairwise(less, all) && LeavesRoom(less, all) {
      var lo, hi := Strictest(less, all);
      var v := StrictestMeet(less, lo, hi);
      assert MeetsAll(less, v, all);
      assert Meets(less, v, all[0]) && Meets(less, v, all[1]);
      assert InTarget(less, v, t) && MeetsAll(less, v, cs);
    }
    forall v | InTarget(less, v, t) && MeetsAll(less, v, cs) ensures Pairwise(less, all) && LeavesRoom(less, all) {
      OverlapIsComplete(less, t, cs, v);
      assert MeetsAll(less, v, all);
      forall c, d | c in all && d in all && c.op.Gt? && d.op.Lt? ensures HasBetween(less, c.bound, d.bound) {
        assert less(c.bound, v) && less(v, d.bound);
      }
    }
  }

  /** The answer itself is exact in a dense order, and in every order for a range without `>`. */
  lemma {:induction false} OverlapIsExactWhen<V(!new)>(less: (V, V) -> bool, t: Target<V>, cs: seq<Comparator<V>>)
    requires TotalOrder(less)
    requires Dense(less) || forall c | c in cs :: !c.op.Gt?
    ensures Pairwise(less, TargetRange(t) + cs) <==> exists v :: InTarget(less, v, t) && MeetsAll(less, v, cs)
  {
    hide TotalOrder, MeetsAll, HasBetween, InTarget;
    var all := TargetRange(t) + cs;
    OverlapIsExact(less, t, cs);
    if Pairwise(less, all) {
      forall c, d | c in all && d in all && c.op.Gt? && d.op.Lt? ensures HasBetween(less, c.bound, d.bound) {
        assert Compatible(less, BoundOf(c), BoundOf(d));
      }
    }
  }

  /** Neighbours `a` and `b` in any total order: for `>a <b` the answer is "yes" and no version is in it. */
  lemma {:induction false} OverlapCanOverstate<V(!new)>(less: (V, V) -> bool, t: Target<V>, a: V, b: V)
    requires TotalOrder(less) && less(a, b) && !HasBetween(less, a, b)
    requires less(t.min, t.max) && less(t.min, b) && less(a, t.max)
    ensures var cs := [Comparator(Gt, a), Comparator(Lt, b)];
            Pairwise(less, TargetRange(t) + cs) && !exists v :: MeetsAll(less, v, cs)
  {
    var cs := [Comparator(Gt, a), Comparator(Lt, b)];
    forall v ensures !MeetsAll(less, v, cs) {
      assert cs[0] in cs && cs[1] in cs;
    }
  }

  lemma NumbersHaveNeighbours(n: int)
    ensures var less := (a: int, b: int) => a < b; TotalOrder(less) && less(n, n + 1) && !HasBetween(less, n, n + 1)
  {
  }

  /** The order of the comparators does not matter. */
  lemma {:induction false} OverlapIgnoresOrder<V(!new)>(less: (V, V) -> bool, t: Target<V>, cs: seq<Comparator<V>>, ds: seq<Comparator<V>>)
    requires multiset(cs) == multiset(ds)
    ensures Pairwise(less, TargetRange(t) + cs) <==> Pairwise(less, TargetRange(t) + ds)
  {
    assert forall c :: c in cs <==> c in multiset(cs);
    assert forall c :: c in ds <==> c in multiset(ds);
    assert forall c :: c in TargetRange(t) + cs <==> c in TargetRange(t) + ds;
  }

  /** The branches for a range that is one comparator; `major` is the release's first number. */
  predicate SingleOverlaps<V(==)>(less: (V, V) -> bool, major: V -> int, t: Target<V>, c: Comparator<V>) {
    match c.op
    case Le => !less(c.bound, t.min) && less(t.min, t.max)
    case Lt => less(t.min, c.bound)
    case Gt => !(major(c.bound) > 8 || (major(c.bound) == 8 && !less(c.bound, t.max))) && less(c.bound, t.max)
    case Ge => !(major(c.bound) > 8 || (major(c.bound) == 8 && !less(c.bound, t.max))) && less(c.bound, t.max)
  }

  /** They agree with the fold, for an advisory interval that is not empty and lies below major 9. */
  lemma {:induction false} SingleAgrees<V(!new)>(less: (V, V) -> bool, major: V -> int, t: Target<V>, c: Comparator<V>)
    requires TotalOrder(less) && less(t.min, t.max)
    requires forall v :: major(v) > 8 ==> !less(v, t.max)
    ensures SingleOverlaps(less, major, t, c) <==> Pairwise(less, TargetRange(t) + [c])
  {
  }
}
