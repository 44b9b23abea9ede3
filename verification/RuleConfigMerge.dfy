/** Merging the gateway's rule rows into one scan configuration per bare rule id. */
module RuleConfigMerge {
  import opened Text

  datatype Flags = Flags(severity: int, enabled: bool, enforced: bool)

  datatype Row = Row(ruleId: string, flags: Flags)

  datatype RuleConfig = RuleConfig(ruleId: string, flags: Flags)

  datatype Result = Merged(configs: seq<RuleConfig>) | Conflicting(ids: set<string>)

  function BareId(ruleId: string): string {
    if StartsWith(ruleId, "native:") then ruleId[7..] else ruleId
  }

  /** One `native:` goes; every other id is bare. */
  lemma {:induction false} BareIdIs(ruleId: string)
    ensures BareId("native:" + ruleId) == ruleId
    ensures (forall rest :: ruleId != "native:" + rest) ==> BareId(ruleId) == ruleId
  {
    assert ("native:" + ruleId)[..7] == "native:" && ("native:" + ruleId)[7..] == ruleId;
    if StartsWith(ruleId, "native:") {
      assert ruleId == "native:" + ruleId[7..];
    }
  }

  /** Two rows give this id different flags. */
  ghost predicate IsConflict(rows: seq<Row>, bare: string) {
    exists a, b | a in rows && b in rows :: BareId(a.ruleId) == bare == BareId(b.ruleId) && a.flags != b.flags
  }

  /** The bare ids of the rows, each where it first appears. */
  function FirstIds(rows: seq<Row>): (ids: seq<string>)
    ensures forall row | row in rows :: BareId(row.ruleId) in ids
    ensures forall id | id in ids :: exists row | row in rows :: BareId(row.ruleId) == id
  {
    if rows == [] then []
    else
      var n := |rows| - 1;
      var before, id := FirstIds(rows[..n]), BareId(rows[n].ruleId);
      assert forall row | row in rows :: row in rows[..n] || row == rows[n];
      assert forall row | row in rows[..n] :: row in rows;
      if id in before then before else before + [id]
  }

  /** What merging promises: it fails exactly when some id is in conflict and then names exactly those;
      otherwise there is one configuration per bare id, in order of first appearance, with the flags of
      every row of that id. */
  ghost predicate IsMerge(rows: seq<Row>, r: Result) {
    match r
    case Conflicting(ids) => ids != {} && forall bare :: bare in ids <==> IsConflict(rows, bare)
    case Merged(configs) =>
      && (forall bare :: !IsConflict(rows, bare))
      && |configs| == |FirstIds(rows)|
      && (forall i | 0 <= i < |configs| :: configs[i].ruleId == FirstIds(rows)[i])
      && (forall c, row | c in configs && row in rows && BareId(row.ruleId) == c.ruleId :: c.flags == row.flags)
  }

  /** The state of the loop: every row so far is in the table or in conflict. */
  ghost predicate Scanned(rows: seq<Row>, byId: map<string, Flags>, conflicts: set<string>) {
    && (forall bare | bare in conflicts :: IsConflict(rows, bare) && bare !in byId)
    && (forall row | row in rows ::
          BareId(row.ruleId) in conflicts || (BareId(row.ruleId) in byId && byId[BareId(row.ruleId)] == row.flags))
    && (forall bare | bare in byId :: exists row | row in rows :: BareId(row.ruleId) == bare && byId[bare] == row.flags)
  }

  lemma {:induction false} ConflictGrows(rows: seq<Row>, i: nat, bare: string)
    requires i < |rows| && IsConflict(rows[..i], bare)
    ensures IsConflict(rows[..i + 1], bare)
  {
  }

  lemma {:induction false} ScanStep(rows: seq<Row>, i: nat, byId: map<string, Flags>, conflicts: set<string>)
    requires i < |rows| && Scanned(rows[..i], byId, conflicts)
    ensures var bare, flags := BareId(rows[i].ruleId), rows[i].flags;
            && (bare in conflicts ==> Scanned(rows[..i + 1], byId, conflicts))
            && (bare !in conflicts && bare in byId && byId[bare] != flags ==>
                  Scanned(rows[..i + 1], byId - {bare}, conflicts + {bare}))
            && (bare !in conflicts && !(bare in byId && byId[bare] != flags) ==>
                  Scanned(rows[..i + 1], byId[bare := flags], conflicts))
  {
    hide BareId, IsConflict;
    var bare := BareId(rows[i].ruleId);
    assert rows[..i + 1] == rows[..i] + [rows[i]];
    assert rows[i] in rows[..i + 1];
    forall id | id in conflicts ensures IsConflict(rows[..i + 1], id) {
      ConflictGrows(rows, i, id);
    }
    if bare in byId && byId[bare] != rows[i].flags {
      var row :| row in rows[..i] && BareId(row.ruleId) == bare && byId[bare] == row.flags;
      assert IsConflict(rows[..i + 1], bare) by { ConflictOf(rows[..i + 1], row, rows[i]); }
    }
  }

  lemma ConflictOf(rows: seq<Row>, a: Row, b: Row)
    requires a in rows && b in rows && BareId(a.ruleId) == BareId(b.ruleId) && a.flags != b.flags
    ensures IsConflict(rows, BareId(a.ruleId))
  {
  }

  /** The keys of the table in the order they were put in; while there is no conflict, that of first
      appearance. */
  ghost predicate Ordered(rows: seq<Row>, order: seq<string>, byId: map<string, Flags>, conflicts: set<string>) {
    (forall k :: k in order <==> k in byId) && (conflicts == {} ==> order == FirstIds(rows))
  }

  function Without(order: seq<string>, id: string): (r: seq<string>)
    ensures forall k :: k in r <==> k in order && k != id
  {
    if order == [] then []
    else if order[0] == id then Without(order[1..], id)
    else [order[0]] + Without(order[1..], id)
  }

  lemma {:induction false} OrderStep(rows: seq<Row>, i: nat, order: seq<string>, byId: map<string, Flags>, conflicts: set<string>)
    requires i < |rows| && Ordered(rows[..i], order, byId, conflicts)
    ensures var bare, flags := BareId(rows[i].ruleId), rows[i].flags;
            && (bare in conflicts ==> Ordered(rows[..i + 1], order, byId, conflicts))
            && Ordered(rows[..i + 1], Without(order, bare), byId - {bare}, conflicts + {bare})
            && Ordered(rows[..i + 1], if bare in byId then order else order + [bare], byId[bare := flags], conflicts)
  {
    hide BareId;
    assert rows[..i + 1][..i] == rows[..i];
  }

  /** After the loop the conflicts are all conflicts. */
  lemma {:induction false} ScanEnds(rows: seq<Row>, byId: map<string, Flags>, conflicts: set<string>)
    requires Scanned(rows, byId, conflicts)
    ensures forall bare :: bare in conflicts <==> IsConflict(rows, bare)
  {
    hide BareId;
  }

  /** The configurations listed from the table. */
  lemma {:induction false} MergedIs(rows: seq<Row>, order: seq<string>, byId: map<string, Flags>, configs: seq<RuleConfig>)
    requires Scanned(rows, byId, {}) && Ordered(rows, order, byId, {}) && |configs| == |order|
    requires forall i | 0 <= i < |order| :: order[i] in byId && configs[i] == RuleConfig(order[i], byId[order[i]])
    ensures IsMerge(rows, Merged(configs))
  {
    hide BareId, IsConflict;
    ScanEnds(rows, byId, {});
  }

  method MergeRuleConfigs(rows: seq<Row>) returns (r: Result)
    ensures IsMerge(rows, r)
  {
    hide BareId, Scanned, IsConflict, FirstIds;
    var conflicts: set<string>, byId: map<string, Flags>, order: seq<string> := {}, map[], [];
    assert Scanned(rows[..0], byId, conflicts) && Ordered(rows[..0], order, byId, conflicts) by { NothingScanned(rows[..0]); }
    for i := 0 to |rows|
      invariant Scanned(rows[..i], byId, conflicts)
      invariant Ordered(rows[..i], order, byId, conflicts)
    {
      hide Ordered;
      ScanStep(rows, i, byId, conflicts);
      OrderStep(rows, i, order, byId, conflicts);
      var bare, flags := BareId(rows[i].ruleId), rows[i].flags;
      if bare in conflicts {
        continue;
      }
      if bare in byId {
        if byId[bare] != flags {
          conflicts := conflicts + {bare};
          byId, order := byId - {bare}, Without(order, bare);
          continue;
        }
      }
      order := if bare in byId then order else order + [bare];
      byId := byId[bare := flags];
    }
    assert rows[..|rows|] == rows;
    ScanEnds(rows, byId, conflicts);
    if conflicts != {} {
      return Conflicting(conflicts);
    }
    var configs := seq(|order|, i requires 0 <= i < |order| && order[i] in byId => RuleConfig(order[i], byId[order[i]]));
    MergedIs(rows, order, byId, configs);
    return Merged(configs);
  }

  lemma NothingScanned(rows: seq<Row>)
    requires rows == []
    ensures Scanned(rows, map[], {}) && Ordered(rows, [], map[], {})
  {
  }

  lemma {:induction false} FailsOnConflict(rows: seq<Row>, r: Result)
    requires IsMerge(rows, r)
    ensures r.Conflicting? <==> exists bare :: IsConflict(rows, bare)
  {
  }

  lemma {:induction false} SameRows(rows: seq<Row>, rows': seq<Row>)
    requires multiset(rows) == multiset(rows')
    ensures forall row :: row in rows <==> row in rows'
    ensures forall bare :: IsConflict(rows, bare) <==> IsConflict(rows', bare)
  {
    hide BareId;
    assert forall row :: row in rows <==> row in multiset(rows);
    assert forall row :: row in rows' <==> row in multiset(rows');
  }

  lemma {:induction false} FirstIdsDistinct(rows: seq<Row>)
    ensures Distinct(FirstIds(rows))
  {
    if rows != [] { FirstIdsDistinct(rows[..|rows| - 1]); }
  }

  lemma {:induction false} IdHasRow(rows: seq<Row>, i: nat) returns (k: nat)
    requires i < |FirstIds(rows)|
    ensures k < |rows| && BareId(rows[k].ruleId) == FirstIds(rows)[i]
  {
    hide BareId;
    assert FirstIds(rows)[i] in FirstIds(rows);
    var row :| row in rows && BareId(row.ruleId) == FirstIds(rows)[i];
    k :| 0 <= k < |rows| && rows[k] == row;
  }

  lemma {:induction false} FirstIdsNext(rows: seq<Row>, row: Row)
    ensures var before, id := FirstIds(rows), BareId(row.ruleId);
            FirstIds(rows + [row]) == if id in before then before else before + [id]
    ensures forall l | 0 <= l < |rows| :: BareId(rows[l].ruleId) in FirstIds(rows)
  {
    hide BareId;
    assert (rows + [row])[..|rows|] == rows;
    assert forall l | 0 <= l < |rows| :: rows[l] in rows;
  }

  /** The ids stand in the order of first appearance: every row of a later id has a row of each earlier id
      before it. */
  lemma {:induction false} FirstIdsInOrder(rows: seq<Row>, i: nat, j: nat, l: nat)
    requires i < j < |FirstIds(rows)| && l < |rows| && BareId(rows[l].ruleId) == FirstIds(rows)[j]
    ensures exists k | 0 <= k < l :: BareId(rows[k].ruleId) == FirstIds(rows)[i]
  {
    hide BareId, FirstIds;
    var n := |rows| - 1;
    var start := rows[..n];
    assert rows == start + [rows[n]];
    FirstIdsNext(start, rows[n]);
    if l < n {
      assert BareId(start[l].ruleId) in FirstIds(start);
      FirstIdsInOrder(start, i, j, l);
      var k :| 0 <= k < l && BareId(start[k].ruleId) == FirstIds(start)[i];
      assert BareId(rows[k].ruleId) == FirstIds(rows)[i];
    } else {
      var k := IdHasRow(start, i);
      assert BareId(rows[k].ruleId) == FirstIds(rows)[i];
    }
  }

  /** Every configuration of one merge is in the other. */
  lemma {:induction false} SameConfigs(rows: seq<Row>, rows': seq<Row>, a: seq<RuleConfig>, b: seq<RuleConfig>, c: RuleConfig)
    requires (forall row :: row in rows <==> row in rows') && IsMerge(rows, Merged(a)) && IsMerge(rows', Merged(b)) && c in a
    ensures c in b
  {
    hide BareId, IsConflict;
    var i :| 0 <= i < |a| && a[i] == c;
    assert c.ruleId in FirstIds(rows);
    var row :| row in rows && BareId(row.ruleId) == c.ruleId;
    var j :| 0 <= j < |b| && FirstIds(rows')[j] == BareId(row.ruleId);
    assert b[j] in b && b[j].flags == row.flags == c.flags;
  }

  /** The result depends on which rows there are, not on their order: the same ids are in conflict, or
      there are the same configurations, one per id. */
  lemma {:induction false} MergeIgnoresOrder(rows: seq<Row>, rows': seq<Row>, r: Result, r': Result)
    requires multiset(rows) == multiset(rows') && IsMerge(rows, r) && IsMerge(rows', r')
    ensures r.Conflicting? <==> r'.Conflicting?
    ensures r.Conflicting? ==> r == r'
    ensures r.Merged? ==> forall c :: c in r.configs <==> c in r'.configs
    ensures r.Merged? ==> forall i, j | 0 <= i < j < |r.configs| :: r.configs[i].ruleId != r.configs[j].ruleId
  {
    SameRows(rows, rows');
    FailsOnConflict(rows, r);
    FailsOnConflict(rows', r');
    FirstIdsDistinct(rows);
    hide BareId, IsConflict, FirstIds;
    if r.Conflicting? {
      assert r.ids == r'.ids;
    } else {
      forall c ensures c in r.configs <==> c in r'.configs {
        if c in r.configs { SameConfigs(rows, rows', r.configs, r'.configs, c); }
        if c in r'.configs { SameConfigs(rows', rows, r'.configs, r.configs, c); }
      }
    }
  }
}
