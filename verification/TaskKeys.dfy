/** Reordering the keys of tasks and plays, over arbitrarily nested mappings and sequences. */
module TaskKeys {
  import opened Text

  /** The known task keywords, in the order they are written. */
  function KeyOrder(): seq<string> { ControlKeys() + MetaKeys() + BodyKeys() }

  function ControlKeys(): seq<string> {
    ["name", "when", "changed_when", "failed_when", "loop", "loop_control", "with_items", "with_dict",
     "with_fileglob", "with_subelements", "with_sequence", "with_nested", "with_first_found"]
  }

  function MetaKeys(): seq<string> {
    ["register", "notify", "listen", "become", "become_user", "become_method", "delegate_to", "run_once",
     "ignore_errors", "ignore_unreachable", "no_log", "tags", "environment", "vars", "args"]
  }

  /** The keys that hold the body of a block task. */
  function BodyKeys(): seq<string> { ["block", "rescue", "always"] }

  /** The keys under which tasks are nested. */
  function NestedKeys(): seq<string> {
    ["tasks", "pre_tasks", "post_tasks", "handlers", "block", "rescue", "always", "roles"]
  }

  // ---------- sequences of distinct keys ----------

  /** The members of `s` that lie in `wanted` and not in `taken`, in order. */
  function Pick(s: seq<string>, wanted: seq<string>, taken: seq<string>): seq<string> {
    if s == [] then []
    else
      var rest := Pick(s[..|s| - 1], wanted, taken);
      var k := s[|s| - 1];
      if k in wanted && k !in taken then rest + [k] else rest
  }

  lemma {:induction false} PickIs(s: seq<string>, wanted: seq<string>, taken: seq<string>)
    ensures forall k :: k in Pick(s, wanted, taken) <==> k in s && k in wanted && k !in taken
    ensures Distinct(s) ==> Distinct(Pick(s, wanted, taken))
  {
    if s != [] { PickIs(s[..|s| - 1], wanted, taken); }
  }

  lemma {:induction false} PickAppend(a: seq<string>, b: seq<string>, wanted: seq<string>, taken: seq<string>)
    ensures Pick(a + b, wanted, taken) == Pick(a, wanted, taken) + Pick(b, wanted, taken)
  {
    if b == [] {
      assert a + b == a;
    } else {
      PickAppend(a, b[..|b| - 1], wanted, taken);
      assert (a + b)[..|a + b| - 1] == a + b[..|b| - 1];
    }
  }

  lemma {:induction false} PickNone(s: seq<string>, wanted: seq<string>, taken: seq<string>)
    requires forall k | k in s :: k in taken
    ensures Pick(s, wanted, taken) == []
  {
    if s != [] { PickNone(s[..|s| - 1], wanted, taken); }
  }

  lemma {:induction false} PickAll(s: seq<string>, wanted: seq<string>, taken: seq<string>)
    requires forall k | k in s :: k in wanted && k !in taken
    ensures Pick(s, wanted, taken) == s
  {
    if s != [] { PickAll(s[..|s| - 1], wanted, taken); }
  }

  /** Picking depends on what is wanted and taken only as sets. */
  lemma {:induction false} PickSame(s: seq<string>, wanted: seq<string>, wanted': seq<string>, taken: seq<string>)
    requires forall k :: k in wanted <==> k in wanted'
    ensures Pick(s, wanted, taken) == Pick(s, wanted', taken)
  {
    if s != [] { PickSame(s[..|s| - 1], wanted, wanted', taken); }
  }

  // ---------- one mapping ----------

  /** The first key that is not a known task keyword: the module a task runs. */
  function ActionKey(keys: seq<string>): (action: seq<string>)
    ensures action == [] <==> forall k | k in keys :: k in KeyOrder()
    ensures action != [] ==> |action| == 1 && action[0] in keys && action[0] !in KeyOrder()
  {
    if keys == [] then []
    else if keys[0] !in KeyOrder() then [keys[0]]
    else ActionKey(keys[1..])
  }

  /** The action key goes second; an empty key counts as none. */
  function Action(keys: seq<string>): seq<string> {
    if ActionKey(keys) == [""] then [] else ActionKey(keys)
  }

  function Body(keys: seq<string>): seq<string> {
    if "block" in keys then BodyKeys() else []
  }

  /** The keywords present, in order, then the block body. */
  function Keywords(keys: seq<string>): seq<string> {
    Pick(KeyOrder(), keys, ["name"] + Body(keys)) + Pick(Body(keys), keys, [])
  }

  /** The keys that get a fixed place: name, action and keywords. */
  function Placed(keys: seq<string>): seq<string> {
    ["name"] + (Action(keys) + Keywords(keys))
  }

  function Leftover(keys: seq<string>): seq<string> {
    Pick(keys, keys, Placed(keys))
  }

  /** The mapping has a name and something to put after it. */
  predicate IsNamed(keys: seq<string>) {
    |keys| > 1 && "name" in keys
  }

  /** The order the formatter gives the keys of a mapping. */
  function Desired(keys: seq<string>): seq<string> {
    if IsNamed(keys) then ["name"] + (Action(keys) + (Keywords(keys) + Leftover(keys))) else keys
  }

  lemma DistinctAppend(a: seq<string>, b: seq<string>)
    requires Distinct(a) && Distinct(b) && forall k | k in a :: k !in b
    ensures Distinct(a + b)
  {
    var s := a + b;
    forall i, j | 0 <= i < j < |s| ensures s[i] != s[j] {
      if i < |a| <= j { assert s[i] in a && s[j] in b; }
    }
  }

  lemma ControlKeysDistinct() ensures Distinct(ControlKeys()) && "name" in ControlKeys() {
    assert ControlKeys()[0] == "name";
  }

  lemma MetaKeysDistinct() ensures Distinct(MetaKeys()) {}

  lemma BodyKeysDistinct() ensures Distinct(BodyKeys()) && "name" !in BodyKeys() {}

  lemma ControlNotMeta() ensures forall k | k in ControlKeys() :: k !in MetaKeys() {}

  lemma BodyNotOthers() ensures forall k | k in BodyKeys() :: k !in ControlKeys() + MetaKeys() {}

  lemma {:induction false} TableIsDistinct()
    ensures Distinct(KeyOrder()) && Distinct(BodyKeys())
    ensures "name" in KeyOrder() && forall k | k in BodyKeys() :: k in KeyOrder() && k != "name"
  {
    hide ControlKeys, MetaKeys, BodyKeys;
    ControlKeysDistinct();
    MetaKeysDistinct();
    BodyKeysDistinct();
    ControlNotMeta();
    BodyNotOthers();
    DistinctAppend(ControlKeys(), MetaKeys());
    DistinctAppend(ControlKeys() + MetaKeys(), BodyKeys());
  }

  lemma {:induction false} KeywordsAre(keys: seq<string>)
    ensures Distinct(Keywords(keys))
    ensures forall k :: k in Keywords(keys) <==> k in keys && k in KeyOrder() && k != "name"
  {
    hide KeyOrder, BodyKeys, Pick;
    TableIsDistinct();
    PickIs(KeyOrder(), keys, ["name"] + Body(keys));
    PickIs(Body(keys), keys, []);
    DistinctAppend(Pick(KeyOrder(), keys, ["name"] + Body(keys)), Pick(Body(keys), keys, []));
  }

  lemma {:induction false} ActionIs(keys: seq<string>)
    ensures Distinct(Action(keys)) && forall k | k in Action(keys) :: k in keys && k !in KeyOrder()
  {
  }

  lemma {:induction false} LeftoverIs(keys: seq<string>)
    requires Distinct(keys)
    ensures Distinct(Leftover(keys))
    ensures forall k :: k in Leftover(keys) <==> k in keys && k != "name" && k !in Action(keys) && k !in Keywords(keys)
  {
    hide KeyOrder, Keywords, Pick, Action, Distinct;
    PickIs(keys, keys, Placed(keys));
  }

  /** No key is lost, none is added and none occurs twice; `name` leads where there is a choice. */
  lemma {:induction false} DesiredIsReordering(keys: seq<string>)
    requires Distinct(keys)
    ensures Distinct(Desired(keys))
    ensures forall k :: k in Desired(keys) <==> k in keys
    ensures "name" in keys ==> Desired(keys)[0] == "name"
    ensures |keys| <= 1 || "name" !in keys ==> Desired(keys) == keys
  {
    hide KeyOrder, Keywords, Action, Leftover;
    if IsNamed(keys) {
      NameIsKeyword();
      KeywordsAre(keys);
      ActionIs(keys);
      LeftoverIs(keys);
      DistinctAppend(Keywords(keys), Leftover(keys));
      DistinctAppend(Action(keys), Keywords(keys) + Leftover(keys));
      DistinctAppend(["name"], Action(keys) + (Keywords(keys) + Leftover(keys)));
    }
  }

  lemma NameIsKeyword()
    ensures "name" in KeyOrder()
  {
  }

  lemma {:induction false} ActionOfPlaced(s: seq<string>, rest: seq<string>)
    requires forall k | k in s :: k in KeyOrder()
    ensures ActionKey(s + rest) == ActionKey(rest)
  {
    hide KeyOrder;
    if s == [] {
      assert s + rest == rest;
    } else {
      assert (s + rest)[1..] == s[1..] + rest;
      ActionOfPlaced(s[1..], rest);
    }
  }

  /** The first unknown key of what is left over is the first unknown key of the mapping. */
  lemma {:induction false} ActionOfRest(keys: seq<string>, wanted: seq<string>, taken: seq<string>)
    requires forall k | k in keys :: k in wanted
    requires ActionKey(keys) != [] && ActionKey(keys)[0] !in taken
    ensures ActionKey(Pick(keys, wanted, taken)) == ActionKey(keys)
  {
    hide KeyOrder;
    var head, tail := keys[..1], keys[1..];
    assert keys == head + tail;
    PickAppend(head, tail, wanted, taken);
    assert head[..0] == [];
    if keys[0] in KeyOrder() {
      ActionOfRest(tail, wanted, taken);
      ActionOfPlaced(Pick(head, wanted, taken), Pick(tail, wanted, taken));
    } else {
      assert Pick(head, wanted, taken) == [keys[0]];
    }
  }

  lemma ActionFirst(action: string, rest: seq<string>)
    requires action !in KeyOrder()
    ensures ActionKey([action] + rest) == [action]
  {
  }

  lemma {:induction false} LeftoverAction(keys: seq<string>)
    requires Action(keys) == [] && "name" in keys
    ensures ActionKey(Leftover(keys)) == ActionKey(keys)
  {
    hide KeyOrder, Keywords, Pick, ActionKey, Distinct;
    NameIsKeyword();
    KeywordsAre(keys);
    PickIs(keys, keys, Placed(keys));
    if ActionKey(keys) != [] {
      ActionOfRest(keys, keys, Placed(keys));
    }
  }

  lemma {:induction false} ActionIsStable(keys: seq<string>)
    requires IsNamed(keys)
    ensures ActionKey(Desired(keys)) == ActionKey(keys)
  {
    hide KeyOrder, Keywords, Leftover, ActionKey, Distinct;
    NameIsKeyword();
    KeywordsAre(keys);
    var rest := Keywords(keys) + Leftover(keys);
    ActionOfPlaced(["name"], Action(keys) + rest);
    if Action(keys) == [] {
      assert [] + rest == rest;
      ActionOfPlaced(Keywords(keys), Leftover(keys));
      LeftoverAction(keys);
    } else {
      assert Action(keys) == [Action(keys)[0]];
      ActionFirst(Action(keys)[0], rest);
    }
  }

  lemma {:induction false} KeywordsSame(keys: seq<string>, keys': seq<string>)
    requires forall k :: k in keys <==> k in keys'
    ensures Keywords(keys) == Keywords(keys')
  {
    PickSame(KeyOrder(), keys, keys', ["name"] + Body(keys));
    PickSame(Body(keys), keys, keys', []);
  }

  /** What is left over once `placed` is taken out of the reordered keys is left over before. */
  lemma {:induction false} LeftoverAgain(keys: seq<string>, wanted: seq<string>)
    requires Distinct(keys) && IsNamed(keys) && forall k | k in keys :: k in wanted
    ensures Pick(Desired(keys), wanted, Placed(keys)) == Leftover(keys)
  {
    hide KeyOrder, Keywords, Pick, Action, Distinct;
    var placed := Placed(keys);
    var tail := Keywords(keys) + Leftover(keys);
    PickAppend(["name"], Action(keys) + tail, wanted, placed);
    PickAppend(Action(keys), tail, wanted, placed);
    PickAppend(Keywords(keys), Leftover(keys), wanted, placed);
    PickNone(["name"], wanted, placed);
    PickNone(Action(keys), wanted, placed);
    PickNone(Keywords(keys), wanted, placed);
    PickIs(keys, keys, placed);
    PickAll(Leftover(keys), wanted, placed);
  }

  /** Ordering the keys of an ordered mapping changes nothing. */
  lemma {:induction false} DesiredTwice(keys: seq<string>)
    requires Distinct(keys)
    ensures Desired(Desired(keys)) == Desired(keys)
  {
    hide KeyOrder, Keywords, Pick, ActionKey, Distinct;
    if IsNamed(keys) {
      DesiredIsReordering(keys);
      ActionIsStable(keys);
      KeywordsSame(keys, Desired(keys));
      LeftoverAgain(keys, Desired(keys));
    }
  }

  // ---------- where every key stands ----------

  /** Picked keys stand in the order they had. */
  lemma {:induction false} PickOrder(s: seq<string>, wanted: seq<string>, taken: seq<string>, i: nat, j: nat, a: nat, b: nat)
    requires Distinct(s) && i < j < |Pick(s, wanted, taken)| && a < |s| && b < |s|
    requires Pick(s, wanted, taken)[i] == s[a] && Pick(s, wanted, taken)[j] == s[b]
    ensures a < b
  {
    var n := |s| - 1;
    PickIs(s[..n], wanted, taken);
    assert s[n] !in s[..n] && s[n] !in Pick(s[..n], wanted, taken);
    if a < n && b < n && j < |Pick(s[..n], wanted, taken)| {
      PickOrder(s[..n], wanted, taken, i, j, a, b);
    }
  }

  /** A block task's body goes behind its keywords, where the table has it anyway. */
  lemma {:induction false} KeywordsFollowTable(keys: seq<string>)
    ensures Keywords(keys) == Pick(KeyOrder(), keys, ["name"])
  {
    hide ControlKeys, MetaKeys, BodyKeys, Pick;
    var front := ControlKeys() + MetaKeys();
    BodyNotOthers();
    BodyKeysDistinct();
    PickAppend(front, BodyKeys(), keys, ["name"]);
    PickAppend(front, BodyKeys(), keys, ["name"] + Body(keys));
    PickSameTaken(front, keys, ["name"], ["name"] + Body(keys));
    PickSameTaken(BodyKeys(), keys, ["name"], []);
    if "block" in keys {
      PickNone(BodyKeys(), keys, ["name"] + Body(keys));
    } else {
      assert ["name"] + Body(keys) == ["name"];
      PickNothing(keys);
    }
  }

  lemma PickNothing(keys: seq<string>)
    ensures Pick([], keys, []) == []
  {
  }

  lemma {:induction false} PickSameTaken(s: seq<string>, wanted: seq<string>, taken: seq<string>, taken': seq<string>)
    requires forall k | k in s :: k in taken <==> k in taken'
    ensures Pick(s, wanted, taken) == Pick(s, wanted, taken')
  {
    if s != [] { PickSameTaken(s[..|s| - 1], wanted, taken, taken'); }
  }

  /** Position `u` holds the first key outside the table of keywords. */
  ghost predicate IsFirstUnknown(keys: seq<string>, u: nat) {
    u < |keys| && keys[u] !in KeyOrder() && forall k | 0 <= k < u :: keys[k] in KeyOrder()
  }

  lemma {:induction false} ActionIsFirstUnknown(keys: seq<string>, u: nat)
    requires IsFirstUnknown(keys, u)
    ensures ActionKey(keys) == [keys[u]]
  {
    hide KeyOrder;
    if u > 0 { ActionIsFirstUnknown(keys[1..], u - 1); }
  }

  /** No unknown key stands before the action key. */
  lemma {:induction false} ActionComesFirst(keys: seq<string>, a: nat, b: nat)
    requires Distinct(keys) && a < |keys| && b < |keys| && a != b
    requires ActionKey(keys) == [keys[a]] && keys[b] !in KeyOrder()
    ensures a < b
  {
    hide KeyOrder;
    if b > 0 && a > 0 && keys[0] in KeyOrder() {
      ActionComesFirst(keys[1..], a - 1, b - 1);
    }
  }

  /** The first key outside the table, unless it is empty, stands right behind the name. */
  lemma {:induction false} ActionStandsSecond(keys: seq<string>, u: nat)
    requires |keys| > 1 && "name" in keys && IsFirstUnknown(keys, u) && keys[u] != ""
    ensures |Desired(keys)| > 1 && Desired(keys)[0] == "name" && Desired(keys)[1] == keys[u]
  {
    hide KeyOrder, Keywords, Leftover;
    ActionIsFirstUnknown(keys, u);
  }

  /** Which part of the order a position is in. */
  lemma {:induction false} DesiredParts(keys: seq<string>, i: nat)
    requires IsNamed(keys) && 0 < i < |Desired(keys)|
    ensures var r, n, m := Desired(keys), 1 + |Action(keys)|, 1 + |Action(keys)| + |Keywords(keys)|;
            && (i < n ==> i == 1 && Action(keys) == [r[i]])
            && (n <= i < m ==> r[i] == Keywords(keys)[i - n])
            && (m <= i ==> i - m < |Leftover(keys)| && r[i] == Leftover(keys)[i - m])
  {
    hide KeyOrder, Keywords, Leftover, ActionKey;
  }

  lemma {:induction false} DesiredSegment(keys: seq<string>, i: nat)
    requires Distinct(keys) && IsNamed(keys) && 0 < i < |Desired(keys)|
    ensures var r, n, m := Desired(keys), 1 + |Action(keys)|, 1 + |Action(keys)| + |Keywords(keys)|;
            && r[i] != "name" && (r[i] in KeyOrder() <==> n <= i < m)
            && (i < n ==> i == 1 && Action(keys) == [r[i]])
            && (n <= i < m ==> r[i] == Keywords(keys)[i - n])
            && (m <= i ==> i - m < |Leftover(keys)| && r[i] == Leftover(keys)[i - m])
  {
    NameIsKeyword();
    hide KeyOrder, Keywords, Leftover, Action, Distinct, Desired;
    var r, n, m := Desired(keys), 1 + |Action(keys)|, 1 + |Action(keys)| + |Keywords(keys)|;
    DesiredParts(keys, i);
    KeywordsAre(keys);
    ActionIs(keys);
    LeftoverIs(keys);
    DesiredIsReordering(keys);
    assert r[i] in keys;
    if m <= i { assert r[i] in Leftover(keys); }
    else if n <= i { assert r[i] in Keywords(keys); }
    else { assert r[i] in Action(keys); }
  }

  lemma NameIsFirst(a: nat)
    requires a < |KeyOrder()| && KeyOrder()[a] == "name"
    ensures a == 0
  {
    hide KeyOrder;
    TableIsDistinct();
    TableStartsWithName();
  }

  lemma {:induction false} KeywordOrder(keys: seq<string>, i: nat, j: nat, a: nat, b: nat)
    requires Distinct(keys) && IsNamed(keys) && i < j < |Desired(keys)| && a < |KeyOrder()| && b < |KeyOrder()|
    requires Desired(keys)[i] == KeyOrder()[a] && Desired(keys)[j] == KeyOrder()[b]
    ensures a < b
  {
    hide KeyOrder, Keywords, Leftover, Action, Pick, Distinct, Desired;
    var n := 1 + |Action(keys)|;
    DesiredSegment(keys, j);
    DesiredIsReordering(keys);
    TableStartsWithName();
    if i == 0 {
      NameIsFirst(a);
    } else {
      DesiredSegment(keys, i);
      TableIsDistinct();
      KeywordsFollowTable(keys);
      PickOrder(KeyOrder(), keys, ["name"], i - n, j - n, a, b);
    }
  }

  lemma {:induction false} UnknownOrder(keys: seq<string>, i: nat, j: nat, a: nat, b: nat)
    requires Distinct(keys) && IsNamed(keys) && i < j < |Desired(keys)| && a < |keys| && b < |keys|
    requires Desired(keys)[i] == keys[a] && Desired(keys)[j] == keys[b] && keys[a] !in KeyOrder() && keys[b] !in KeyOrder()
    ensures a < b
  {
    NameIsKeyword();
    hide KeyOrder, Keywords, Leftover, ActionKey, Pick, Distinct, Desired;
    var m := 1 + |Action(keys)| + |Keywords(keys)|;
    DesiredIsReordering(keys);
    DesiredSegment(keys, i);
    DesiredSegment(keys, j);
    if i < m {
      DifferentKeys(Desired(keys), i, j);
      ActionComesFirst(keys, a, b);
    } else {
      LeftoverOrder(keys, i - m, j - m, a, b);
    }
  }

  lemma DifferentKeys(s: seq<string>, i: nat, j: nat)
    requires Distinct(s) && i < j < |s|
    ensures s[i] != s[j]
  {
  }

  lemma {:induction false} LeftoverOrder(keys: seq<string>, i: nat, j: nat, a: nat, b: nat)
    requires Distinct(keys) && i < j < |Leftover(keys)| && a < |keys| && b < |keys|
    requires Leftover(keys)[i] == keys[a] && Leftover(keys)[j] == keys[b]
    ensures a < b
  {
    hide Placed, Pick;
    PickOrder(keys, keys, Placed(keys), i, j, a, b);
  }

  /** Keywords stand in the order of the table. Every other key stands behind them, except one right
      behind the name. Keys outside the table keep their order. */
  lemma {:induction false} DesiredOrder(keys: seq<string>, i: nat, j: nat, a: nat, b: nat)
    requires Distinct(keys) && |keys| > 1 && "name" in keys && i < j < |Desired(keys)|
    ensures var r, table := Desired(keys), KeyOrder();
            && (a < |table| && b < |table| && r[i] == table[a] && r[j] == table[b] ==> a < b)
            && (r[i] !in table && r[j] in table ==> i == 1)
            && (r[i] !in table && r[j] !in table && a < |keys| && b < |keys| && r[i] == keys[a] && r[j] == keys[b] ==> a < b)
  {
    NameIsKeyword();
    hide KeyOrder, Keywords, Leftover, Action, Distinct, Desired;
    var r, table := Desired(keys), KeyOrder();
    if a < |table| && b < |table| && r[i] == table[a] && r[j] == table[b] { KeywordOrder(keys, i, j, a, b); }
    if r[i] !in table && r[j] !in table && a < |keys| && b < |keys| && r[i] == keys[a] && r[j] == keys[b] {
      UnknownOrder(keys, i, j, a, b);
    }
    DesiredIsReordering(keys);
    if i > 0 { DesiredSegment(keys, i); }
    DesiredSegment(keys, j);
  }

  lemma TableStartsWithName()
    ensures KeyOrder()[0] == "name"
  {
  }

  /** The table, written out. */
  lemma KeyTable()
    ensures KeyOrder() ==
            ["name", "when", "changed_when", "failed_when", "loop", "loop_control", "with_items", "with_dict",
             "with_fileglob", "with_subelements", "with_sequence", "with_nested", "with_first_found",
             "register", "notify", "listen", "become", "become_user", "become_method", "delegate_to", "run_once",
             "ignore_errors", "ignore_unreachable", "no_log", "tags", "environment", "vars", "args",
             "block", "rescue", "always"]
  {
  }
}
