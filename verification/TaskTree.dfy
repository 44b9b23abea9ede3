/** The reorderer over whole documents: nested sequences and mappings of tasks and plays. */
module TaskTree {
  import opened Text
  import opened TaskKeys

  datatype Node = Scalar(text: string) | Sequence(items: seq<Node>) | Mapping(entries: seq<Entry>)

  datatype Entry = Entry(key: string, value: Node)

  function Keys(entries: seq<Entry>): (keys: seq<string>)
    ensures |keys| == |entries| && forall i | 0 <= i < |keys| :: keys[i] == entries[i].key
  {
    seq(|entries|, i requires 0 <= i < |entries| => entries[i].key)
  }

  /** The entry of a key. */
  function Find(entries: seq<Entry>, key: string): (entry: Entry)
    requires key in Keys(entries)
    ensures entry in entries && entry.key == key
  {
    if entries[0].key == key then entries[0]
    else
      assert Keys(entries)[1..] == Keys(entries[1..]);
      Find(entries[1..], key)
  }

  lemma {:induction false} FindIs(entries: seq<Entry>, i: nat)
    requires i < |entries| && Distinct(Keys(entries))
    ensures entries[i].key in Keys(entries) && Find(entries, entries[i].key) == entries[i]
  {
  }

  /** The entries of a mapping in the order the formatter gives their keys. */
  function Reordered(entries: seq<Entry>): (r: seq<Entry>)
    requires Distinct(Keys(entries))
    ensures Keys(r) == Desired(Keys(entries))
    ensures forall i | 0 <= i < |r| :: r[i].key in Keys(entries) && r[i] == Find(entries, r[i].key)
  {
    DesiredIsReordering(Keys(entries));
    var desired := Desired(Keys(entries));
    var r := seq(|desired|, i requires 0 <= i < |desired| =>
      assert desired[i] in desired; Find(entries, desired[i]));
    assert Keys(r) == desired;
    r
  }

  // ---------- the loops of one mapping ----------

  lemma {:induction false} PickNext(s: seq<string>, i: nat, wanted: seq<string>, taken: seq<string>)
    requires i < |s|
    ensures Pick(s[..i + 1], wanted, taken) ==
            if s[i] in wanted && s[i] !in taken then Pick(s[..i], wanted, taken) + [s[i]] else Pick(s[..i], wanted, taken)
  {
    assert s[..i + 1][..i] == s[..i];
  }

  /** The first key that is not a known keyword, if there is one. */
  method FindActionKey(keys: seq<string>) returns (action: seq<string>)
    ensures action == ActionKey(keys)
  {
    hide KeyOrder;
    for i := 0 to |keys|
      invariant ActionKey(keys) == ActionKey(keys[i..])
    {
      if keys[i] !in KeyOrder() {
        return [keys[i]];
      }
    }
    return [];
  }

  /** The keywords present in their fixed order, without the body of a block task. */
  method AppendKeywords(desired: seq<string>, keys: seq<string>) returns (r: seq<string>)
    ensures r == desired + Pick(KeyOrder(), keys, ["name"] + Body(keys))
  {
    hide KeyOrder, BodyKeys, Pick;
    var order, body := KeyOrder(), BodyKeys();
    var isBlockTask := "block" in keys;
    ghost var taken := ["name"] + Body(keys);
    r := desired;
    PickNone(order[..0], keys, taken);
    for i := 0 to |order|
      invariant r == desired + Pick(order[..i], keys, taken)
    {
      PickNext(order, i, keys, taken);
      if order[i] in keys && order[i] != "name" {
        if isBlockTask && order[i] in body {
          continue;
        }
        r := r + [order[i]];
      }
    }
    assert order[..|order|] == order;
  }

  /** The body of a block task goes after its keywords. */
  method AppendBody(desired: seq<string>, keys: seq<string>) returns (r: seq<string>)
    ensures r == desired + Pick(Body(keys), keys, [])
  {
    hide BodyKeys, Pick;
    r := desired;
    var body := Body(keys);
    PickNone(body[..0], keys, []);
    for i := 0 to |body|
      invariant r == desired + Pick(body[..i], keys, [])
    {
      PickNext(body, i, keys, []);
      if body[i] in keys {
        r := r + [body[i]];
      }
    }
    assert body[..|body|] == body;
  }

  /** Every key not placed yet keeps its order behind the others. */
  method AppendLeftover(placed: seq<string>, keys: seq<string>) returns (desired: seq<string>)
    requires Distinct(keys)
    ensures desired == placed + Pick(keys, keys, placed)
  {
    hide Pick;
    desired := placed;
    PickNone(keys[..0], keys, placed);
    for i := 0 to |keys|
      invariant desired == placed + Pick(keys[..i], keys, placed)
    {
      PickNext(keys, i, keys, placed);
      PickIs(keys[..i], keys, placed);
      if keys[i] !in desired {
        desired := desired + [keys[i]];
      }
    }
    assert keys[..|keys|] == keys;
  }

  /** The loops that build the desired key list compute it. */
  method DesiredKeys(keys: seq<string>) returns (desired: seq<string>)
    requires Distinct(keys)
    ensures desired == Desired(keys)
  {
    hide KeyOrder, BodyKeys, ActionKey, Pick, Distinct, Body;
    if |keys| <= 1 || "name" !in keys {
      return keys;
    }
    var actionKey := FindActionKey(keys);
    desired := ["name"];
    if actionKey != [] && actionKey[0] != "" {
      desired := desired + actionKey;
    }
    assert desired == ["name"] + Action(keys);
    desired := AppendKeywords(desired, keys);
    desired := AppendBody(desired, keys);
    assert desired == Placed(keys);
    desired := AppendLeftover(desired, keys);
    assert desired == ["name"] + (Action(keys) + (Keywords(keys) + Leftover(keys)));
  }

  /** A mapping whose entries the formatter clears and refills in place. */
  class CommentedMap {
    var entries: seq<Entry>

    constructor (entries: seq<Entry>)
      ensures this.entries == entries
    {
      this.entries := entries;
    }

    /** The entries end up in the desired order, each with the value it had. */
    method ReorderSingleTask()
      requires Distinct(Keys(entries))
      modifies this
      ensures entries == Reordered(old(entries))
      ensures forall k | k in Keys(old(entries)) :: k in Keys(entries) && Find(entries, k) == Find(old(entries), k)
    {
      hide Desired, Keys, Reordered, Distinct;
      var before := entries;
      var keys := Keys(before);
      var desired := DesiredKeys(keys);
      ReorderedFinds(before);
      ReorderedItems(before);
      if desired == keys {
        return;
      }
      var items: seq<Entry> := [];
      for i := 0 to |desired|
        invariant items == Reordered(before)[..i]
      {
        items := items + [Find(before, desired[i])];
      }
      entries := [];
      for i := 0 to |items|
        invariant entries == items[..i]
      {
        entries := entries + [items[i]];
      }
    }
  }

  /** The items read off for the desired keys; they are the old entries when the keys are in order. */
  lemma {:induction false} ReorderedItems(entries: seq<Entry>)
    requires Distinct(Keys(entries))
    ensures Desired(Keys(entries)) == Keys(entries) ==> Reordered(entries) == entries
  {
  }

  /** Every key finds the same value in the reordered entries. */
  lemma {:induction false} ReorderedFinds(entries: seq<Entry>)
    requires Distinct(Keys(entries))
    ensures Distinct(Keys(Reordered(entries)))
    ensures forall k | k in Keys(entries) :: k in Keys(Reordered(entries)) && Find(Reordered(entries), k) == Find(entries, k)
  {
    hide Desired;
    DesiredIsReordering(Keys(entries));
    var r := Reordered(entries);
    forall k | k in Keys(entries) ensures k in Keys(r) && Find(r, k) == Find(entries, k) {
      assert k in Keys(r);
      var found := Find(r, k);
      var j :| 0 <= j < |r| && r[j] == found;
    }
  }

  // ---------- whole documents ----------

  /** Mappings have distinct keys at every level, as YAML mappings loaded into dictionaries do. */
  ghost predicate WellFormed(n: Node) {
    match n
    case Scalar(_) => true
    case Sequence(items) => forall i | 0 <= i < |items| :: WellFormed(items[i])
    case Mapping(entries) =>
      Distinct(Keys(entries)) && forall i | 0 <= i < |entries| :: WellFormed(entries[i].value)
  }

  /** The values below the nested task keys are reordered before the mapping itself. */
  function WithNested(entries: seq<Entry>, f: Node --> Node): (r: seq<Entry>)
    requires forall i | 0 <= i < |entries| :: f.requires(entries[i].value)
    ensures |r| == |entries| && Keys(r) == Keys(entries)
    ensures forall i | 0 <= i < |r| ::
              r[i].value == if entries[i].key in NestedKeys() then f(entries[i].value) else entries[i].value
  {
    seq(|entries|, i requires 0 <= i < |entries| =>
      if entries[i].key in NestedKeys() then Entry(entries[i].key, f(entries[i].value)) else entries[i])
  }

  ghost function ReorderAll(n: Node): Node
    requires WellFormed(n)
    decreases n, 1
  {
    match n
    case Scalar(_) => n
    case Sequence(items) => Sequence(seq(|items|, i requires 0 <= i < |items| => ReorderAll(items[i])))
    case Mapping(entries) =>
      Mapping(Reordered(Nested(n)))
  }

  /** The entries of a mapping once the documents below its nested task keys are reordered. */
  ghost function Nested(n: Node): (r: seq<Entry>)
    requires WellFormed(n) && n.Mapping?
    ensures |r| == |n.entries| && Keys(r) == Keys(n.entries)
    decreases n, 0
  {
    WithNested(n.entries, v requires WellFormed(v) && v < n => ReorderAll(v))
  }

  /** What a document means: mappings without their key order. */
  datatype Value = Text(text: string) | List(items: seq<Value>) | Dict(entries: map<string, Value>)

  ghost function Meaning(n: Node): Value {
    match n
    case Scalar(text) => Text(text)
    case Sequence(items) => List(seq(|items|, i requires 0 <= i < |items| => Meaning(items[i])))
    case Mapping(entries) => Dict(DictOf(entries))
  }

  ghost function DictOf(entries: seq<Entry>): map<string, Value> {
    if entries == [] then map[]
    else DictOf(entries[..|entries| - 1])[entries[|entries| - 1].key := Meaning(entries[|entries| - 1].value)]
  }

  lemma {:induction false} DictIs(entries: seq<Entry>)
    requires Distinct(Keys(entries))
    ensures forall k :: k in DictOf(entries) <==> k in Keys(entries)
    ensures forall i | 0 <= i < |entries| ::
              entries[i].key in DictOf(entries) && DictOf(entries)[entries[i].key] == Meaning(entries[i].value)
  {
    if entries != [] {
      var n := |entries| - 1;
      var front := entries[..n];
      assert Keys(entries) == Keys(front) + [entries[n].key];
      assert Distinct(Keys(front)) by {
        forall i, j | 0 <= i < j < n ensures Keys(front)[i] != Keys(front)[j] {
          assert Keys(entries)[i] != Keys(entries)[j];
        }
      }
      DictIs(front);
      forall i | 0 <= i < n ensures entries[i].key != entries[n].key {
        assert Keys(entries)[i] != Keys(entries)[n];
      }
    }
  }

  /** Equal keys and equal meanings behind each key make equal dictionaries, in any order. */
  lemma {:induction false} DictSame(a: seq<Entry>, b: seq<Entry>)
    requires Distinct(Keys(a)) && Distinct(Keys(b))
    requires forall k :: k in Keys(a) <==> k in Keys(b)
    requires forall i, j | 0 <= i < |a| && 0 <= j < |b| && a[i].key == b[j].key :: Meaning(a[i].value) == Meaning(b[j].value)
    ensures DictOf(a) == DictOf(b)
  {
    DictIs(a);
    DictIs(b);
    forall k | k in DictOf(a) ensures k in DictOf(b) && DictOf(a)[k] == DictOf(b)[k] {
      var i :| 0 <= i < |Keys(a)| && Keys(a)[i] == k;
      var j :| 0 <= j < |Keys(b)| && Keys(b)[j] == k;
      assert a[i].key == b[j].key == k;
    }
  }

  lemma {:induction false} DictOfReordered(entries: seq<Entry>)
    requires Distinct(Keys(entries))
    ensures DictOf(Reordered(entries)) == DictOf(entries)
  {
    hide Desired;
    var r := Reordered(entries);
    DesiredIsReordering(Keys(entries));
    forall i, j | 0 <= i < |r| && 0 <= j < |entries| && r[i].key == entries[j].key
      ensures Meaning(r[i].value) == Meaning(entries[j].value)
    {
      FindIs(entries, j);
    }
    DictSame(r, entries);
  }

  /** A mapping reordered after the documents below it: only their meaning matters. */
  lemma {:induction false} MappingKeepsMeaning(entries: seq<Entry>, nested: seq<Entry>)
    requires |nested| == |entries| && Keys(nested) == Keys(entries) && Distinct(Keys(entries))
    requires forall i | 0 <= i < |entries| :: WellFormed(nested[i].value) && Meaning(nested[i].value) == Meaning(entries[i].value)
    ensures WellFormed(Mapping(Reordered(nested))) && DictOf(Reordered(nested)) == DictOf(entries)
  {
    hide Desired, Meaning;
    forall i, j | 0 <= i < |nested| && 0 <= j < |entries| && nested[i].key == entries[j].key
      ensures Meaning(nested[i].value) == Meaning(entries[j].value)
    {
      assert Keys(nested)[i] == Keys(entries)[i] && Keys(entries)[i] == Keys(entries)[j];
    }
    DictSame(nested, entries);
    DictOfReordered(nested);
    DesiredIsReordering(Keys(nested));
  }

  /** Reordering keeps a document well formed and what it means, at every level. */
  lemma {:induction false} ReorderKeepsMeaning(n: Node)
    requires WellFormed(n)
    ensures WellFormed(ReorderAll(n))
    ensures Meaning(ReorderAll(n)) == Meaning(n)
  {
    hide Desired;
    match n
    case Scalar(_) =>
    case Sequence(items) =>
      forall i | 0 <= i < |items| ensures WellFormed(ReorderAll(items[i])) && Meaning(ReorderAll(items[i])) == Meaning(items[i]) {
        ReorderKeepsMeaning(items[i]);
      }
      var r := ReorderAll(n).items;
      assert Meaning(ReorderAll(n)).items == Meaning(n).items;
    case Mapping(entries) =>
      var nested := Nested(n);
      forall i | 0 <= i < |entries|
        ensures WellFormed(nested[i].value) && Meaning(nested[i].value) == Meaning(entries[i].value)
      {
        ReorderKeepsMeaning(entries[i].value);
      }
      MappingKeepsMeaning(entries, nested);
  }

  lemma {:induction false} ReorderedTwice(entries: seq<Entry>)
    requires Distinct(Keys(entries))
    ensures Distinct(Keys(Reordered(entries))) && Reordered(Reordered(entries)) == Reordered(entries)
  {
    hide Desired;
    DesiredIsReordering(Keys(entries));
    DesiredTwice(Keys(entries));
    ReorderedItems(Reordered(entries));
  }

  /** Reordering a reordered document changes nothing. */
  lemma {:induction false} ReorderTwice(n: Node)
    requires WellFormed(n)
    ensures WellFormed(ReorderAll(n)) && ReorderAll(ReorderAll(n)) == ReorderAll(n)
  {
    hide Desired, Meaning;
    ReorderKeepsMeaning(n);
    match n
    case Scalar(_) =>
    case Sequence(items) =>
      forall i | 0 <= i < |items| ensures WellFormed(ReorderAll(items[i])) && ReorderAll(ReorderAll(items[i])) == ReorderAll(items[i]) {
        ReorderTwice(items[i]);
      }
      assert ReorderAll(ReorderAll(n)).items == ReorderAll(n).items;
    case Mapping(entries) =>
      var once := ReorderAll(n);
      forall i | 0 <= i < |once.entries| ensures Nested(once)[i] == once.entries[i] {
        var e := once.entries[i];
        var j :| 0 <= j < |entries| && Nested(n)[j] == e;
        assert Keys(Nested(n))[j] == Keys(entries)[j];
        assert Keys(Nested(once))[i] == e.key;
        ReorderTwice(entries[j].value);
      }
      assert Nested(once) == once.entries;
      ReorderedTwice(Nested(n));
  }

  /** Every mapping the reorderer reaches that has a `name` starts with it. */
  ghost predicate NamesFirst(n: Node) {
    match n
    case Scalar(_) => true
    case Sequence(items) => forall i | 0 <= i < |items| :: NamesFirst(items[i])
    case Mapping(entries) =>
      && ("name" in Keys(entries) ==> entries[0].key == "name")
      && forall i | 0 <= i < |entries| && entries[i].key in NestedKeys() :: NamesFirst(entries[i].value)
  }

  lemma {:induction false} ReorderPutsNamesFirst(n: Node)
    requires WellFormed(n)
    ensures NamesFirst(ReorderAll(n))
  {
    hide Desired, NestedKeys;
    match n
    case Scalar(_) =>
    case Sequence(items) =>
      forall i | 0 <= i < |items| ensures NamesFirst(ReorderAll(items[i])) {
        ReorderPutsNamesFirst(items[i]);
      }
    case Mapping(entries) =>
      var r := ReorderAll(n).entries;
      DesiredIsReordering(Keys(entries));
      forall i | 0 <= i < |r| && r[i].key in NestedKeys() ensures NamesFirst(r[i].value) {
        var j :| 0 <= j < |entries| && Nested(n)[j] == r[i];
        assert Keys(Nested(n))[j] == Keys(entries)[j];
        ReorderPutsNamesFirst(entries[j].value);
      }
      assert Keys(r) == Desired(Keys(entries));
  }

  lemma NestedKeysAre(key: string)
    ensures key in NestedKeys() <==>
            key in {"tasks", "pre_tasks", "post_tasks", "handlers", "block", "rescue", "always", "roles"}
  {
  }

  /** Below these keys, and only there, the documents of a mapping are reordered. */
  lemma {:induction false} ReorderReaches(n: Node, key: string)
    requires WellFormed(n) && n.Mapping? && key in Keys(n.entries)
    ensures WellFormed(Find(n.entries, key).value)
    ensures ReorderAll(n).Mapping? && key in Keys(ReorderAll(n).entries)
    ensures Find(ReorderAll(n).entries, key).value ==
            if key in {"tasks", "pre_tasks", "post_tasks", "handlers", "block", "rescue", "always", "roles"}
            then ReorderAll(Find(n.entries, key).value)
            else Find(n.entries, key).value
  {
    hide Desired, NestedKeys, Reordered, Distinct;
    NestedKeysAre(key);
    var i :| 0 <= i < |Keys(n.entries)| && Keys(n.entries)[i] == key;
    var nested := Nested(n);
    FindIs(n.entries, i);
    assert Keys(nested)[i] == key;
    FindIs(nested, i);
    ReorderedFinds(nested);
  }
}
