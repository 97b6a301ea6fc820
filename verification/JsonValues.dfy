// JSON values.  Members are a map, so equality of values is equality up to member order.
module JsonValues {
  import opened CodeUnits
  import G = JsonGrammar

  datatype Numeric = Finite(x: real) | NonFinite

  datatype Json =
    | Null
    | Bool(b: bool)
    | Num(n: Numeric)
    | Str(s: Text)
    | Arr(items: seq<Json>)
    | Obj(members: map<Text, Json>)

  // The engine's number conversions: what a number token denotes, how a finite double is written,
  // and which reals are doubles.
  datatype Numerics = Numerics(read: Text -> Numeric, write: real -> Text, isDouble: real -> bool)

  function Meaning(t: G.Tree, num: Numerics): Json
    requires G.WellFormed(t)
  {
    match t
    case TNull => Null
    case TTrue => Bool(true)
    case TFalse => Bool(false)
    case TNumber(n) => Num(num.read(n.Render()))
    case TString(ps) => Str(G.Decode(ps))
    case TEmptyArray(_) => Arr([])
    case TArray(_, es) => Arr(MeaningOfElements(es, num))
    case TEmptyObject(_) => Obj(map[])
    case TObject(_, ms) => Obj(MeaningOfMembers(ms, num))
  }

  function MeaningOfElements(es: G.Elements, num: Numerics): seq<Json>
    requires G.WellFormedElements(es)
  {
    [Meaning(es.value, num)] + if es.LastElement? then [] else MeaningOfElements(es.rest, num)
  }

  // A later member replaces an earlier one with the same key.
  function MeaningOfMembers(ms: G.Members, num: Numerics): map<Text, Json>
    requires G.WellFormedMembers(ms)
  {
    map[G.Decode(ms.key) := Meaning(ms.value, num)] + if ms.LastMember? then map[] else MeaningOfMembers(ms.rest, num)
  }

  // ---- Size, depth and finiteness ----

  datatype Limits = Limits(maximumCollectionEntries: int, maximumDepth: int, maximumNodes: int)

  ghost predicate AllFinite(v: Json) {
    match v
    case Num(n) => n.Finite?
    case Arr(items) => forall i | 0 <= i < |items| :: AllFinite(items[i])
    case Obj(m) => forall k | k in m :: AllFinite(m[k])
    case _ => true
  }

  // With v at the given depth, no node is too deep and no collection too large.
  ghost predicate Bounded(v: Json, depth: nat, limits: Limits) {
    && depth <= limits.maximumDepth
    && match v
       case Arr(items) =>
         |items| <= limits.maximumCollectionEntries && forall i | 0 <= i < |items| :: Bounded(items[i], depth + 1, limits)
       case Obj(m) =>
         |m| <= limits.maximumCollectionEntries && forall k | k in m :: Bounded(m[k], depth + 1, limits)
       case _ => true
  }

  ghost function Nodes(v: Json): nat
    decreases v, 1
  {
    match v
    case Arr(items) => 1 + NodesOfItems(v, |items|)
    case Obj(m) => 1 + NodesOfKeys(v, m.Keys)
    case _ => 1
  }

  ghost function NodesOfItems(v: Json, k: nat): nat
    requires v.Arr? && k <= |v.items|
    decreases v, 0, k
  {
    if k == 0 then 0 else NodesOfItems(v, k - 1) + Nodes(v.items[k - 1])
  }

  ghost function NodesOfKeys(v: Json, keys: set<Text>): nat
    requires v.Obj? && keys <= v.members.Keys
    decreases v, 0, |keys|
  {
    if keys == {} then 0 else var k :| k in keys; Nodes(v.members[k]) + NodesOfKeys(v, keys - {k})
  }

  lemma {:induction false} NodesOfItemsMonotone(v: Json, j: nat, k: nat)
    requires v.Arr? && j <= k <= |v.items|
    ensures NodesOfItems(v, j) <= NodesOfItems(v, k)
    decreases k
  {
    if j < k { NodesOfItemsMonotone(v, j, k - 1); }
  }

  // The count does not depend on the order in which the members are taken.
  lemma {:induction false} NodesSplit(v: Json, keys: set<Text>, k: Text)
    requires v.Obj? && keys <= v.members.Keys && k in keys
    ensures NodesOfKeys(v, keys) == Nodes(v.members[k]) + NodesOfKeys(v, keys - {k})
    decreases |keys|
  {
    var c :| c in keys && NodesOfKeys(v, keys) == Nodes(v.members[c]) + NodesOfKeys(v, keys - {c});
    if c != k {
      NodesSplit(v, keys - {c}, k);
      NodesSplit(v, keys - {k}, c);
      assert keys - {c} - {k} == keys - {k} - {c};
    }
  }

  lemma {:induction false} NodesOfKeysMonotone(v: Json, some: set<Text>, all: set<Text>)
    requires v.Obj? && some <= all <= v.members.Keys
    ensures NodesOfKeys(v, some) <= NodesOfKeys(v, all)
    decreases |all - some|
  {
    if !(all <= some) {
      var k :| k in all && k !in some;
      NodesSplit(v, some + {k}, k);
      assert some + {k} - {k} == some;
      assert all - (some + {k}) < all - some;
      NodesOfKeysMonotone(v, some + {k}, all);
    } else {
      assert some == all;
    }
  }
}
