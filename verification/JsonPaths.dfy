// The limits of the bounded parser, told by the paths of a value: how many there are, how long they are, and
// what is at their ends.
module JsonPaths {
  import opened CodeUnits
  import opened JsonValues

  // ---- The paths of a value ----

  datatype PathStep = Item(i: nat) | Member(key: Text)

  // Where the values are that a value is made of, itself first.
  ghost predicate HasPath(v: Json, path: seq<PathStep>)
    decreases |path|
  {
    path == [] ||
    match path[0]
    case Item(i) => v.Arr? && i < |v.items| && HasPath(v.items[i], path[1..])
    case Member(key) => v.Obj? && key in v.members && HasPath(v.members[key], path[1..])
  }

  ghost function At(v: Json, path: seq<PathStep>): Json
    requires HasPath(v, path)
    decreases |path|
  {
    if path == [] then v else
    match path[0]
    case Item(i) => At(v.items[i], path[1..])
    case Member(key) => At(v.members[key], path[1..])
  }

  predicate IsSmall(v: Json, maximum: int) { (v.Arr? ==> |v.items| <= maximum) && (v.Obj? ==> |v.members| <= maximum) }

  // A value is within the limits exactly when no path in it is too long and no value on a path too large.
  lemma {:induction false} BoundedExactly(v: Json, depth: nat, limits: Limits)
    ensures Bounded(v, depth, limits) <==>
      forall path | HasPath(v, path) :: depth + |path| <= limits.maximumDepth && IsSmall(At(v, path), limits.maximumCollectionEntries)
    decreases v
  {
    if forall path | HasPath(v, path) :: depth + |path| <= limits.maximumDepth && IsSmall(At(v, path), limits.maximumCollectionEntries) {
      assert HasPath(v, []);
      forall i | v.Arr? && 0 <= i < |v.items| ensures Bounded(v.items[i], depth + 1, limits) {
        forall path | HasPath(v.items[i], path)
          ensures depth + 1 + |path| <= limits.maximumDepth && IsSmall(At(v.items[i], path), limits.maximumCollectionEntries)
        {
          Longer(v, Item(i), path);
        }
        BoundedExactly(v.items[i], depth + 1, limits);
      }
      forall k | v.Obj? && k in v.members ensures Bounded(v.members[k], depth + 1, limits) {
        forall path | HasPath(v.members[k], path)
          ensures depth + 1 + |path| <= limits.maximumDepth && IsSmall(At(v.members[k], path), limits.maximumCollectionEntries)
        {
          Longer(v, Member(k), path);
        }
        BoundedExactly(v.members[k], depth + 1, limits);
      }
    }
    if Bounded(v, depth, limits) {
      forall path | HasPath(v, path)
        ensures depth + |path| <= limits.maximumDepth && IsSmall(At(v, path), limits.maximumCollectionEntries)
      {
        if path != [] {
          match path[0] {
            case Item(i) =>
              BoundedExactly(v.items[i], depth + 1, limits);
              assert HasPath(v.items[i], path[1..]) && At(v, path) == At(v.items[i], path[1..]);
            case Member(k) =>
              BoundedExactly(v.members[k], depth + 1, limits);
              assert HasPath(v.members[k], path[1..]) && At(v, path) == At(v.members[k], path[1..]);
          }
        }
      }
    }
  }

  lemma {:induction false} Longer(v: Json, step: PathStep, path: seq<PathStep>)
    requires match step {
      case Item(i) => v.Arr? && i < |v.items| && HasPath(v.items[i], path)
      case Member(key) => v.Obj? && key in v.members && HasPath(v.members[key], path)
    }
    ensures HasPath(v, [step] + path)
    ensures At(v, [step] + path) == At(if step.Item? then v.items[step.i] else v.members[step.key], path)
  {
    assert ([step] + path)[1..] == path;
  }

  // All the paths.
  ghost function Paths(v: Json): set<seq<PathStep>>
    decreases v, 1
  {
    {[]} + match v
    case Arr(items) => PathsOfItems(v, |items|)
    case Obj(m) => PathsOfKeys(v, m.Keys)
    case _ => {}
  }

  ghost function PathsOfItems(v: Json, k: nat): set<seq<PathStep>>
    requires v.Arr? && k <= |v.items|
    decreases v, 0, k
  {
    if k == 0 then {} else PathsOfItems(v, k - 1) + Prefixed(Item(k - 1), Paths(v.items[k - 1]))
  }

  ghost function PathsOfKeys(v: Json, keys: set<Text>): set<seq<PathStep>>
    requires v.Obj? && keys <= v.members.Keys
    decreases v, 0, |keys|
  {
    if keys == {} then {} else var k :| k in keys; Prefixed(Member(k), Paths(v.members[k])) + PathsOfKeys(v, keys - {k})
  }

  ghost function Prefixed(step: PathStep, paths: set<seq<PathStep>>): set<seq<PathStep>> { set path | path in paths :: [step] + path }

  lemma {:induction false} PrefixedCount(step: PathStep, paths: set<seq<PathStep>>)
    ensures |Prefixed(step, paths)| == |paths|
    decreases |paths|
  {
    if paths != {} {
      var path :| path in paths;
      PrefixedCount(step, paths - {path});
      assert Prefixed(step, paths) == Prefixed(step, paths - {path}) + {[step] + path};
      forall other | other in paths && [step] + other == [step] + path ensures other == path {
        assert other == ([step] + other)[1..] == ([step] + path)[1..] == path;
      }
    }
  }

  lemma {:induction false} PrefixedHas(step: PathStep, paths: set<seq<PathStep>>, path: seq<PathStep>)
    ensures path in Prefixed(step, paths) <==> path != [] && path[0] == step && path[1..] in paths
  {
    if path in Prefixed(step, paths) {
      var rest :| rest in paths && path == [step] + rest;
      assert path[1..] == rest;
    }
    if path != [] && path[0] == step && path[1..] in paths { assert path == [step] + path[1..]; }
  }

  ghost predicate CountsPaths(v: Json) { |Paths(v)| == Nodes(v) && forall path: seq<PathStep> :: path in Paths(v) <==> HasPath(v, path) }

  ghost predicate InItems(v: Json, k: nat, path: seq<PathStep>)
    requires v.Arr? && k <= |v.items|
  {
    path != [] && path[0].Item? && path[0].i < k && HasPath(v.items[path[0].i], path[1..])
  }

  ghost predicate InMembers(v: Json, keys: set<Text>, path: seq<PathStep>)
    requires v.Obj? && keys <= v.members.Keys
  {
    path != [] && path[0].Member? && path[0].key in keys && HasPath(v.members[path[0].key], path[1..])
  }

  lemma {:induction false} LastItem(v: Json, k: nat, path: seq<PathStep>)
    requires v.Arr? && 0 < k <= |v.items| && CountsPaths(v.items[k - 1])
    ensures path in Prefixed(Item(k - 1), Paths(v.items[k - 1])) <==> InItems(v, k, path) && !InItems(v, k - 1, path)
    ensures InItems(v, k - 1, path) ==> InItems(v, k, path)
  {
    PrefixedHas(Item(k - 1), Paths(v.items[k - 1]), path);
  }

  ghost predicate CountsItems(v: Json, k: nat)
    requires v.Arr? && k <= |v.items|
  {
    |PathsOfItems(v, k)| == NodesOfItems(v, k) && forall path: seq<PathStep> :: path in PathsOfItems(v, k) <==> InItems(v, k, path)
  }

  lemma {:induction false} OneMoreItem(v: Json, k: nat)
    requires v.Arr? && 0 < k <= |v.items| && CountsPaths(v.items[k - 1]) && CountsItems(v, k - 1)
    ensures CountsItems(v, k)
  {
    var before, last := PathsOfItems(v, k - 1), Prefixed(Item(k - 1), Paths(v.items[k - 1]));
    PrefixedCount(Item(k - 1), Paths(v.items[k - 1]));
    forall path: seq<PathStep> ensures path in before + last <==> InItems(v, k, path) { LastItem(v, k, path); }
    forall path | path in last ensures path !in before { LastItem(v, k, path); }
    assert before !! last;
  }

  lemma {:induction false} OneMember(v: Json, keys: set<Text>, k: Text, path: seq<PathStep>)
    requires v.Obj? && keys <= v.members.Keys && k in keys && CountsPaths(v.members[k])
    ensures path in Prefixed(Member(k), Paths(v.members[k])) <==> InMembers(v, keys, path) && !InMembers(v, keys - {k}, path)
    ensures InMembers(v, keys - {k}, path) ==> InMembers(v, keys, path)
  {
    PrefixedHas(Member(k), Paths(v.members[k]), path);
  }

  ghost predicate CountsKeys(v: Json, keys: set<Text>)
    requires v.Obj? && keys <= v.members.Keys
  {
    |PathsOfKeys(v, keys)| == NodesOfKeys(v, keys) && forall path: seq<PathStep> :: path in PathsOfKeys(v, keys) <==> InMembers(v, keys, path)
  }

  lemma {:induction false} OneMoreKey(v: Json, keys: set<Text>, k: Text)
    requires v.Obj? && keys <= v.members.Keys && k in keys && CountsPaths(v.members[k]) && CountsKeys(v, keys - {k})
    requires PathsOfKeys(v, keys) == Prefixed(Member(k), Paths(v.members[k])) + PathsOfKeys(v, keys - {k})
    ensures CountsKeys(v, keys)
  {
    var first, others := Prefixed(Member(k), Paths(v.members[k])), PathsOfKeys(v, keys - {k});
    NodesSplit(v, keys, k);
    PrefixedCount(Member(k), Paths(v.members[k]));
    forall path: seq<PathStep> ensures path in first + others <==> InMembers(v, keys, path) { OneMember(v, keys, k, path); }
    forall path | path in first ensures path !in others { OneMember(v, keys, k, path); }
    assert first !! others;
  }

  lemma {:induction false} HasPathIs(v: Json, path: seq<PathStep>)
    ensures HasPath(v, path) <==>
      path == [] || (v.Arr? && InItems(v, |v.items|, path)) || (v.Obj? && InMembers(v, v.members.Keys, path))
  {
  }

  lemma {:induction false} RootCounts(v: Json, rest: set<seq<PathStep>>)
    requires Paths(v) == {[]} + rest && [] !in rest && Nodes(v) == 1 + |rest|
    requires forall path: seq<PathStep> :: path in rest <==> path != [] && HasPath(v, path)
    ensures CountsPaths(v)
  {
  }

  lemma {:induction false} ArrayCounts(v: Json)
    requires v.Arr? && CountsItems(v, |v.items|)
    ensures CountsPaths(v)
  {
    forall path: seq<PathStep> ensures HasPath(v, path) <==> path == [] || InItems(v, |v.items|, path) { HasPathIs(v, path); }
    RootCounts(v, PathsOfItems(v, |v.items|));
  }

  lemma {:induction false} ObjectCounts(v: Json)
    requires v.Obj? && CountsKeys(v, v.members.Keys)
    ensures CountsPaths(v)
  {
    forall path: seq<PathStep> ensures HasPath(v, path) <==> path == [] || InMembers(v, v.members.Keys, path) { HasPathIs(v, path); }
    RootCounts(v, PathsOfKeys(v, v.members.Keys));
  }

  lemma {:induction false} LeafCounts(v: Json)
    requires !v.Arr? && !v.Obj?
    ensures CountsPaths(v)
  {
    forall path: seq<PathStep> ensures HasPath(v, path) <==> path == [] { HasPathIs(v, path); }
    RootCounts(v, {});
  }

  lemma {:induction false} ItemPaths(v: Json, k: nat)
    requires v.Arr? && k <= |v.items|
    ensures CountsItems(v, k)
    decreases v, 0, k
  {
    if k > 0 {
      ItemPaths(v, k - 1);
      NodesExactly(v.items[k - 1]);
      OneMoreItem(v, k);
    }
  }

  lemma {:induction false} KeyPaths(v: Json, keys: set<Text>)
    requires v.Obj? && keys <= v.members.Keys
    ensures CountsKeys(v, keys)
    decreases v, 0, |keys|
  {
    if keys != {} {
      var k :| k in keys && PathsOfKeys(v, keys) == Prefixed(Member(k), Paths(v.members[k])) + PathsOfKeys(v, keys - {k});
      KeyPaths(v, keys - {k});
      NodesExactly(v.members[k]);
      OneMoreKey(v, keys, k);
    }
  }

  // The node count is the number of paths.
  lemma {:induction false} NodesExactly(v: Json)
    ensures CountsPaths(v)
    decreases v, 1
  {
    match v {
      case Arr(items) =>
        ItemPaths(v, |items|);
        ArrayCounts(v);
      case Obj(m) =>
        KeyPaths(v, m.Keys);
        ObjectCounts(v);
      case _ => LeafCounts(v);
    }
  }
}
