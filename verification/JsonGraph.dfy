// packages/runtime/src/contracts.ts, `decodeJsonValue`: from a graph of JavaScript objects, which
// may share nodes and may be cyclic, to a JSON value.
module JsonGraph {
  import opened Options
  import opened CodeUnits
  import opened JsonValues
  import C = CanonicalJson

  // VOther stands for undefined, functions, symbols and bigints.
  datatype JsValue = VNull | VBool(b: bool) | VString(s: Text) | VNumber(n: Numeric) | VOther | VObject(ref: nat)

  // NotData: a hole, an accessor or a property that is not enumerable.
  datatype Slot = Data(value: JsValue) | NotData

  datatype Node =
    | ArrayNode(strayKeys: bool, slots: seq<Slot>)
    | ObjectNode(plainPrototype: bool, symbolKeys: bool, properties: map<Text, Slot>)

  type Heap = map<nat, Node>

  ghost predicate HasSlot(node: Node, s: Slot) {
    match node
    case ArrayNode(_, slots) => s in slots
    case ObjectNode(_, _, properties) => exists k :: k in properties && properties[k] == s
  }

  predicate Known(h: Heap, v: JsValue) { v.VObject? ==> v.ref in h }

  // Every reference leads to an object.
  ghost predicate Closed(h: Heap) {
    forall r, s | r in h && HasSlot(h[r], s) && s.Data? :: Known(h, s.value)
  }

  predicate AcceptableNumber(n: Numeric) { n.Finite? && C.IsSafe(n.x) }

  ghost predicate WellShaped(node: Node) {
    match node
    case ArrayNode(stray, slots) => !stray && forall s | s in slots :: s.Data?
    case ObjectNode(plain, symbols, properties) => plain && !symbols && forall k | k in properties :: properties[k].Data?
  }

  // The decoded value, or None for the exception; ancestors are the objects being decoded.
  ghost function Decoded(h: Heap, v: JsValue, ancestors: set<nat>): Option<Json>
    requires Closed(h) && Known(h, v)
    decreases h.Keys - ancestors
  {
    match v
    case VNull => Some(Null)
    case VBool(b) => Some(Bool(b))
    case VString(s) => Some(Str(s))
    case VNumber(n) => if AcceptableNumber(n) then Some(Num(n)) else None
    case VOther => None
    case VObject(r) =>
      if r in ancestors || !WellShaped(h[r]) then None else
      var inner := ancestors + {r};
      match h[r]
      case ArrayNode(_, slots) =>
        if forall i | 0 <= i < |slots| :: DecodedSlot(h, r, slots[i], ancestors).Some?
        then Some(Arr(seq(|slots|, i requires 0 <= i < |slots| && DecodedSlot(h, r, slots[i], ancestors).Some? =>
          DecodedSlot(h, r, slots[i], ancestors).value)))
        else None
      case ObjectNode(_, _, properties) =>
        if forall k | k in properties :: DecodedSlot(h, r, properties[k], ancestors).Some?
        then Some(Obj(map k | k in properties :: DecodedSlot(h, r, properties[k], ancestors).value))
        else None
  }

  ghost function DecodedSlot(h: Heap, r: nat, s: Slot, ancestors: set<nat>): Option<Json>
    requires Closed(h) && r in h && r !in ancestors && HasSlot(h[r], s) && s.Data?
    decreases h.Keys - ancestors, 0
  {
    Decoded(h, s.value, ancestors + {r})
  }

  ghost predicate DecodedMembers(h: Heap, r: nat, ancestors: set<nat>, members: map<Text, Json>)
    requires Closed(h) && r in h && h[r].ObjectNode? && r !in ancestors
    requires members.Keys <= h[r].properties.Keys
  {
    forall k | k in members :: DecodesTo(h, r, k, ancestors, members[k])
  }

  ghost predicate DecodesTo(h: Heap, r: nat, k: Text, ancestors: set<nat>, member: Json)
    requires Closed(h) && r in h && h[r].ObjectNode? && r !in ancestors && k in h[r].properties
  {
    h[r].properties[k].Data? && DecodedSlot(h, r, h[r].properties[k], ancestors) == Some(member)
  }

  lemma {:induction false} ObjectDecodes(h: Heap, r: nat, ancestors: set<nat>, members: map<Text, Json>)
    requires Closed(h) && r in h && h[r].ObjectNode? && r !in ancestors && h[r].plainPrototype && !h[r].symbolKeys
    requires members.Keys == h[r].properties.Keys && DecodedMembers(h, r, ancestors, members)
    ensures Decoded(h, VObject(r), ancestors) == Some(Obj(members))
  {
    assert forall k | k in h[r].properties :: DecodesTo(h, r, k, ancestors, members[k]);
    assert Decoded(h, VObject(r), ancestors).value.members == members;
  }

  lemma {:induction false} ObjectIsBlocked(h: Heap, r: nat, ancestors: set<nat>, k: Text)
    requires Closed(h) && r in h && h[r].ObjectNode? && r !in ancestors && k in h[r].properties
    requires h[r].properties[k].NotData? || DecodedSlot(h, r, h[r].properties[k], ancestors).None?
    ensures Decoded(h, VObject(r), ancestors).None?
  {
  }

  class GraphDecoder {
    const heap: Heap
    var ancestors: set<nat>

    constructor (heap: Heap)
      ensures this.heap == heap && ancestors == {}
    {
      this.heap := heap;
      ancestors := {};
    }

    // The set of ancestors is the same after every call, whether it returns or throws.
    method Decode(value: JsValue) returns (r: Option<Json>)
      requires Closed(heap) && Known(heap, value)
      modifies this`ancestors
      ensures r == Decoded(heap, value, old(ancestors)) && ancestors == old(ancestors)
      decreases heap.Keys - ancestors, 1
    {
      match value
      case VNull => return Some(Null);
      case VBool(b) => return Some(Bool(b));
      case VString(s) => return Some(Str(s));
      case VNumber(n) => return if AcceptableNumber(n) then Some(Num(n)) else None;
      case VOther => return None;
      case VObject(ref) =>
        if ref in ancestors { return None; }
        ghost var before := ancestors;
        ancestors := ancestors + {ref};
        if heap[ref].ArrayNode? {
          r := DecodeArray(ref, before);
        } else {
          r := DecodeObject(ref, before);
        }
        ancestors := ancestors - {ref};
    }

    method DecodeArray(ref: nat, ghost before: set<nat>) returns (r: Option<Json>)
      requires Closed(heap) && ref in heap && heap[ref].ArrayNode? && ref !in before && ancestors == before + {ref}
      modifies this`ancestors
      ensures r == Decoded(heap, VObject(ref), before) && ancestors == old(ancestors)
      decreases heap.Keys - ancestors, 2
    {
      if heap[ref].strayKeys { return None; }
      var slots := heap[ref].slots;
      var result: seq<Json> := [];
      for index := 0 to |slots|
        invariant ancestors == old(ancestors) && |result| == index
        invariant forall i | 0 <= i < index ::
          slots[i].Data? && DecodedSlot(heap, ref, slots[i], before) == Some(result[i])
      {
        if slots[index].NotData? { return None; }
        assert HasSlot(heap[ref], slots[index]);
        var entry := Decode(slots[index].value);
        if entry.None? {
          assert DecodedSlot(heap, ref, slots[index], before).None?;
          return None;
        }
        result := result + [entry.value];
      }
      ghost var d := Decoded(heap, VObject(ref), before);
      assert d.Some? && d.value.items == result;
      return Some(Arr(result));
    }

    // The properties are taken in any order.
    method DecodeObject(ref: nat, ghost before: set<nat>) returns (r: Option<Json>)
      requires Closed(heap) && ref in heap && heap[ref].ObjectNode? && ref !in before && ancestors == before + {ref}
      modifies this`ancestors
      ensures r == Decoded(heap, VObject(ref), before) && ancestors == old(ancestors)
      decreases heap.Keys - ancestors, 2
    {
      if !heap[ref].plainPrototype || heap[ref].symbolKeys { return None; }
      var properties := heap[ref].properties;
      var result: map<Text, Json> := map[];
      var todo := properties.Keys;
      while todo != {}
        invariant ancestors == old(ancestors) && todo <= properties.Keys && result.Keys == properties.Keys - todo
        invariant DecodedMembers(heap, ref, before, result)
        decreases |todo|
      {
        var key :| key in todo;
        if properties[key].NotData? {
          ObjectIsBlocked(heap, ref, before, key);
          return None;
        }
        assert HasSlot(heap[ref], properties[key]);
        var entry := Decode(properties[key].value);
        if entry.None? {
          ObjectIsBlocked(heap, ref, before, key);
          return None;
        }
        assert DecodesTo(heap, ref, key, before, entry.value);
        result := result[key := entry.value];
        todo := todo - {key};
      }
      ObjectDecodes(heap, ref, before, result);
      return Some(Obj(result));
    }
  }

  // ---- Exactly which graphs decode ----

  // Each object of p has a property or item that is the next one.
  ghost predicate IsPath(h: Heap, p: seq<nat>) {
    && p != [] && (forall i | 0 <= i < |p| :: p[i] in h)
    && forall i | 0 < i < |p| :: HasSlot(h[p[i - 1]], Data(VObject(p[i])))
  }

  // Some object of the path reaches itself.
  ghost predicate Repeats(p: seq<nat>) {
    exists i, j :: 0 <= i < j < |p| && p[i] == p[j]
  }

  predicate AcceptableLeaf(v: JsValue) {
    !v.VOther? && (v.VNumber? ==> AcceptableNumber(v.n))
  }

  // Dense plain data with acceptable leaves.
  ghost predicate Acceptable(node: Node) {
    WellShaped(node) && forall s | HasSlot(node, s) && s.Data? :: AcceptableLeaf(s.value)
  }

  ghost predicate Clear(h: Heap, p: seq<nat>, ancestors: set<nat>)
    requires IsPath(h, p)
  {
    !Repeats(p) && (forall r | r in p :: r !in ancestors) && Acceptable(h[p[|p| - 1]])
  }

  lemma {:induction false} DecodedPathsAreClear(h: Heap, r: nat, ancestors: set<nat>, p: seq<nat>)
    requires Closed(h) && r in h && Decoded(h, VObject(r), ancestors).Some?
    requires IsPath(h, p) && p[0] == r
    ensures Clear(h, p, ancestors)
    decreases |p|
  {
    if |p| == 1 {
      forall s | HasSlot(h[r], s) && s.Data? ensures AcceptableLeaf(s.value) {
        SlotDecodes(h, r, ancestors, s);
      }
    } else {
      var s := Data(VObject(p[1]));
      SlotDecodes(h, r, ancestors, s);
      var q := p[1..];
      assert forall i | 0 < i < |q| :: q[i - 1] == p[i] && q[i] == p[i + 1];
      DecodedPathsAreClear(h, p[1], ancestors + {r}, q);
      forall i, j | 0 <= i < j < |p| ensures p[i] != p[j] {
        assert p[j] == q[j - 1] && q[j - 1] in q;
        assert i > 0 ==> p[i] == q[i - 1];
      }
      forall x | x in p ensures x !in ancestors {
        assert x == r || x in q;
      }
    }
  }

  lemma {:induction false} SlotDecodes(h: Heap, r: nat, ancestors: set<nat>, s: Slot)
    requires Closed(h) && r in h && Decoded(h, VObject(r), ancestors).Some?
    requires HasSlot(h[r], s) && s.Data?
    ensures r !in ancestors && DecodedSlot(h, r, s, ancestors).Some?
  {
    match h[r]
    case ArrayNode(_, slots) =>
      var i :| 0 <= i < |slots| && slots[i] == s;
    case ObjectNode(_, _, properties) =>
      var k :| k in properties && properties[k] == s;
  }

  lemma {:induction false} BlockedPath(h: Heap, r: nat, ancestors: set<nat>) returns (p: seq<nat>)
    requires Closed(h) && r in h && Decoded(h, VObject(r), ancestors).None?
    ensures IsPath(h, p) && p[0] == r && !Clear(h, p, ancestors)
    decreases h.Keys - ancestors
  {
    p := [r];
    if r in ancestors {
      assert r in p;
    } else if Acceptable(h[r]) {
      var s := BlockedSlot(h, r, ancestors);
      var q := BlockedPath(h, s.value.ref, ancestors + {r});
      p := [r] + q;
      LongerIsClear(h, r, q, ancestors);
    }
  }

  lemma {:induction false} LongerIsClear(h: Heap, r: nat, q: seq<nat>, ancestors: set<nat>)
    requires IsPath(h, q) && IsPath(h, [r] + q)
    ensures Clear(h, [r] + q, ancestors) ==> Clear(h, q, ancestors + {r})
  {
    var p := [r] + q;
    RepeatsLonger(r, q);
    assert p[|p| - 1] == q[|q| - 1];
    assert forall x | x in q :: x in p;
  }

  lemma {:induction false} RepeatsLonger(r: nat, q: seq<nat>)
    ensures Repeats(q) || r in q ==> Repeats([r] + q)
  {
    var p := [r] + q;
    if Repeats(q) {
      var i, j :| 0 <= i < j < |q| && q[i] == q[j];
      assert p[i + 1] == p[j + 1];
    } else if r in q {
      var j :| 0 <= j < |q| && q[j] == r;
      assert p[0] == p[j + 1];
    }
  }

  lemma {:induction false} LeafDecodes(h: Heap, v: JsValue, ancestors: set<nat>)
    requires Closed(h) && Known(h, v)
    ensures !v.VObject? && AcceptableLeaf(v) ==> Decoded(h, v, ancestors).Some?
  {
  }

  lemma {:induction false} BlockedSlot(h: Heap, r: nat, ancestors: set<nat>) returns (s: Slot)
    requires Closed(h) && r in h && r !in ancestors && Acceptable(h[r]) && Decoded(h, VObject(r), ancestors).None?
    ensures HasSlot(h[r], s) && s.Data? && s.value.VObject? && Decoded(h, s.value, ancestors + {r}).None?
  {
    match h[r]
    case ArrayNode(_, slots) =>
      var i :| 0 <= i < |slots| && DecodedSlot(h, r, slots[i], ancestors).None?;
      s := slots[i];
      assert HasSlot(h[r], s);
      LeafDecodes(h, s.value, ancestors + {r});
    case ObjectNode(_, _, properties) =>
      var k :| k in properties && DecodedSlot(h, r, properties[k], ancestors).None?;
      s := properties[k];
      assert HasSlot(h[r], s);
      LeafDecodes(h, s.value, ancestors + {r});
  }

  // A graph decodes exactly when no object reachable from the root reaches itself and every
  // reachable object is acceptable.  Objects shared by several paths are accepted.
  lemma {:induction false} DecodesExactly(h: Heap, r: nat)
    requires Closed(h) && r in h
    ensures Decoded(h, VObject(r), {}).Some? <==>
      forall p | IsPath(h, p) && p[0] == r :: !Repeats(p) && Acceptable(h[p[|p| - 1]])
  {
    if Decoded(h, VObject(r), {}).Some? {
      forall p | IsPath(h, p) && p[0] == r ensures !Repeats(p) && Acceptable(h[p[|p| - 1]]) {
        DecodedPathsAreClear(h, r, {}, p);
      }
    } else {
      var p := BlockedPath(h, r, {});
    }
  }

  // A shared object decodes to the same value wherever it is met.
  lemma {:induction false} DecodedAlike(h: Heap, v: JsValue, a: set<nat>, b: set<nat>)
    requires Closed(h) && Known(h, v) && Decoded(h, v, a).Some? && Decoded(h, v, b).Some?
    ensures Decoded(h, v, a) == Decoded(h, v, b)
    decreases h.Keys - a
  {
    if v.VObject? {
      var r := v.ref;
      forall s | HasSlot(h[r], s) && s.Data? ensures DecodedSlot(h, r, s, a) == DecodedSlot(h, r, s, b) {
        SlotDecodes(h, r, a, s);
        SlotDecodes(h, r, b, s);
        DecodedAlike(h, s.value, a + {r}, b + {r});
      }
      match h[r]
      case ArrayNode(_, slots) =>
        assert forall i | 0 <= i < |slots| :: HasSlot(h[r], slots[i]);
        assert Decoded(h, v, a).value.items == Decoded(h, v, b).value.items;
      case ObjectNode(_, _, properties) =>
        assert forall k | k in properties :: HasSlot(h[r], properties[k]);
        assert Decoded(h, v, a).value.members == Decoded(h, v, b).value.members;
    }
  }

  // ---- What the decoded value is ----

  // The graph below the value is, unfolded, this JSON value: dense plain data with acceptable numbers.
  ghost predicate Denotes(h: Heap, v: JsValue, j: Json)
    decreases j, 0
  {
    match j
    case Null => v == VNull
    case Bool(b) => v == VBool(b)
    case Str(s) => v == VString(s)
    case Num(n) => v == VNumber(n) && AcceptableNumber(n)
    case Arr(items) =>
      && v.VObject? && v.ref in h && h[v.ref].ArrayNode? && WellShaped(h[v.ref]) && |h[v.ref].slots| == |items|
      && forall i | 0 <= i < |items| :: DenotesSlot(h, h[v.ref].slots[i], items[i])
    case Obj(m) =>
      && v.VObject? && v.ref in h && h[v.ref].ObjectNode? && WellShaped(h[v.ref]) && h[v.ref].properties.Keys == m.Keys
      && forall k | k in m :: DenotesSlot(h, h[v.ref].properties[k], m[k])
  }

  ghost predicate DenotesSlot(h: Heap, s: Slot, j: Json)
    decreases j, 1
  {
    s.Data? && Denotes(h, s.value, j)
  }

  lemma {:induction false} DecodedDenotes(h: Heap, v: JsValue, ancestors: set<nat>)
    requires Closed(h) && Known(h, v) && Decoded(h, v, ancestors).Some?
    ensures Denotes(h, v, Decoded(h, v, ancestors).value)
    decreases h.Keys - ancestors
  {
    if v.VObject? {
      var r := v.ref;
      forall s | HasSlot(h[r], s) && s.Data?
        ensures r !in ancestors && DecodedSlot(h, r, s, ancestors).Some? && DenotesSlot(h, s, DecodedSlot(h, r, s, ancestors).value)
      {
        SlotDecodes(h, r, ancestors, s);
        DecodedDenotes(h, s.value, ancestors + {r});
      }
      match h[r]
      case ArrayNode(_, slots) => assert forall i | 0 <= i < |slots| :: HasSlot(h[r], slots[i]);
      case ObjectNode(_, _, properties) => assert forall k | k in properties :: HasSlot(h[r], properties[k]);
    }
  }

  lemma {:induction false} DenotesOne(h: Heap, v: JsValue, j: Json, k: Json)
    requires Denotes(h, v, j) && Denotes(h, v, k)
    ensures j == k
    decreases j
  {
    match j
    case Arr(items) =>
      forall i | 0 <= i < |items| ensures items[i] == k.items[i] {
        assert DenotesSlot(h, h[v.ref].slots[i], items[i]) && DenotesSlot(h, h[v.ref].slots[i], k.items[i]);
        DenotesOne(h, h[v.ref].slots[i].value, items[i], k.items[i]);
      }
      assert items == k.items;
    case Obj(m) =>
      forall x | x in m ensures x in k.members && m[x] == k.members[x] {
        assert DenotesSlot(h, h[v.ref].properties[x], m[x]) && DenotesSlot(h, h[v.ref].properties[x], k.members[x]);
        DenotesOne(h, h[v.ref].properties[x].value, m[x], k.members[x]);
      }
      assert m == k.members;
    case _ =>
  }

  // An object being decoded denotes a larger value than the one that is decoded within it.
  ghost predicate Larger(h: Heap, r: nat, j: Json) { exists t :: Denotes(h, VObject(r), t) && Nodes(t) > Nodes(j) }

  lemma {:induction false} ItemIsSmaller(v: Json, i: nat)
    requires v.Arr? && i < |v.items|
    ensures Nodes(v.items[i]) < Nodes(v)
  {
    NodesOfItemsMonotone(v, i + 1, |v.items|);
  }

  lemma {:induction false} MemberIsSmaller(v: Json, k: Text)
    requires v.Obj? && k in v.members
    ensures Nodes(v.members[k]) < Nodes(v)
  {
    NodesSplit(v, v.members.Keys, k);
  }

  lemma {:induction false} DenotedDecodes(h: Heap, v: JsValue, j: Json, ancestors: set<nat>)
    requires Closed(h) && Known(h, v) && Denotes(h, v, j) && forall a | a in ancestors :: Larger(h, a, j)
    ensures Decoded(h, v, ancestors) == Some(j)
    decreases j
  {
    if v.VObject? {
      if v.ref in ancestors {
        var t :| Denotes(h, v, t) && Nodes(t) > Nodes(j);
        DenotesOne(h, v, t, j);
      }
      if j.Arr? { DenotedArray(h, v.ref, j, ancestors); } else { DenotedObject(h, v.ref, j, ancestors); }
    }
  }

  lemma {:induction false} DenotedArray(h: Heap, r: nat, j: Json, ancestors: set<nat>)
    requires Closed(h) && r in h && r !in ancestors && j.Arr? && Denotes(h, VObject(r), j)
    requires forall a | a in ancestors :: Larger(h, a, j)
    ensures Decoded(h, VObject(r), ancestors) == Some(j)
    decreases j, 0
  {
    var slots := h[r].slots;
    forall i | 0 <= i < |slots| ensures HasSlot(h[r], slots[i]) && DecodedSlot(h, r, slots[i], ancestors) == Some(j.items[i]) {
      assert HasSlot(h[r], slots[i]) && DenotesSlot(h, slots[i], j.items[i]);
      ItemIsSmaller(j, i);
      DenotedDecodes(h, slots[i].value, j.items[i], ancestors + {r});
    }
    assert Decoded(h, VObject(r), ancestors).value.items == j.items;
  }

  lemma {:induction false} DenotedObject(h: Heap, r: nat, j: Json, ancestors: set<nat>)
    requires Closed(h) && r in h && r !in ancestors && j.Obj? && Denotes(h, VObject(r), j)
    requires forall a | a in ancestors :: Larger(h, a, j)
    ensures Decoded(h, VObject(r), ancestors) == Some(j)
    decreases j, 0
  {
    var properties := h[r].properties;
    forall k | k in properties ensures HasSlot(h[r], properties[k]) && DecodesTo(h, r, k, ancestors, j.members[k]) {
      assert HasSlot(h[r], properties[k]) && DenotesSlot(h, properties[k], j.members[k]);
      MemberIsSmaller(j, k);
      DenotedDecodes(h, properties[k].value, j.members[k], ancestors + {r});
    }
    ObjectDecodes(h, r, ancestors, j.members);
  }

  // Decoding gives this value exactly when the graph denotes it.
  lemma {:induction false} DecodesToExactly(h: Heap, v: JsValue, j: Json)
    requires Closed(h) && Known(h, v)
    ensures Decoded(h, v, {}) == Some(j) <==> Denotes(h, v, j)
  {
    if Decoded(h, v, {}) == Some(j) { DecodedDenotes(h, v, {}); }
    if Denotes(h, v, j) { DenotedDecodes(h, v, j, {}); }
  }

  // So decoding the result again, whatever objects it is made of, changes nothing.
  lemma {:induction false} DecodingAgainChangesNothing(h: Heap, v: JsValue, g: Heap, w: JsValue)
    requires Closed(h) && Known(h, v) && Decoded(h, v, {}).Some?
    requires Closed(g) && Known(g, w) && Denotes(g, w, Decoded(h, v, {}).value)
    ensures Decoded(g, w, {}) == Decoded(h, v, {})
  {
    DecodesToExactly(g, w, Decoded(h, v, {}).value);
  }

  ghost predicate DoublesOnly(h: Heap, num: Numerics) {
    forall r, s | r in h && HasSlot(h[r], s) && s.Data? && s.value.VNumber? && s.value.n.Finite? :: num.isDouble(s.value.n.x)
  }

  // What is decoded needs no second decoding: the printer takes it as it is.
  lemma {:induction false} DecodedIsDecodable(h: Heap, v: JsValue, ancestors: set<nat>, num: Numerics)
    requires Closed(h) && Known(h, v) && Decoded(h, v, ancestors).Some?
    requires DoublesOnly(h, num) && (v.VNumber? && v.n.Finite? ==> num.isDouble(v.n.x))
    ensures C.Decodable(Decoded(h, v, ancestors).value, num)
    decreases h.Keys - ancestors
  {
    if v.VObject? {
      var r := v.ref;
      forall s | HasSlot(h[r], s) && s.Data?
        ensures r !in ancestors && DecodedSlot(h, r, s, ancestors).Some? && C.Decodable(DecodedSlot(h, r, s, ancestors).value, num)
      {
        SlotDecodes(h, r, ancestors, s);
        DecodedIsDecodable(h, s.value, ancestors + {r}, num);
      }
      match h[r]
      case ArrayNode(_, slots) => assert forall i | 0 <= i < |slots| :: HasSlot(h[r], slots[i]);
      case ObjectNode(_, _, properties) => assert forall k | k in properties :: HasSlot(h[r], properties[k]);
    }
  }

  // The numbers that are decoded: all finite ones but the integers that are not safe.
  lemma {:induction false} NumbersExactly(h: Heap, n: Numeric, ancestors: set<nat>)
    requires Closed(h)
    ensures Decoded(h, VNumber(n), ancestors).Some? <==>
      n.Finite? && (n.x == n.x.Floor as real ==> -9007199254740992.0 < n.x < 9007199254740992.0)
    ensures Decoded(h, VNumber(n), ancestors).Some? ==> Decoded(h, VNumber(n), ancestors) == Some(Num(n))
  {
    if n.Finite? { C.SafeExactly(n.x); }
  }
}
