// packages/codex-app-server-client/src/strict-json.ts: the duplicate-key scanner, the bounded
// visitor with its shared node counter, and the bounded parser built from them.
module StrictJson {
  import opened Options
  import opened CodeUnits
  import opened JsonGrammar
  import opened JsonReader
  import opened JsonValues
  import Sp = JsonSpelling
  import opened SafeIntegers

  datatype Result<+T> = Success(value: T) | Failure(error: ParseError)

  datatype ParseError = InvalidLimits | Malformed | NodeLimit | DepthLimit | CollectionLimit | NonFiniteNumber

  // ---- What the scanner accepts: the rest after a value whose objects have distinct keys ----

  ghost function ScanValue(s: Text): (r: Option<Text>)
    ensures r.Some? ==> |r.value| < |s|
  {
    match ReadValue(s)
    case Fail => None
    case Done(t, rest) =>
      ValueSound(s);
      if DistinctKeys(t) then Some(rest) else None
  }

  ghost function ScanElements(s: Text): (r: Option<Text>)
    ensures r.Some? ==> |r.value| < |s|
  {
    match ReadElements(s)
    case Fail => None
    case Done(es, rest) =>
      ElementsSound(s);
      if DistinctInElements(es) then Some(rest) else None
  }

  ghost function ScanMembers(s: Text, seen: set<Text>): (r: Option<Text>)
    ensures r.Some? ==> |r.value| < |s|
  {
    match ReadMembers(s)
    case Fail => None
    case Done(ms, rest) =>
      MembersSound(s);
      if DistinctInMembers(ms, seen) then Some(rest) else None
  }

  // One turn of the array loop.
  lemma {:induction false} ScanElementsUnfold(s: Text)
    ensures ScanElements(s) ==
      var v := ScanValue(s);
      if v.None? then None else
      var w := AfterBlank(v.value);
      if Starts(w, RBRACKET) then Some(w[1..])
      else if Starts(w, COMMA) then ScanElements(AfterBlank(w[1..]))
      else None
  {
    if ReadElements(s).Done? {
      ElementsSound(s);
      ValueSound(s);
      var w := AfterBlank(ReadValue(s).rest);
      if Starts(w, COMMA) { ElementsSound(AfterBlank(w[1..])); }
    }
  }

  // A member up to the end of its value: its key, which must be new, and the rest.
  ghost function ScanHead(s: Text, seen: set<Text>): Option<(Text, Text)> {
    if ReadString(s).Fail? then None else
    var c := AfterBlank(ReadString(s).rest);
    if KeyOf(s) in seen || !Starts(c, COLON) then None else
    var v := ScanValue(AfterBlank(c[1..]));
    if v.None? then None else Some((KeyOf(s), v.value))
  }

  lemma {:induction false} ScanHeadIs(s: Text, seen: set<Text>)
    ensures ReadHead(s).Fail? ==> ScanHead(s, seen).None?
    ensures ReadHead(s).Done? ==>
      var Done(h, rest) := ReadHead(s);
      && WellFormedHead(h)
      && ScanHead(s, seen) == if Decode(h.key) !in seen && DistinctKeys(h.value) then Some((Decode(h.key), rest)) else None
  {
    if ReadHead(s).Done? {
      HeadSound(s);
      ValueSound(AfterBlank(AfterBlank(ReadString(s).rest)[1..]));
    }
  }

  // One turn of the object loop.
  lemma {:induction false} ScanMembersUnfold(s: Text, seen: set<Text>)
    ensures ScanMembers(s, seen) ==
      var h := ScanHead(s, seen);
      if h.None? then None else
      var w := AfterBlank(h.value.1);
      if Starts(w, RBRACE) then Some(w[1..])
      else if Starts(w, COMMA) then ScanMembers(AfterBlank(w[1..]), seen + {h.value.0})
      else None
  {
    var head := ReadHead(s);
    ScanHeadIs(s, seen);
    if head.Done? {
      var w := AfterBlank(head.rest);
      if Starts(w, COMMA) {
        var rest := ReadMembers(AfterBlank(w[1..]));
        if rest.Done? {
          MoreMembersStep(s, head.tree, head.rest, rest.tree, rest.rest);
          MembersSound(s);
          MembersSound(AfterBlank(w[1..]));
        }
      } else if Starts(w, RBRACE) {
        LastMemberStep(s, head.tree, head.rest);
        MembersSound(s);
      }
    }
  }

  lemma {:induction false} ObjectScan(s: Text)
    requires Starts(s, LBRACE)
    ensures ScanValue(s) == var u := AfterBlank(s[1..]); if Starts(u, RBRACE) then Some(u[1..]) else ScanMembers(u, {})
  {
    assert ReadValue(s) == ReadObject(s);
    if ReadValue(s).Done? { ValueSound(s); }
  }

  lemma {:induction false} ArrayScan(s: Text)
    requires Starts(s, LBRACKET)
    ensures ScanValue(s) == var u := AfterBlank(s[1..]); if Starts(u, RBRACKET) then Some(u[1..]) else ScanElements(u)
  {
    assert ReadValue(s) == ReadArray(s);
    if ReadValue(s).Done? { ValueSound(s); }
  }

  // The pieces read so far, put before what the rest of the string reads as.
  ghost function Prefixed(seen: seq<Piece>, r: Parsed<seq<Piece>>): Parsed<seq<Piece>> {
    if r.Fail? then Fail else Done(seen + r.tree, r.rest)
  }

  lemma {:induction false} PrefixGrows(seen: seq<Piece>, s: Text)
    requires s != [] && s[0] != QUOTE && ReadPiece(s).Done?
    ensures Prefixed(seen, ReadPieces(s)) == Prefixed(seen + [ReadPiece(s).tree], ReadPieces(ReadPiece(s).rest))
  {
    var more := ReadPieces(ReadPiece(s).rest);
    if more.Done? {
      assert seen + ([ReadPiece(s).tree] + more.tree) == seen + [ReadPiece(s).tree] + more.tree;
    }
  }

  lemma {:induction false} RenderGrows(seen: seq<Piece>, p: Piece)
    ensures RenderPieces(seen + [p]) == RenderPieces(seen) + p.Render()
    decreases |seen|
  {
    if seen == [] {
      assert RenderPieces([]) == [] && p.Render() + [] == p.Render() && [] + p.Render() == p.Render();
    } else {
      RenderGrows(seen[1..], p);
      assert (seen + [p])[1..] == seen[1..] + [p];
      Assoc(seen[0].Render(), RenderPieces(seen[1..]), p.Render());
    }
  }

  lemma {:induction false} QuotedGrows(seen: seq<Piece>, p: Piece)
    ensures [QUOTE] + RenderPieces(seen + [p]) == ([QUOTE] + RenderPieces(seen)) + p.Render()
  {
    RenderGrows(seen, p);
    Assoc([QUOTE], RenderPieces(seen), p.Render());
  }

  // At the closing quote, the token read is the string whose pieces were seen.
  lemma {:induction false} Closes(s: Text, seen: seq<Piece>, r: Text)
    requires Starts(s, QUOTE) && ValidPieces(seen) && Starts(r, QUOTE)
    requires ReadPieces(s[1..]) == Prefixed(seen, ReadPieces(r))
    ensures ReadString(s) == Done(seen, r[1..]) && KeyOf(s) == Decode(seen)
    ensures ParseStringToken(([QUOTE] + RenderPieces(seen)) + [QUOTE]) == Some(Decode(seen))
  {
    assert seen + [] == seen;
    Assoc([QUOTE], RenderPieces(seen), [QUOTE]);
    StringComplete(seen, []);
    assert RenderString(seen) + [] == RenderString(seen);
  }

  ghost function KeyOf(s: Text): Text
    requires ReadString(s).Done?
  {
    StringSound(s);
    Decode(ReadString(s).tree)
  }

  ghost function ScanDocument(s: Text): Option<Document> {
    var r := ReadDocument(s);
    if r.None? then None else
      DocumentExact(s, r.value);
      if DistinctKeys(r.value.root) then r else None
  }

  lemma {:induction false} DocumentScan(s: Text)
    ensures ScanDocument(s).Some? <==>
      ScanValue(AfterBlank(s)).Some? && AfterBlank(ScanValue(AfterBlank(s)).value) == []
  {
    var v := ReadValue(AfterBlank(s));
    if v.Done? { ValueSound(AfterBlank(s)); }
    if ReadDocument(s).Some? { DocumentExact(s, ReadDocument(s).value); }
  }

  // `JSON.parse` of a string token.
  function ParseStringToken(token: Text): Option<Text> {
    match ReadString(token)
    case Fail => None
    case Done(ps, rest) =>
      StringSound(token);
      if rest == [] then Some(Decode(ps)) else None
  }

  class DuplicateKeyScanner {
    const source: Text
    var index: nat

    ghost predicate Valid()
      reads this
    {
      index <= |source|
    }

    ghost function Rest(): Text
      requires Valid()
      reads this
    {
      source[index..]
    }

    constructor (source: Text)
      ensures Valid() && this.source == source && Rest() == source
    {
      this.source := source;
      index := 0;
    }

    method Scan() returns (ok: bool)
      requires Valid() && index == 0
      modifies this
      ensures ok == ScanDocument(source).Some?
    {
      assert Rest() == source;
      DocumentScan(source);
      SkipWhitespace();
      ok := Value();
      if !ok { return; }
      SkipWhitespace();
      ok := index == |source|;
    }

    method SkipWhitespace()
      requires Valid()
      modifies this`index
      ensures Valid() && Rest() == AfterBlank(old(Rest()))
      ensures index >= old(index)
    {
      while index < |source| && IsBlank(source[index])
        invariant Valid() && old(index) <= index
        invariant BlankLength(old(Rest())) == index - old(index) + BlankLength(Rest())
      {
        assert Rest()[1..] == source[index + 1..];
        index := index + 1;
      }
    }

    method Expect(u: CodeUnit) returns (ok: bool)
      requires Valid()
      modifies this`index
      ensures Valid() && ok == Starts(old(Rest()), u)
      ensures ok ==> index == old(index) + 1 && Rest() == old(Rest())[1..]
      ensures !ok ==> index == old(index)
    {
      ok := Peek(u);
      if ok { Advance(); }
    }

    method Advance()
      requires Valid() && Rest() != []
      modifies this`index
      ensures Valid() && index == old(index) + 1 && Rest() == old(Rest())[1..]
    {
      index := index + 1;
    }

    predicate Peek(u: CodeUnit)
      requires Valid()
      reads this
      ensures Peek(u) == Starts(Rest(), u)
    {
      index < |source| && source[index] == u
    }

    // Moves to the end of a split of the remaining text.
    lemma {:induction false} Advanced(front: Text, rest: Text)
      requires Valid() && Rest() == front + rest
      ensures index + |front| <= |source| && source[index + |front|..] == rest && |source| - |rest| == index + |front|
    {
      assert Rest()[|front|..] == rest;
    }

    method Value() returns (ok: bool)
      requires Valid()
      modifies this`index
      ensures Valid() && ok == ScanValue(old(Rest())).Some?
      ensures ok ==> index > old(index) && Rest() == ScanValue(old(Rest())).value
      decreases |source| - index, 1
    {
      ghost var s := Rest();
      if Peek(LBRACE) {
        ok := Object();
      } else if Peek(LBRACKET) {
        ok := Array();
      } else if Peek(QUOTE) {
        var key;
        ok, key := String();
      } else if Peek(LETTER_T) {
        ok := Literal(TRUE);
      } else if Peek(LETTER_F) {
        ok := Literal(FALSE);
      } else if Peek(LETTER_N) {
        ok := Literal(NULL);
      } else {
        ok := NumberToken();
      }
      if ReadValue(s).Done? { ValueSound(s); }
    }

    method Object() returns (ok: bool)
      requires Valid() && Starts(Rest(), LBRACE)
      modifies this`index
      ensures Valid() && ok == ScanValue(old(Rest())).Some?
      ensures ok ==> index > old(index) && Rest() == ScanValue(old(Rest())).value
      decreases |source| - index, 0
    {
      ghost var s := Rest();
      var _ := Expect(LBRACE);
      SkipWhitespace();
      ObjectScan(s);
      var keys: set<Text> := {};
      if Peek(RBRACE) {
        Advance();
        return true;
      }
      while true
        invariant Valid() && index > old(index)
        invariant ScanValue(s) == ScanMembers(Rest(), keys)
        decreases |source| - index
      {
        ScanMembersUnfold(Rest(), keys);
        var key;
        ok, key := Member(keys);
        if !ok { return; }
        keys := keys + {key};
        SkipWhitespace();
        if Peek(RBRACE) {
          Advance();
          return true;
        }
        ok := Expect(COMMA);
        if !ok { return; }
        SkipWhitespace();
      }
    }

    // The part of a turn of the object loop up to the end of the value.
    method Member(keys: set<Text>) returns (ok: bool, key: Text)
      requires Valid()
      modifies this`index
      ensures Valid() && ok == ScanHead(old(Rest()), keys).Some?
      ensures ok ==> index > old(index) && ScanHead(old(Rest()), keys) == Some((key, Rest()))
      decreases |source| - index, 2
    {
      if !Peek(QUOTE) { return false, []; }
      ok, key := String();
      if !ok { return; }
      if key in keys { return false, key; }
      SkipWhitespace();
      ok := Expect(COLON);
      if !ok { return; }
      SkipWhitespace();
      ok := Value();
    }

    method Array() returns (ok: bool)
      requires Valid() && Starts(Rest(), LBRACKET)
      modifies this`index
      ensures Valid() && ok == ScanValue(old(Rest())).Some?
      ensures ok ==> index > old(index) && Rest() == ScanValue(old(Rest())).value
      decreases |source| - index, 0
    {
      ghost var s := Rest();
      var _ := Expect(LBRACKET);
      SkipWhitespace();
      ArrayScan(s);
      if Peek(RBRACKET) {
        Advance();
        return true;
      }
      while true
        invariant Valid() && index > old(index)
        invariant ScanValue(s) == ScanElements(Rest())
        decreases |source| - index
      {
        ScanElementsUnfold(Rest());
        ok := Value();
        if !ok { return; }
        SkipWhitespace();
        if Peek(RBRACKET) {
          Advance();
          return true;
        }
        ok := Expect(COMMA);
        if !ok { return; }
        SkipWhitespace();
      }
    }

    method String() returns (ok: bool, key: Text)
      requires Valid()
      modifies this`index
      ensures Valid() && ok == ReadString(old(Rest())).Done?
      ensures ok ==> index > old(index) && Rest() == ReadString(old(Rest())).rest && key == KeyOf(old(Rest()))
    {
      ghost var s := Rest();
      var start := index;
      key := [];
      ok := Expect(QUOTE);
      if !ok { return; }
      ghost var seen: seq<Piece> := [];
      assert ReadPieces(s[1..]).Done? ==> [] + ReadPieces(s[1..]).tree == ReadPieces(s[1..]).tree;
      while index < |source|
        invariant Valid() && index > start && Starts(s, QUOTE) && ValidPieces(seen)
        invariant source[start..index] == [QUOTE] + RenderPieces(seen)
        invariant ReadPieces(s[1..]) == Prefixed(seen, ReadPieces(Rest()))
        decreases |source| - index
      {
        if Peek(QUOTE) {
          ok, key := CloseString(start, s, seen);
          return;
        }
        ghost var r, at := Rest(), index;
        ok := StringUnit();
        if !ok { return false, []; }
        Joined(start, at, index);
        PrefixGrows(seen, r);
        QuotedGrows(seen, ReadPiece(r).tree);
        seen := seen + [ReadPiece(r).tree];
      }
      return false, [];
    }

    // The turn of the string loop that finds the closing quote.
    method CloseString(start: nat, ghost s: Text, ghost seen: seq<Piece>) returns (ok: bool, key: Text)
      requires Valid() && start < index && Starts(Rest(), QUOTE) && Starts(s, QUOTE) && ValidPieces(seen)
      requires source[start..index] == [QUOTE] + RenderPieces(seen)
      requires ReadPieces(s[1..]) == Prefixed(seen, ReadPieces(Rest()))
      modifies this`index
      ensures Valid() && ok && index == old(index) + 1
      ensures ReadString(s) == Done(seen, Rest()) && key == KeyOf(s)
    {
      OneMoreUnit(start, index);
      Closes(s, seen, Rest());
      Advance();
      var token := source[start..index];
      assert token == ([QUOTE] + RenderPieces(seen)) + [QUOTE];
      var parsed := ParseStringToken(token);
      if parsed.None? { return false, []; }
      return true, parsed.value;
    }

    // A turn of the string loop that does not find the closing quote.
    method StringUnit() returns (ok: bool)
      requires Valid() && Rest() != [] && Rest()[0] != QUOTE
      modifies this`index
      ensures Valid() && ok == ReadPiece(old(Rest())).Done?
      ensures ok ==> index > old(index) && Rest() == ReadPiece(old(Rest())).rest && ReadPiece(old(Rest())).tree.Valid()
      ensures ok ==> source[old(index)..index] == ReadPiece(old(Rest())).tree.Render()
    {
      ghost var r := Rest();
      var current := source[index];
      if current == BACKSLASH {
        if index + 1 < |source| && source[index + 1] == 0x75 {
          if !(index + 6 <= |source| && IsHex(source[index + 2]) && IsHex(source[index + 3])
            && IsHex(source[index + 4]) && IsHex(source[index + 5])) {
            return false;
          }
          index := index + 6;
        } else {
          if !(index + 1 < |source| && IsEscape(source[index + 1])) { return false; }
          index := index + 2;
        }
      } else {
        if current < 0x20 { return false; }
        index := index + 1;
      }
      PieceSound(r);
      return true;
    }

    lemma {:induction false} OneMoreUnit(a: nat, i: nat)
      requires a <= i < |source|
      ensures source[a..i + 1] == source[a..i] + [source[i]]
    {
    }

    lemma {:induction false} Joined(a: nat, b: nat, c: nat)
      requires a <= b <= c <= |source|
      ensures source[a..c] == source[a..b] + source[b..c]
    {
    }

    method Literal(word: Text) returns (ok: bool)
      requires Valid()
      modifies this`index
      ensures Valid() && ok == (word <= old(Rest()))
      ensures ok ==> index == old(index) + |word| && Rest() == old(Rest())[|word|..]
    {
      ok := index + |word| <= |source| && source[index..index + |word|] == word;
      assert index + |word| <= |source| ==> Rest()[..|word|] == source[index..index + |word|];
      if ok { index := index + |word|; }
    }

    method NumberToken() returns (ok: bool)
      requires Valid()
      modifies this`index
      ensures Valid() && ok == ReadNumber(old(Rest())).Done?
      ensures ok ==> index > old(index) && Rest() == ReadNumber(old(Rest())).rest
      ensures ok <==> exists n, y :: BeginsWith(old(Rest()), n, y)
      ensures ok ==> exists n :: BeginsWith(old(Rest()), n, Rest())
      ensures forall n, y | BeginsWith(old(Rest()), n, y) :: |Rest()| <= |y|
    {
      var m := ReadNumber(source[index..]);
      forall n, y | BeginsWith(Rest(), n, y) ensures m.Done? && |m.rest| <= |y| { NumberLongest(Rest(), n, y); }
      if m.Fail? { return false; }
      NumberSound(Rest());
      assert BeginsWith(Rest(), m.tree, m.rest);
      Advanced(m.tree.Render(), m.rest);
      index := |source| - |m.rest|;
      return true;
    }
  }

  // What the scanner accepts is the grammar with distinct keys, and each text has one tree.
  lemma {:induction false} ScanDocumentExact(s: Text, d: Document)
    ensures ScanDocument(s) == Some(d) <==> WellFormedDocument(d) && RenderDocument(d) == s && DistinctKeys(d.root)
  {
    DocumentExact(s, d);
    if ReadDocument(s).Some? { DocumentExact(s, ReadDocument(s).value); }
  }

  // The recursive visitor of `freezeBoundedJson`; the node counter is shared by all its calls.
  class BoundedVisitor {
    const limits: Limits
    var nodes: nat

    constructor (limits: Limits)
      ensures this.limits == limits && nodes == 0
    {
      this.limits := limits;
      nodes := 0;
    }

    ghost predicate Fits(before: nat, size: nat, v: Json, depth: nat) {
      before + size <= limits.maximumNodes && Bounded(v, depth, limits) && AllFinite(v)
    }

    // A failure is reported for a limit that is exceeded or for a number that is not finite.
    ghost predicate Justified(e: ParseError, before: nat, size: nat, v: Json, depth: nat) {
      match e
      case NodeLimit => before + size > limits.maximumNodes
      case DepthLimit => !Bounded(v, depth, limits)
      case CollectionLimit => !Bounded(v, depth, limits)
      case NonFiniteNumber => !AllFinite(v)
      case _ => false
    }

    method Visit(current: Json, depth: nat) returns (r: Result<Json>)
      modifies this`nodes
      ensures r.Success? <==> Fits(old(nodes), Nodes(current), current, depth)
      ensures r.Success? ==> r.value == current && nodes == old(nodes) + Nodes(current)
      ensures r.Failure? ==> Justified(r.error, old(nodes), Nodes(current), current, depth)
      decreases current, 2
    {
      nodes := nodes + 1;
      if nodes > limits.maximumNodes { return Failure(NodeLimit); }
      if depth > limits.maximumDepth { return Failure(DepthLimit); }
      match current
      case Arr(items) =>
        if |items| > limits.maximumCollectionEntries { return Failure(CollectionLimit); }
        r := VisitItems(current, depth);
      case Obj(m) =>
        if |m| > limits.maximumCollectionEntries { return Failure(CollectionLimit); }
        r := VisitMembers(current, depth);
      case Num(n) => r := if n.Finite? then Success(current) else Failure(NonFiniteNumber);
      case _ => r := Success(current);
    }

    method VisitItems(current: Json, depth: nat) returns (r: Result<Json>)
      requires current.Arr? && depth <= limits.maximumDepth && |current.items| <= limits.maximumCollectionEntries
      requires nodes <= limits.maximumNodes
      modifies this`nodes
      ensures r.Success? <==> Fits(old(nodes), NodesOfItems(current, |current.items|), current, depth)
      ensures r.Success? ==> r.value == current && nodes == old(nodes) + NodesOfItems(current, |current.items|)
      ensures r.Failure? ==> Justified(r.error, old(nodes), NodesOfItems(current, |current.items|), current, depth)
      decreases current, 0
    {
      var result: seq<Json> := [];
      for i := 0 to |current.items|
        invariant result == current.items[..i]
        invariant nodes == old(nodes) + NodesOfItems(current, i) <= limits.maximumNodes
        invariant forall j | 0 <= j < i :: Bounded(current.items[j], depth + 1, limits) && AllFinite(current.items[j])
      {
        NodesOfItemsMonotone(current, i + 1, |current.items|);
        var entry := Visit(current.items[i], depth + 1);
        if entry.Failure? { return entry; }
        result := result + [entry.value];
      }
      return Success(Arr(result));
    }

    // The entries are taken in any order.
    method VisitMembers(current: Json, depth: nat) returns (r: Result<Json>)
      requires current.Obj? && depth <= limits.maximumDepth && |current.members| <= limits.maximumCollectionEntries
      requires nodes <= limits.maximumNodes
      modifies this`nodes
      ensures r.Success? <==> Fits(old(nodes), NodesOfKeys(current, current.members.Keys), current, depth)
      ensures r.Success? ==> r.value == current && nodes == old(nodes) + NodesOfKeys(current, current.members.Keys)
      ensures r.Failure? ==> Justified(r.error, old(nodes), NodesOfKeys(current, current.members.Keys), current, depth)
      decreases current, 1
    {
      var m := current.members;
      var result: map<Text, Json> := map[];
      var todo := m.Keys;
      ghost var done: set<Text> := {};
      while todo != {}
        invariant todo <= m.Keys && done == m.Keys - todo
        invariant IsPart(result, done, m) && PartFits(m, done, depth)
        invariant nodes == old(nodes) + NodesOfKeys(current, done) <= limits.maximumNodes
        decreases |todo|
      {
        var key :| key in todo;
        var entry := VisitMember(current, key, depth, old(nodes), done);
        if entry.Failure? { return entry; }
        PartGrows(result, done, m, key, depth);
        result := result[key := entry.value];
        todo, done := todo - {key}, done + {key};
      }
      AllFits(current, result, done, depth);
      return Success(Obj(result));
    }

    // A turn of the loop, after the members that are done.
    method VisitMember(current: Json, key: Text, depth: nat, ghost start: nat, ghost done: set<Text>) returns (r: Result<Json>)
      requires current.Obj? && key in current.members && done <= current.members.Keys && key !in done
      requires nodes == start + NodesOfKeys(current, done) <= limits.maximumNodes
      modifies this`nodes
      ensures r.Success? ==> r.value == current.members[key] && MemberFits(r.value, depth)
      ensures r.Success? ==> nodes == start + NodesOfKeys(current, done + {key}) <= limits.maximumNodes
      ensures r.Failure? ==> !Fits(start, NodesOfKeys(current, current.members.Keys), current, depth)
      ensures r.Failure? ==> Justified(r.error, start, NodesOfKeys(current, current.members.Keys), current, depth)
      decreases current, 0
    {
      CountMember(current, done, key);
      ghost var before := nodes;
      r := Visit(current.members[key], depth + 1);
      if r.Failure? { MemberFails(r.error, start, before, current, key, depth); }
    }

    static ghost predicate IsPart(result: map<Text, Json>, done: set<Text>, m: map<Text, Json>) {
      done <= m.Keys && result == map k | k in done :: m[k]
    }

    ghost predicate PartFits(m: map<Text, Json>, done: set<Text>, depth: nat) {
      forall k | k in done && k in m :: MemberFits(m[k], depth)
    }

    ghost predicate MemberFits(member: Json, depth: nat) { Bounded(member, depth + 1, limits) && AllFinite(member) }

    lemma {:induction false} PartGrows(result: map<Text, Json>, done: set<Text>, m: map<Text, Json>, key: Text, depth: nat)
      requires IsPart(result, done, m) && PartFits(m, done, depth)
      requires key in m && MemberFits(m[key], depth)
      ensures IsPart(result[key := m[key]], done + {key}, m) && PartFits(m, done + {key}, depth)
    {
    }

    lemma {:induction false} AllFits(v: Json, result: map<Text, Json>, done: set<Text>, depth: nat)
      requires v.Obj? && done == v.members.Keys - {} && IsPart(result, done, v.members) && PartFits(v.members, done, depth)
      requires depth <= limits.maximumDepth && |v.members| <= limits.maximumCollectionEntries
      ensures done == v.members.Keys && Obj(result) == v && Bounded(v, depth, limits) && AllFinite(v)
    {
      assert done == v.members.Keys;
      assert result == v.members;
    }

    // A failure inside one member is a failure of the whole object.
    lemma {:induction false} MemberFails(e: ParseError, before: nat, now: nat, v: Json, key: Text, depth: nat)
      requires v.Obj? && key in v.members && Justified(e, now, Nodes(v.members[key]), v.members[key], depth + 1)
      requires now + Nodes(v.members[key]) <= before + NodesOfKeys(v, v.members.Keys)
      requires !Fits(now, Nodes(v.members[key]), v.members[key], depth + 1)
      ensures !Fits(before, NodesOfKeys(v, v.members.Keys), v, depth)
      ensures Justified(e, before, NodesOfKeys(v, v.members.Keys), v, depth)
    {
    }

    static lemma {:induction false} CountMember(v: Json, done: set<Text>, key: Text)
      requires v.Obj? && done <= v.members.Keys && key in v.members && key !in done
      ensures NodesOfKeys(v, done + {key}) == NodesOfKeys(v, done) + Nodes(v.members[key]) <= NodesOfKeys(v, v.members.Keys)
    {
      NodesSplit(v, done + {key}, key);
      NodesOfKeysMonotone(v, done + {key}, v.members.Keys);
      assert done + {key} - {key} == done;
    }
  }

  predicate IsLimit(n: int) { 1 <= n <= MAX_SAFE_INTEGER }

  predicate ValidLimits(limits: Limits) {
    IsLimit(limits.maximumCollectionEntries) && IsLimit(limits.maximumDepth) && IsLimit(limits.maximumNodes)
  }

  // The text is in the grammar with distinct keys, and its value is finite and within the limits.
  ghost predicate Accepted(source: Text, d: Document, limits: Limits, num: Numerics) {
    && WellFormedDocument(d) && RenderDocument(d) == source && DistinctKeys(d.root)
    && var v := Meaning(d.root, num);
       Nodes(v) <= limits.maximumNodes && Bounded(v, 1, limits) && AllFinite(v)
  }

  // A string or a number between blanks, in characters.
  ghost predicate IsStringText(s: Text, t: Text) {
    exists before, token, after :: AllBlank(before) && Sp.SpellsToken(token, t) && AllBlank(after) && s == before + (token + after)
  }

  predicate NumberToken(token: Text) { Sp.IsEnd(Sp.Reads(Sp.Begun, token)) }

  ghost predicate IsNumberText(s: Text, x: Numeric, num: Numerics) {
    exists before, token, after :: AllBlank(before) && NumberToken(token) && AllBlank(after) && s == before + (token + after) && num.read(token) == x
  }

  // Whatever its spelling, a string is accepted, as the text that it spells.
  lemma {:induction false} StringsExactly(s: Text, t: Text, limits: Limits, num: Numerics)
    requires ValidLimits(limits)
    ensures (exists d :: Accepted(s, d, limits, num) && Meaning(d.root, num) == Str(t)) <==> IsStringText(s, t)
  {
    if d :| Accepted(s, d, limits, num) && Meaning(d.root, num) == Str(t) {
      assert d.root.TString?;
      Sp.TokenSpells(d.root.pieces, t);
    }
    if before, token, after :| AllBlank(before) && Sp.SpellsToken(token, t) && AllBlank(after) && s == before + (token + after) {
      Sp.TokenSpelledExactly(token, t);
      var ps :| ValidPieces(ps) && RenderString(ps) == token && Decode(ps) == t;
      assert Accepted(s, Document(before, TString(ps), after), limits, num);
    }
  }

  lemma {:induction false} NumbersExactly(s: Text, x: Numeric, limits: Limits, num: Numerics)
    requires ValidLimits(limits) && x.Finite?
    ensures (exists d :: Accepted(s, d, limits, num) && Meaning(d.root, num) == Num(x)) <==> IsNumberText(s, x, num)
  {
    if d :| Accepted(s, d, limits, num) && Meaning(d.root, num) == Num(x) { NumberIsText(s, x, d, limits, num); }
    if before, token, after :| AllBlank(before) && NumberToken(token) && AllBlank(after) && s == before + (token + after) && num.read(token) == x {
      var d := NumberDocument(before, token, after, limits, num);
    }
  }

  lemma {:induction false} NumberIsText(s: Text, x: Numeric, d: Document, limits: Limits, num: Numerics)
    requires Accepted(s, d, limits, num) && Meaning(d.root, num) == Num(x)
    ensures IsNumberText(s, x, num)
  {
    assert d.root.TNumber?;
    Sp.NumbersExactly(d.root.number.Render());
  }

  lemma {:induction false} NumberDocument(before: Text, token: Text, after: Text, limits: Limits, num: Numerics) returns (d: Document)
    requires ValidLimits(limits) && AllBlank(before) && NumberToken(token) && AllBlank(after) && num.read(token).Finite?
    ensures Accepted(before + (token + after), d, limits, num) && Meaning(d.root, num) == Num(num.read(token))
  {
    Sp.NumbersExactly(token);
    var n: Number :| n.Valid() && n.Render() == token;
    d := Document(before, TNumber(n), after);
  }

  // Success is exactly acceptance, and the value returned is the only one the text has.
  method ParseBoundedJson(source: Text, limits: Limits, num: Numerics) returns (r: Result<Json>)
    ensures r.Success? <==> ValidLimits(limits) && exists d :: Accepted(source, d, limits, num)
    ensures forall d | Accepted(source, d, limits, num) && ValidLimits(limits) :: r == Success(Meaning(d.root, num))
    ensures forall t | ValidLimits(limits) :: r == Success(Str(t)) <==> IsStringText(source, t)
    ensures forall x: Numeric | ValidLimits(limits) && x.Finite? :: r == Success(Num(x)) <==> IsNumberText(source, x, num)
    ensures r == Failure(InvalidLimits) <==> !ValidLimits(limits)
    ensures r == Failure(Malformed) <==> ValidLimits(limits) && ScanDocument(source).None?
  {
    if !ValidLimits(limits) { return Failure(InvalidLimits); }
    forall t ensures (exists d :: Accepted(source, d, limits, num) && Meaning(d.root, num) == Str(t)) <==> IsStringText(source, t) {
      StringsExactly(source, t, limits, num);
    }
    forall x: Numeric | x.Finite?
      ensures (exists d :: Accepted(source, d, limits, num) && Meaning(d.root, num) == Num(x)) <==> IsNumberText(source, x, num)
    {
      NumbersExactly(source, x, limits, num);
    }
    var scanner := new DuplicateKeyScanner(source);
    var ok := scanner.Scan();
    forall d ensures ScanDocument(source) == Some(d) <==>
      WellFormedDocument(d) && RenderDocument(d) == source && DistinctKeys(d.root)
    {
      ScanDocumentExact(source, d);
    }
    if !ok { return Failure(Malformed); }
    var d := ReadDocument(source);
    assert ScanDocument(source) == d;
    var parsed := Meaning(d.value.root, num);
    var visitor := new BoundedVisitor(limits);
    r := visitor.Visit(parsed, 1);
    assert r.Success? <==> Accepted(source, d.value, limits, num);
  }
}
