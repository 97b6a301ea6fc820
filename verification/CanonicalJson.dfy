// packages/runtime/src/canonical-json.ts: the RFC 8785 printer, and its round trip through the
// strict parser.
module CanonicalJson {
  import opened Options
  import opened CodeUnits
  import opened JsonGrammar
  import opened JsonReader
  import opened JsonValues
  import opened SafeIntegers
  import S = StrictJson
  import Sp = JsonSpelling

  predicate IsHigh(u: CodeUnit) { 0xD800 <= u <= 0xDBFF }

  predicate IsLow(u: CodeUnit) { 0xDC00 <= u <= 0xDFFF }

  // The surrogates are the units from 0xD800 on, a thousand and twenty-four of each kind.
  lemma {:induction false} SurrogatesExactly(u: CodeUnit)
    ensures IsHigh(u) <==> u / 1024 == 54
    ensures IsLow(u) <==> u / 1024 == 55
  {
  }

  // A high surrogate is followed by a low one, and a low surrogate preceded by a high one.
  predicate PairedAt(s: Text, i: nat)
    requires i < |s|
  {
    && (IsHigh(s[i]) ==> i + 1 < |s| && IsLow(s[i + 1]))
    && (IsLow(s[i]) ==> i > 0 && IsHigh(s[i - 1]))
  }

  predicate IsScalarSequence(s: Text) {
    forall i | 0 <= i < |s| :: PairedAt(s, i)
  }

  method AssertUnicodeScalarSequence(value: Text) returns (ok: bool)
    ensures ok == IsScalarSequence(value)
  {
    var index := 0;
    while index < |value|
      invariant 0 <= index <= |value|
      invariant index > 0 ==> !IsHigh(value[index - 1])
      invariant forall i | 0 <= i < index :: PairedAt(value, i)
    {
      var unit := value[index];
      if IsHigh(unit) {
        if !(index + 1 < |value| && IsLow(value[index + 1])) {
          assert !PairedAt(value, index);
          return false;
        }
        assert PairedAt(value, index) && PairedAt(value, index + 1);
        index := index + 2;
      } else {
        if IsLow(unit) {
          assert !PairedAt(value, index);
          return false;
        }
        assert PairedAt(value, index);
        index := index + 1;
      }
    }
    return true;
  }

  // `JSON.stringify` of one code unit of a string without lone surrogates.
  function QuoteUnit(u: CodeUnit): Text {
    if u == QUOTE then [BACKSLASH, QUOTE]
    else if u == BACKSLASH then [BACKSLASH, BACKSLASH]
    else if u == 0x08 then [BACKSLASH, 0x62]
    else if u == 0x0C then [BACKSLASH, 0x66]
    else if u == LF then [BACKSLASH, LETTER_N]
    else if u == CR then [BACKSLASH, 0x72]
    else if u == TAB then [BACKSLASH, LETTER_T]
    else if u < 0x20 then [BACKSLASH, 0x75, ZERO, ZERO, HexDigit(u / 16), HexDigit(u % 16)]
    else [u]
  }

  function HexDigit(d: nat): CodeUnit
    requires d < 16
  {
    if d < 10 then ZERO + d else 0x61 + d - 10
  }

  function QuoteUnits(s: Text): Text {
    if s == [] then [] else QuoteUnit(s[0]) + QuoteUnits(s[1..])
  }

  function Quote(s: Text): Text { [QUOTE] + (QuoteUnits(s) + [QUOTE]) }

  // The exception for a lone surrogate is None.
  function SerializeCanonical(v: Json, num: Numerics): Option<Text>
    decreases v, 1
  {
    match v
    case Null => Some(NULL)
    case Bool(b) => Some(if b then TRUE else FALSE)
    case Num(n) => Some(if n.Finite? then num.write(n.x) else NULL)
    case Str(s) => if IsScalarSequence(s) then Some(Quote(s)) else None
    case Arr(items) =>
      var body := SerializeItems(v, 0, num);
      if body.None? then None else Some([LBRACKET] + (body.value + [RBRACKET]))
    case Obj(m) =>
      var body := SerializeMembers(v, SortedKeys(m.Keys), num);
      if body.None? then None else Some([LBRACE] + (body.value + [RBRACE]))
  }

  // The items from i on, joined by commas.
  function SerializeItems(v: Json, i: nat, num: Numerics): Option<Text>
    requires v.Arr? && i <= |v.items|
    decreases v, 0, |v.items| - i
  {
    if i == |v.items| then Some([]) else
    var first := SerializeCanonical(v.items[i], num);
    var rest := SerializeItems(v, i + 1, num);
    if first.None? || rest.None? then None
    else Some(first.value + if i + 1 == |v.items| then [] else [COMMA] + rest.value)
  }

  // The members with the given keys, in that order, joined by commas.
  function SerializeMembers(v: Json, keys: seq<Text>, num: Numerics): Option<Text>
    requires v.Obj? && forall k | k in keys :: k in v.members
    decreases v, 0, |keys|
  {
    if keys == [] then Some([]) else
    var first := SerializeCanonical(v.members[keys[0]], num);
    var rest := SerializeMembers(v, keys[1..], num);
    if !IsScalarSequence(keys[0]) || first.None? || rest.None? then None
    else Some(Quote(keys[0]) + ([COLON] + (first.value + if |keys| == 1 then [] else [COMMA] + rest.value)))
  }

  // What `decodeJsonValue` requires of the numbers of a value.
  predicate IsSafe(x: real) {
    x == x.Floor as real ==> -MAX_SAFE_INTEGER <= x.Floor <= MAX_SAFE_INTEGER
  }

  // All doubles are safe but the integers from two to the power of 53 on.
  lemma {:induction false} SafeExactly(x: real)
    ensures IsSafe(x) <==> (x == x.Floor as real ==> -9007199254740992.0 < x < 9007199254740992.0)
  {
  }

  ghost predicate Decodable(v: Json, num: Numerics) {
    match v
    case Num(n) => n.Finite? && num.isDouble(n.x) && IsSafe(n.x)
    case Arr(items) => forall i | 0 <= i < |items| :: Decodable(items[i], num)
    case Obj(m) => forall k | k in m :: Decodable(m[k], num)
    case _ => true
  }

  ghost function CanonicalizeJson(v: Json, num: Numerics): Option<Text> {
    if Decodable(v, num) then SerializeCanonical(v, num) else None
  }

  predicate IsNumberToken(t: Text) {
    ReadNumber(t).Done? && ReadNumber(t).rest == []
  }

  // The engine writes every double as a number token that it reads back as that double.
  ghost predicate Lawful(num: Numerics) {
    forall x | num.isDouble(x) :: IsNumberToken(num.write(x)) && num.read(num.write(x)) == Finite(x)
  }

  // ---- The tree of the printed text ----

  function PieceOf(u: CodeUnit): Piece {
    if u == QUOTE || u == BACKSLASH then Escaped(u)
    else if u == 0x08 then Escaped(0x62)
    else if u == 0x0C then Escaped(0x66)
    else if u == LF then Escaped(LETTER_N)
    else if u == CR then Escaped(0x72)
    else if u == TAB then Escaped(LETTER_T)
    else if u < 0x20 then Unicode(ZERO, ZERO, HexDigit(u / 16), HexDigit(u % 16))
    else Plain(u)
  }

  function PiecesOf(s: Text): (ps: seq<Piece>)
    ensures |ps| == |s|
  {
    seq(|s|, i requires 0 <= i < |s| => PieceOf(s[i]))
  }

  ghost function TreeOf(v: Json, num: Numerics): Tree
    decreases v, 1
  {
    match v
    case Null => TNull
    case Bool(b) => if b then TTrue else TFalse
    case Num(n) =>
      if n.Finite? && IsNumberToken(num.write(n.x)) then TNumber(ReadNumber(num.write(n.x)).tree) else TNull
    case Str(s) => TString(PiecesOf(s))
    case Arr(items) => if items == [] then TEmptyArray([]) else TArray([], ElementsOf(v, 0, num))
    case Obj(m) =>
      var keys := SortedKeys(m.Keys);
      if keys == [] then TEmptyObject([]) else TObject([], MembersOf(v, keys, num))
  }

  ghost function ElementsOf(v: Json, i: nat, num: Numerics): Elements
    requires v.Arr? && i < |v.items|
    decreases v, 0, |v.items| - i
  {
    var first := TreeOf(v.items[i], num);
    if i + 1 == |v.items| then LastElement(first, []) else MoreElements(first, [], [], ElementsOf(v, i + 1, num))
  }

  ghost function MembersOf(v: Json, keys: seq<Text>, num: Numerics): Members
    requires v.Obj? && keys != [] && forall k | k in keys :: k in v.members
    decreases v, 0, |keys|
  {
    var first := TreeOf(v.members[keys[0]], num);
    if |keys| == 1 then LastMember(PiecesOf(keys[0]), [], [], first, [])
    else MoreMembers(PiecesOf(keys[0]), [], [], first, [], [], MembersOf(v, keys[1..], num))
  }

  lemma {:induction false} PieceOfUnit(u: CodeUnit)
    ensures PieceOf(u).Valid() && PieceOf(u).Unit() == u && PieceOf(u).Render() == QuoteUnit(u)
  {
  }

  ghost predicate HasUpperDigit(w: Text) { exists k :: 2 <= k < |w| && 'A' as int <= w[k] <= 'F' as int }

  // Each unit is printed in the shortest of its spellings (section 3.2.2.2 of RFC 8785), with lower-case
  // digits.
  lemma {:induction false} QuotesShortest(u: CodeUnit, w: Text)
    requires Sp.SpellsUnit(w, u) && w != QuoteUnit(u)
    ensures Sp.SpellsUnit(QuoteUnit(u), u) && !HasUpperDigit(QuoteUnit(u))
    ensures |QuoteUnit(u)| < |w| || (|QuoteUnit(u)| == |w| && HasUpperDigit(w))
  {
    PieceOfUnit(u);
    Sp.PieceSpells(PieceOf(u));
    if !Sp.IsPlain(w, u) {
      if Sp.IsShort(w, u) { ShortIsPrinted(w, u); } else { LongIsPrinted(w, u); }
    }
  }

  lemma {:induction false} ShortIsPrinted(w: Text, u: CodeUnit)
    requires Sp.IsShort(w, u) && w != QuoteUnit(u)
    ensures |QuoteUnit(u)| == 1
  {
    assert w == [BACKSLASH, w[1]];
    Sp.ShortIs(w[1], u);
  }

  lemma {:induction false} LongIsPrinted(w: Text, u: CodeUnit)
    requires Sp.IsLong(w, u) && w != QuoteUnit(u)
    ensures |QuoteUnit(u)| < 6 || HasUpperDigit(w)
  {
    if |QuoteUnit(u)| == 6 {
      var p := Unicode(w[2], w[3], w[4], w[5]);
      assert w == p.Render();
      Sp.DigitIs(w[2], u / 0x1000);
      Sp.DigitIs(w[3], u / 0x100 % 0x10);
      Sp.DigitIs(w[4], u / 0x10 % 0x10);
      Sp.DigitIs(w[5], u % 0x10);
      assert w[2] == ZERO && w[3] == ZERO;
      if !HasUpperDigit(w) { LowerDigit(w, 4, u / 16); LowerDigit(w, 5, u % 16); }
    }
  }

  lemma {:induction false} LowerDigit(w: Text, k: nat, d: nat)
    requires 2 <= k < |w| && d < 16 && IsHex(w[k]) && HexValue(w[k]) == d && !HasUpperDigit(w)
    ensures w[k] == HexDigit(d)
  {
  }

  lemma {:induction false} StringRendered(s: Text)
    ensures ValidPieces(PiecesOf(s)) && Decode(PiecesOf(s)) == s && RenderString(PiecesOf(s)) == Quote(s)
  {
    forall u: CodeUnit ensures PieceOf(u).Valid() && PieceOf(u).Unit() == u { PieceOfUnit(u); }
    UnitsRendered(s);
  }

  lemma {:induction false} UnitsRendered(s: Text)
    ensures RenderPieces(PiecesOf(s)) == QuoteUnits(s)
    decreases |s|
  {
    if s != [] {
      PieceOfUnit(s[0]);
      UnitsRendered(s[1..]);
      assert PiecesOf(s)[1..] == PiecesOf(s[1..]);
    }
  }

  // The tree is well formed, has distinct keys, renders the printed text and means the value.
  ghost predicate Prints(v: Json, text: Text, num: Numerics) {
    var t := TreeOf(v, num);
    WellFormed(t) && DistinctKeys(t) && Render(t) == text && Meaning(t, num) == v
  }

  lemma {:induction false} PrintsTree(v: Json, num: Numerics)
    requires Lawful(num) && Decodable(v, num) && SerializeCanonical(v, num).Some?
    ensures Prints(v, SerializeCanonical(v, num).value, num)
    decreases v, 1
  {
    match v
    case Num(n) => NumberSound(num.write(n.x));
    case Str(s) => StringRendered(s);
    case Arr(items) =>
      if items != [] {
        PrintsItems(v, 0, num);
        ArrayPrinted(ElementsOf(v, 0, num), SerializeItems(v, 0, num).value, items, num);
        assert items[0..] == items;
      } else {
        EmptyPrinted(num);
      }
    case Obj(m) =>
      var keys := SortedKeys(m.Keys);
      MembersAll(v, keys, num);
      if keys != [] {
        PrintsMembers(v, keys, {}, num);
        ObjectPrinted(MembersOf(v, keys, num), SerializeMembers(v, keys, num).value, m, num);
      } else {
        EmptyPrinted(num);
      }
    case _ =>
  }

  lemma {:induction false} ArrayPrinted(es: Elements, text: Text, items: seq<Json>, num: Numerics)
    requires PrintsElements(es, text, items, num)
    ensures var t := TArray([], es);
      && WellFormed(t) && DistinctKeys(t) && Render(t) == [LBRACKET] + (text + [RBRACKET])
      && Meaning(t, num) == Arr(items)
  {
    assert [] + RenderElements(es) == RenderElements(es);
  }

  lemma {:induction false} ObjectPrinted(ms: Members, text: Text, m: map<Text, Json>, num: Numerics)
    requires PrintsMemberList(ms, text, m, {}, num)
    ensures var t := TObject([], ms);
      && WellFormed(t) && DistinctKeys(t) && Render(t) == [LBRACE] + (text + [RBRACE])
      && Meaning(t, num) == Obj(m)
  {
    assert [] + RenderMembers(ms) == RenderMembers(ms);
  }

  lemma {:induction false} EmptyPrinted(num: Numerics)
    ensures Prints(Arr([]), [LBRACKET] + ([] + [RBRACKET]), num)
    ensures Prints(Obj(map[]), [LBRACE] + ([] + [RBRACE]), num)
  {
    var none: map<Text, Json> := map[];
    assert none.Keys == {} && SortedKeys({}) == [];
  }

  ghost predicate PrintsElements(es: Elements, text: Text, items: seq<Json>, num: Numerics) {
    && WellFormedElements(es) && DistinctInElements(es)
    && RenderElements(es) == text + [RBRACKET] && MeaningOfElements(es, num) == items
  }

  lemma {:induction false} PrintsItems(v: Json, i: nat, num: Numerics)
    requires v.Arr? && i < |v.items|
    requires Lawful(num) && Decodable(v, num) && SerializeItems(v, i, num).Some?
    ensures PrintsElements(ElementsOf(v, i, num), SerializeItems(v, i, num).value, v.items[i..], num)
    decreases v, 0, |v.items| - i
  {
    var first := TreeOf(v.items[i], num);
    PrintsTree(v.items[i], num);
    if i + 1 < |v.items| {
      PrintsItems(v, i + 1, num);
      ItemBefore(first, ElementsOf(v, i + 1, num), SerializeItems(v, i + 1, num).value, v.items[i + 1..], num);
    } else {
      LastItem(first, num);
    }
    assert v.items[i..] == [v.items[i]] + v.items[i + 1..];
  }

  lemma {:induction false} LastItem(t: Tree, num: Numerics)
    requires WellFormed(t) && DistinctKeys(t)
    ensures PrintsElements(LastElement(t, []), Render(t) + [], [Meaning(t, num)], num)
  {
    assert Render(t) + [] == Render(t) && [] + [RBRACKET] == [RBRACKET];
  }

  lemma {:induction false} ItemBefore(t: Tree, rest: Elements, text: Text, items: seq<Json>, num: Numerics)
    requires WellFormed(t) && DistinctKeys(t) && PrintsElements(rest, text, items, num)
    ensures PrintsElements(MoreElements(t, [], [], rest), Render(t) + ([COMMA] + text), [Meaning(t, num)] + items, num)
  {
    Assoc(Render(t), [COMMA] + text, [RBRACKET]);
    Assoc([COMMA], text, [RBRACKET]);
    Blanks(Render(t), text + [RBRACKET]);
  }

  lemma {:induction false} Blanks(a: Text, b: Text)
    ensures a + ([] + ([COMMA] + ([] + b))) == a + ([COMMA] + b)
  {
    assert [] + b == b && [] + ([COMMA] + b) == [COMMA] + b;
  }

  ghost predicate PrintsMemberList(ms: Members, text: Text, m: map<Text, Json>, seen: set<Text>, num: Numerics) {
    && WellFormedMembers(ms) && DistinctInMembers(ms, seen)
    && RenderMembers(ms) == text + [RBRACE] && MeaningOfMembers(ms, num) == m
  }

  lemma {:induction false} PrintsMembers(v: Json, keys: seq<Text>, seen: set<Text>, num: Numerics)
    requires v.Obj? && keys != [] && StrictlySorted(keys) && forall k | k in keys :: k in v.members && k !in seen
    requires Lawful(num) && Decodable(v, num) && SerializeMembers(v, keys, num).Some?
    ensures PrintsMemberList(MembersOf(v, keys, num), SerializeMembers(v, keys, num).value,
      map k | k in keys :: v.members[k], seen, num)
    decreases v, 0, |keys|
  {
    var first := TreeOf(v.members[keys[0]], num);
    PrintsTree(v.members[keys[0]], num);
    if |keys| > 1 {
      forall k | k in keys[1..] ensures k in v.members && k !in seen + {keys[0]} {
        LessTotal(k, keys[0]);
      }
      PrintsMembers(v, keys[1..], seen + {keys[0]}, num);
      var m := map k | k in keys[1..] :: v.members[k];
      MemberBefore(keys[0], first, MembersOf(v, keys[1..], num), SerializeMembers(v, keys[1..], num).value, m, seen, num);
      KeysSplit(v.members, keys);
    } else {
      LastMemberPrinted(keys[0], first, seen, num);
      assert keys == [keys[0]];
    }
  }

  lemma {:induction false} KeysSplit(m: map<Text, Json>, keys: seq<Text>)
    requires StrictlySorted(keys) && keys != [] && forall k | k in keys :: k in m
    ensures (map k | k in keys :: m[k]) == map[keys[0] := m[keys[0]]] + map k | k in keys[1..] :: m[k]
  {
    assert keys == [keys[0]] + keys[1..];
  }

  lemma {:induction false} LastMemberPrinted(key: Text, t: Tree, seen: set<Text>, num: Numerics)
    requires WellFormed(t) && DistinctKeys(t) && key !in seen
    ensures PrintsMemberList(LastMember(PiecesOf(key), [], [], t, []), Quote(key) + ([COLON] + (Render(t) + [])),
      map[key := Meaning(t, num)], seen, num)
  {
    StringRendered(key);
    MemberRendered(Quote(key), Render(t), []);
    assert [] + [RBRACE] == [RBRACE];
  }

  lemma {:induction false} MemberBefore(key: Text, t: Tree, rest: Members, text: Text, m: map<Text, Json>, seen: set<Text>, num: Numerics)
    requires WellFormed(t) && DistinctKeys(t) && key !in seen && PrintsMemberList(rest, text, m, seen + {key}, num)
    ensures PrintsMemberList(MoreMembers(PiecesOf(key), [], [], t, [], [], rest),
      Quote(key) + ([COLON] + (Render(t) + ([COMMA] + text))), map[key := Meaning(t, num)] + m, seen, num)
  {
    StringRendered(key);
    MemberRendered(Quote(key), Render(t), [COMMA] + text);
    Assoc([COMMA], text, [RBRACE]);
    assert [] + ([COMMA] + (text + [RBRACE])) == [COMMA] + (text + [RBRACE]) && [] + (text + [RBRACE]) == text + [RBRACE];
  }

  lemma {:induction false} MemberRendered(key: Text, text: Text, tail: Text)
    ensures (key + ([COLON] + (text + tail))) + [RBRACE] == key + ([] + ([COLON] + ([] + (text + (tail + [RBRACE])))))
  {
    Assoc(key, [COLON] + (text + tail), [RBRACE]);
    Framed([COLON], text, tail, [RBRACE]);
    var body := text + (tail + [RBRACE]);
    assert [] + body == body && [] + ([COLON] + body) == [COLON] + body;
  }

  lemma {:induction false} MembersAll(v: Json, keys: seq<Text>, num: Numerics)
    requires v.Obj? && keys == SortedKeys(v.members.Keys)
    ensures (map k | k in keys :: v.members[k]) == v.members
    ensures keys == [] ==> v.members == map[]
  {
    if keys == [] {
      assert forall k :: k !in keys;
      assert v.members.Keys == {};
    }
  }

  // ---- What is canonical about the text ----

  ghost predicate AllScalar(v: Json) {
    match v
    case Str(s) => IsScalarSequence(s)
    case Arr(items) => forall i | 0 <= i < |items| :: AllScalar(items[i])
    case Obj(m) => forall k | k in m :: IsScalarSequence(k) && AllScalar(m[k])
    case _ => true
  }

  lemma {:induction false} SerializesScalars(v: Json, num: Numerics)
    ensures SerializeCanonical(v, num).Some? <==> AllScalar(v)
    decreases v, 1
  {
    match v
    case Arr(items) => ItemsSerialize(v, 0, num);
    case Obj(m) => MembersSerialize(v, SortedKeys(m.Keys), num);
    case _ =>
  }

  lemma {:induction false} ItemsSerialize(v: Json, i: nat, num: Numerics)
    requires v.Arr? && i <= |v.items|
    ensures SerializeItems(v, i, num).Some? <==> forall j | i <= j < |v.items| :: AllScalar(v.items[j])
    decreases v, 0, |v.items| - i
  {
    if i < |v.items| {
      SerializesScalars(v.items[i], num);
      ItemsSerialize(v, i + 1, num);
    }
  }

  lemma {:induction false} MembersSerialize(v: Json, keys: seq<Text>, num: Numerics)
    requires v.Obj? && forall k | k in keys :: k in v.members
    ensures SerializeMembers(v, keys, num).Some? <==> forall k | k in keys :: IsScalarSequence(k) && AllScalar(v.members[k])
    decreases v, 0, |keys|
  {
    if keys != [] {
      SerializesScalars(v.members[keys[0]], num);
      MembersSerialize(v, keys[1..], num);
      assert forall k :: k in keys <==> k == keys[0] || k in keys[1..];
    }
  }

  // No blanks, and the members of every object in code-unit order (section 3.2.3 of RFC 8785).
  ghost predicate Compact(t: Tree)
    requires WellFormed(t)
  {
    match t
    case TEmptyArray(blank) => blank == []
    case TArray(before, es) => before == [] && CompactElements(es)
    case TEmptyObject(blank) => blank == []
    case TObject(before, ms) => before == [] && CompactMembers(ms) && StrictlySorted(KeysOf(ms))
    case _ => true
  }

  ghost predicate CompactElements(es: Elements)
    requires WellFormedElements(es)
  {
    Compact(es.value) && es.after == [] && (es.MoreElements? ==> es.before == [] && CompactElements(es.rest))
  }

  ghost predicate CompactMembers(ms: Members)
    requires WellFormedMembers(ms)
  {
    && ms.gap == [] && ms.lead == [] && Compact(ms.value) && ms.after == []
    && (ms.MoreMembers? ==> ms.before == [] && CompactMembers(ms.rest))
  }

  ghost function KeysOf(ms: Members): seq<Text>
    requires WellFormedMembers(ms)
  {
    [Decode(ms.key)] + if ms.LastMember? then [] else KeysOf(ms.rest)
  }

  lemma {:induction false} PrintsCompact(v: Json, num: Numerics)
    requires Lawful(num) && Decodable(v, num) && SerializeCanonical(v, num).Some?
    ensures WellFormed(TreeOf(v, num)) && Compact(TreeOf(v, num))
    decreases v, 1
  {
    PrintsTree(v, num);
    match v
    case Arr(items) => if items != [] { PrintsCompactItems(v, 0, num); }
    case Obj(m) => if SortedKeys(m.Keys) != [] { PrintsCompactMembers(v, SortedKeys(m.Keys), num); }
    case _ =>
  }

  lemma {:induction false} PrintsCompactItems(v: Json, i: nat, num: Numerics)
    requires v.Arr? && i < |v.items|
    requires Lawful(num) && Decodable(v, num) && SerializeItems(v, i, num).Some?
    ensures WellFormedElements(ElementsOf(v, i, num)) && CompactElements(ElementsOf(v, i, num))
    decreases v, 0, |v.items| - i
  {
    PrintsItems(v, i, num);
    PrintsCompact(v.items[i], num);
    if i + 1 < |v.items| { PrintsCompactItems(v, i + 1, num); }
  }

  lemma {:induction false} PrintsCompactMembers(v: Json, keys: seq<Text>, num: Numerics)
    requires v.Obj? && keys != [] && StrictlySorted(keys) && forall k | k in keys :: k in v.members
    requires Lawful(num) && Decodable(v, num) && SerializeMembers(v, keys, num).Some?
    ensures var ms := MembersOf(v, keys, num); WellFormedMembers(ms) && CompactMembers(ms) && KeysOf(ms) == keys
    decreases v, 0, |keys|
  {
    PrintsMembers(v, keys, {}, num);
    PrintsCompact(v.members[keys[0]], num);
    StringRendered(keys[0]);
    if |keys| > 1 {
      PrintsCompactMembers(v, keys[1..], num);
      assert keys == [keys[0]] + keys[1..];
    } else {
      assert keys == [keys[0]];
    }
  }

  // ---- The round trip ----

  // The printed text is read back by the scanner, in full, as a compact tree with sorted members
  // that means the value.
  lemma {:induction false} CanonicalRoundTrip(v: Json, num: Numerics)
    requires Lawful(num) && CanonicalizeJson(v, num).Some?
    ensures var d := Document([], TreeOf(v, num), []);
      && S.ScanDocument(CanonicalizeJson(v, num).value) == Some(d)
      && WellFormedDocument(d) && Compact(d.root) && Meaning(d.root, num) == v
  {
    var text := CanonicalizeJson(v, num).value;
    var d := Document([], TreeOf(v, num), []);
    PrintsTree(v, num);
    PrintsCompact(v, num);
    assert RenderDocument(d) == text;
    S.ScanDocumentExact(text, d);
  }

  // The bounded parser accepts the printed text within exactly the limits that the value respects.
  lemma {:induction false} CanonicalParses(v: Json, limits: Limits, num: Numerics)
    requires Lawful(num) && CanonicalizeJson(v, num).Some?
    ensures (exists d :: S.Accepted(CanonicalizeJson(v, num).value, d, limits, num))
      <==> Nodes(v) <= limits.maximumNodes && Bounded(v, 1, limits)
    ensures forall d | S.Accepted(CanonicalizeJson(v, num).value, d, limits, num) :: Meaning(d.root, num) == v
  {
    var text := CanonicalizeJson(v, num).value;
    var c := Document([], TreeOf(v, num), []);
    CanonicalRoundTrip(v, num);
    S.ScanDocumentExact(text, c);
    DecodableIsFinite(v, num);
    assert S.Accepted(text, c, limits, num) <==> Nodes(v) <= limits.maximumNodes && Bounded(v, 1, limits);
    forall d | S.Accepted(text, d, limits, num) ensures d == c {
      S.ScanDocumentExact(text, d);
    }
  }

  lemma {:induction false} DecodableIsFinite(v: Json, num: Numerics)
    requires Decodable(v, num)
    ensures AllFinite(v)
  {
    match v
    case Arr(items) => forall i | 0 <= i < |items| ensures AllFinite(items[i]) { DecodableIsFinite(items[i], num); }
    case Obj(m) => forall k | k in m ensures AllFinite(m[k]) { DecodableIsFinite(m[k], num); }
    case _ =>
  }

  // Two values print equally exactly when they are the same value up to member order.
  lemma {:induction false} CanonicalInjective(v: Json, w: Json, num: Numerics)
    requires Lawful(num) && CanonicalizeJson(v, num).Some? && CanonicalizeJson(w, num).Some?
    ensures CanonicalizeJson(v, num) == CanonicalizeJson(w, num) <==> v == w
  {
    CanonicalRoundTrip(v, num);
    CanonicalRoundTrip(w, num);
  }

  // The printer accepts exactly the decodable values without lone surrogates.
  lemma {:induction false} CanonicalAccepts(v: Json, num: Numerics)
    ensures CanonicalizeJson(v, num).Some? <==> Decodable(v, num) && AllScalar(v)
  {
    SerializesScalars(v, num);
  }

  // ---- The number hypotheses hold of the safe integers ----

  function Digits(n: nat): Text {
    if n < 10 then [ZERO + n] else Digits(n / 10) + [ZERO + n % 10]
  }

  function DigitsValue(w: Text): int {
    if w == [] then 0 else DigitsValue(w[..|w| - 1]) * 10 + (w[|w| - 1] - ZERO)
  }

  function WriteInteger(x: real): Text {
    var n := x.Floor;
    if n < 0 then [MINUS] + Digits(-n) else Digits(n)
  }

  function ReadInteger(t: Text): Numeric {
    match ReadNumber(t)
    case Fail => NonFinite
    case Done(n, _) => Finite((if n.minus then -DigitsValue(n.whole) else DigitsValue(n.whole)) as real)
  }

  predicate IsSafeInteger(x: real) { x == x.Floor as real && IsSafe(x) }

  const SAFE_INTEGERS := Numerics(ReadInteger, WriteInteger, IsSafeInteger)

  lemma {:induction false} DigitsOf(n: nat)
    ensures AllDigits(Digits(n)) && (Digits(n)[0] == ZERO ==> n == 0 && |Digits(n)| == 1) && DigitsValue(Digits(n)) == n
  {
    if n >= 10 {
      DigitsOf(n / 10);
      var w := Digits(n);
      assert w[..|w| - 1] == Digits(n / 10);
    } else {
      assert Digits(n)[..0] == [];
    }
  }

  lemma {:induction false} IntegerToken(minus: bool, digits: Text)
    requires AllDigits(digits) && (digits[0] == ZERO ==> |digits| == 1)
    ensures ReadNumber(if minus then [MINUS] + digits else digits) == Done(Number(minus, digits, None, None), [])
  {
    var token := Number(minus, digits, None, None);
    NumberComplete(token, []);
    assert token.Render() + [] == if minus then [MINUS] + digits else digits;
  }

  lemma {:induction false} IntegerIsReadBack(n: int)
    ensures var t := WriteInteger(n as real); IsNumberToken(t) && ReadInteger(t) == Finite(n as real)
  {
    var digits := Digits(if n < 0 then -n else n);
    DigitsOf(if n < 0 then -n else n);
    IntegerToken(n < 0, digits);
    assert (n as real).Floor == n;
    assert WriteInteger(n as real) == if n < 0 then [MINUS] + digits else digits;
  }

  lemma {:induction false} SafeIntegersAreLawful()
    ensures Lawful(SAFE_INTEGERS)
  {
    forall x | IsSafeInteger(x) ensures IsNumberToken(WriteInteger(x)) && ReadInteger(WriteInteger(x)) == Finite(x) {
      IntegerIsReadBack(x.Floor);
    }
  }
}
