// The JSON grammar of sections 2 to 7 of RFC 8259, as parse trees that keep every code unit of
// the text they were read from: a text is in the grammar when some well-formed tree renders it.
module JsonGrammar {
  import opened Options
  import opened CodeUnits

  const TAB: CodeUnit := 0x09
  const LF: CodeUnit := 0x0A
  const CR: CodeUnit := 0x0D
  const SPACE: CodeUnit := 0x20
  const QUOTE: CodeUnit := 0x22
  const PLUS: CodeUnit := 0x2B
  const COMMA: CodeUnit := 0x2C
  const MINUS: CodeUnit := 0x2D
  const DOT: CodeUnit := 0x2E
  const SOLIDUS: CodeUnit := 0x2F
  const ZERO: CodeUnit := 0x30
  const NINE: CodeUnit := 0x39
  const COLON: CodeUnit := 0x3A
  const LBRACKET: CodeUnit := 0x5B
  const BACKSLASH: CodeUnit := 0x5C
  const RBRACKET: CodeUnit := 0x5D
  const LBRACE: CodeUnit := 0x7B
  const RBRACE: CodeUnit := 0x7D

  const LETTER_F: CodeUnit := 0x66
  const LETTER_N: CodeUnit := 0x6E
  const LETTER_T: CodeUnit := 0x74

  const TRUE: Text := [0x74, 0x72, 0x75, 0x65]
  const FALSE: Text := [0x66, 0x61, 0x6C, 0x73, 0x65]
  const NULL: Text := [0x6E, 0x75, 0x6C, 0x6C]

  predicate IsBlank(u: CodeUnit) { u == SPACE || u == TAB || u == CR || u == LF }

  predicate IsDigit(u: CodeUnit) { ZERO <= u <= NINE }

  predicate IsHex(u: CodeUnit) { IsDigit(u) || 0x41 <= u <= 0x46 || 0x61 <= u <= 0x66 }

  function HexValue(u: CodeUnit): nat
    requires IsHex(u)
  {
    if IsDigit(u) then u - ZERO else if u <= 0x46 then u - 0x41 + 10 else u - 0x61 + 10
  }

  ghost predicate AllBlank(w: Text) { forall u | u in w :: IsBlank(u) }

  ghost predicate AllDigits(w: Text) { w != [] && forall u | u in w :: IsDigit(u) }

  // Section 7: the pieces of a string between its quotes.
  datatype Piece = Plain(u: CodeUnit) | Escaped(letter: CodeUnit) | Unicode(a: CodeUnit, b: CodeUnit, c: CodeUnit, d: CodeUnit)
  {
    predicate Valid() {
      match this
      case Plain(u) => u >= 0x20 && u != QUOTE && u != BACKSLASH
      case Escaped(x) => IsEscape(x)
      case Unicode(a, b, c, d) => IsHex(a) && IsHex(b) && IsHex(c) && IsHex(d)
    }

    function Render(): Text {
      match this
      case Plain(u) => [u]
      case Escaped(x) => [BACKSLASH, x]
      case Unicode(a, b, c, d) => [BACKSLASH, 0x75, a, b, c, d]
    }

    // The code unit that the piece stands for.
    function Unit(): CodeUnit
      requires Valid()
    {
      match this
      case Plain(u) => u
      case Escaped(x) => Unescaped(x)
      case Unicode(a, b, c, d) => HexValue(a) * 0x1000 + HexValue(b) * 0x100 + HexValue(c) * 0x10 + HexValue(d)
    }
  }

  predicate IsEscape(x: CodeUnit) {
    x == QUOTE || x == BACKSLASH || x == SOLIDUS || x == 0x62 || x == 0x66 || x == 0x6E || x == 0x72 || x == 0x74
  }

  function Unescaped(x: CodeUnit): CodeUnit
    requires IsEscape(x)
  {
    if x == 0x62 then 0x08 else if x == 0x66 then 0x0C else if x == 0x6E then LF
    else if x == 0x72 then CR else if x == 0x74 then TAB else x
  }

  predicate ValidPieces(ps: seq<Piece>) { forall p | p in ps :: p.Valid() }

  function RenderPieces(ps: seq<Piece>): Text {
    if ps == [] then [] else ps[0].Render() + RenderPieces(ps[1..])
  }

  function Decode(ps: seq<Piece>): (r: Text)
    requires ValidPieces(ps)
    ensures |r| == |ps| && forall i | 0 <= i < |r| :: r[i] == ps[i].Unit()
  {
    seq(|ps|, i requires 0 <= i < |ps| => ps[i].Unit())
  }

  // Section 6: the parts of a number.
  datatype Number = Number(minus: bool, whole: Text, fraction: Option<Text>, exponent: Option<Exponent>)
  {
    ghost predicate Valid() {
      && AllDigits(whole) && (whole[0] == ZERO ==> |whole| == 1)
      && (fraction.Some? ==> AllDigits(fraction.value))
      && (exponent.Some? ==> exponent.value.Valid())
    }

    function Render(): Text {
      (if minus then [MINUS] else []) + (whole + (RenderFraction(fraction) + RenderExponent(exponent)))
    }
  }

  datatype Exponent = Exponent(mark: CodeUnit, sign: Option<CodeUnit>, digits: Text)
  {
    ghost predicate Valid() {
      && (mark == 0x65 || mark == 0x45)
      && (sign.Some? ==> sign.value == PLUS || sign.value == MINUS)
      && AllDigits(digits)
    }
  }

  function RenderFraction(f: Option<Text>): Text {
    if f.Some? then [DOT] + f.value else []
  }

  function RenderExponent(x: Option<Exponent>): Text {
    if x.Some? then [x.value.mark] + ((if x.value.sign.Some? then [x.value.sign.value] else []) + x.value.digits) else []
  }

  // Sections 3, 4 and 5.  Lists of members and of elements are never empty.
  datatype Tree =
    | TNull | TTrue | TFalse
    | TNumber(number: Number)
    | TString(pieces: seq<Piece>)
    | TEmptyArray(blank: Text)
    | TArray(before: Text, elements: Elements)
    | TEmptyObject(blank: Text)
    | TObject(before: Text, members: Members)

  datatype Elements =
    | LastElement(value: Tree, after: Text)
    | MoreElements(value: Tree, after: Text, before: Text, rest: Elements)

  datatype Members =
    | LastMember(key: seq<Piece>, gap: Text, lead: Text, value: Tree, after: Text)
    | MoreMembers(key: seq<Piece>, gap: Text, lead: Text, value: Tree, after: Text, before: Text, rest: Members)

  datatype Document = Document(before: Text, root: Tree, after: Text)

  ghost predicate WellFormed(t: Tree) {
    match t
    case TNull => true
    case TTrue => true
    case TFalse => true
    case TNumber(n) => n.Valid()
    case TString(ps) => ValidPieces(ps)
    case TEmptyArray(blank) => AllBlank(blank)
    case TArray(before, es) => AllBlank(before) && WellFormedElements(es)
    case TEmptyObject(blank) => AllBlank(blank)
    case TObject(before, ms) => AllBlank(before) && WellFormedMembers(ms)
  }

  ghost predicate WellFormedElements(es: Elements) {
    && WellFormed(es.value) && AllBlank(es.after)
    && (es.MoreElements? ==> AllBlank(es.before) && WellFormedElements(es.rest))
  }

  ghost predicate WellFormedMembers(ms: Members) {
    && ValidPieces(ms.key) && AllBlank(ms.gap) && AllBlank(ms.lead) && WellFormed(ms.value) && AllBlank(ms.after)
    && (ms.MoreMembers? ==> AllBlank(ms.before) && WellFormedMembers(ms.rest))
  }

  ghost predicate WellFormedDocument(d: Document) {
    AllBlank(d.before) && WellFormed(d.root) && AllBlank(d.after)
  }

  function RenderString(ps: seq<Piece>): Text { [QUOTE] + (RenderPieces(ps) + [QUOTE]) }

  function Render(t: Tree): Text {
    match t
    case TNull => NULL
    case TTrue => TRUE
    case TFalse => FALSE
    case TNumber(n) => n.Render()
    case TString(ps) => RenderString(ps)
    case TEmptyArray(blank) => [LBRACKET] + (blank + [RBRACKET])
    case TArray(before, es) => [LBRACKET] + (before + RenderElements(es))
    case TEmptyObject(blank) => [LBRACE] + (blank + [RBRACE])
    case TObject(before, ms) => [LBRACE] + (before + RenderMembers(ms))
  }

  function RenderElements(es: Elements): Text {
    match es
    case LastElement(v, after) => Render(v) + (after + [RBRACKET])
    case MoreElements(v, after, before, rest) => Render(v) + (after + ([COMMA] + (before + RenderElements(rest))))
  }

  function RenderMembers(ms: Members): Text
    decreases ms, 1
  {
    RenderString(ms.key) + (ms.gap + ([COLON] + (ms.lead + (Render(ms.value) + RenderTail(ms)))))
  }

  function RenderTail(ms: Members): Text
    decreases ms, 0
  {
    match ms
    case LastMember(_, _, _, _, after) => after + [RBRACE]
    case MoreMembers(_, _, _, _, after, before, rest) => after + ([COMMA] + (before + RenderMembers(rest)))
  }

  function RenderDocument(d: Document): Text { d.before + (Render(d.root) + d.after) }

  // Every object of the tree has distinct keys after unescaping.
  ghost predicate DistinctKeys(t: Tree)
    requires WellFormed(t)
  {
    match t
    case TArray(_, es) => DistinctInElements(es)
    case TObject(_, ms) => DistinctInMembers(ms, {})
    case _ => true
  }

  ghost predicate DistinctInElements(es: Elements)
    requires WellFormedElements(es)
  {
    DistinctKeys(es.value) && (es.MoreElements? ==> DistinctInElements(es.rest))
  }

  ghost predicate DistinctInMembers(ms: Members, seen: set<Text>)
    requires WellFormedMembers(ms)
  {
    && Decode(ms.key) !in seen && DistinctKeys(ms.value)
    && (ms.MoreMembers? ==> DistinctInMembers(ms.rest, seen + {Decode(ms.key)}))
  }
}
