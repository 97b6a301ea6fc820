// A recursive-descent reader for the grammar, and the proof that it is exact: it splits a text
// into a tree and a rest precisely when the tree is well formed and its rendering comes first.
module JsonReader {
  import opened Options
  import opened CodeUnits
  import opened JsonGrammar

  datatype Parsed<+T> = Fail | Done(tree: T, rest: Text)

  predicate Starts(s: Text, u: CodeUnit) { s != [] && s[0] == u }

  // What follows a value cannot extend a number.
  predicate Ends(s: Text) {
    s == [] || IsBlank(s[0]) || s[0] == COMMA || s[0] == RBRACKET || s[0] == RBRACE
  }

  function BlankLength(s: Text): (n: nat)
    ensures n <= |s| && (forall k | 0 <= k < n :: IsBlank(s[k])) && (n < |s| ==> !IsBlank(s[n]))
  {
    if s != [] && IsBlank(s[0]) then 1 + BlankLength(s[1..]) else 0
  }

  function Blank(s: Text): Text { s[..BlankLength(s)] }

  function AfterBlank(s: Text): Text { s[BlankLength(s)..] }

  function DigitsLength(s: Text): (n: nat)
    ensures n <= |s| && (forall k | 0 <= k < n :: IsDigit(s[k])) && (n < |s| ==> !IsDigit(s[n]))
  {
    if s != [] && IsDigit(s[0]) then 1 + DigitsLength(s[1..]) else 0
  }

  function ReadPiece(s: Text): (r: Parsed<Piece>)
    requires s != [] && s[0] != QUOTE
    ensures r.Done? ==> |r.rest| < |s|
  {
    if s[0] != BACKSLASH then
      if s[0] < 0x20 then Fail else Done(Plain(s[0]), s[1..])
    else if |s| >= 2 && s[1] == 0x75 then
      if |s| >= 6 && IsHex(s[2]) && IsHex(s[3]) && IsHex(s[4]) && IsHex(s[5])
      then Done(Unicode(s[2], s[3], s[4], s[5]), s[6..]) else Fail
    else if |s| >= 2 && IsEscape(s[1]) then Done(Escaped(s[1]), s[2..])
    else Fail
  }

  // The pieces up to the closing quote; the rest begins with that quote.
  function ReadPieces(s: Text): (r: Parsed<seq<Piece>>)
    ensures r.Done? ==> |r.rest| <= |s| && Starts(r.rest, QUOTE)
    decreases |s|
  {
    if s == [] then Fail
    else if s[0] == QUOTE then Done([], s)
    else
      var step := ReadPiece(s);
      if step.Fail? then Fail else
      var more := ReadPieces(step.rest);
      if more.Fail? then Fail else
      Done([step.tree] + more.tree, more.rest)
  }

  function ReadString(s: Text): (r: Parsed<seq<Piece>>)
    ensures r.Done? ==> |r.rest| < |s|
  {
    if !Starts(s, QUOTE) then Fail else
      var body := ReadPieces(s[1..]);
      if body.Fail? then Fail else Done(body.tree, body.rest[1..])
  }

  function ReadFraction(s: Text): (r: (Option<Text>, Text))
    ensures |r.1| <= |s|
  {
    if Starts(s, DOT) && DigitsLength(s[1..]) > 0
    then (Some(s[1..][..DigitsLength(s[1..])]), s[1..][DigitsLength(s[1..])..]) else (None, s)
  }

  function ReadExponent(s: Text): (r: (Option<Exponent>, Text))
    ensures |r.1| <= |s|
  {
    if Starts(s, 0x65) || Starts(s, 0x45) then
      var signed := Starts(s[1..], PLUS) || Starts(s[1..], MINUS);
      var d := if signed then s[2..] else s[1..];
      if DigitsLength(d) > 0
      then (Some(Exponent(s[0], if signed then Some(s[1]) else None, d[..DigitsLength(d)])), d[DigitsLength(d)..])
      else (None, s)
    else (None, s)
  }

  function ReadNumber(s: Text): (r: Parsed<Number>)
    ensures r.Done? ==> |r.rest| < |s|
  {
    var minus := Starts(s, MINUS);
    var d := if minus then s[1..] else s;
    if d == [] || !IsDigit(d[0]) then Fail else
    var n := if d[0] == ZERO then 1 else DigitsLength(d);
    var (fraction, f) := ReadFraction(d[n..]);
    var (exponent, e) := ReadExponent(f);
    Done(Number(minus, d[..n], fraction, exponent), e)
  }

  function ReadLiteral(s: Text, word: Text, t: Tree): (r: Parsed<Tree>)
    ensures r.Done? ==> |word| <= |s| && r.rest == s[|word|..]
  {
    if word <= s then Done(t, s[|word|..]) else Fail
  }

  function ReadValue(s: Text): (r: Parsed<Tree>)
    ensures r.Done? ==> |r.rest| < |s|
    decreases |s|, 1
  {
    if Starts(s, LBRACE) then ReadObject(s)
    else if Starts(s, LBRACKET) then ReadArray(s)
    else if Starts(s, QUOTE) then
      var ps := ReadString(s);
      if ps.Fail? then Fail else Done(TString(ps.tree), ps.rest)
    else if Starts(s, LETTER_T) then ReadLiteral(s, TRUE, TTrue)
    else if Starts(s, LETTER_F) then ReadLiteral(s, FALSE, TFalse)
    else if Starts(s, LETTER_N) then ReadLiteral(s, NULL, TNull)
    else
      var n := ReadNumber(s);
      if n.Fail? then Fail else Done(TNumber(n.tree), n.rest)
  }

  function ReadObject(s: Text): (r: Parsed<Tree>)
    requires Starts(s, LBRACE)
    ensures r.Done? ==> |r.rest| < |s|
    decreases |s|, 0
  {
    var u := AfterBlank(s[1..]);
    if Starts(u, RBRACE) then Done(TEmptyObject(Blank(s[1..])), u[1..]) else
    var ms := ReadMembers(u);
    if ms.Fail? then Fail else Done(TObject(Blank(s[1..]), ms.tree), ms.rest)
  }

  function ReadArray(s: Text): (r: Parsed<Tree>)
    requires Starts(s, LBRACKET)
    ensures r.Done? ==> |r.rest| < |s|
    decreases |s|, 0
  {
    var u := AfterBlank(s[1..]);
    if Starts(u, RBRACKET) then Done(TEmptyArray(Blank(s[1..])), u[1..]) else
    var es := ReadElements(u);
    if es.Fail? then Fail else Done(TArray(Blank(s[1..]), es.tree), es.rest)
  }

  function ReadElements(s: Text): (r: Parsed<Elements>)
    ensures r.Done? ==> |r.rest| < |s|
    decreases |s|, 2
  {
    var v := ReadValue(s);
    if v.Fail? then Fail else
    var w := AfterBlank(v.rest);
    if Starts(w, RBRACKET) then Done(LastElement(v.tree, Blank(v.rest)), w[1..])
    else if Starts(w, COMMA) then
      var u := AfterBlank(w[1..]);
      var rest := ReadElements(u);
      if rest.Fail? then Fail else
      Done(MoreElements(v.tree, Blank(v.rest), Blank(w[1..]), rest.tree), rest.rest)
    else Fail
  }

  // The key, the colon and the value of a member: the rest is what follows the value.
  datatype Head = Head(key: seq<Piece>, gap: Text, lead: Text, value: Tree)

  function ReadHead(s: Text): (r: Parsed<Head>)
    ensures r.Done? ==> |r.rest| < |s|
    decreases |s|, 2
  {
    var key := ReadString(s);
    if key.Fail? then Fail else
    var c := AfterBlank(key.rest);
    if !Starts(c, COLON) then Fail else
    var l := AfterBlank(c[1..]);
    var v := ReadValue(l);
    if v.Fail? then Fail else
    Done(Head(key.tree, Blank(key.rest), Blank(c[1..]), v.tree), v.rest)
  }

  function ReadMembers(s: Text): (r: Parsed<Members>)
    ensures r.Done? ==> |r.rest| < |s|
    decreases |s|, 3
  {
    var head := ReadHead(s);
    if head.Fail? then Fail else
    var Head(key, gap, lead, value) := head.tree;
    var w := AfterBlank(head.rest);
    if Starts(w, RBRACE) then Done(LastMember(key, gap, lead, value, Blank(head.rest)), w[1..])
    else if Starts(w, COMMA) then
      var u := AfterBlank(w[1..]);
      var rest := ReadMembers(u);
      if rest.Fail? then Fail else
      Done(MoreMembers(key, gap, lead, value, Blank(head.rest), Blank(w[1..]), rest.tree), rest.rest)
    else Fail
  }

  function ReadDocument(s: Text): (r: Option<Document>) {
    var v := ReadValue(AfterBlank(s));
    if v.Fail? || AfterBlank(v.rest) != [] then None else Some(Document(Blank(s), v.tree, v.rest))
  }

  // ---- Concatenation, blanks and digits ----

  lemma {:induction false} Assoc(a: Text, b: Text, c: Text)
    ensures (a + b) + c == a + (b + c)
  {
  }

  lemma {:induction false} BlankRun(w: Text, y: Text)
    requires AllBlank(w) && (y == [] || !IsBlank(y[0]))
    ensures BlankLength(w + y) == |w| && Blank(w + y) == w && AfterBlank(w + y) == y
  {
    if w == [] {
      assert w + y == y;
    } else {
      assert w[0] in w;
      assert (w + y)[1..] == w[1..] + y;
      BlankRun(w[1..], y);
    }
  }

  lemma {:induction false} BlankSplit(s: Text)
    ensures s == Blank(s) + AfterBlank(s) && AllBlank(Blank(s))
  {
  }

  lemma {:induction false} DigitRun(w: Text, y: Text)
    requires (forall u | u in w :: IsDigit(u)) && (y == [] || !IsDigit(y[0]))
    ensures DigitsLength(w + y) == |w|
  {
    if w == [] {
      assert w + y == y;
    } else {
      assert w[0] in w;
      assert (w + y)[1..] == w[1..] + y;
      DigitRun(w[1..], y);
    }
  }

  // ---- Strings ----

  lemma {:induction false} PieceSound(s: Text)
    requires s != [] && s[0] != QUOTE && ReadPiece(s).Done?
    ensures var r := ReadPiece(s); r.tree.Valid() && s == r.tree.Render() + r.rest
  {
  }

  lemma {:induction false} PieceComplete(p: Piece, y: Text)
    requires p.Valid()
    ensures var s := p.Render() + y; s[0] != QUOTE && ReadPiece(s) == Done(p, y)
  {
  }

  lemma {:induction false} PiecesSound(s: Text)
    requires ReadPieces(s).Done?
    ensures var r := ReadPieces(s); ValidPieces(r.tree) && s == RenderPieces(r.tree) + r.rest
    decreases |s|
  {
    if s[0] != QUOTE {
      var p := ReadPiece(s);
      PieceSound(s);
      PiecesSound(p.rest);
      var more := ReadPieces(p.rest);
      assert ReadPieces(s).tree[1..] == more.tree;
      Assoc(p.tree.Render(), RenderPieces(more.tree), more.rest);
    }
  }

  lemma {:induction false} PiecesComplete(ps: seq<Piece>, y: Text)
    requires ValidPieces(ps) && Starts(y, QUOTE)
    ensures ReadPieces(RenderPieces(ps) + y) == Done(ps, y)
    decreases |ps|
  {
    if ps != [] {
      var p := ps[0];
      Assoc(p.Render(), RenderPieces(ps[1..]), y);
      PieceComplete(p, RenderPieces(ps[1..]) + y);
      PiecesComplete(ps[1..], y);
      assert ps == [p] + ps[1..];
    }
  }

  lemma {:induction false} StringSound(s: Text)
    requires ReadString(s).Done?
    ensures var r := ReadString(s); ValidPieces(r.tree) && s == RenderString(r.tree) + r.rest
  {
    var r := ReadString(s);
    PiecesSound(s[1..]);
    var body := RenderPieces(r.tree);
    Assoc([QUOTE], body + [QUOTE], r.rest);
    Assoc(body, [QUOTE], r.rest);
    assert ReadPieces(s[1..]).rest == [QUOTE] + r.rest;
    assert s == [QUOTE] + s[1..];
  }

  lemma {:induction false} StringComplete(ps: seq<Piece>, y: Text)
    requires ValidPieces(ps)
    ensures ReadString(RenderString(ps) + y) == Done(ps, y)
  {
    var body := RenderPieces(ps);
    Assoc([QUOTE], body + [QUOTE], y);
    Assoc(body, [QUOTE], y);
    PiecesComplete(ps, [QUOTE] + y);
    assert ([QUOTE] + (body + ([QUOTE] + y)))[1..] == body + ([QUOTE] + y);
  }

  // ---- Numbers ----

  lemma {:induction false} DigitSplit(s: Text)
    requires DigitsLength(s) > 0
    ensures var n := DigitsLength(s); AllDigits(s[..n]) && s == s[..n] + s[n..]
  {
  }

  lemma {:induction false} FractionSound(s: Text)
    ensures var (f, y) := ReadFraction(s); (f.Some? ==> AllDigits(f.value)) && s == RenderFraction(f) + y
  {
    var (f, y) := ReadFraction(s);
    if f.Some? {
      DigitSplit(s[1..]);
      Assoc([DOT], f.value, y);
    }
  }

  lemma {:induction false} FractionComplete(f: Option<Text>, y: Text)
    requires f.Some? ==> AllDigits(f.value)
    requires y == [] || !(IsDigit(y[0]) || y[0] == DOT)
    ensures ReadFraction(RenderFraction(f) + y) == (f, y)
  {
    if f.Some? {
      Assoc([DOT], f.value, y);
      DigitRun(f.value, y);
      assert ([DOT] + (f.value + y))[1..] == f.value + y;
    } else {
      assert [] + y == y;
    }
  }

  lemma {:induction false} ExponentSound(s: Text)
    ensures var (x, y) := ReadExponent(s); (x.Some? ==> x.value.Valid()) && s == RenderExponent(x) + y
  {
    var (x, y) := ReadExponent(s);
    if x.Some? {
      var sign := if x.value.sign.Some? then [x.value.sign.value] else [];
      var d := if x.value.sign.Some? then s[2..] else s[1..];
      DigitSplit(d);
      Assoc([x.value.mark], sign + x.value.digits, y);
      Assoc(sign, x.value.digits, y);
      assert s == [s[0]] + (sign + d);
    }
  }

  lemma {:induction false} ExponentComplete(x: Option<Exponent>, y: Text)
    requires (x.Some? ==> x.value.Valid()) && Ends(y)
    ensures ReadExponent(RenderExponent(x) + y) == (x, y)
  {
    if x.Some? {
      var sign := if x.value.sign.Some? then [x.value.sign.value] else [];
      var d := x.value.digits + y;
      Assoc([x.value.mark], sign + x.value.digits, y);
      Assoc(sign, x.value.digits, y);
      DigitRun(x.value.digits, y);
      assert x.value.digits[0] in x.value.digits;
      assert d[..|x.value.digits|] == x.value.digits && d[|x.value.digits|..] == y;
      ExponentStep(x.value, d);
    } else {
      assert [] + y == y;
    }
  }

  lemma {:induction false} UnsignedStep(mark: CodeUnit, d: Text)
    requires (mark == 0x65 || mark == 0x45) && d != [] && IsDigit(d[0])
    ensures var k := DigitsLength(d); ReadExponent([mark] + d) == (Some(Exponent(mark, None, d[..k])), d[k..])
  {
    Uncons(mark, d);
  }

  lemma {:induction false} SignedStep(mark: CodeUnit, sign: CodeUnit, d: Text)
    requires (mark == 0x65 || mark == 0x45) && (sign == PLUS || sign == MINUS) && d != [] && IsDigit(d[0])
    ensures var k := DigitsLength(d); ReadExponent([mark] + ([sign] + d)) == (Some(Exponent(mark, Some(sign), d[..k])), d[k..])
  {
    var s := [mark] + ([sign] + d);
    Uncons(mark, [sign] + d);
    Uncons(sign, d);
    assert s[1] == sign && s[2..] == s[1..][1..] == d;
  }

  // The digits of the exponent are all those that follow.
  lemma {:induction false} ExponentStep(x: Exponent, d: Text)
    requires x.Valid() && d != [] && IsDigit(d[0])
    ensures var k := DigitsLength(d);
      ReadExponent([x.mark] + ((if x.sign.Some? then [x.sign.value] else []) + d)) == (Some(x.(digits := d[..k])), d[k..])
  {
    if x.sign.Some? {
      SignedStep(x.mark, x.sign.value, d);
    } else {
      assert [] + d == d;
      UnsignedStep(x.mark, d);
    }
  }

  lemma {:induction false} NumberSound(s: Text)
    requires ReadNumber(s).Done?
    ensures var r := ReadNumber(s); r.tree.Valid() && s == r.tree.Render() + r.rest
  {
    var Done(n, e) := ReadNumber(s);
    var d := if n.minus then s[1..] else s;
    WholeSound(d);
    var f := d[|n.whole|..];
    FractionSound(f);
    ExponentSound(ReadFraction(f).1);
    NumberParts(n, e);
    SignSplit(s);
  }

  lemma {:induction false} SignSplit(s: Text)
    ensures s == if Starts(s, MINUS) then [MINUS] + s[1..] else [] + s
  {
  }

  lemma {:induction false} WholeSound(d: Text)
    requires d != [] && IsDigit(d[0])
    ensures var n := if d[0] == ZERO then 1 else DigitsLength(d);
      n <= |d| && AllDigits(d[..n]) && (d[0] == ZERO ==> n == 1) && d[..n][0] == d[0] && d == d[..n] + d[n..]
  {
    if d[0] != ZERO { DigitSplit(d); }
  }

  lemma {:induction false} NumberParts(n: Number, y: Text)
    ensures var sign := if n.minus then [MINUS] else [];
      n.Render() + y == sign + (n.whole + (RenderFraction(n.fraction) + (RenderExponent(n.exponent) + y)))
  {
    var sign := if n.minus then [MINUS] else [];
    var f, x := RenderFraction(n.fraction), RenderExponent(n.exponent);
    Assoc(sign, n.whole + (f + x), y);
    Assoc(n.whole, f + x, y);
    Assoc(f, x, y);
  }

  // A number is read back whole when what follows it cannot extend it.
  lemma {:induction false} NumberComplete(n: Number, y: Text)
    requires n.Valid() && Ends(y)
    ensures ReadNumber(n.Render() + y) == Done(n, y)
  {
    var x := RenderExponent(n.exponent) + y;
    var f := RenderFraction(n.fraction) + x;
    ExponentComplete(n.exponent, y);
    ExponentStart(n.exponent, y);
    FractionComplete(n.fraction, x);
    FractionStart(n.fraction, x);
    WholeComplete(n.whole, f);
    var d := n.whole + f;
    var s := (if n.minus then [MINUS] else []) + d;
    SignComplete(n.minus, d);
    NumberParts(n, y);
    NumberStep(s, n, d, f, x, y);
  }

  lemma {:induction false} NumberStep(s: Text, n: Number, d: Text, f: Text, x: Text, y: Text)
    requires Starts(s, MINUS) == n.minus && d == (if n.minus then s[1..] else s)
    requires d != [] && IsDigit(d[0])
    requires var k := if d[0] == ZERO then 1 else DigitsLength(d); d[..k] == n.whole && d[k..] == f
    requires ReadFraction(f) == (n.fraction, x) && ReadExponent(x) == (n.exponent, y)
    ensures ReadNumber(s) == Done(n, y)
  {
  }

  lemma {:induction false} ExponentStart(x: Option<Exponent>, y: Text)
    requires (x.Some? ==> x.value.Valid()) && Ends(y)
    ensures var s := RenderExponent(x) + y; s == [] || !(IsDigit(s[0]) || s[0] == DOT)
  {
  }

  lemma {:induction false} FractionStart(f: Option<Text>, y: Text)
    requires y == [] || !(IsDigit(y[0]) || y[0] == DOT)
    ensures var s := RenderFraction(f) + y; s == [] || !IsDigit(s[0])
  {
  }

  lemma {:induction false} WholeComplete(w: Text, f: Text)
    requires AllDigits(w) && (w[0] == ZERO ==> |w| == 1) && (f == [] || !IsDigit(f[0]))
    ensures var d := w + f; var k := if d[0] == ZERO then 1 else DigitsLength(d);
      IsDigit(d[0]) && d[..k] == w && d[k..] == f
  {
    assert w[0] in w;
    DigitRun(w, f);
  }

  lemma {:induction false} SignComplete(minus: bool, d: Text)
    requires d != [] && IsDigit(d[0])
    ensures var s := (if minus then [MINUS] else []) + d;
      Starts(s, MINUS) == minus && d == if minus then s[1..] else s
  {
  }

  // The text begins with this number token.
  ghost predicate BeginsWith(s: Text, n: Number, y: Text) { n.Valid() && s == n.Render() + y }

  lemma {:induction false} DigitsAtLeast(w: Text, y: Text)
    requires forall u | u in w :: IsDigit(u)
    ensures DigitsLength(w + y) >= |w|
  {
    if w == [] {
      assert w + y == y;
    } else {
      assert w[0] in w;
      assert (w + y)[1..] == w[1..] + y;
      DigitsAtLeast(w[1..], y);
    }
  }

  lemma {:induction false} ExponentLongest(x: Option<Exponent>, y: Text)
    requires x.Some? ==> x.value.Valid()
    ensures |ReadExponent(RenderExponent(x) + y).1| <= |y|
  {
    if x.Some? {
      var sign := if x.value.sign.Some? then [x.value.sign.value] else [];
      var d := x.value.digits + y;
      Assoc([x.value.mark], sign + x.value.digits, y);
      Assoc(sign, x.value.digits, y);
      DigitsAtLeast(x.value.digits, y);
      assert x.value.digits[0] in x.value.digits;
      ExponentStep(x.value, d);
    }
  }

  lemma {:induction false} FractionLongest(f: Option<Text>, x: Option<Exponent>, y: Text)
    requires (f.Some? ==> AllDigits(f.value)) && (x.Some? ==> x.value.Valid())
    ensures |ReadExponent(ReadFraction(RenderFraction(f) + (RenderExponent(x) + y)).1).1| <= |y|
  {
    var t := RenderExponent(x) + y;
    ExponentLongest(x, y);
    if f.Some? {
      Assoc([DOT], f.value, t);
      Uncons(DOT, f.value + t);
      DigitsAtLeast(f.value, t);
      if x.Some? { DigitRun(f.value, t); }
    } else {
      assert [] + t == t;
    }
  }

  lemma {:induction false} WholeLongest(w: Text, t: Text)
    requires AllDigits(w) && (w[0] == ZERO ==> |w| == 1)
    ensures var d := w + t; var k := if d[0] == ZERO then 1 else DigitsLength(d);
      IsDigit(d[0]) && |w| <= k <= |d| && (d[k..] == t || (t != [] && IsDigit(t[0])))
  {
    assert w[0] in w;
    if w[0] == ZERO {
      assert w == [ZERO];
    } else {
      DigitsAtLeast(w, t);
      if t == [] || !IsDigit(t[0]) { DigitRun(w, t); }
    }
  }

  lemma {:induction false} AfterWhole(s: Text, minus: bool, d: Text)
    requires d != [] && IsDigit(d[0]) && minus == Starts(s, MINUS) && d == if minus then s[1..] else s
    ensures var k := if d[0] == ZERO then 1 else DigitsLength(d);
      ReadNumber(s).Done? && ReadNumber(s).rest == ReadExponent(ReadFraction(d[k..]).1).1
  {
  }

  lemma {:induction false} DigitStart(f: Option<Text>, x: Option<Exponent>, y: Text)
    requires (f.Some? ==> AllDigits(f.value)) && (x.Some? ==> x.value.Valid())
    ensures var t := RenderFraction(f) + (RenderExponent(x) + y); t != [] && IsDigit(t[0]) ==> t == y
  {
  }

  // A number token at the beginning of a text is read, and at least as much of the text with it: what is
  // read is the longest such token.
  lemma {:induction false} NumberLongest(s: Text, n: Number, y: Text)
    requires BeginsWith(s, n, y)
    ensures ReadNumber(s).Done? && |ReadNumber(s).rest| <= |y|
  {
    var t := RenderFraction(n.fraction) + (RenderExponent(n.exponent) + y);
    var d := n.whole + t;
    NumberParts(n, y);
    WholeLongest(n.whole, t);
    SignComplete(n.minus, d);
    AfterWhole(s, n.minus, d);
    FractionLongest(n.fraction, n.exponent, y);
    DigitStart(n.fraction, n.exponent, y);
  }

  // ---- Trees ----

  lemma {:induction false} Framed(a: Text, b: Text, c: Text, y: Text)
    ensures (a + (b + c)) + y == a + (b + (c + y))
  {
    Assoc(a, b + c, y);
    Assoc(b, c, y);
  }

  lemma {:induction false} Uncons(u: CodeUnit, w: Text)
    ensures var s := [u] + w; Starts(s, u) && s[1..] == w
  {
  }

  lemma {:induction false} Cons(s: Text)
    requires s != []
    ensures s == [s[0]] + s[1..]
  {
  }

  // An opening character, blanks, and a body that is read to its end.
  lemma {:induction false} Opened(open: CodeUnit, s: Text, blank: Text, body: Text, y: Text)
    requires Starts(s, open) && Blank(s[1..]) == blank && AfterBlank(s[1..]) == body + y
    ensures AllBlank(blank) && s == ([open] + (blank + body)) + y
  {
    Cons(s);
    BlankSplit(s[1..]);
    Framed([open], blank, body, y);
  }

  lemma {:induction false} ValueSound(s: Text)
    requires ReadValue(s).Done?
    ensures var r := ReadValue(s); WellFormed(r.tree) && s == Render(r.tree) + r.rest
    decreases |s|, 1
  {
    if Starts(s, LBRACE) {
      ObjectSound(s);
    } else if Starts(s, LBRACKET) {
      ArraySound(s);
    } else if Starts(s, QUOTE) {
      StringSound(s);
    } else if ReadValue(s).tree.TNumber? {
      NumberSound(s);
    } else {
      LiteralSound(s);
    }
  }

  lemma {:induction false} ObjectSound(s: Text)
    requires Starts(s, LBRACE) && ReadObject(s).Done?
    ensures var r := ReadObject(s); WellFormed(r.tree) && s == Render(r.tree) + r.rest
    decreases |s|, 0
  {
    var Done(t, y) := ReadObject(s);
    var u := AfterBlank(s[1..]);
    if t.TObject? {
      MembersSound(u);
      Opened(LBRACE, s, t.before, RenderMembers(t.members), y);
    } else {
      Cons(u);
      Opened(LBRACE, s, t.blank, [RBRACE], y);
    }
  }

  lemma {:induction false} ArraySound(s: Text)
    requires Starts(s, LBRACKET) && ReadArray(s).Done?
    ensures var r := ReadArray(s); WellFormed(r.tree) && s == Render(r.tree) + r.rest
    decreases |s|, 0
  {
    var Done(t, y) := ReadArray(s);
    var u := AfterBlank(s[1..]);
    if t.TArray? {
      ElementsSound(u);
      Opened(LBRACKET, s, t.before, RenderElements(t.elements), y);
    } else {
      Cons(u);
      Opened(LBRACKET, s, t.blank, [RBRACKET], y);
    }
  }

  lemma {:induction false} LiteralSound(s: Text)
    requires ReadValue(s).Done? && ReadValue(s).tree in {TNull, TTrue, TFalse}
    ensures s == Render(ReadValue(s).tree) + ReadValue(s).rest
  {
  }

  lemma {:induction false} CommaFramed(v: Text, after: Text, before: Text, rest: Text, y: Text)
    ensures (v + (after + ([COMMA] + (before + rest)))) + y == v + (after + ([COMMA] + (before + (rest + y))))
  {
    Framed(v, after, [COMMA] + (before + rest), y);
    Framed([COMMA], before, rest, y);
  }

  // Blanks, a comma and blanks again.
  lemma {:induction false} CommaSplit(a: Text)
    requires Starts(AfterBlank(a), COMMA)
    ensures var w := AfterBlank(a);
      && AllBlank(Blank(a)) && AllBlank(Blank(w[1..]))
      && a == Blank(a) + ([COMMA] + (Blank(w[1..]) + AfterBlank(w[1..])))
  {
    BlankSplit(a);
    Cons(AfterBlank(a));
    BlankSplit(AfterBlank(a)[1..]);
  }

  lemma {:induction false} CloseSplit(a: Text, close: CodeUnit)
    requires Starts(AfterBlank(a), close)
    ensures AllBlank(Blank(a)) && a == Blank(a) + ([close] + AfterBlank(a)[1..])
  {
    BlankSplit(a);
    Cons(AfterBlank(a));
  }

  lemma {:induction false} ElementsSound(s: Text)
    requires ReadElements(s).Done?
    ensures var r := ReadElements(s); WellFormedElements(r.tree) && s == RenderElements(r.tree) + r.rest
    decreases |s|, 2
  {
    var Done(es, y) := ReadElements(s);
    ValueSound(s);
    var a := ReadValue(s).rest;
    match es
    case LastElement(v, blank) =>
      CloseSplit(a, RBRACKET);
      Framed(Render(v), blank, [RBRACKET], y);
    case MoreElements(v, blank, before, rest) =>
      CommaSplit(a);
      ElementsSound(AfterBlank(AfterBlank(a)[1..]));
      CommaFramed(Render(v), blank, before, RenderElements(rest), y);
  }

  function RenderHead(h: Head): Text {
    RenderString(h.key) + (h.gap + ([COLON] + (h.lead + Render(h.value))))
  }

  ghost predicate WellFormedHead(h: Head) {
    ValidPieces(h.key) && AllBlank(h.gap) && AllBlank(h.lead) && WellFormed(h.value)
  }

  function HeadOf(ms: Members): Head { Head(ms.key, ms.gap, ms.lead, ms.value) }

  lemma {:induction false} HeadParts(h: Head, y: Text)
    ensures RenderHead(h) + y == RenderString(h.key) + (h.gap + ([COLON] + (h.lead + (Render(h.value) + y))))
  {
    Framed(RenderString(h.key), h.gap, [COLON] + (h.lead + Render(h.value)), y);
    Framed([COLON], h.lead, Render(h.value), y);
  }

  lemma {:induction false} MembersParts(ms: Members, y: Text)
    ensures RenderMembers(ms) + y == RenderHead(HeadOf(ms)) + (RenderTail(ms) + y)
  {
    HeadParts(HeadOf(ms), RenderTail(ms));
    Assoc(RenderHead(HeadOf(ms)), RenderTail(ms), y);
  }

  lemma {:induction false} HeadSound(s: Text)
    requires ReadHead(s).Done?
    ensures var r := ReadHead(s); s == RenderHead(r.tree) + r.rest && WellFormedHead(r.tree)
    decreases |s|, 2
  {
    var Done(h, y) := ReadHead(s);
    StringSound(s);
    var k := ReadString(s).rest;
    BlankSplit(k);
    var c := AfterBlank(k);
    Cons(c);
    BlankSplit(c[1..]);
    ValueSound(AfterBlank(c[1..]));
    HeadParts(h, y);
  }

  lemma {:induction false} MembersSound(s: Text)
    requires ReadMembers(s).Done?
    ensures var r := ReadMembers(s); WellFormedMembers(r.tree) && s == RenderMembers(r.tree) + r.rest
    decreases |s|, 3
  {
    var Done(ms, y) := ReadMembers(s);
    HeadSound(s);
    var a := ReadHead(s).rest;
    MembersParts(ms, y);
    match ms
    case LastMember(_, _, _, _, blank) =>
      CloseSplit(a, RBRACE);
      Assoc(blank, [RBRACE], y);
    case MoreMembers(_, _, _, _, blank, before, rest) =>
      CommaSplit(a);
      MembersSound(AfterBlank(AfterBlank(a)[1..]));
      TailParts(blank, before, RenderMembers(rest), y);
  }

  lemma {:induction false} TailParts(after: Text, before: Text, rest: Text, y: Text)
    ensures (after + ([COMMA] + (before + rest))) + y == after + ([COMMA] + (before + (rest + y)))
  {
    Assoc(after, [COMMA] + (before + rest), y);
    Framed([COMMA], before, rest, y);
  }

  predicate StartsValue(s: Text) {
    s != [] && (s[0] == LBRACE || s[0] == LBRACKET || s[0] == QUOTE || s[0] == MINUS || IsDigit(s[0])
      || s[0] == LETTER_T || s[0] == LETTER_F || s[0] == LETTER_N)
  }

  lemma {:induction false} StartOfValue(t: Tree, y: Text)
    requires WellFormed(t)
    ensures StartsValue(Render(t) + y)
  {
    if t.TNumber? { assert t.number.whole[0] in t.number.whole; }
  }

  lemma {:induction false} StartOfElements(es: Elements, y: Text)
    requires WellFormedElements(es)
    ensures StartsValue(RenderElements(es) + y)
  {
    StartOfValue(es.value, []);
    assert Render(es.value) + [] == Render(es.value);
  }

  lemma {:induction false} StartOfMembers(ms: Members, y: Text)
    ensures Starts(RenderMembers(ms) + y, QUOTE)
  {
  }

  // Skipping an opening character and the blanks after it.
  lemma {:induction false} Enter(open: CodeUnit, blank: Text, body: Text, y: Text)
    requires AllBlank(blank) && (body + y) != [] && !IsBlank((body + y)[0])
    ensures var s := ([open] + (blank + body)) + y;
      Starts(s, open) && Blank(s[1..]) == blank && AfterBlank(s[1..]) == body + y
  {
    Framed([open], blank, body, y);
    Uncons(open, blank + (body + y));
    BlankRun(blank, body + y);
  }

  lemma {:induction false} ValueComplete(t: Tree, y: Text)
    requires WellFormed(t) && (t.TNumber? ==> Ends(y))
    ensures ReadValue(Render(t) + y) == Done(t, y)
    decreases t, 0
  {
    var s := Render(t) + y;
    match t
    case TEmptyObject(blank) =>
      Enter(LBRACE, blank, [RBRACE], y);
      Uncons(RBRACE, y);
      EmptyStep(s, LBRACE);
    case TObject(before, ms) =>
      StartOfMembers(ms, y);
      Enter(LBRACE, before, RenderMembers(ms), y);
      MembersComplete(ms, y);
      ObjectStep(s, ms, y);
    case TEmptyArray(blank) =>
      Enter(LBRACKET, blank, [RBRACKET], y);
      Uncons(RBRACKET, y);
      EmptyStep(s, LBRACKET);
    case TArray(before, es) =>
      StartOfElements(es, y);
      Enter(LBRACKET, before, RenderElements(es), y);
      ElementsComplete(es, y);
      ArrayStep(s, es, y);
    case TString(ps) =>
      StringComplete(ps, y);
      StringStep(s, ps, y);
    case TNumber(n) =>
      StartOfNumber(n, y);
      NumberComplete(n, y);
      NumberValueStep(s, n, y);
    case _ => LiteralComplete(t, y);
  }

  lemma {:induction false} EmptyStep(s: Text, open: CodeUnit)
    requires open == LBRACE || open == LBRACKET
    requires Starts(s, open) && Starts(AfterBlank(s[1..]), if open == LBRACE then RBRACE else RBRACKET)
    ensures ReadValue(s) == Done(if open == LBRACE then TEmptyObject(Blank(s[1..])) else TEmptyArray(Blank(s[1..])), AfterBlank(s[1..])[1..])
  {
  }

  lemma {:induction false} ObjectStep(s: Text, ms: Members, y: Text)
    requires Starts(s, LBRACE) && Starts(AfterBlank(s[1..]), QUOTE) && ReadMembers(AfterBlank(s[1..])) == Done(ms, y)
    ensures ReadValue(s) == Done(TObject(Blank(s[1..]), ms), y)
  {
  }

  lemma {:induction false} ArrayStep(s: Text, es: Elements, y: Text)
    requires Starts(s, LBRACKET) && StartsValue(AfterBlank(s[1..])) && ReadElements(AfterBlank(s[1..])) == Done(es, y)
    ensures ReadValue(s) == Done(TArray(Blank(s[1..]), es), y)
  {
  }

  lemma {:induction false} StringStep(s: Text, ps: seq<Piece>, y: Text)
    requires ReadString(s) == Done(ps, y)
    ensures ReadValue(s) == Done(TString(ps), y)
  {
  }

  lemma {:induction false} NumberValueStep(s: Text, n: Number, y: Text)
    requires s != [] && (s[0] == MINUS || IsDigit(s[0])) && ReadNumber(s) == Done(n, y)
    ensures ReadValue(s) == Done(TNumber(n), y)
  {
  }

  lemma {:induction false} LiteralComplete(t: Tree, y: Text)
    requires t in {TNull, TTrue, TFalse}
    ensures ReadValue(Render(t) + y) == Done(t, y)
  {
    var s := Render(t) + y;
    assert Render(t) <= s && s[|Render(t)|..] == y && s[0] == Render(t)[0];
  }

  lemma {:induction false} StartOfNumber(n: Number, y: Text)
    requires n.Valid()
    ensures var s := n.Render() + y; s != [] && (s[0] == MINUS || IsDigit(s[0]))
  {
    assert n.whole[0] in n.whole;
  }

  // Blanks and then a closing character or a comma: a value before them ends there.
  lemma {:induction false} EndsAfter(blank: Text, u: CodeUnit, y: Text)
    requires AllBlank(blank) && (u == COMMA || u == RBRACKET || u == RBRACE)
    ensures var a := blank + ([u] + y);
      Ends(a) && Blank(a) == blank && AfterBlank(a) == [u] + y && Starts(AfterBlank(a), u) && AfterBlank(a)[1..] == y
  {
    BlankRun(blank, [u] + y);
    Uncons(u, y);
    if blank != [] { assert blank[0] in blank; }
  }

  lemma {:induction false} ElementsComplete(es: Elements, y: Text)
    requires WellFormedElements(es)
    ensures ReadElements(RenderElements(es) + y) == Done(es, y)
    decreases es
  {
    var s := RenderElements(es) + y;
    match es
    case LastElement(v, after) =>
      var a := after + ([RBRACKET] + y);
      Framed(Render(v), after, [RBRACKET], y);
      EndsAfter(after, RBRACKET, y);
      ValueComplete(v, a);
      LastElementStep(s, v, a);
    case MoreElements(v, after, before, rest) =>
      var u := RenderElements(rest) + y;
      var a := after + ([COMMA] + (before + u));
      CommaFramed(Render(v), after, before, RenderElements(rest), y);
      EndsAfter(after, COMMA, before + u);
      ValueComplete(v, a);
      StartOfElements(rest, y);
      BlankRun(before, u);
      ElementsComplete(rest, y);
      MoreElementsStep(s, v, a, rest, y);
  }

  lemma {:induction false} LastElementStep(s: Text, v: Tree, a: Text)
    requires ReadValue(s) == Done(v, a) && Starts(AfterBlank(a), RBRACKET)
    ensures ReadElements(s) == Done(LastElement(v, Blank(a)), AfterBlank(a)[1..])
  {
  }

  lemma {:induction false} MoreElementsStep(s: Text, v: Tree, a: Text, rest: Elements, y: Text)
    requires ReadValue(s) == Done(v, a) && |a| < |s| && Starts(AfterBlank(a), COMMA)
    requires ReadElements(AfterBlank(AfterBlank(a)[1..])) == Done(rest, y)
    ensures ReadElements(s) == Done(MoreElements(v, Blank(a), Blank(AfterBlank(a)[1..]), rest), y)
  {
  }

  lemma {:induction false} HeadComplete(h: Head, y: Text)
    requires WellFormedHead(h) && Ends(y)
    ensures ReadHead(RenderHead(h) + y) == Done(h, y)
    decreases h.value, 1
  {
    var l := Render(h.value) + y;
    var k := h.gap + ([COLON] + (h.lead + l));
    HeadParts(h, y);
    StringComplete(h.key, k);
    BlankRun(h.gap, [COLON] + (h.lead + l));
    Uncons(COLON, h.lead + l);
    StartOfValue(h.value, y);
    BlankRun(h.lead, l);
    ValueComplete(h.value, y);
    HeadStep(RenderHead(h) + y, h, k, y);
  }

  lemma {:induction false} HeadStep(s: Text, h: Head, k: Text, y: Text)
    requires ReadString(s) == Done(h.key, k) && h.gap == Blank(k) && Starts(AfterBlank(k), COLON)
    requires h.lead == Blank(AfterBlank(k)[1..]) && ReadValue(AfterBlank(AfterBlank(k)[1..])) == Done(h.value, y)
    ensures ReadHead(s) == Done(h, y)
  {
  }

  lemma {:induction false} MembersComplete(ms: Members, y: Text)
    requires WellFormedMembers(ms)
    ensures ReadMembers(RenderMembers(ms) + y) == Done(ms, y)
    decreases ms
  {
    var s := RenderMembers(ms) + y;
    MembersParts(ms, y);
    match ms
    case LastMember(_, _, _, _, after) =>
      var a := after + ([RBRACE] + y);
      Assoc(after, [RBRACE], y);
      EndsAfter(after, RBRACE, y);
      HeadComplete(HeadOf(ms), a);
      LastMemberStep(s, HeadOf(ms), a);
    case MoreMembers(_, _, _, _, after, before, rest) =>
      var u := RenderMembers(rest) + y;
      var a := after + ([COMMA] + (before + u));
      TailParts(after, before, RenderMembers(rest), y);
      EndsAfter(after, COMMA, before + u);
      HeadComplete(HeadOf(ms), a);
      StartOfMembers(rest, y);
      BlankRun(before, u);
      MembersComplete(rest, y);
      MoreMembersStep(s, HeadOf(ms), a, rest, y);
  }

  lemma {:induction false} LastMemberStep(s: Text, h: Head, a: Text)
    requires ReadHead(s) == Done(h, a) && Starts(AfterBlank(a), RBRACE)
    ensures ReadMembers(s) == Done(LastMember(h.key, h.gap, h.lead, h.value, Blank(a)), AfterBlank(a)[1..])
  {
  }

  lemma {:induction false} MoreMembersStep(s: Text, h: Head, a: Text, rest: Members, y: Text)
    requires ReadHead(s) == Done(h, a) && Starts(AfterBlank(a), COMMA)
    requires ReadMembers(AfterBlank(AfterBlank(a)[1..])) == Done(rest, y)
    ensures ReadMembers(s) == Done(MoreMembers(h.key, h.gap, h.lead, h.value, Blank(a), Blank(AfterBlank(a)[1..]), rest), y)
  {
  }

  // The reader is exact on whole texts: it accepts the texts of the grammar, each with its only tree.
  lemma {:induction false} DocumentExact(s: Text, d: Document)
    ensures ReadDocument(s) == Some(d) <==> WellFormedDocument(d) && RenderDocument(d) == s
  {
    if ReadDocument(s) == Some(d) {
      BlankSplit(s);
      ValueSound(AfterBlank(s));
      BlankSplit(d.after);
      assert d.after == Blank(d.after);
    }
    if WellFormedDocument(d) && RenderDocument(d) == s {
      StartOfValue(d.root, d.after);
      BlankRun(d.before, Render(d.root) + d.after);
      if d.after != [] { assert d.after[0] in d.after; }
      ValueComplete(d.root, d.after);
      BlankRun(d.after, []);
      assert d.after + [] == d.after;
    }
  }
}
