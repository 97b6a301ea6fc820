// The tokens of RFC 8259 in characters: how each code unit of a string may be spelled (section 7), which
// texts are numbers (section 6), and what the blanks and the three names are (sections 2 and 3).
module JsonSpelling {
  import opened Options
  import opened CodeUnits
  import opened JsonGrammar
  import opened JsonReader

  // ---- Strings ----

  const LOWER := "0123456789abcdef"
  const UPPER := "0123456789ABCDEF"

  // x is a digit of base 16, in either case, for the d-th value.
  predicate IsDigitOf(x: CodeUnit, d: nat)
    requires d < 16
  {
    x == LOWER[d] as int || x == UPPER[d] as int
  }

  // The letters that may follow a reverse solidus, and what they stand for.
  const SHORT: seq<(char, int)> := [('\"', 0x22), ('\\', 0x5C), ('/', 0x2F), ('b', 0x08), ('f', 0x0C), ('n', 0x0A), ('r', 0x0D), ('t', 0x09)]

  predicate IsPlain(w: Text, u: CodeUnit) { w == [u] && u >= 0x20 && u != '\"' as int && u != '\\' as int }

  predicate IsShort(w: Text, u: CodeUnit) {
    |w| == 2 && w[0] == '\\' as int && exists k :: 0 <= k < |SHORT| && w[1] == SHORT[k].0 as int && u == SHORT[k].1
  }

  predicate IsLong(w: Text, u: CodeUnit) {
    && |w| == 6 && w[0] == '\\' as int && w[1] == 'u' as int
    && IsDigitOf(w[2], u / 0x1000) && IsDigitOf(w[3], u / 0x100 % 0x10) && IsDigitOf(w[4], u / 0x10 % 0x10) && IsDigitOf(w[5], u % 0x10)
  }

  predicate SpellsUnit(w: Text, u: CodeUnit) { IsPlain(w, u) || IsShort(w, u) || IsLong(w, u) }

  ghost predicate Spells(ws: seq<Text>, t: Text) {
    |ws| == |t| && forall i | 0 <= i < |ws| :: SpellsUnit(ws[i], t[i])
  }

  function Joined(ws: seq<Text>): Text {
    if ws == [] then [] else ws[0] + Joined(ws[1..])
  }

  function Quoted(ws: seq<Text>): Text { ['\"' as int] + (Joined(ws) + ['\"' as int]) }

  // Each value has one digit of base 16, up to its case.
  lemma {:induction false} DigitIs(x: CodeUnit, d: nat)
    requires d < 16
    ensures IsDigitOf(x, d) <==> IsHex(x) && HexValue(x) == d
  {
    if d < 10 {
      assert LOWER[d] as int == 0x30 + d == UPPER[d] as int by { DigitCodes(d); }
    } else {
      assert LOWER[d] as int == 0x61 + (d - 10) && UPPER[d] as int == 0x41 + (d - 10) by { LetterCodes(d); }
    }
  }

  lemma {:induction false} DigitCodes(d: nat)
    requires d < 10
    ensures LOWER[d] as int == 0x30 + d == UPPER[d] as int
  {
  }

  lemma {:induction false} LetterCodes(d: nat)
    requires 10 <= d < 16
    ensures LOWER[d] as int == 0x61 + (d - 10) && UPPER[d] as int == 0x41 + (d - 10)
  {
  }

  lemma {:induction false} LongIs(p: Piece, u: CodeUnit)
    requires p.Unicode?
    ensures IsLong(p.Render(), u) <==> p.Valid() && p.Unit() == u
  {
    DigitIs(p.a, u / 0x1000);
    DigitIs(p.b, u / 0x100 % 0x10);
    DigitIs(p.c, u / 0x10 % 0x10);
    DigitIs(p.d, u % 0x10);
    DigitsOfUnit(u);
    if p.Valid() { BaseSixteen(HexValue(p.a), HexValue(p.b), HexValue(p.c), HexValue(p.d), u); }
  }

  lemma {:induction false} DigitsOfUnit(u: CodeUnit)
    ensures u == u / 0x1000 * 0x1000 + u / 0x100 % 0x10 * 0x100 + u / 0x10 % 0x10 * 0x10 + u % 0x10
  {
    var one := u / 0x10;
    var two := one / 0x10;
    assert u / 0x100 == two && u / 0x1000 == two / 0x10;
  }

  lemma {:induction false} BaseSixteen(a: nat, b: nat, c: nat, d: nat, u: nat)
    requires a < 16 && b < 16 && c < 16 && d < 16
    ensures u == a * 0x1000 + b * 0x100 + c * 0x10 + d ==>
      u / 0x1000 == a && u / 0x100 % 0x10 == b && u / 0x10 % 0x10 == c && u % 0x10 == d
  {
    if u == a * 0x1000 + b * 0x100 + c * 0x10 + d {
      assert u % 0x10 == d && u / 0x10 == a * 0x100 + b * 0x10 + c;
      assert u / 0x100 == a * 0x10 + b;
    }
  }

  lemma {:induction false} ShortIs(x: CodeUnit, u: CodeUnit)
    ensures IsShort([BACKSLASH, x], u) <==> IsEscape(x) && Unescaped(x) == u
  {
    var w: Text := [BACKSLASH, x];
    assert SHORT[0] == ('\"', 0x22) && SHORT[1] == ('\\', 0x5C) && SHORT[2] == ('/', 0x2F) && SHORT[3] == ('b', 0x08);
    assert SHORT[4] == ('f', 0x0C) && SHORT[5] == ('n', 0x0A) && SHORT[6] == ('r', 0x0D) && SHORT[7] == ('t', 0x09);
  }

  // A piece renders the spellings of its unit, and every spelling is rendered by some piece.
  lemma {:induction false} PieceSpells(p: Piece)
    requires p.Valid()
    ensures SpellsUnit(p.Render(), p.Unit())
  {
    match p
    case Plain(_) =>
    case Escaped(x) => ShortIs(x, p.Unit());
    case Unicode(_, _, _, _) => LongIs(p, p.Unit());
  }

  lemma {:induction false} SpelledByPiece(w: Text, u: CodeUnit) returns (p: Piece)
    requires SpellsUnit(w, u)
    ensures p.Valid() && p.Render() == w && p.Unit() == u
  {
    if IsPlain(w, u) {
      p := Plain(u);
    } else if IsShort(w, u) {
      p := Escaped(w[1]);
      assert w == [BACKSLASH, w[1]];
      ShortIs(w[1], u);
    } else {
      p := Unicode(w[2], w[3], w[4], w[5]);
      assert w == p.Render();
      LongIs(p, u);
    }
  }

  lemma {:induction false} PiecesSpell(ps: seq<Piece>) returns (ws: seq<Text>)
    requires ValidPieces(ps)
    ensures Spells(ws, Decode(ps)) && Joined(ws) == RenderPieces(ps)
    decreases |ps|
  {
    if ps == [] { return []; }
    var rest := PiecesSpell(ps[1..]);
    PieceSpells(ps[0]);
    ws := [ps[0].Render()] + rest;
    forall i | 0 <= i < |ws| ensures SpellsUnit(ws[i], Decode(ps)[i]) {
      if i > 0 { assert ws[i] == rest[i - 1] && Decode(ps)[i] == Decode(ps[1..])[i - 1]; }
    }
  }

  lemma {:induction false} SpelledByPieces(ws: seq<Text>, t: Text) returns (ps: seq<Piece>)
    requires Spells(ws, t)
    ensures ValidPieces(ps) && Decode(ps) == t && RenderPieces(ps) == Joined(ws)
    decreases |ws|
  {
    if ws == [] { return []; }
    var p := SpelledByPiece(ws[0], t[0]);
    var rest := SpelledByPieces(ws[1..], t[1..]);
    ps := [p] + rest;
    assert ps[1..] == rest && t == [t[0]] + t[1..];
    assert forall i | 0 < i < |t| :: Decode(ps)[i] == rest[i - 1].Unit() == Decode(rest)[i - 1] == t[i];
  }

  // A string token and what it spells.
  ghost predicate SpellsToken(s: Text, t: Text) { exists ws :: Spells(ws, t) && s == Quoted(ws) }

  // A text is a string token with this meaning exactly when it is a spelling of it between quotes.
  lemma {:induction false} TokenSpelledExactly(s: Text, t: Text)
    ensures (exists ps :: ValidPieces(ps) && RenderString(ps) == s && Decode(ps) == t) <==> SpellsToken(s, t)
  {
    if ps :| ValidPieces(ps) && RenderString(ps) == s && Decode(ps) == t {
      var ws := PiecesSpell(ps);
      assert s == Quoted(ws);
    }
    if ws :| Spells(ws, t) && s == Quoted(ws) {
      var ps := SpelledByPieces(ws, t);
      assert RenderString(ps) == s;
    }
  }

  lemma {:induction false} TokenSpells(ps: seq<Piece>, t: Text)
    requires ValidPieces(ps)
    ensures SpellsToken(RenderString(ps), t) <==> Decode(ps) == t
  {
    TokenSpelledExactly(RenderString(ps), t);
    if SpellsToken(RenderString(ps), t) {
      var qs :| ValidPieces(qs) && RenderString(qs) == RenderString(ps) && Decode(qs) == t;
      StringComplete(ps, []);
      StringComplete(qs, []);
    }
  }

  // The keys of an object as they are written.
  function KeyTokens(ms: Members): seq<Text> {
    [RenderString(ms.key)] + if ms.LastMember? then [] else KeyTokens(ms.rest)
  }

  ghost predicate ValuesDistinct(ms: Members)
    requires WellFormedMembers(ms)
  {
    DistinctKeys(ms.value) && (ms.MoreMembers? ==> ValuesDistinct(ms.rest))
  }

  // Some token spells the text.
  ghost predicate Spelled(tokens: seq<Text>, t: Text) { exists i :: 0 <= i < |tokens| && SpellsToken(tokens[i], t) }

  // No two tokens spell the same text.
  ghost predicate SpellDifferently(tokens: seq<Text>) {
    forall i, j, t | 0 <= i < j < |tokens| && SpellsToken(tokens[i], t) :: !SpellsToken(tokens[j], t)
  }

  lemma {:induction false} SpelledFirst(first: Text, rest: seq<Text>, t: Text)
    ensures Spelled([first] + rest, t) <==> SpellsToken(first, t) || Spelled(rest, t)
  {
    var tokens := [first] + rest;
    assert tokens[0] == first;
    if i :| 0 <= i < |rest| && SpellsToken(rest[i], t) { assert tokens[i + 1] == rest[i]; }
    if i :| 0 <= i < |tokens| && SpellsToken(tokens[i], t) {
      if i > 0 { assert tokens[i] == rest[i - 1]; }
    }
  }

  lemma {:induction false} FirstDiffers(first: Text, rest: seq<Text>)
    ensures SpellDifferently([first] + rest) <==> SpellDifferently(rest) && forall t | SpellsToken(first, t) :: !Spelled(rest, t)
  {
    var tokens := [first] + rest;
    assert tokens[0] == first && forall i | 0 <= i < |rest| :: tokens[i + 1] == rest[i];
    if SpellDifferently(tokens) {
      forall i, j, t | 0 <= i < j < |rest| && SpellsToken(rest[i], t) ensures !SpellsToken(rest[j], t) {
        assert tokens[i + 1] == rest[i] && tokens[j + 1] == rest[j];
      }
      forall t, j | SpellsToken(first, t) && 0 <= j < |rest| ensures !SpellsToken(rest[j], t) {
        assert tokens[j + 1] == rest[j];
      }
    }
    if SpellDifferently(rest) && forall t | SpellsToken(first, t) :: !Spelled(rest, t) {
      forall i, j, t | 0 <= i < j < |tokens| && SpellsToken(tokens[i], t) ensures !SpellsToken(tokens[j], t) {
        assert tokens[j] == rest[j - 1];
        if i > 0 { assert tokens[i] == rest[i - 1]; }
      }
    }
  }

  lemma {:induction false} KeysUnfold(ms: Members, t: Text)
    requires WellFormedMembers(ms)
    ensures Spelled(KeyTokens(ms), t) <==> Decode(ms.key) == t || (ms.MoreMembers? && Spelled(KeyTokens(ms.rest), t))
    ensures SpellDifferently(KeyTokens(ms)) <==>
      (ms.MoreMembers? ==> SpellDifferently(KeyTokens(ms.rest)) && !Spelled(KeyTokens(ms.rest), Decode(ms.key)))
  {
    var rest := if ms.LastMember? then [] else KeyTokens(ms.rest);
    forall x ensures SpellsToken(RenderString(ms.key), x) <==> Decode(ms.key) == x { TokenSpells(ms.key, x); }
    SpelledFirst(RenderString(ms.key), rest, t);
    FirstDiffers(RenderString(ms.key), rest);
  }

  lemma {:induction false} MembersDiffer(ms: Members, seen: set<Text>)
    requires WellFormedMembers(ms)
    ensures DistinctInMembers(ms, seen) <==> ValuesDistinct(ms) && SpellDifferently(KeyTokens(ms)) && forall t | t in seen :: !Spelled(KeyTokens(ms), t)
    decreases ms
  {
    KeysUnfold(ms, Decode(ms.key));
    forall t ensures Spelled(KeyTokens(ms), t) <==> Decode(ms.key) == t || (ms.MoreMembers? && Spelled(KeyTokens(ms.rest), t)) {
      KeysUnfold(ms, t);
    }
    if ms.MoreMembers? { MembersDiffer(ms.rest, seen + {Decode(ms.key)}); }
  }

  // An object is free of duplicate keys exactly when no two of its keys, however they are spelled, spell
  // the same text, and the same holds of its values.
  lemma {:induction false} ObjectKeysDiffer(before: Text, ms: Members)
    requires AllBlank(before) && WellFormedMembers(ms)
    ensures DistinctKeys(TObject(before, ms)) <==> ValuesDistinct(ms) && SpellDifferently(KeyTokens(ms))
  {
    MembersDiffer(ms, {});
  }

  // ---- Numbers ----

  // An automaton that reads a number character by character.
  datatype NumberState = Begun | Signed | Nought | Whole | Pointed | Fractional | Marked | MarkSigned | Exponential | Stuck

  function Next(q: NumberState, u: CodeUnit): NumberState {
    var nought, nonzero, digit := u == '0' as int, '1' as int <= u <= '9' as int, '0' as int <= u <= '9' as int;
    var point, mark, sign := u == '.' as int, u == 'e' as int || u == 'E' as int, u == '+' as int || u == '-' as int;
    match q
    case Begun => if u == '-' as int then Signed else if nought then Nought else if nonzero then Whole else Stuck
    case Signed => if nought then Nought else if nonzero then Whole else Stuck
    case Nought => if point then Pointed else if mark then Marked else Stuck
    case Whole => if digit then Whole else if point then Pointed else if mark then Marked else Stuck
    case Pointed => if digit then Fractional else Stuck
    case Fractional => if digit then Fractional else if mark then Marked else Stuck
    case Marked => if digit then Exponential else if sign then MarkSigned else Stuck
    case MarkSigned => if digit then Exponential else Stuck
    case Exponential => if digit then Exponential else Stuck
    case Stuck => Stuck
  }

  function Reads(q: NumberState, s: Text): NumberState
    decreases |s|
  {
    if s == [] then q else Reads(Next(q, s[0]), s[1..])
  }

  predicate IsEnd(q: NumberState) { q == Nought || q == Whole || q == Fractional || q == Exponential }

  lemma {:induction false} ReadsOn(q: NumberState, a: Text, b: Text)
    ensures Reads(q, a + b) == Reads(Reads(q, a), b)
    decreases |a|
  {
    if a == [] {
      assert a + b == b;
    } else {
      assert (a + b)[1..] == a[1..] + b;
      ReadsOn(Next(q, a[0]), a[1..], b);
    }
  }

  // Digits keep the state, once it is one that digits do not leave.
  lemma {:induction false} ReadsDigits(q: NumberState, w: Text)
    requires (forall u | u in w :: IsDigit(u)) && (q == Whole || q == Fractional || q == Exponential)
    ensures Reads(q, w) == q
    decreases |w|
  {
    if w != [] {
      assert IsDigit(w[0]);
      ReadsDigits(q, w[1..]);
    }
  }

  lemma {:induction false} ReadsWhole(n: Number)
    requires n.Valid()
    ensures var q := Reads(if n.minus then Signed else Begun, n.whole); q == if n.whole[0] == ZERO then Nought else Whole
  {
    assert n.whole[0] in n.whole;
    if n.whole[0] != ZERO { ReadsDigits(Whole, n.whole[1..]); } else { assert n.whole[1..] == []; }
  }

  lemma {:induction false} ReadsFraction(q: NumberState, f: Text)
    requires AllDigits(f) && (q == Nought || q == Whole)
    ensures Reads(q, RenderFraction(Some(f))) == Fractional
  {
    assert f[0] in f && ([DOT] + f)[1..] == f;
    ReadsDigits(Fractional, f[1..]);
  }

  lemma {:induction false} ReadsExponent(q: NumberState, x: Exponent)
    requires x.Valid() && (q == Nought || q == Whole || q == Fractional)
    ensures Reads(q, RenderExponent(Some(x))) == Exponential
  {
    var s := (if x.sign.Some? then [x.sign.value] else []) + x.digits;
    assert ([x.mark] + s)[1..] == s && x.digits[0] in x.digits;
    ReadsDigits(Exponential, x.digits[1..]);
    assert Reads(q, RenderExponent(Some(x))) == Reads(Marked, s);
    if x.sign.Some? {
      assert s[1..] == x.digits;
      assert Reads(Marked, s) == Reads(MarkSigned, x.digits);
    } else {
      assert s == x.digits;
    }
  }

  lemma {:induction false} NumberIsRead(n: Number)
    requires n.Valid()
    ensures IsEnd(Reads(Begun, n.Render()))
  {
    var front, f, x := (if n.minus then [MINUS] else []) + n.whole, RenderFraction(n.fraction), RenderExponent(n.exponent);
    assert n.Render() == front + (f + x);
    ReadsOn(Begun, if n.minus then [MINUS] else [], n.whole);
    assert n.minus ==> Reads(Begun, [MINUS]) == Reads(Signed, [MINUS][1..]) == Signed;
    ReadsWhole(n);
    var q := Reads(Begun, front);
    ReadsOn(Begun, front, f + x);
    ReadsOn(q, f, x);
    if n.fraction.Some? { ReadsFraction(q, n.fraction.value); }
    if n.exponent.Some? { ReadsExponent(Reads(q, f), n.exponent.value); }
  }

  // What was read so far of a number, in each state.
  ghost predicate Partial(q: NumberState, s: Text, n: Number, tail: Text) {
    match q
    case Begun => s == []
    case Signed => s == [MINUS]
    case Nought => n.Valid() && s == n.Render() && n.fraction.None? && n.exponent.None? && n.whole[0] == ZERO
    case Whole => n.Valid() && s == n.Render() && n.fraction.None? && n.exponent.None? && n.whole[0] != ZERO
    case Pointed => n.Valid() && s == n.Render() + [DOT] && n.fraction.None? && n.exponent.None?
    case Fractional => n.Valid() && s == n.Render() && n.fraction.Some? && n.exponent.None?
    case Marked => n.Valid() && s == n.Render() + tail && n.exponent.None? && |tail| == 1 && (tail[0] == 0x65 || tail[0] == 0x45)
    case MarkSigned =>
      && n.Valid() && s == n.Render() + tail && n.exponent.None? && |tail| == 2 && (tail[0] == 0x65 || tail[0] == 0x45)
      && (tail[1] == PLUS || tail[1] == MINUS)
    case Exponential => n.Valid() && s == n.Render() && n.exponent.Some?
    case Stuck => true
  }

  lemma {:induction false} OneMoreDigit(w: Text, u: CodeUnit)
    requires AllDigits(w) && IsDigit(u)
    ensures AllDigits(w + [u]) && (w + [u])[0] == w[0]
  {
  }

  // The number with one more digit at its end.
  function Extended(n: Number, u: CodeUnit): Number {
    if n.exponent.Some? then n.(exponent := Some(n.exponent.value.(digits := n.exponent.value.digits + [u])))
    else if n.fraction.Some? then n.(fraction := Some(n.fraction.value + [u]))
    else n.(whole := n.whole + [u])
  }

  lemma {:induction false} AppendFour(a: Text, b: Text, c: Text, d: Text, e: Text)
    ensures (a + (b + (c + d))) + e == a + (b + (c + (d + e)))
  {
  }

  lemma {:induction false} ExtendedIs(n: Number, u: CodeUnit)
    requires n.Valid() && IsDigit(u) && (n.fraction.Some? || n.exponent.Some? || n.whole[0] != ZERO)
    ensures Extended(n, u).Valid() && Extended(n, u).Render() == n.Render() + [u]
  {
    var sign, f, x: Text := if n.minus then [MINUS] else [], RenderFraction(n.fraction), RenderExponent(n.exponent);
    AppendFour(sign, n.whole, f, x, [u]);
    if n.exponent.Some? {
      OneMoreDigit(n.exponent.value.digits, u);
      ExponentLonger(n.exponent.value, u);
    } else if n.fraction.Some? {
      OneMoreDigit(n.fraction.value, u);
      assert ([DOT] + n.fraction.value) + [u] == [DOT] + (n.fraction.value + [u]);
      assert f + ([] + [u]) == (f + [u]) + [];
    } else {
      OneMoreDigit(n.whole, u);
      assert n.whole + ([] + ([] + [u])) == (n.whole + [u]) + ([] + []);
    }
  }

  lemma {:induction false} ExponentLonger(x: Exponent, u: CodeUnit)
    ensures RenderExponent(Some(x.(digits := x.digits + [u]))) == RenderExponent(Some(x)) + [u]
  {
    var sign: Text := if x.sign.Some? then [x.sign.value] else [];
    assert ([x.mark] + (sign + x.digits)) + [u] == [x.mark] + (sign + (x.digits + [u]));
  }

  lemma {:induction false} StartedFraction(n: Number, u: CodeUnit)
    requires n.Valid() && IsDigit(u) && n.fraction.None? && n.exponent.None?
    ensures var m := n.(fraction := Some([u])); m.Valid() && m.Render() == (n.Render() + [DOT]) + [u]
  {
    assert RenderFraction(Some([u])) == [DOT] + [u];
    var sign := if n.minus then [MINUS] else [];
    assert n.Render() == sign + n.whole;
  }

  lemma {:induction false} StartedExponent(n: Number, tail: Text, u: CodeUnit) returns (m: Number)
    requires n.Valid() && IsDigit(u) && n.exponent.None? && 1 <= |tail| <= 2 && (tail[0] == 0x65 || tail[0] == 0x45)
    requires |tail| == 2 ==> tail[1] == PLUS || tail[1] == MINUS
    ensures m.Valid() && m.exponent.Some? && m.Render() == (n.Render() + tail) + [u]
  {
    var x := Exponent(tail[0], if |tail| == 2 then Some(tail[1]) else None, [u]);
    m := n.(exponent := Some(x));
    TailStarts(tail, u);
    var sign: Text := if n.minus then [MINUS] else [];
    AppendFour(sign, n.whole, RenderFraction(n.fraction), [], tail + [u]);
    assert [] + (tail + [u]) == tail + [u] && n.Render() + (tail + [u]) == (n.Render() + tail) + [u];
  }

  lemma {:induction false} TailStarts(tail: Text, u: CodeUnit)
    requires 1 <= |tail| <= 2
    ensures RenderExponent(Some(Exponent(tail[0], if |tail| == 2 then Some(tail[1]) else None, [u]))) == tail + [u]
  {
    if |tail| == 2 { assert tail == [tail[0]] + [tail[1]]; } else { assert tail == [tail[0]] + []; }
  }

  lemma {:induction false} PartialStep(q: NumberState, s: Text, n: Number, tail: Text, u: CodeUnit) returns (m: Number, more: Text)
    requires Partial(q, s, n, tail)
    ensures Partial(Next(q, u), s + [u], m, more)
  {
    m, more := n, [];
    var next := Next(q, u);
    if next == Stuck { return; }
    match q {
      case Begun =>
        m := Number(false, [u], None, None);
        if next != Signed { assert m.Render() == [u]; }
      case Signed =>
        m := Number(true, [u], None, None);
        assert m.Render() == [MINUS] + [u];
      case Nought => more := [u];
      case Whole =>
        more := [u];
        if next == Whole {
          ExtendedIs(n, u);
          m := Extended(n, u);
        }
      case Pointed =>
        StartedFraction(n, u);
        m := n.(fraction := Some([u]));
      case Fractional =>
        more := [u];
        if next == Fractional {
          ExtendedIs(n, u);
          m := Extended(n, u);
        }
      case Marked =>
        if next == MarkSigned {
          more := tail + [u];
        } else {
          m := StartedExponent(n, tail, u);
        }
      case MarkSigned => m := StartedExponent(n, tail, u);
      case Exponential =>
        ExtendedIs(n, u);
        m := Extended(n, u);
    }
  }

  lemma {:induction false} ReadIsPartial(s: Text) returns (n: Number, tail: Text)
    ensures Partial(Reads(Begun, s), s, n, tail)
    decreases |s|
  {
    n, tail := Number(false, [], None, None), [];
    if s != [] {
      var front, u := s[..|s| - 1], s[|s| - 1];
      assert s == front + [u];
      n, tail := ReadIsPartial(front);
      ReadsOn(Begun, front, [u]);
      assert Reads(Reads(Begun, front), [u]) == Next(Reads(Begun, front), u);
      n, tail := PartialStep(Reads(Begun, front), front, n, tail, u);
    }
  }

  // The number tokens are exactly the texts that the automaton accepts.
  lemma {:induction false} NumbersExactly(s: Text)
    ensures IsEnd(Reads(Begun, s)) <==> exists n: Number :: n.Valid() && n.Render() == s
  {
    if IsEnd(Reads(Begun, s)) {
      var n, tail := ReadIsPartial(s);
    }
    if n: Number :| n.Valid() && n.Render() == s { NumberIsRead(n); }
  }

  // ---- Blanks, names and punctuation ----

  lemma {:induction false} TokensAre(w: Text)
    ensures AllBlank(w) <==> forall u | u in w :: u == ' ' as int || u == '\t' as int || u == '\r' as int || u == '\n' as int
    ensures TRUE == Ascii("true") && FALSE == Ascii("false") && NULL == Ascii("null")
    ensures [LBRACE, RBRACE, LBRACKET, RBRACKET, COLON, COMMA] == Ascii("{}[]:,")
  {
  }
}
