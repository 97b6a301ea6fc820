// JavaScript strings as sequences of 16-bit code units, and the code-unit order `<` on them.
module CodeUnits {

  type CodeUnit = u: int | 0 <= u < 0x1_0000

  type Text = seq<CodeUnit>

  // Code-unit order: the `<` of ECMAScript strings.
  predicate Less(a: Text, b: Text) {
    b != [] && (a == [] || a[0] < b[0] || (a[0] == b[0] && Less(a[1..], b[1..])))
  }

  // The order is decided where the texts first differ, and a proper prefix comes first.
  lemma {:induction false} LessExactly(a: Text, b: Text)
    ensures Less(a, b) <==> exists k :: 0 <= k <= |a| && k < |b| && a[..k] == b[..k] && (k == |a| || a[k] < b[k])
  {
    if Less(a, b) {
      var k := LessFrom(a, b);
    }
    if k :| 0 <= k <= |a| && k < |b| && a[..k] == b[..k] && (k == |a| || a[k] < b[k]) { DiffersAt(a, b, k); }
  }

  lemma {:induction false} LessFrom(a: Text, b: Text) returns (k: nat)
    requires Less(a, b)
    ensures k <= |a| && k < |b| && a[..k] == b[..k] && (k == |a| || a[k] < b[k])
  {
    k := 0;
    if a != [] && a[0] == b[0] {
      var rest := LessFrom(a[1..], b[1..]);
      k := rest + 1;
      assert a[..k] == [a[0]] + a[1..][..rest] && b[..k] == [b[0]] + b[1..][..rest];
    }
  }

  lemma {:induction false} DiffersAt(a: Text, b: Text, k: nat)
    requires k <= |a| && k < |b| && a[..k] == b[..k] && (k == |a| || a[k] < b[k])
    ensures Less(a, b)
  {
    if k > 0 {
      assert a[0] == a[..k][0] == b[..k][0] == b[0];
      assert a[1..][..k - 1] == a[..k][1..] == b[..k][1..] == b[1..][..k - 1];
      DiffersAt(a[1..], b[1..], k - 1);
    }
  }

  lemma {:induction false} LessTotal(a: Text, b: Text)
    ensures Less(a, b) || a == b || Less(b, a)
    ensures !(Less(a, b) && Less(b, a))
    ensures !Less(a, a)
  {
    if a != [] {
      LessTotal(a[1..], if b == [] then [] else b[1..]);
      if b != [] && a[0] == b[0] && a[1..] == b[1..] {
        assert a == [a[0]] + a[1..] == [b[0]] + b[1..] == b;
      }
    }
  }

  lemma {:induction false} LessTransitive(a: Text, b: Text, c: Text)
    requires Less(a, b) && Less(b, c)
    ensures Less(a, c)
  {
    if a != [] && a[0] == b[0] == c[0] {
      LessTransitive(a[1..], b[1..], c[1..]);
    }
  }

  predicate StrictlySorted(keys: seq<Text>) {
    forall i, j | 0 <= i < j < |keys| :: Less(keys[i], keys[j])
  }

  lemma {:induction false} SortedIsUnique(a: seq<Text>, b: seq<Text>)
    requires StrictlySorted(a) && StrictlySorted(b)
    requires forall x :: x in a <==> x in b
    ensures a == b
  {
    if a == [] || b == [] {
      HasMember(a);
      HasMember(b);
    } else {
      FirstIsLeast(a);
      FirstIsLeast(b);
      assert a[0] in b && b[0] in a;
      LessTotal(a[0], b[0]);
      assert a[0] == b[0];
      forall x ensures x in a[1..] <==> x in b[1..] {
        assert x in a <==> x == a[0] || x in a[1..];
        assert x in b <==> x == b[0] || x in b[1..];
        LessTotal(a[0], a[0]);
      }
      SortedIsUnique(a[1..], b[1..]);
      assert a == [a[0]] + a[1..];
    }
  }

  lemma {:induction false} HasMember(a: seq<Text>)
    ensures a == [] || exists x :: x in a
  {
    if a != [] {
      assert a[0] in a;
    }
  }

  lemma {:induction false} FirstIsLeast(a: seq<Text>)
    requires StrictlySorted(a) && a != []
    ensures forall x | x in a :: x == a[0] || Less(a[0], x)
  {
    forall x | x in a ensures x == a[0] || Less(a[0], x) {
      var i :| 0 <= i < |a| && a[i] == x;
    }
  }

  // The least key of a non-empty set.
  lemma {:induction false} LeastExists(keys: set<Text>)
    requires keys != {}
    ensures exists k :: IsLeast(k, keys)
  {
    var x :| x in keys;
    if keys == {x} {
      assert IsLeast(x, keys);
    } else {
      var others := keys - {x};
      LeastExists(others);
      var y :| IsLeast(y, others);
      LessTotal(x, y);
      if Less(x, y) {
        forall z | z in keys && z != x ensures Less(x, z) {
          if z != y { LessTransitive(x, y, z); }
        }
        assert IsLeast(x, keys);
      } else {
        assert IsLeast(y, keys);
      }
    }
  }

  lemma {:induction false} LeastUnique(keys: set<Text>)
    ensures forall j, k | IsLeast(j, keys) && IsLeast(k, keys) :: j == k
  {
    forall j, k | IsLeast(j, keys) && IsLeast(k, keys) ensures j == k {
      LessTotal(j, k);
    }
  }

  predicate IsLeast(k: Text, keys: set<Text>) {
    k in keys && forall z | z in keys && z != k :: Less(k, z)
  }

  // `Object.keys(value).sort(compareUtf16)`: the keys in code-unit order.
  function SortedKeys(keys: set<Text>): (r: seq<Text>)
    ensures StrictlySorted(r)
    ensures forall k :: k in r <==> k in keys
  {
    if keys == {} then [] else
      LeastExists(keys);
      LeastUnique(keys);
      var k :| k in keys && IsLeast(k, keys);
      [k] + SortedKeys(keys - {k})
  }

  // ---- Literals and blanks ----

  function Ascii(s: string): Text {
    seq(|s|, i requires 0 <= i < |s| => s[i] as int % 0x1_0000)
  }

  predicate IsWhitespace(u: CodeUnit) {
    0x09 <= u <= 0x0D || u == 0x20 || u == 0xA0 || u == 0x1680 || 0x2000 <= u <= 0x200A || u == 0x2028 || u == 0x2029 ||
    u == 0x202F || u == 0x205F || u == 0x3000 || u == 0xFEFF
  }

  predicate AllWhitespace(t: Text) { forall i | 0 <= i < |t| :: IsWhitespace(t[i]) }

  // The `trim` of ECMAScript strings.
  function TrimStart(t: Text): Text
    decreases |t|
  {
    if t != [] && IsWhitespace(t[0]) then TrimStart(t[1..]) else t
  }

  function TrimEnd(t: Text): Text
    decreases |t|
  {
    if t != [] && IsWhitespace(t[|t| - 1]) then TrimEnd(t[..|t| - 1]) else t
  }

  function Trim(t: Text): Text { TrimEnd(TrimStart(t)) }

  // White space and line ends of ECMAScript: tab, line tab, form feed, the space characters, the byte
  // order mark, and the ends of lines.
  lemma {:induction false} WhitespaceExactly(u: CodeUnit)
    ensures IsWhitespace(u) <==>
      || u == '\t' as int || u == '\n' as int || u == '\U{000B}' as int || u == '\U{000C}' as int || u == '\r' as int || u == ' ' as int
      || u == '\U{00A0}' as int || u == '\U{FEFF}' as int || u == '\U{2028}' as int || u == '\U{2029}' as int
      || u == '\U{1680}' as int || '\U{2000}' as int <= u <= '\U{200A}' as int || u == '\U{202F}' as int || u == '\U{205F}' as int
      || u == '\U{3000}' as int
  {
  }

  // What is trimmed is blank on either side, and what is left neither begins nor ends with a blank.
  lemma {:induction false} TrimExactly(t: Text) returns (front: Text, back: Text)
    ensures t == front + Trim(t) + back && AllWhitespace(front) && AllWhitespace(back)
    ensures Trim(t) != [] ==> !IsWhitespace(Trim(t)[0]) && !IsWhitespace(Trim(t)[|Trim(t)| - 1])
  {
    front := TrimStartExactly(t);
    back := TrimEndExactly(TrimStart(t));
    Regroup(t, front, TrimStart(t), Trim(t), back);
  }

  lemma {:induction false} Regroup(t: Text, front: Text, tail: Text, middle: Text, back: Text)
    requires t == front + tail && tail == middle + back
    ensures t == front + middle + back && (middle != [] ==> tail != [] && tail[0] == middle[0])
  {
  }

  lemma {:induction false} TrimStartExactly(t: Text) returns (front: Text)
    ensures t == front + TrimStart(t) && AllWhitespace(front) && (TrimStart(t) != [] ==> !IsWhitespace(TrimStart(t)[0]))
    decreases |t|
  {
    front := [];
    if t != [] && IsWhitespace(t[0]) {
      var rest := TrimStartExactly(t[1..]);
      front := [t[0]] + rest;
      assert t == [t[0]] + t[1..] == [t[0]] + (rest + TrimStart(t)) == front + TrimStart(t);
    }
  }

  lemma {:induction false} TrimEndExactly(t: Text) returns (back: Text)
    ensures t == TrimEnd(t) + back && AllWhitespace(back) && (TrimEnd(t) != [] ==> !IsWhitespace(TrimEnd(t)[|TrimEnd(t)| - 1]))
    decreases |t|
  {
    back := [];
    if t != [] && IsWhitespace(t[|t| - 1]) {
      var rest := TrimEndExactly(t[..|t| - 1]);
      back := rest + [t[|t| - 1]];
      assert t == t[..|t| - 1] + [t[|t| - 1]] == (TrimEnd(t) + rest) + [t[|t| - 1]] == TrimEnd(t) + back;
    }
  }

  lemma {:induction false} TrimStartKeeps(t: Text)
    ensures AllWhitespace(TrimStart(t)) == AllWhitespace(t) && (TrimStart(t) == [] <==> AllWhitespace(t))
    decreases |t|
  {
    if t != [] && IsWhitespace(t[0]) {
      TrimStartKeeps(t[1..]);
      assert t == [t[0]] + t[1..];
    }
  }

  lemma {:induction false} TrimEndKeeps(t: Text)
    ensures AllWhitespace(TrimEnd(t)) == AllWhitespace(t) && (TrimEnd(t) == [] <==> AllWhitespace(t))
    decreases |t|
  {
    if t != [] && IsWhitespace(t[|t| - 1]) {
      TrimEndKeeps(t[..|t| - 1]);
      assert t == t[..|t| - 1] + [t[|t| - 1]];
    }
  }

  // Trimming leaves nothing of a blank text, and something not blank of any other.
  lemma {:induction false} TrimKeeps(t: Text)
    ensures AllWhitespace(Trim(t)) == AllWhitespace(t) && (Trim(t) == [] <==> AllWhitespace(t))
  {
    TrimStartKeeps(t);
    TrimEndKeeps(TrimStart(t));
  }
}
