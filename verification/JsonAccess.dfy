// Reading protocol messages: properties, strings, safe integers.
module JsonAccess {
  import opened Options
  import opened CodeUnits
  import opened JsonValues
  import C = CanonicalJson

  // The length in bytes; a lone surrogate is written as the replacement character.
  function Utf8Length(t: Text): nat
    decreases |t|
  {
    if t == [] then 0
    else if 0xD800 <= t[0] < 0xDC00 && |t| > 1 && 0xDC00 <= t[1] < 0xE000 then 4 + Utf8Length(t[2..])
    else (if t[0] < 0x80 then 1 else if t[0] < 0x800 then 2 else 3) + Utf8Length(t[1..])
  }

  function UnitsFrom(t: Text, least: nat): nat {
    if t == [] then 0 else (if t[0] >= least then 1 else 0) + UnitsFrom(t[1..], least)
  }

  function SurrogatePairs(t: Text): nat {
    if |t| < 2 then 0 else (if C.IsHigh(t[0]) && C.IsLow(t[1]) then 1 else 0) + SurrogatePairs(t[1..])
  }

  // One byte for each unit, one more from U+0080 on and another from U+0800 on, and four for a pair.
  lemma {:induction false} Utf8LengthExactly(t: Text)
    ensures Utf8Length(t) + 2 * SurrogatePairs(t) == |t| + UnitsFrom(t, 0x80) + UnitsFrom(t, 0x800)
    decreases |t|
  {
    if t != [] {
      if 0xD800 <= t[0] < 0xDC00 && |t| > 1 && 0xDC00 <= t[1] < 0xE000 {
        Utf8LengthExactly(t[2..]);
        assert t[1..][1..] == t[2..];
      } else {
        Utf8LengthExactly(t[1..]);
      }
    }
  }

  function Property(v: Json, name: string): Option<Json> {
    if v.Obj? && Ascii(name) in v.members then Some(v.members[Ascii(name)]) else None
  }

  function PropertyOf(v: Option<Json>, name: string): Option<Json> {
    if v.Some? then Property(v.value, name) else None
  }

  function SafeString(v: Option<Json>, maximumBytes: nat): Option<Text> {
    if v.Some? && v.value.Str? && Utf8Length(v.value.s) <= maximumBytes then Some(v.value.s) else None
  }

  predicate IsObject(v: Option<Json>) { v.Some? && v.value.Obj? }

  predicate IsSafeInteger(v: Option<Json>) {
    v.Some? && v.value.Num? && v.value.n.Finite? && C.IsSafeInteger(v.value.n.x)
  }

  function StringOf(v: Option<Json>): Option<Text> { if v.Some? && v.value.Str? then Some(v.value.s) else None }

  function BoundedString(v: Option<Json>, maximumBytes: nat): Option<Text> {
    if v.Some? && v.value.Str? && !AllWhitespace(v.value.s) && Utf8Length(v.value.s) <= maximumBytes then Some(v.value.s) else None
  }
}
