// A stable sort by a text key, in the code-unit order of ECMAScript strings.
module Sorting {
  import opened CodeUnits
  import opened Sequences

  function Insert<T>(x: T, s: seq<T>, key: T -> Text): seq<T>
    decreases |s|
  {
    if s == [] || !Less(key(s[0]), key(x)) then [x] + s else [s[0]] + Insert(x, s[1..], key)
  }

  function SortBy<T>(s: seq<T>, key: T -> Text): seq<T>
    decreases |s|
  {
    if s == [] then [] else Insert(s[0], SortBy(s[1..], key), key)
  }

  ghost predicate Ordered<T>(s: seq<T>, key: T -> Text) {
    forall i, j | 0 <= i < j < |s| :: !Less(key(s[j]), key(s[i]))
  }

  ghost predicate StrictlyOrdered<T>(s: seq<T>, key: T -> Text) {
    forall i, j | 0 <= i < j < |s| :: Less(key(s[i]), key(s[j]))
  }

  lemma {:induction false} InsertIs<T>(x: T, s: seq<T>, key: T -> Text)
    requires Ordered(s, key)
    ensures multiset(Insert(x, s, key)) == multiset{x} + multiset(s) && Ordered(Insert(x, s, key), key)
    decreases |s|
  {
    if s == [] || !Less(key(s[0]), key(x)) {
      assert multiset([x] + s) == multiset{x} + multiset(s);
      forall j | 0 <= j < |s| ensures !Less(key(s[j]), key(x)) { NotBelow(x, s, key, j); }
    } else {
      var tail := s[1..];
      assert forall i, j | 0 <= i < j < |tail| :: tail[i] == s[i + 1] && tail[j] == s[j + 1];
      InsertIs(x, tail, key);
      assert s == [s[0]] + tail;
      forall y | y in Insert(x, tail, key) ensures !Less(key(y), key(s[0])) { FirstStays(x, s, key, y); }
      OrderedCons(s[0], Insert(x, tail, key), key);
    }
  }

  lemma {:induction false} FirstStays<T>(x: T, s: seq<T>, key: T -> Text, y: T)
    requires Ordered(s, key) && s != [] && Less(key(s[0]), key(x)) && y in Insert(x, s[1..], key)
    requires multiset(Insert(x, s[1..], key)) == multiset{x} + multiset(s[1..])
    ensures !Less(key(y), key(s[0]))
  {
    assert y in multiset(Insert(x, s[1..], key));
    if y in s[1..] {
      var k :| 0 <= k < |s[1..]| && s[1..][k] == y;
      assert s[k + 1] == y;
    } else {
      LessTotal(key(s[0]), key(x));
    }
  }

  lemma {:induction false} OrderedCons<T>(x: T, s: seq<T>, key: T -> Text)
    requires Ordered(s, key) && forall y | y in s :: !Less(key(y), key(x))
    ensures Ordered([x] + s, key)
  {
  }

  lemma {:induction false} NotBelow<T>(x: T, s: seq<T>, key: T -> Text, j: nat)
    requires Ordered(s, key) && j < |s| && !Less(key(s[0]), key(x))
    ensures !Less(key(s[j]), key(x))
  {
    if Less(key(s[j]), key(x)) {
      LessTotal(key(s[0]), key(s[j]));
      LessTotal(key(s[0]), key(x));
      if Less(key(s[0]), key(s[j])) { LessTransitive(key(s[0]), key(s[j]), key(x)); }
    }
  }

  lemma {:induction false} SortIs<T>(s: seq<T>, key: T -> Text)
    ensures multiset(SortBy(s, key)) == multiset(s) && Ordered(SortBy(s, key), key)
    decreases |s|
  {
    if s != [] {
      SortIs(s[1..], key);
      InsertIs(s[0], SortBy(s[1..], key), key);
      assert s == [s[0]] + s[1..];
    }
  }

  // The sorted sequence is strictly increasing exactly when the keys were distinct.
  lemma {:induction false} StrictlySortedExactly<T>(s: seq<T>, key: T -> Text)
    ensures StrictlyOrdered(SortBy(s, key), key) <==> DistinctBy(s, key)
  {
    var r := SortBy(s, key);
    SortIs(s, key);
    if StrictlyOrdered(r, key) {
      forall i, j | 0 <= i < j < |r| ensures key(r[i]) != key(r[j]) { LessTotal(key(r[i]), key(r[j])); }
      PermutationIsDistinct(r, s, key);
    }
    if DistinctBy(s, key) {
      PermutationIsDistinct(s, r, key);
      forall i, j | 0 <= i < j < |r| ensures Less(key(r[i]), key(r[j])) { LessTotal(key(r[i]), key(r[j])); }
    }
  }

  // A strictly increasing sequence is determined by its members.
  lemma {:induction false} StrictOrderIsUnique<T>(a: seq<T>, b: seq<T>, key: T -> Text)
    requires StrictlyOrdered(a, key) && StrictlyOrdered(b, key) && multiset(a) == multiset(b)
    ensures a == b
    decreases |a|
  {
    assert |a| == |multiset(a)| == |multiset(b)| == |b|;
    if a != [] {
      FirstIsFirst(a, b, key);
      assert a == [a[0]] + a[1..] && b == [b[0]] + b[1..];
      assert multiset(a[1..]) == multiset(a) - multiset{a[0]};
      assert multiset(b[1..]) == multiset(b) - multiset{b[0]};
      StrictTail(a, key);
      StrictTail(b, key);
      StrictOrderIsUnique(a[1..], b[1..], key);
    }
  }

  lemma {:induction false} StrictTail<T>(s: seq<T>, key: T -> Text)
    requires StrictlyOrdered(s, key) && s != []
    ensures StrictlyOrdered(s[1..], key)
  {
    var t := s[1..];
    assert forall i, j | 0 <= i < j < |t| :: t[i] == s[i + 1] && t[j] == s[j + 1];
  }

  lemma {:induction false} FirstIsFirst<T>(a: seq<T>, b: seq<T>, key: T -> Text)
    requires StrictlyOrdered(a, key) && StrictlyOrdered(b, key) && multiset(a) == multiset(b) && a != [] && b != []
    ensures a[0] == b[0]
  {
    SameMembers(a, b, a[0]);
    SameMembers(a, b, b[0]);
    var i :| 0 <= i < |b| && b[i] == a[0];
    var j :| 0 <= j < |a| && a[j] == b[0];
    if i > 0 && j > 0 { LessTotal(key(b[0]), key(b[i])); }
  }

  // Sorting forgets the order, when the keys are distinct.
  lemma {:induction false} SortForgetsOrder<T>(a: seq<T>, b: seq<T>, key: T -> Text)
    requires multiset(a) == multiset(b) && DistinctBy(a, key)
    ensures SortBy(a, key) == SortBy(b, key)
  {
    PermutationIsDistinct(a, b, key);
    SortIs(a, key);
    SortIs(b, key);
    StrictlySortedExactly(a, key);
    StrictlySortedExactly(b, key);
    StrictOrderIsUnique(SortBy(a, key), SortBy(b, key), key);
  }
}
