// Distinct elements, permutations and counting.
module Sequences {

  predicate Distinct<T(==)>(s: seq<T>) { forall i, j | 0 <= i < j < |s| :: s[i] != s[j] }

  ghost predicate DistinctBy<T, K>(s: seq<T>, key: T -> K) { forall i, j | 0 <= i < j < |s| :: key(s[i]) != key(s[j]) }

  lemma {:induction false} Repeats<T>(s: seq<T>, i: nat, j: nat)
    requires i < j < |s| && s[i] == s[j]
    ensures multiset(s)[s[i]] >= 2
  {
    assert s == s[..j] + s[j..];
    assert s[i] in multiset(s[..j]) && s[j] in multiset(s[j..]) by { assert s[..j][i] == s[i] && s[j..][0] == s[j]; }
  }

  lemma {:induction false} OccursTwice<T>(s: seq<T>, x: T)
    requires multiset(s)[x] >= 2
    ensures exists i, j :: 0 <= i < j < |s| && s[i] == x && s[j] == x
  {
    assert x in s;
    var i :| 0 <= i < |s| && s[i] == x;
    assert s == s[..i] + [x] + s[i + 1..];
    if x in s[..i] {
      var h :| 0 <= h < i && s[..i][h] == x;
      assert s[h] == x && s[i] == x;
    } else {
      assert multiset(s[..i])[x] == 0;
      assert x in s[i + 1..];
      var j :| 0 <= j < |s[i + 1..]| && s[i + 1..][j] == x;
      assert s[i] == x && s[i + 1 + j] == x;
    }
  }

  lemma {:induction false} OccursOnce<T, K>(s: seq<T>, key: T -> K, x: T)
    ensures DistinctBy(s, key) ==> multiset(s)[x] <= 1
  {
    if multiset(s)[x] >= 2 {
      OccursTwice(s, x);
      var i, j :| 0 <= i < j < |s| && s[i] == x && s[j] == x;
      assert key(s[i]) == key(s[j]);
    }
  }

  lemma {:induction false} UniqueBy<T, K>(s: seq<T>, key: T -> K, x: T, y: T)
    requires x in s && y in s && key(x) == key(y)
    ensures DistinctBy(s, key) ==> x == y
  {
    var i :| 0 <= i < |s| && s[i] == x;
    var j :| 0 <= j < |s| && s[j] == y;
    assert key(s[i]) == key(s[j]);
  }

  lemma {:induction false} SameMembers<T>(a: seq<T>, b: seq<T>, x: T)
    requires multiset(a) == multiset(b)
    ensures x in a <==> x in b
  {
    assert x in a <==> x in multiset(a);
    assert x in b <==> x in multiset(b);
  }

  // Being distinct does not depend on the order.
  lemma {:induction false} PermutationIsDistinct<T, K>(a: seq<T>, b: seq<T>, key: T -> K)
    requires multiset(a) == multiset(b) && DistinctBy(a, key)
    ensures DistinctBy(b, key)
  {
    forall i, j | 0 <= i < j < |b| ensures key(b[i]) != key(b[j]) {
      if key(b[i]) == key(b[j]) {
        SameMembers(a, b, b[i]);
        SameMembers(a, b, b[j]);
        UniqueBy(a, key, b[i], b[j]);
        Repeats(b, i, j);
        OccursOnce(a, key, b[i]);
      }
    }
  }

  // Distinct sequences with the same members are permutations of each other.
  lemma {:induction false} SameMembersPermute<T, K>(a: seq<T>, b: seq<T>, key: T -> K)
    requires DistinctBy(a, key) && DistinctBy(b, key) && forall x :: x in a <==> x in b
    ensures multiset(a) == multiset(b)
  {
    forall x ensures multiset(a)[x] == multiset(b)[x] {
      OccursOnce(a, key, x);
      OccursOnce(b, key, x);
      assert x in a <==> x in multiset(a);
      assert x in b <==> x in multiset(b);
    }
  }

  lemma {:induction false} MoveOne<T>(all: seq<T>, done: seq<T>, rest: seq<T>)
    requires all == done + rest && rest != []
    ensures all == (done + [rest[0]]) + rest[1..]
  {
  }

  function SetOf<T(==)>(s: seq<T>): set<T> { set x | x in s }

  lemma {:induction false} SetOfCons<T>(x: T, s: seq<T>)
    ensures SetOf([x] + s) == {x} + SetOf(s)
  {
  }

  lemma {:induction false} DistinctTail<T>(s: seq<T>)
    requires Distinct(s) && s != []
    ensures Distinct(s[1..]) && s[0] !in s[1..]
  {
    var rest := s[1..];
    assert forall i, j | 0 <= i < j < |rest| :: rest[i] == s[i + 1] && rest[j] == s[j + 1];
  }

  lemma {:induction false} DistinctCount<T>(s: seq<T>)
    requires Distinct(s)
    ensures |SetOf(s)| == |s|
    decreases |s|
  {
    if s != [] {
      DistinctTail(s);
      DistinctCount(s[1..]);
      SetOfCons(s[0], s[1..]);
      assert s == [s[0]] + s[1..];
    }
  }

  lemma {:induction false} SameSizeSubset<T>(a: set<T>, b: set<T>)
    requires a <= b && |a| == |b|
    ensures a == b
  {
    assert |b - a| == |b| - |a|;
    assert b == a + (b - a);
  }
}
