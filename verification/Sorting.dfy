/** The stable ascending sort the planner and the CITT check apply to their lists of jobs. */
module Sorting {
  predicate Ordered<T>(s: seq<T>, key: T -> int) {
    forall i, j :: 0 <= i < j < |s| ==> key(s[i]) <= key(s[j])
  }

  predicate StrictlyOrdered<T>(s: seq<T>, key: T -> int) {
    forall i, j :: 0 <= i < j < |s| ==> key(s[i]) < key(s[j])
  }

  // Puts x before the first element with a greater or equal key.
  function Insert<T>(x: T, s: seq<T>, key: T -> int): seq<T> {
    if s == [] || key(x) <= key(s[0]) then [x] + s else [s[0]] + Insert(x, s[1..], key)
  }

  function Sort<T>(s: seq<T>, key: T -> int): seq<T> {
    if s == [] then [] else Insert(s[0], Sort(s[1..], key), key)
  }

  lemma Position<T>(s: seq<T>, y: T) returns (i: nat)
    requires y in multiset(s)
    ensures i < |s| && s[i] == y
  {
    i :| 0 <= i < |s| && s[i] == y;
  }

  lemma {:induction false} InsertAdds<T>(x: T, s: seq<T>, key: T -> int)
    ensures multiset(Insert(x, s, key)) == multiset{x} + multiset(s)
    ensures |Insert(x, s, key)| == |s| + 1
  {
    if !(s == [] || key(x) <= key(s[0])) {
      InsertAdds(x, s[1..], key);
      assert s == [s[0]] + s[1..];
    }
  }

  lemma {:induction false} InsertKeepsOrder<T>(x: T, s: seq<T>, key: T -> int)
    requires Ordered(s, key)
    ensures Ordered(Insert(x, s, key), key)
  {
    if !(s == [] || key(x) <= key(s[0])) {
      var rest := Insert(x, s[1..], key);
      InsertKeepsOrder(x, s[1..], key);
      InsertAdds(x, s[1..], key);
      forall k | 0 <= k < |rest|
        ensures key(s[0]) <= key(rest[k])
      {
        assert rest[k] in multiset(rest);
        if rest[k] != x {
          var i := Position(s[1..], rest[k]);
          assert s[i + 1] == rest[k];
        }
      }
    }
  }

  // Sorting rearranges, and orders.
  lemma {:induction false} SortIsOrderedPermutation<T>(s: seq<T>, key: T -> int)
    ensures multiset(Sort(s, key)) == multiset(s) && |Sort(s, key)| == |s|
    ensures Ordered(Sort(s, key), key)
  {
    if s != [] {
      SortIsOrderedPermutation(s[1..], key);
      InsertAdds(s[0], Sort(s[1..], key), key);
      InsertKeepsOrder(s[0], Sort(s[1..], key), key);
      assert s == [s[0]] + s[1..];
    }
  }

  // The elements with one key, in their order.
  function WithKey<T>(s: seq<T>, key: T -> int, k: int): seq<T> {
    if s == [] then [] else (if key(s[0]) == k then [s[0]] else []) + WithKey(s[1..], key, k)
  }

  lemma {:induction false} InsertGoesFirst<T>(x: T, s: seq<T>, key: T -> int, k: int)
    ensures WithKey(Insert(x, s, key), key, k) == (if key(x) == k then [x] else []) + WithKey(s, key, k)
  {
    var t := Insert(x, s, key);
    if s == [] || key(x) <= key(s[0]) {
      assert t[0] == x && t[1..] == s;
    } else {
      InsertGoesFirst(x, s[1..], key, k);
      assert t[0] == s[0] && t[1..] == Insert(x, s[1..], key);
    }
  }

  // Elements with the same key stay in their order.
  lemma {:induction false} SortIsStable<T>(s: seq<T>, key: T -> int, k: int)
    ensures WithKey(Sort(s, key), key, k) == WithKey(s, key, k)
  {
    if s != [] {
      SortIsStable(s[1..], key, k);
      InsertGoesFirst(s[0], Sort(s[1..], key), key, k);
    }
  }

  lemma FirstsAgree<T>(a: seq<T>, b: seq<T>, key: T -> int)
    requires StrictlyOrdered(a, key) && Ordered(b, key) && multiset(a) == multiset(b)
    requires a != [] && b != []
    ensures a[0] == b[0]
  {
    assert b[0] in multiset(a) && a[0] in multiset(b);
    var i := Position(a, b[0]);
    var j := Position(b, a[0]);
    assert key(b[0]) <= key(b[j]);
  }

  lemma RestsAgree<T>(a: seq<T>, b: seq<T>)
    requires a != [] && b != [] && a[0] == b[0] && multiset(a) == multiset(b)
    ensures multiset(a[1..]) == multiset(b[1..])
  {
    assert a == [a[0]] + a[1..] && b == [b[0]] + b[1..];
    assert multiset(a[1..]) == multiset(a) - multiset{a[0]};
    assert multiset(b[1..]) == multiset(b) - multiset{b[0]};
  }

  // A strictly ordered rearrangement of a list is the only ordered one.
  lemma {:induction false} OneStrictOrder<T>(a: seq<T>, b: seq<T>, key: T -> int)
    requires StrictlyOrdered(a, key) && Ordered(b, key) && multiset(a) == multiset(b)
    ensures a == b
  {
    assert |multiset(a)| == |a| && |multiset(b)| == |b|;
    if a != [] {
      FirstsAgree(a, b, key);
      RestsAgree(a, b);
      OneStrictOrder(a[1..], b[1..], key);
      assert a == [a[0]] + a[1..] && b == [b[0]] + b[1..];
    }
  }

  // An already strictly ordered list is what sorting gives.
  lemma SortOfStrictlyOrdered<T>(a: seq<T>, s: seq<T>, key: T -> int)
    requires StrictlyOrdered(a, key) && multiset(a) == multiset(s)
    ensures Sort(s, key) == a
  {
    SortIsOrderedPermutation(s, key);
    OneStrictOrder(a, Sort(s, key), key);
  }
}
