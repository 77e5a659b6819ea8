/** `ORDER BY` two integer columns. When no two rows agree on both, the result is unique. */
module Ordering {

  type SortKey = (int, int)

  predicate Before(a: SortKey, b: SortKey) {
    a.0 < b.0 || (a.0 == b.0 && a.1 < b.1)
  }

  /** Strictly increasing keys. */
  ghost predicate Ordered<T>(s: seq<T>, key: T -> SortKey) {
    forall i, j | 0 <= i < j < |s| :: Before(key(s[i]), key(s[j]))
  }

  ghost predicate DistinctKeys<T>(s: seq<T>, key: T -> SortKey) {
    forall i, j | 0 <= i < j < |s| :: key(s[i]) != key(s[j])
  }

  function Insert<T>(x: T, s: seq<T>, key: T -> SortKey): seq<T> {
    if s == [] || Before(key(x), key(s[0])) then [x] + s else [s[0]] + Insert(x, s[1..], key)
  }

  function OrderBy<T>(s: seq<T>, key: T -> SortKey): (r: seq<T>) {
    if s == [] then [] else Insert(s[0], OrderBy(s[1..], key), key)
  }

  lemma {:induction false} InsertAdds<T>(x: T, s: seq<T>, key: T -> SortKey)
    ensures multiset(Insert(x, s, key)) == multiset{x} + multiset(s)
  {
    if s != [] && !Before(key(x), key(s[0])) {
      InsertAdds(x, s[1..], key);
      assert s == [s[0]] + s[1..];
    }
  }

  lemma {:induction false} InsertOrders<T>(x: T, s: seq<T>, key: T -> SortKey)
    requires Ordered(s, key) && forall y | y in s :: key(y) != key(x)
    ensures Ordered(Insert(x, s, key), key)
  {
    if s != [] && !Before(key(x), key(s[0])) {
      var rest := Insert(x, s[1..], key);
      InsertOrders(x, s[1..], key);
      InsertAdds(x, s[1..], key);
      forall j | 0 <= j < |rest| ensures Before(key(s[0]), key(rest[j])) {
        assert rest[j] in multiset(rest);
        if rest[j] != x {
          assert rest[j] in s[1..];
        } else {
          assert s[0] in s;
        }
      }
    }
  }

  lemma {:induction false} OrderByPermutes<T>(s: seq<T>, key: T -> SortKey)
    ensures multiset(OrderBy(s, key)) == multiset(s)
    ensures |OrderBy(s, key)| == |s|
  {
    if s != [] {
      OrderByPermutes(s[1..], key);
      InsertAdds(s[0], OrderBy(s[1..], key), key);
      assert s == [s[0]] + s[1..];
    }
    assert |OrderBy(s, key)| == |multiset(OrderBy(s, key))|;
  }

  lemma {:induction false} OrderByOrders<T>(s: seq<T>, key: T -> SortKey)
    requires DistinctKeys(s, key)
    ensures Ordered(OrderBy(s, key), key)
  {
    if s != [] {
      var rest := s[1..];
      OrderByOrders(rest, key);
      OrderByPermutes(rest, key);
      forall y | y in OrderBy(rest, key) ensures key(y) != key(s[0]) {
        assert y in multiset(OrderBy(rest, key));
        assert y in multiset(rest);
        var k :| 0 <= k < |rest| && rest[k] == y;
        assert s[k + 1] == y;
      }
      InsertOrders(s[0], OrderBy(rest, key), key);
    }
  }

  lemma FirstIsLeast<T>(s: seq<T>, key: T -> SortKey, x: T)
    requires Ordered(s, key) && x in s
    ensures x == s[0] || Before(key(s[0]), key(x))
  {
    var i :| 0 <= i < |s| && s[i] == x;
  }

  lemma TailsAgree<T>(a: seq<T>, b: seq<T>)
    requires a != [] && b != [] && multiset(a) == multiset(b) && a[0] == b[0]
    ensures multiset(a[1..]) == multiset(b[1..])
  {
    assert a == [a[0]] + a[1..] && b == [b[0]] + b[1..];
    assert multiset(a[1..]) == multiset(a) - multiset{a[0]};
    assert multiset(b[1..]) == multiset(b) - multiset{b[0]};
  }

  /** There is only one ordered arrangement of the same rows. */
  lemma {:induction false} OrderedIsUnique<T>(a: seq<T>, b: seq<T>, key: T -> SortKey)
    requires Ordered(a, key) && Ordered(b, key) && multiset(a) == multiset(b)
    ensures a == b
  {
    assert |a| == |multiset(a)| == |multiset(b)| == |b|;
    if a != [] {
      assert a[0] in multiset(b) && b[0] in multiset(a);
      FirstIsLeast(a, key, b[0]);
      FirstIsLeast(b, key, a[0]);
      TailsAgree(a, b);
      OrderedIsUnique(a[1..], b[1..], key);
    }
  }

  function Reversed<T>(s: seq<T>): (r: seq<T>) {
    if s == [] then [] else Reversed(s[1..]) + [s[0]]
  }

  lemma {:induction false} ReversedFacts<T>(s: seq<T>)
    ensures |Reversed(s)| == |s| && multiset(Reversed(s)) == multiset(s)
    ensures forall i | 0 <= i < |s| :: Reversed(s)[i] == s[|s| - 1 - i]
  {
    if s != [] {
      ReversedFacts(s[1..]);
      assert s == [s[0]] + s[1..];
    }
  }

  lemma ReversedIsOpposite<T>(s: seq<T>, key: T -> SortKey, opposite: T -> SortKey)
    requires Ordered(s, key) && forall x | x in s :: opposite(x) == (-key(x).0, -key(x).1)
    ensures Ordered(Reversed(s), opposite)
  {
    ReversedFacts(s);
    hide Reversed;
    var reversed := Reversed(s);
    forall i, j | 0 <= i < j < |reversed| ensures Before(opposite(reversed[i]), opposite(reversed[j])) {
      assert Before(key(s[|s| - 1 - j]), key(s[|s| - 1 - i]));
      assert s[|s| - 1 - j] in s && s[|s| - 1 - i] in s;
    }
  }

  lemma OppositeKeysAreDistinct<T>(s: seq<T>, key: T -> SortKey, opposite: T -> SortKey)
    requires DistinctKeys(s, key) && forall x | x in s :: opposite(x) == (-key(x).0, -key(x).1)
    ensures DistinctKeys(s, opposite)
  {
    forall i, j | 0 <= i < j < |s| ensures opposite(s[i]) != opposite(s[j]) {
      assert s[i] in s && s[j] in s && key(s[i]) != key(s[j]);
    }
  }

  /** Ordering by the opposite of both columns gives the exact reverse. */
  lemma OppositeOrderReverses<T>(s: seq<T>, key: T -> SortKey, opposite: T -> SortKey)
    requires DistinctKeys(s, key)
    requires forall x | x in s :: opposite(x) == (-key(x).0, -key(x).1)
    ensures OrderBy(s, opposite) == Reversed(OrderBy(s, key))
  {
    hide OrderBy, Reversed, Ordered, DistinctKeys;
    var up, down := OrderBy(s, key), OrderBy(s, opposite);
    OrderByPermutes(s, key);
    OrderByPermutes(s, opposite);
    OrderByOrders(s, key);
    OppositeKeysAreDistinct(s, key, opposite);
    OrderByOrders(s, opposite);
    forall x | x in up ensures opposite(x) == (-key(x).0, -key(x).1) {
      assert x in multiset(up);
      assert x in s;
    }
    ReversedFacts(up);
    ReversedIsOpposite(up, key, opposite);
    OrderedIsUnique(down, Reversed(up), opposite);
  }
}
