/** Sorting as the catalogue uses `Array.prototype.sort` with a comparator: the result is
    a permutation of the input, ordered by a key under a total preorder. Both list views
    compare either a collation order on names or timestamps, in either direction. */
module Sorting {

  datatype Direction = Asc | Desc

  function Flip(d: Direction): (r: Direction)
    ensures r != d
  {
    if d == Asc then Desc else Asc
  }

  /** `le` is total and transitive (ties between distinct values are allowed). */
  ghost predicate TotalPreorder<K(!new)>(le: (K, K) -> bool) {
    && (forall a, b :: le(a, b) || le(b, a))
    && (forall a, b, c :: le(a, b) && le(b, c) ==> le(a, c))
  }

  /** Every earlier element's key is `le` every later element's key. */
  predicate SortedOn<T, K>(s: seq<T>, key: T -> K, le: (K, K) -> bool) {
    forall i, j :: 0 <= i < j < |s| ==> le(key(s[i]), key(s[j]))
  }

  /** `le` read backwards: the order a descending comparator (`b - a`,
      `b.localeCompare(a)`) imposes. */
  function Reversed<K>(le: (K, K) -> bool): (K, K) -> bool {
    (a: K, b: K) => le(b, a)
  }

  function Directed<K>(le: (K, K) -> bool, d: Direction): (K, K) -> bool {
    if d == Asc then le else Reversed(le)
  }

  lemma DirectedPreorder<K(!new)>(le: (K, K) -> bool, d: Direction)
    requires TotalPreorder(le)
    ensures TotalPreorder(Directed(le, d))
    ensures forall a, b :: Directed(le, d)(a, b) == if d == Asc then le(a, b) else le(b, a)
  {
  }

  /** The order of timestamps compared by subtraction. */
  function IntLe(a: int, b: int): bool {
    a <= b
  }

  lemma IntLePreorder()
    ensures TotalPreorder(IntLe)
  {
  }

  /** Inserts `x` before the first element whose key it does not exceed, so that `x`
      stays ahead of later elements with an equal key. */
  function Insert<T, K(!new)>(x: T, s: seq<T>, key: T -> K, le: (K, K) -> bool): (r: seq<T>)
    requires TotalPreorder(le)
    requires SortedOn(s, key, le)
    ensures multiset(r) == multiset(s) + multiset{x}
    ensures SortedOn(r, key, le)
  {
    if |s| == 0 then [x]
    else if le(key(x), key(s[0])) then
      assert forall j :: 0 <= j < |s| ==> le(key(x), key(s[j])) by {
        forall j | 0 <= j < |s|
          ensures le(key(x), key(s[j]))
        {
          if j > 0 { assert le(key(s[0]), key(s[j])); }
        }
      }
      [x] + s
    else
      var rest := Insert(x, s[1..], key, le);
      assert s == [s[0]] + s[1..];
      assert forall j :: 0 <= j < |rest| ==> le(key(s[0]), key(rest[j])) by {
        forall j | 0 <= j < |rest|
          ensures le(key(s[0]), key(rest[j]))
        {
          assert rest[j] in multiset(rest);
          if rest[j] != x {
            assert rest[j] in multiset(s[1..]);
            var k :| 0 <= k < |s[1..]| && s[1..][k] == rest[j];
            assert s[k + 1] == rest[j];
          }
        }
      }
      [s[0]] + rest
  }

  /** Insertion sort: a stable sort of `s` by `key` under `le`. */
  function SortOn<T, K(!new)>(s: seq<T>, key: T -> K, le: (K, K) -> bool): (r: seq<T>)
    requires TotalPreorder(le)
    ensures multiset(r) == multiset(s)
    ensures |r| == |s|
    ensures SortedOn(r, key, le)
  {
    if |s| == 0 then []
    else
      assert s == [s[0]] + s[1..];
      var r := Insert(s[0], SortOn(s[1..], key, le), key, le);
      assert |r| == |multiset(r)|;
      r
  }

  /** The sequence read back to front. */
  function Reverse<T>(s: seq<T>): (r: seq<T>)
    ensures |r| == |s|
    ensures forall i :: 0 <= i < |s| ==> r[i] == s[|s| - 1 - i]
    ensures multiset(r) == multiset(s)
  {
    if |s| == 0 then []
    else
      assert s == [s[0]] + s[1..];
      Reverse(s[1..]) + [s[0]]
  }

  /** No two different elements of `s` have tied keys: whenever keys compare both ways
      the elements are the same value. */
  predicate NoTies<T(==), K>(s: seq<T>, key: T -> K, le: (K, K) -> bool) {
    forall x, y :: x in s && y in s && le(key(x), key(y)) && le(key(y), key(x)) ==> x == y
  }

  /** Reading a sorted sequence backwards sorts it under the reversed order. */
  lemma ReverseSorted<T, K>(s: seq<T>, key: T -> K, le: (K, K) -> bool)
    requires SortedOn(s, key, le)
    ensures SortedOn(Reverse(s), key, Reversed(le))
  {
    var r := Reverse(s);
    forall i, j | 0 <= i < j < |r|
      ensures Reversed(le)(key(r[i]), key(r[j]))
    {
      assert le(key(s[|s| - 1 - j]), key(s[|s| - 1 - i]));
    }
  }

  /** Two sorted arrangements of the same elements without ties start alike. */
  lemma SameHead<T, K>(a: seq<T>, b: seq<T>, key: T -> K, le: (K, K) -> bool)
    requires |a| > 0 && multiset(a) == multiset(b)
    requires SortedOn(a, key, le) && SortedOn(b, key, le)
    requires NoTies(a, key, le)
    ensures |b| > 0 && a[0] == b[0]
  {
    assert a[0] in multiset(b);
    var k :| 0 <= k < |b| && b[k] == a[0];
    assert b[0] in multiset(a);
    var m :| 0 <= m < |a| && a[m] == b[0];
    if k > 0 { assert le(key(b[0]), key(b[k])); }
    if m > 0 { assert le(key(a[0]), key(a[m])); }
  }

  lemma TailMultiset<T>(a: seq<T>, b: seq<T>)
    requires |a| > 0 && |b| > 0 && a[0] == b[0]
    requires multiset(a) == multiset(b)
    ensures multiset(a[1..]) == multiset(b[1..])
  {
    assert a == [a[0]] + a[1..];
    assert b == [b[0]] + b[1..];
    assert multiset(a) == multiset{a[0]} + multiset(a[1..]);
    assert multiset(b) == multiset{a[0]} + multiset(b[1..]);
    forall x
      ensures multiset(a[1..])[x] == multiset(b[1..])[x]
    {
      assert multiset(a)[x] == multiset{a[0]}[x] + multiset(a[1..])[x];
      assert multiset(b)[x] == multiset{a[0]}[x] + multiset(b[1..])[x];
    }
  }

  /** Without ties, a sorted arrangement of given elements is unique. */
  lemma {:induction false} SortedUnique<T, K>(a: seq<T>, b: seq<T>, key: T -> K, le: (K, K) -> bool)
    requires multiset(a) == multiset(b)
    requires SortedOn(a, key, le) && SortedOn(b, key, le)
    requires NoTies(a, key, le)
    ensures a == b
    decreases |a|
  {
    if |a| == 0 {
      assert |b| == |multiset(b)| == 0;
    } else {
      SameHead(a, b, key, le);
      TailMultiset(a, b);
      assert forall x :: x in a[1..] ==> x in a;
      SortedUnique(a[1..], b[1..], key, le);
      assert a == [a[0]] + a[1..] && b == [b[0]] + b[1..];
    }
  }

  /** Without ties, sorting in the reversed order is reading the sorted sequence
      backwards. */
  lemma SortReversedIsReverse<T, K(!new)>(s: seq<T>, key: T -> K, le: (K, K) -> bool)
    requires TotalPreorder(le)
    requires NoTies(s, key, le)
    ensures TotalPreorder(Reversed(le))
    ensures SortOn(s, key, Reversed(le)) == Reverse(SortOn(s, key, le))
  {
    DirectedPreorder(le, Desc);
    var up := SortOn(s, key, le);
    var down := SortOn(s, key, Reversed(le));
    ReverseSorted(up, key, le);
    assert forall x :: x in down <==> x in multiset(s);
    assert NoTies(down, key, Reversed(le));
    SortedUnique(down, Reverse(up), key, Reversed(le));
  }
}
