// Key order: the store's iterators walk keys in ascending order, or descending when reversed.
module Order {
  import opened GoInts

  ghost predicate StrictTotal<K(!new)>(less: (K, K) -> bool) {
    && (forall x :: !less(x, x))
    && (forall x, y, z :: less(x, y) && less(y, z) ==> less(x, z))
    && (forall x, y :: x != y ==> less(x, y) || less(y, x))
  }

  ghost predicate Sorted<K>(less: (K, K) -> bool, s: seq<K>) {
    forall i, j :: 0 <= i < j < |s| ==> less(s[i], s[j])
  }

  ghost predicate IsLeast<K>(less: (K, K) -> bool, s: set<K>, x: K) {
    x in s && forall y :: y in s && y != x ==> less(x, y)
  }

  lemma {:induction false} LeastExists<K(!new)>(less: (K, K) -> bool, s: set<K>)
    requires StrictTotal(less) && s != {}
    ensures exists x :: IsLeast(less, s, x)
    decreases |s|
  {
    var x :| x in s;
    if s == {x} {
      assert IsLeast(less, s, x);
    } else {
      LeastExists(less, s - {x});
      var y :| IsLeast(less, s - {x}, y);
      var z := if less(x, y) then x else y;
      forall w | w in s && w != z
        ensures less(z, w)
      {
        if w != x && w != y {
          assert less(y, w);
        }
      }
      assert IsLeast(less, s, z);
    }
  }

  // The elements of s in ascending order.
  function Sort<K(==, !new)>(less: (K, K) -> bool, s: set<K>): (r: seq<K>)
    requires StrictTotal(less)
    ensures Sorted(less, r) && |r| == |s|
    ensures forall x :: x in r <==> x in s
    decreases |s|
  {
    if s == {} then []
    else
      LeastExists(less, s);
      assert forall x, y :: IsLeast(less, s, x) && IsLeast(less, s, y) ==> x == y;
      var x :| x in s && forall y :: y in s && y != x ==> less(x, y);
      [x] + Sort(less, s - {x})
  }

  lemma TailMembers<K(!new)>(less: (K, K) -> bool, a: seq<K>, x: K)
    requires StrictTotal(less) && Sorted(less, a) && |a| > 0
    ensures x in a[1..] <==> x in a && x != a[0]
  {
    if x in a[1..] {
      var i :| 1 <= i < |a| && a[i] == x;
      assert less(a[0], a[i]);
    }
  }

  // An ascending sequence is determined by its elements.
  lemma {:induction false} SortedUnique<K(!new)>(less: (K, K) -> bool, a: seq<K>, b: seq<K>)
    requires StrictTotal(less) && Sorted(less, a) && Sorted(less, b)
    requires forall x :: x in a <==> x in b
    ensures a == b
    decreases |a|
  {
    assert |b| > 0 ==> b[0] in a;
    if |a| > 0 {
      assert a[0] in b && b[0] in a;
      assert a[0] == b[0];
      assert a == [a[0]] + a[1..] && b == [b[0]] + b[1..];
      forall x
        ensures x in a[1..] <==> x in b[1..]
      {
        TailMembers(less, a, x);
        TailMembers(less, b, x);
      }
      SortedUnique(less, a[1..], b[1..]);
    }
  }

  // ---- The orders in use ----

  predicate IdLess(x: uint64, y: uint64) {
    x < y
  }

  predicate IdMore(x: uint64, y: uint64) {
    x > y
  }

  predicate StringLess(a: string, b: string) {
    if |b| == 0 then false
    else if |a| == 0 then true
    else a[0] < b[0] || (a[0] == b[0] && StringLess(a[1..], b[1..]))
  }

  predicate PairLess(x: (string, uint64), y: (string, uint64)) {
    StringLess(x.0, y.0) || (x.0 == y.0 && x.1 < y.1)
  }

  lemma IdOrders()
    ensures StrictTotal(IdLess) && StrictTotal(IdMore)
  {
  }

  lemma {:induction false} StringLessIrreflexive(a: string)
    ensures !StringLess(a, a)
  {
    if |a| > 0 {
      StringLessIrreflexive(a[1..]);
    }
  }

  lemma {:induction false} StringLessTransitive(a: string, b: string, c: string)
    requires StringLess(a, b) && StringLess(b, c)
    ensures StringLess(a, c)
  {
    if |a| > 0 && a[0] == b[0] && b[0] == c[0] {
      StringLessTransitive(a[1..], b[1..], c[1..]);
    }
  }

  lemma {:induction false} StringLessTotal(a: string, b: string)
    requires a != b
    ensures StringLess(a, b) || StringLess(b, a)
  {
    if |a| > 0 && |b| > 0 && a[0] == b[0] {
      assert a == [a[0]] + a[1..] && b == [b[0]] + b[1..];
      StringLessTotal(a[1..], b[1..]);
    }
  }

  // Before the end of the shorter one, the first character that differs decides.
  ghost predicate DiffersAt(a: string, b: string, k: nat) {
    k <= |a| && k < |b| && a[..k] == b[..k] && (k == |a| || a[k] < b[k])
  }

  lemma FirstShared(a: string, b: string, k: nat)
    requires DiffersAt(a, b, k)
    ensures k > 0 ==> a[0] == b[0]
  {
    if k > 0 {
      assert a[0] == a[..k][0] && b[0] == b[..k][0];
    }
  }

  lemma {:induction false} StringLessExactly(a: string, b: string)
    ensures StringLess(a, b) <==> exists k: nat :: DiffersAt(a, b, k)
  {
    if |b| > 0 && |a| == 0 {
      assert DiffersAt(a, b, 0);
    } else if |b| > 0 && a[0] == b[0] {
      StringLessExactly(a[1..], b[1..]);
      if StringLess(a, b) {
        var k: nat :| DiffersAt(a[1..], b[1..], k);
        assert a[..k + 1] == [a[0]] + a[1..][..k] && b[..k + 1] == [b[0]] + b[1..][..k];
        assert DiffersAt(a, b, k + 1);
      }
      if k: nat :| DiffersAt(a, b, k) {
        assert k > 0;
        assert a[1..][..k - 1] == a[..k][1..] && b[1..][..k - 1] == b[..k][1..];
        assert DiffersAt(a[1..], b[1..], k - 1);
      }
    } else if |b| > 0 {
      if k: nat :| DiffersAt(a, b, k) {
        FirstShared(a, b, k);
      }
      assert a[0] < b[0] ==> DiffersAt(a, b, 0);
    }
  }

  lemma StringOrders()
    ensures StrictTotal(StringLess) && StrictTotal(PairLess)
  {
    forall a: string ensures !StringLess(a, a) { StringLessIrreflexive(a); }
    forall a, b, c | StringLess(a, b) && StringLess(b, c) ensures StringLess(a, c) { StringLessTransitive(a, b, c); }
    forall a: string, b | a != b ensures StringLess(a, b) || StringLess(b, a) { StringLessTotal(a, b); }
  }

  // Ids in the order an iterator, or a reversed iterator, walks them.
  function Ascending(ids: set<uint64>): (r: seq<uint64>)
    ensures Sorted(IdLess, r) && |r| == |ids| && forall x :: x in r <==> x in ids
  {
    IdOrders();
    Sort(IdLess, ids)
  }

  function Descending(ids: set<uint64>): (r: seq<uint64>)
    ensures Sorted(IdMore, r) && |r| == |ids| && forall x :: x in r <==> x in ids
  {
    IdOrders();
    Sort(IdMore, ids)
  }
}
