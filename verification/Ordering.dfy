/** `ORDER BY priority, id`: the store's listing of a set of rows. */
module Ordering {
  import opened Basics

  predicate Before(key: map<Id, int>, a: Id, b: Id)
    requires a in key && b in key
  {
    key[a] < key[b] || (key[a] == key[b] && a < b)
  }

  /** `r` lists exactly the rows of `s`, each once, in (key, id) order. */
  ghost predicate IsListing(r: seq<Id>, s: set<Id>, key: map<Id, int>)
    requires s <= key.Keys
  {
    && (forall x :: x in s <==> x in r)
    && (forall i, j :: 0 <= i < j < |r| ==> Before(key, r[i], r[j]))
  }

  predicate IsLeast(x: Id, s: set<Id>, key: map<Id, int>)
    requires s <= key.Keys
  {
    x in s && forall y | y in s && y != x :: Before(key, x, y)
  }

  lemma {:induction false} LeastExists(s: set<Id>, key: map<Id, int>)
    requires s <= key.Keys && s != {}
    ensures exists x :: IsLeast(x, s, key)
    decreases s
  {
    var x :| x in s;
    var rest := s - {x};
    if rest == {} {
      assert forall y | y in s && y != x :: y in rest;
      assert IsLeast(x, s, key);
    } else {
      LeastExists(rest, key);
      var m :| IsLeast(m, rest, key);
      var least := if Before(key, x, m) then x else m;
      forall y | y in s && y != least ensures Before(key, least, y) {
        assert y == x || y in rest;
      }
      assert IsLeast(least, s, key);
    }
  }

  /** The listing itself: repeatedly the least remaining row. */
  function Sorted(s: set<Id>, key: map<Id, int>): (r: seq<Id>)
    requires s <= key.Keys
    ensures IsListing(r, s, key)
    decreases s
  {
    if s == {} then []
    else
      LeastExists(s, key);
      var x :| x in s && IsLeast(x, s, key);
      [x] + Sorted(s - {x}, key)
  }

  /** A listing is determined by its rows and their keys. */
  lemma {:induction false} ListingUnique(a: seq<Id>, b: seq<Id>, s: set<Id>, key: map<Id, int>)
    requires s <= key.Keys
    requires IsListing(a, s, key) && IsListing(b, s, key)
    ensures a == b
    decreases s
  {
    ListingNoRepeats(a, s, key);
    ListingNoRepeats(b, s, key);
    if a != [] {
      assert a[0] in s;
      var i :| 0 <= i < |b| && b[i] == a[0];
      assert b[0] in s;
      var j :| 0 <= j < |a| && a[j] == b[0];
      assert a[0] == b[0];
      var rest := s - {a[0]};
      TailLists(a, s, key);
      TailLists(b, s, key);
      ListingUnique(a[1..], b[1..], rest, key);
    }
  }

  lemma TailLists(a: seq<Id>, s: set<Id>, key: map<Id, int>)
    requires s <= key.Keys && IsListing(a, s, key) && a != []
    ensures IsListing(a[1..], s - {a[0]}, key)
  {
    forall x ensures x in s - {a[0]} <==> x in a[1..] {
      if x in a[1..] {
        var i :| 0 <= i < |a[1..]| && a[1..][i] == x;
        assert Before(key, a[0], a[i + 1]);
      }
    }
  }

  lemma ListingNoRepeats(a: seq<Id>, s: set<Id>, key: map<Id, int>)
    requires s <= key.Keys && IsListing(a, s, key)
    ensures forall i, j :: 0 <= i < j < |a| ==> a[i] != a[j]
    ensures |a| == |s|
    decreases |a|
  {
    if a == [] {
      assert forall x :: x in s ==> x in a;
      assert s == {};
    } else {
      TailLists(a, s, key);
      assert a[0] in s;
      ListingNoRepeats(a[1..], s - {a[0]}, key);
    }
  }

  /** A listing depends on its rows' own keys and on nothing else. */
  lemma SortedAgrees(s: set<Id>, key: map<Id, int>, key': map<Id, int>)
    requires s <= key.Keys && s <= key'.Keys && forall x | x in s :: key[x] == key'[x]
    ensures Sorted(s, key) == Sorted(s, key')
  {
    var a, b := Sorted(s, key), Sorted(s, key');
    assert forall i | 0 <= i < |a| :: a[i] in s;
    forall i, j | 0 <= i < j < |a| ensures Before(key', a[i], a[j]) { assert Before(key, a[i], a[j]); }
    hide Sorted;
    ListingUnique(a, b, s, key');
  }

  // ----- the keys along a listing -----

  function KeysOf(a: seq<Id>, key: map<Id, int>): seq<int>
    requires forall i | 0 <= i < |a| :: a[i] in key
  {
    seq(|a|, i requires 0 <= i < |a| => key[a[i]])
  }

  ghost predicate Ascends(k: seq<int>) {
    forall i, j :: 0 <= i < j < |k| ==> k[i] <= k[j]
  }

  function Omit<T>(a: seq<T>, k: nat): seq<T>
    requires k < |a|
  {
    a[..k] + a[k + 1..]
  }

  lemma BagOmit<T>(a: seq<T>, k: nat)
    requires k < |a|
    ensures multiset(a) == multiset{a[k]} + multiset(Omit(a, k))
  {
    assert a == a[..k] + [a[k]] + a[k + 1..];
  }

  /** Two sequences with the same elements as often agree after dropping one element from each. */
  lemma BagOmitBoth<T>(a: seq<T>, b: seq<T>, i: nat, j: nat)
    requires multiset(a) == multiset(b) && i < |a| && j < |b| && a[i] == b[j]
    ensures multiset(Omit(a, i)) == multiset(Omit(b, j))
  {
    BagOmit(a, i);
    BagOmit(b, j);
    assert multiset(Omit(a, i)) == multiset(a) - multiset{a[i]};
    assert multiset(Omit(b, j)) == multiset(b) - multiset{b[j]};
  }

  lemma BagFind<T>(a: seq<T>, b: seq<T>, i: nat) returns (j: nat)
    requires multiset(a) == multiset(b) && i < |a|
    ensures j < |b| && b[j] == a[i]
  {
    assert a[i] in multiset(b);
    j :| 0 <= j < |b| && b[j] == a[i];
  }

  lemma BagLength<T>(a: seq<T>, b: seq<T>)
    requires multiset(a) == multiset(b)
    ensures |a| == |b|
  {
    assert |a| == |multiset(a)| == |multiset(b)| == |b|;
  }

  lemma LeastFirst(a: seq<int>, b: seq<int>)
    requires Ascends(a) && multiset(a) == multiset(b) && b != []
    ensures a != [] && a[0] <= b[0]
  {
    BagLength(a, b);
    var j := BagFind(b, a, 0);
    assert j == 0 || a[0] <= a[j];
  }

  /** Two arrangements of one multiset, both ascending, are the same sequence. */
  lemma {:induction false} AscendingUnique(a: seq<int>, b: seq<int>)
    requires Ascends(a) && Ascends(b) && multiset(a) == multiset(b)
    ensures a == b
  {
    hide Ascends, Omit;
    BagLength(a, b);
    if a != [] {
      LeastFirst(a, b);
      LeastFirst(b, a);
      BagOmitBoth(a, b, 0, 0);
      AscendsRest(a);
      AscendsRest(b);
      AscendingUnique(a[1..], b[1..]);
    }
  }

  lemma AscendsRest(a: seq<int>)
    requires Ascends(a) && a != []
    ensures Ascends(a[1..]) && Omit(a, 0) == a[1..]
  {
  }

  /** Rearranging rows rearranges their keys. */
  lemma {:induction false} KeysRearranged(a: seq<Id>, b: seq<Id>, key: map<Id, int>)
    requires forall i | 0 <= i < |a| :: a[i] in key
    requires forall i | 0 <= i < |b| :: b[i] in key
    requires multiset(a) == multiset(b)
    ensures multiset(KeysOf(a, key)) == multiset(KeysOf(b, key))
    decreases |a|
  {
    BagLength(a, b);
    if a != [] {
      var k := BagFind(a, b, 0);
      BagOmitBoth(a, b, 0, k);
      KeysRearranged(Omit(a, 0), Omit(b, k), key);
      KeysOmit(a, 0, key);
      KeysOmit(b, k, key);
      BagOmit(KeysOf(a, key), 0);
      BagOmit(KeysOf(b, key), k);
    }
  }

  lemma KeysOmit(a: seq<Id>, k: nat, key: map<Id, int>)
    requires k < |a| && forall i | 0 <= i < |a| :: a[i] in key
    ensures KeysOf(Omit(a, k), key) == Omit(KeysOf(a, key), k)
  {
  }

  lemma {:induction false} SameElements<T>(a: seq<T>, b: seq<T>)
    requires NoRepeats(a) && NoRepeats(b) && forall x :: x in a <==> x in b
    ensures multiset(a) == multiset(b)
  {
    forall x ensures multiset(a)[x] == multiset(b)[x] {
      AtMostOnce(a, x);
      AtMostOnce(b, x);
    }
  }

  lemma {:induction false} AtMostOnce<T>(a: seq<T>, x: T)
    requires NoRepeats(a)
    ensures multiset(a)[x] == if x in a then 1 else 0
  {
    if a != [] {
      var n := |a| - 1;
      assert a == a[..n] + [a[n]];
      AtMostOnce(a[..n], x);
    }
  }

  lemma BagNoRepeats<T>(a: seq<T>, b: seq<T>)
    requires NoRepeats(a) && multiset(a) == multiset(b)
    ensures NoRepeats(b)
  {
    forall i, j | 0 <= i < j < |b| ensures b[i] != b[j] {
      AtMostOnce(a, b[j]);
      assert b == b[..j] + [b[j]] + b[j + 1..] && b[i] == b[..j][i];
      assert b[i] in multiset(b[..j]);
      assert multiset(b)[b[j]] == multiset(b[..j])[b[j]] + 1 + multiset(b[j + 1..])[b[j]];
    }
  }

  /** Listing an ascending arrangement again moves rows only among equal keys. */
  lemma SameKeysWhenListed(a: seq<Id>, b: seq<Id>, s: set<Id>, key: map<Id, int>)
    requires s <= key.Keys && IsListing(b, s, key)
    requires NoRepeats(a) && (forall x :: x in a <==> x in s) && Ascends(KeysOf(a, key))
    ensures |a| == |b| && KeysOf(a, key) == KeysOf(b, key)
  {
    ListingNoRepeats(b, s, key);
    SameElements(a, b);
    KeysRearranged(a, b, key);
    forall i, j | 0 <= i < j < |b| ensures key[b[i]] <= key[b[j]] { assert Before(key, b[i], b[j]); }
    AscendingUnique(KeysOf(a, key), KeysOf(b, key));
    assert |KeysOf(a, key)| == |KeysOf(b, key)|;
  }

  lemma ListingAscends(a: seq<Id>, s: set<Id>, key: map<Id, int>)
    requires s <= key.Keys && IsListing(a, s, key)
    ensures (forall i | 0 <= i < |a| :: a[i] in key) && Ascends(KeysOf(a, key))
  {
    assert forall i | 0 <= i < |a| :: a[i] in s;
    forall i, j | 0 <= i < j < |a| ensures key[a[i]] <= key[a[j]] { assert Before(key, a[i], a[j]); }
  }

  /** What stands at position `i` of the new listing stood among equal keys before. */
  lemma Relisted(a: seq<Id>, b: seq<Id>, s: set<Id>, key: map<Id, int>, i: nat) returns (j: nat)
    requires s <= key.Keys && IsListing(b, s, key)
    requires NoRepeats(a) && (forall x :: x in a <==> x in s) && Ascends(KeysOf(a, key))
    requires i < |b|
    ensures |a| == |b| && j < |a| && a[j] == b[i] && a[i] in s && key[a[j]] == key[a[i]]
  {
    SameKeysWhenListed(a, b, s, key);
    assert b[i] in s && a[i] in s;
    j :| 0 <= j < |a| && a[j] == b[i];
    assert KeysOf(a, key)[i] == KeysOf(b, key)[i];
  }

  // ----- exchanging two keys -----

  function Swap<T>(a: seq<T>, i: nat, j: nat): (r: seq<T>)
    requires i < |a| && j < |a|
    ensures |r| == |a| && multiset(r) == multiset(a)
    ensures forall k | 0 <= k < |a| :: r[k] == a[if k == i then j else if k == j then i else k]
  {
    a[i := a[j]][j := a[i]]
  }

  /** `key'` is `key` with the keys of `a` and `b` exchanged. */
  ghost predicate Exchanged(s: set<Id>, key: map<Id, int>, key': map<Id, int>, a: Id, b: Id) {
    && s <= key.Keys && s <= key'.Keys && a in s && b in s
    && forall x | x in s :: key'[x] == key[if x == a then b else if x == b then a else x]
  }

  ghost predicate DistinctKeys(s: set<Id>, key: map<Id, int>)
    requires s <= key.Keys
  {
    forall a, b | a in s && b in s && a != b :: key[a] != key[b]
  }

  lemma ListedMembers(a: seq<Id>, s: set<Id>, key: map<Id, int>)
    requires s <= key.Keys && IsListing(a, s, key)
    ensures (forall i | 0 <= i < |a| :: a[i] in s) && NoRepeats(a) && |a| == |s|
  {
    assert forall i | 0 <= i < |a| :: a[i] in a;
    ListingNoRepeats(a, s, key);
  }

  lemma PositionOf(a: seq<Id>, s: set<Id>, key: map<Id, int>, x: Id) returns (i: nat)
    requires s <= key.Keys && IsListing(a, s, key) && x in s
    ensures i < |a| && a[i] == x
  {
    i :| 0 <= i < |a| && a[i] == x;
  }

  /** Along the old listing, the exchanged keys are the old keys with two positions swapped. */
  lemma ExchangedKeys(a: seq<Id>, s: set<Id>, key: map<Id, int>, key': map<Id, int>, i: nat, j: nat)
    requires i < |a| && j < |a| && (forall p | 0 <= p < |a| :: a[p] in s) && NoRepeats(a)
    requires Exchanged(s, key, key', a[i], a[j])
    ensures KeysOf(a, key') == Swap(KeysOf(a, key), i, j)
    ensures KeysOf(Swap(a, i, j), key') == KeysOf(a, key)
  {
    forall p | 0 <= p < |a| ensures key'[a[p]] == key[a[if p == i then j else if p == j then i else p]] { }
  }

  /** Exchanging two keys leaves the keys along the listing as they were. */
  lemma ExchangeKeepsKeys(a: seq<Id>, b: seq<Id>, s: set<Id>, key: map<Id, int>, key': map<Id, int>, i: nat, j: nat)
    requires s <= key.Keys && s <= key'.Keys && IsListing(a, s, key) && IsListing(b, s, key')
    requires i < |a| && j < |a| && Exchanged(s, key, key', a[i], a[j])
    ensures (forall p | 0 <= p < |a| :: a[p] in s) && (forall p | 0 <= p < |b| :: b[p] in s)
    ensures KeysOf(a, key) == KeysOf(b, key')
  {
    ListedMembers(a, s, key);
    ListedMembers(b, s, key');
    ListingAscends(a, s, key);
    ListingAscends(b, s, key');
    SameElements(a, b);
    hide IsListing, Exchanged;
    KeysRearranged(a, b, key');
    assert KeysOf(a, key') == Swap(KeysOf(a, key), i, j) by { ExchangedKeys(a, s, key, key', i, j); }
    AscendingUnique(KeysOf(a, key), KeysOf(b, key'));
  }

  /** When keys are distinct, exchanging two of them exchanges the two rows. */
  lemma ExchangeSwaps(a: seq<Id>, b: seq<Id>, s: set<Id>, key: map<Id, int>, key': map<Id, int>, i: nat, j: nat)
    requires s <= key.Keys && s <= key'.Keys && IsListing(a, s, key) && IsListing(b, s, key') && DistinctKeys(s, key)
    requires i < |a| && j < |a| && Exchanged(s, key, key', a[i], a[j])
    ensures b == Swap(a, i, j) && DistinctKeys(s, key')
  {
    ListedMembers(a, s, key);
    var c := Swap(a, i, j);
    ExchangedKeys(a, s, key, key', i, j);
    assert forall x :: x in a <==> x in s;
    assert forall p | 0 <= p < |a| :: c[p] in s;
    forall x ensures x in c <==> x in s {
      if x in s {
        var p := PositionOf(a, s, key, x);
        assert c[if p == i then j else if p == j then i else p] == x;
      }
    }
    forall p, q | 0 <= p < q < |c| ensures Before(key', c[p], c[q]) {
      assert Before(key, a[p], a[q]) && a[p] != a[q] && key[a[p]] != key[a[q]];
      assert KeysOf(c, key')[p] == KeysOf(a, key)[p] && KeysOf(c, key')[q] == KeysOf(a, key)[q];
    }
    ListingUnique(b, c, s, key');
    ExchangeDistinct(s, key, key', a[i], a[j]);
  }

  lemma ExchangeDistinct(s: set<Id>, key: map<Id, int>, key': map<Id, int>, a: Id, b: Id)
    requires s <= key.Keys && s <= key'.Keys && DistinctKeys(s, key) && Exchanged(s, key, key', a, b)
    ensures DistinctKeys(s, key')
  {
    forall x, y | x in s && y in s && x != y ensures key'[x] != key'[y] {
      var x' := if x == a then b else if x == b then a else x;
      var y' := if y == a then b else if y == b then a else y;
      assert x' in s && y' in s && x' != y';
    }
  }
}
