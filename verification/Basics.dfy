/** Shared vocabulary: optional values, row identifiers, lookups in a list. */
module Basics {

  datatype Option<+T> = None | Some(value: T)

  /** An opaque identifier. Only equality and the total order of the store's
      tie-break are ever used; NO_ID is the empty column. */
  type Id = nat

  const NO_ID: Id := 0

  predicate NoRepeats<T(==)>(a: seq<T>) {
    forall i, j :: 0 <= i < j < |a| ==> a[i] != a[j]
  }

  /** The first position holding `x`, or -1. */
  function Find(xs: seq<string>, x: string): (i: int)
    ensures -1 <= i < |xs|
    ensures i >= 0 ==> xs[i] == x && x !in xs[..i]
    ensures i < 0 <==> x !in xs
  {
    if xs == [] then -1
    else if xs[0] == x then 0
    else
      var i := Find(xs[1..], x);
      if i < 0 then -1 else i + 1
  }

  lemma FindUnique(xs: seq<string>, i: nat)
    requires NoRepeats(xs) && i < |xs|
    ensures Find(xs, xs[i]) == i
  {
    assert xs[i] in xs;
    assert xs[Find(xs, xs[i])] == xs[i];
  }

  /** Disjoint lists without repeats. */
  lemma JoinNoRepeats<T>(a: seq<T>, b: seq<T>)
    requires NoRepeats(a) && NoRepeats(b) && forall x | x in a :: x !in b
    ensures NoRepeats(a + b)
  {
    forall i, j | 0 <= i < j < |a + b| ensures (a + b)[i] != (a + b)[j] {
      if i < |a| <= j { assert a[i] in a && b[j - |a|] in b; }
    }
  }

  lemma FirstDiffers<T>(x: T, xs: seq<T>)
    ensures NoRepeats([x] + xs) <==> x !in xs && NoRepeats(xs)
  {
    var all := [x] + xs;
    if NoRepeats(all) {
      forall i | 0 <= i < |xs| ensures xs[i] != x { assert all[i + 1] == xs[i] && all[0] == x; }
      forall i, j | 0 <= i < j < |xs| ensures xs[i] != xs[j] { assert all[i + 1] == xs[i] && all[j + 1] == xs[j]; }
    }
  }

  /** `x` stands somewhere ahead of `y`. */
  ghost predicate Ahead<T>(xs: seq<T>, x: T, y: T) {
    exists i, j :: 0 <= i < j < |xs| && xs[i] == x && xs[j] == y
  }

  lemma AheadFirst<T>(h: T, rest: seq<T>, x: T, y: T)
    ensures Ahead([h] + rest, x, y) <==> (h == x && y in rest) || Ahead(rest, x, y)
  {
    var all := [h] + rest;
    if i, j :| 0 <= i < j < |all| && all[i] == x && all[j] == y {
      assert rest[j - 1] == y;
      if i > 0 { assert rest[i - 1] == x; }
    }
    if h == x && y in rest {
      var j :| 0 <= j < |rest| && rest[j] == y;
      assert all[0] == x && all[j + 1] == y;
    }
    if i, j :| 0 <= i < j < |rest| && rest[i] == x && rest[j] == y { assert all[i + 1] == x && all[j + 1] == y; }
  }
}
