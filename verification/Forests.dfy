/** Ordered forests and their flat depth-first listing. */
module Forests {

  /** A row of siblings: the first one with everything under it, then the rest. */
  datatype Forest<T> = End | Node(item: T, sub: Forest<T>, next: Forest<T>)

  /** One line of the listing: its depth and its position among its siblings. */
  datatype Entry<T> = Entry(item: T, level: nat, index: nat)

  function Flatten<T>(f: Forest<T>, level: nat, index: nat): seq<Entry<T>> {
    match f
    case End => []
    case Node(x, sub, next) =>
      [Entry(x, level, index)] + Flatten(sub, level + 1, 0) + Flatten(next, level, index + 1)
  }

  function Items<T>(f: Forest<T>): seq<T> {
    match f
    case End => []
    case Node(x, sub, next) => [x] + Items(sub) + Items(next)
  }

  lemma FlattenItems<T>(f: Forest<T>, level: nat, index: nat)
    ensures |Flatten(f, level, index)| == |Items(f)|
    ensures forall k | 0 <= k < |Items(f)| :: Flatten(f, level, index)[k].item == Items(f)[k]
  {
  }

  /** Reads siblings of one level off the front of a listing, from items and levels alone. */
  function Rebuild<T>(es: seq<Entry<T>>, level: nat): (r: (Forest<T>, seq<Entry<T>>))
    ensures |r.1| <= |es|
    decreases |es|
  {
    if es == [] || es[0].level != level then (End, es)
    else
      var (sub, rest) := Rebuild(es[1..], level + 1);
      var (next, tail) := Rebuild(rest, level);
      (Node(es[0].item, sub, next), tail)
  }

  lemma {:induction false} RebuildFlatten<T>(f: Forest<T>, level: nat, index: nat, tail: seq<Entry<T>>)
    requires tail == [] || tail[0].level < level
    ensures Rebuild(Flatten(f, level, index) + tail, level) == (f, tail)
  {
    match f
    case End => assert [] + tail == tail;
    case Node(x, sub, next) =>
      var es := Flatten(f, level, index) + tail;
      var rest := Flatten(next, level, index + 1) + tail;
      assert es[1..] == Flatten(sub, level + 1, 0) + rest;
      if next.End? { assert rest == tail; }
      RebuildFlatten(sub, level + 1, 0, rest);
      RebuildFlatten(next, level, index + 1, tail);
  }

  /** The flat listing loses no structure. */
  lemma ListingRoundTrip<T>(f: Forest<T>)
    ensures Rebuild(Flatten(f, 0, 0), 0) == (f, [])
  {
    RebuildFlatten(f, 0, 0, []);
    assert Flatten(f, 0, 0) + [] == Flatten(f, 0, 0);
  }

  /** Levels start at the top and rise by at most one per line. */
  lemma {:induction false} LevelsRiseByOne<T>(f: Forest<T>, level: nat, index: nat)
    ensures var es := Flatten(f, level, index);
      && (es != [] ==> es[0].level == level)
      && (forall k | 0 <= k < |es| :: es[k].level >= level)
      && (forall k | 0 < k < |es| :: es[k].level <= es[k - 1].level + 1)
  {
    match f
    case End =>
    case Node(x, sub, next) =>
      LevelsRiseByOne(sub, level + 1, 0);
      LevelsRiseByOne(next, level, index + 1);
  }

  /** How many of the first `j` lines are earlier siblings of a line at `level`
      that follows them: same level, with nothing shallower in between. */
  function EarlierSiblings<T>(es: seq<Entry<T>>, j: nat, level: nat): nat
    requires j <= |es|
  {
    if j == 0 || es[j - 1].level < level then 0
    else EarlierSiblings(es, j - 1, level) + (if es[j - 1].level == level then 1 else 0)
  }

  ghost predicate NoneShallower<T>(es: seq<Entry<T>>, j: nat, level: nat)
    requires j <= |es|
  {
    forall k | 0 <= k < j :: es[k].level >= level
  }

  lemma {:induction false} EarlierSiblingsSplit<T>(a: seq<Entry<T>>, b: seq<Entry<T>>, j: nat, level: nat)
    requires j <= |b|
    ensures EarlierSiblings(a + b, |a| + j, level)
         == EarlierSiblings(b, j, level) + (if NoneShallower(b, j, level) then EarlierSiblings(a, |a|, level) else 0)
    decreases j
  {
    if j == 0 {
      EarlierSiblingsPrefix(a, b, |a|, level);
    } else {
      assert (a + b)[|a| + j - 1] == b[j - 1];
      EarlierSiblingsSplit(a, b, j - 1, level);
    }
  }

  lemma {:induction false} EarlierSiblingsPrefix<T>(a: seq<Entry<T>>, b: seq<Entry<T>>, j: nat, level: nat)
    requires j <= |a|
    ensures EarlierSiblings(a + b, j, level) == EarlierSiblings(a, j, level)
    decreases j
  {
    if j > 0 {
      assert (a + b)[j - 1] == a[j - 1];
      EarlierSiblingsPrefix(a, b, j - 1, level);
    }
  }

  /** Nothing at a deeper level is counted. */
  lemma {:induction false} DeeperNotCounted<T>(es: seq<Entry<T>>, j: nat, level: nat)
    requires j <= |es| && forall k | 0 <= k < j :: es[k].level > level
    ensures EarlierSiblings(es, j, level) == 0
    decreases j
  {
    if j > 0 { DeeperNotCounted(es, j - 1, level); }
  }

  lemma PositionUnder<T>(head: Entry<T>, S: seq<Entry<T>>, N: seq<Entry<T>>, k: nat)
    requires k < |S| && forall i | 0 <= i < |S| :: S[i].level > head.level
    ensures EarlierSiblings([head] + S + N, k + 1, S[k].level) == EarlierSiblings(S, k, S[k].level)
  {
    EarlierSiblingsPrefix([head] + S, N, k + 1, S[k].level);
    EarlierSiblingsSplit([head], S, k, S[k].level);
  }

  lemma PositionAfter<T>(head: Entry<T>, S: seq<Entry<T>>, N: seq<Entry<T>>, j: nat)
    requires j < |N| && N[0].level == head.level && N[j].level >= head.level
    requires forall i | 0 <= i < |S| :: S[i].level > head.level
    requires forall i | 0 <= i < |N| :: N[i].level >= head.level
    ensures EarlierSiblings([head] + S + N, 1 + |S| + j, N[j].level)
         == EarlierSiblings(N, j, N[j].level) + (if N[j].level == head.level then 1 else 0)
  {
    hide EarlierSiblings;
    var a, level := [head] + S, N[j].level;
    EarlierSiblingsSplit(a, N, j, level);
    assert |a| + j == 1 + |S| + j;
    if level == head.level {
      assert NoneShallower(N, j, level);
      HeadCountsOnce(head, S);
    } else {
      assert N[0].level < level;
      assert !NoneShallower(N, j, level);
    }
  }

  lemma HeadCountsOnce<T>(head: Entry<T>, S: seq<Entry<T>>)
    requires forall i | 0 <= i < |S| :: S[i].level > head.level
    ensures EarlierSiblings([head] + S, |[head] + S|, head.level) == 1
  {
    EarlierSiblingsSplit([head], S, |S|, head.level);
    DeeperNotCounted(S, |S|, head.level);
    assert NoneShallower(S, |S|, head.level);
    assert EarlierSiblings([head], 1, head.level) == 1 + EarlierSiblings([head], 0, head.level);
  }

  /** `index` is the position among siblings that the levels alone determine. */
  lemma {:induction false} IndexIsPosition<T>(f: Forest<T>, level: nat, index: nat, k: nat)
    requires k < |Flatten(f, level, index)|
    ensures var es := Flatten(f, level, index);
      es[k].index == EarlierSiblings(es, k, es[k].level) + (if es[k].level == level then index else 0)
    decreases f
  {
    match f
    case End =>
    case Node(x, sub, next) =>
      var head, S, N := Entry(x, level, index), Flatten(sub, level + 1, 0), Flatten(next, level, index + 1);
      var es := [head] + S + N;
      assert es == Flatten(f, level, index);
      LevelsRiseByOne(sub, level + 1, 0);
      LevelsRiseByOne(next, level, index + 1);
      if 0 < k <= |S| {
        IndexIsPosition(sub, level + 1, 0, k - 1);
        PositionUnder(head, S, N, k - 1);
        assert es[k] == S[k - 1];
      } else if k > |S| {
        var j := k - 1 - |S|;
        IndexIsPosition(next, level, index + 1, j);
        PositionAfter(head, S, N, j);
        assert es[k] == N[j];
      }
  }
}
