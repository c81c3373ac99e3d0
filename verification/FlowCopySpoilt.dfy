/** How the copy of a flow that is not faithful comes out wrong: exchange the
    identifiers of two neighbouring rows that tie and differ. */
module FlowCopySpoilt {
  import opened Basics
  import opened Ordering
  import opened Forests
  import opened FlowModel
  import opened FlowForest
  import opened FlowTree
  import opened FlowRuns
  import opened FlowCopy
  import opened FlowCopyListing
  import opened FlowCopyAlike
  import opened FlowCopyExact

  function Exchange(j: nat, a: nat, b: nat): nat {
    if j == a then b else if j == b then a else j
  }

  /** Identifiers increase, but for two draws that are exchanged. */
  ghost predicate OrderedBy(env: Env, lo: nat, hi: nat, a: nat, b: nat) {
    forall j: nat, k: nat | lo <= j < hi && lo <= k < hi
      && Exchange(j, a, b) < Exchange(k, a, b) :: env.ids(j) < env.ids(k)
  }

  lemma OrderedAway(env: Env, lo: nat, hi: nat, a: nat, b: nat, from: nat, to: nat)
    requires OrderedBy(env, lo, hi, a, b) && lo <= from && to <= hi
    requires (a < from || to <= a) && (b < from || to <= b)
    ensures IncreasingOn(env, from, to)
  {
  }

  lemma OrderedPart(env: Env, lo: nat, hi: nat, a: nat, b: nat, from: nat, to: nat)
    requires OrderedBy(env, lo, hi, a, b) && lo <= from && to <= hi
    ensures OrderedBy(env, from, to, a, b)
  {
  }

  /** The listing of the copy once two neighbours have changed places. */
  lemma SwapOrders(env: Env, s0: State, s: State, flow: Id, ids: seq<Id>, dst: Id, i: nat)
    requires Ready(env, s0, s, flow, ids, dst) && ids == s0.Listing(flow) && i + 1 < |ids|
    requires ids[i] in s0.rows && ids[i + 1] in s0.rows && s0.rows[ids[i]].priority == s0.rows[ids[i + 1]].priority
    requires forall j: nat, k: nat | j < |ids| && k < |ids| && Exchange(j, i, i + 1) < Exchange(k, i, i + 1) ::
      NewId(env, s0, s, flow, ids, dst, j) < NewId(env, s0, s, flow, ids, dst, k)
    ensures Orders(env, s0, s, flow, ids, dst, Swap(Identity(|ids|), i, i + 1))
  {
    hide Ready, NewId, State.Listing;
    ListedPriorities(s0, flow);
    var pos := Swap(Identity(|ids|), i, i + 1);
    forall k | 0 <= k < |pos| ensures pos[k] == Exchange(k, i, i + 1) {}
    forall k: nat | k < |ids| ensures k in pos { assert pos[Exchange(k, i, i + 1)] == k; }
    forall p, q | 0 <= p < q < |pos| ensures Sooner(env, s0, s, flow, ids, dst, pos[p], pos[q]) {
      assert Exchange(pos[p], i, i + 1) == p && Exchange(pos[q], i, i + 1) == q;
      assert pos[p] < pos[q] || (p == i && q == i + 1);
    }
  }

  /** Exchanging the draws of two neighbouring rows exchanges those rows' ids. */
  lemma ExchangedNews(env: Env, s0: State, s: State, flow: Id, ids: seq<Id>, dst: Id, i: nat, j: nat, k: nat, hi: nat)
    requires Ready(env, s0, s, flow, ids, dst) && Rooted(s0) && flow in s0.flows
      && (forall r | r in ids :: RowIn(s0, flow, r))
    requires i + 1 < |ids| && j < |ids| && k < |ids| && Exchange(j, i, i + 1) < Exchange(k, i, i + 1)
    requires hi == s.next + Offset(s0, flow, ids, |ids|)
    requires OrderedBy(env, s.next, hi, s.next + Offset(s0, flow, ids, i), s.next + Offset(s0, flow, ids, i + 1))
    ensures NewId(env, s0, s, flow, ids, dst, j) < NewId(env, s0, s, flow, ids, dst, k)
  {
    hide Ready, Rooted, NewId, Offset, RowIn, OrderedBy;
    NewIdIs(env, s0, s, flow, ids, dst, j);
    NewIdIs(env, s0, s, flow, ids, dst, k);
    StartBelow(s0, flow, ids, j);
    StartBelow(s0, flow, ids, k);
    StartsDiffer(s0, flow, ids, i, j);
    StartsDiffer(s0, flow, ids, i, k);
    StartsDiffer(s0, flow, ids, i + 1, j);
    StartsDiffer(s0, flow, ids, i + 1, k);
    StartsDiffer(s0, flow, ids, Exchange(j, i, i + 1), Exchange(k, i, i + 1));
    var a, b := s.next + Offset(s0, flow, ids, i), s.next + Offset(s0, flow, ids, i + 1);
    assert Exchange(s.next + Offset(s0, flow, ids, j), a, b) == s.next + Offset(s0, flow, ids, Exchange(j, i, i + 1));
    assert Exchange(s.next + Offset(s0, flow, ids, k), a, b) == s.next + Offset(s0, flow, ids, Exchange(k, i, i + 1));
    OrderedAt(env, s.next, hi, a, b, s.next + Offset(s0, flow, ids, j), s.next + Offset(s0, flow, ids, k));
  }

  lemma OrderedAt(env: Env, lo: nat, hi: nat, a: nat, b: nat, j: nat, k: nat)
    requires OrderedBy(env, lo, hi, a, b) && lo <= j < hi && lo <= k < hi && Exchange(j, a, b) < Exchange(k, a, b)
    ensures env.ids(j) < env.ids(k)
  {
  }

  lemma StartBelow(s: State, flow: Id, ids: seq<Id>, i: nat)
    requires Rooted(s) && flow in s.flows && (forall r | r in ids :: RowIn(s, flow, r)) && i < |ids|
    ensures Offset(s, flow, ids, i) < Offset(s, flow, ids, |ids|)
  {
    hide Rooted, Offset, DrawsRow, RowIn;
    OffsetsRise(s, flow, ids, i, |ids|);
    RowDrawsSome(s, flow, ids[i]);
  }

  lemma StartsDiffer(s: State, flow: Id, ids: seq<Id>, i: nat, j: nat)
    requires Rooted(s) && flow in s.flows && (forall r | r in ids :: RowIn(s, flow, r)) && i < |ids| && j < |ids|
    ensures i < j ==> Offset(s, flow, ids, i) < Offset(s, flow, ids, j)
    ensures j < i ==> Offset(s, flow, ids, j) < Offset(s, flow, ids, i)
  {
    hide Rooted, Offset, DrawsRow, RowIn;
    if i < j {
      OffsetsRise(s, flow, ids, i, j);
      RowDrawsSome(s, flow, ids[i]);
    } else if j < i {
      OffsetsRise(s, flow, ids, j, i);
      RowDrawsSome(s, flow, ids[j]);
    }
  }

  lemma BranchShape(s: State, flow: Id, r: Id)
    requires Rooted(s) && flow in s.flows && RowIn(s, flow, r)
    ensures Live(s, r) ==> s.rows[r].flow in s.flows && Branch(s, flow, r).1 == Shape(s, s.rows[r].flow)
  {
    hide ForestOf, Rooted;
  }

  lemma SoundBranch(s: State, flow: Id, r: Id)
    requires Rooted(s) && flow in s.flows && Sound(s, flow) && RowIn(s, flow, r)
    ensures TidyBranch(s, flow, r) == Branch(s, flow, r)
    ensures Live(s, r) ==> s.rows[r].flow in s.flows && Sound(s, s.rows[r].flow)
  {
    TidyRow(s, flow, r);
    hide Rooted, TidyBranch, Branch;
    assert SoundRow(s, flow, r);
  }

  /** The tie here changes places, and the two rows differ. */
  lemma TieSpoils(env: Env, s0: State, s: State, flow: Id, ids: seq<Id>, dst: Id, i: nat)
    requires Ready(env, s0, s, flow, ids, dst) && Rooted(s0) && flow in s0.flows && Sound(s0, flow)
    requires ids == s0.Listing(flow) && (forall r | r in ids :: RowIn(s0, flow, r)) && forall n :: !RowIn(s, dst, n)
    requires i + 1 < |ids| && ids[i] in ids && ids[i + 1] in ids && ids[i] in s0.rows && ids[i + 1] in s0.rows
    requires s0.rows[ids[i]].priority == s0.rows[ids[i + 1]].priority
      && Branch(s0, flow, ids[i]) != Branch(s0, flow, ids[i + 1])
    requires OrderedBy(env, s.next, s.next + Offset(s0, flow, ids, |ids|), s.next + Offset(s0, flow, ids, i),
      s.next + Offset(s0, flow, ids, i + 1))
    ensures var t := At(env, s0, s, flow, ids, dst, |ids|);
      Rooted(t) && dst in t.flows && Shape(t, dst) != Shape(s0, flow)
  {
    hide Ready, Rooted, Sound, At, Orders, BranchAt, Branch, TidyBranch, State.Listing, Offset, OrderedBy,
      IncreasingOn, NewId, RowIn, Shape;
    var hi := s.next + Offset(s0, flow, ids, |ids|);
    forall j: nat, k: nat | j < |ids| && k < |ids| && Exchange(j, i, i + 1) < Exchange(k, i, i + 1)
      ensures NewId(env, s0, s, flow, ids, dst, j) < NewId(env, s0, s, flow, ids, dst, k)
    {
      ExchangedNews(env, s0, s, flow, ids, dst, i, j, k, hi);
    }
    SwapOrders(env, s0, s, flow, ids, dst, i);
    var pos := Swap(Identity(|ids|), i, i + 1);
    OrderedShape(env, s0, s, flow, ids, dst, pos);
    ShapeLine(s0, flow);
    StartsDiffer(s0, flow, ids, i, i + 1);
    OffsetNext(s0, flow, ids, i + 1);
    if i + 2 < |ids| { StartBelow(s0, flow, ids, i + 2); }
    OrderedAway(env, s.next, hi, s.next + Offset(s0, flow, ids, i), s.next + Offset(s0, flow, ids, i + 1),
                s.next + Offset(s0, flow, ids, i + 1) + 1, s.next + Offset(s0, flow, ids, i + 2));
    IncreasingRow(env, s0, s, flow, ids, dst, i + 1);
    SoundBranch(s0, flow, ids[i + 1]);
    var t := At(env, s0, s, flow, ids, dst, |ids|);
    var shown, were := Shown(env, s0, s, flow, ids, dst, pos), Branches(s0, flow, ids);
    assert pos[i] == i + 1 && shown[i] == Branch(s0, flow, ids[i + 1]) && were[i] == Branch(s0, flow, ids[i]);
    if Shape(t, dst) == Shape(s0, flow) { LineInjective(shown, were); }
  }

  /** A spoilt sub-flow shows in its row, which keeps its place. */
  lemma ChildSpoils(env: Env, s0: State, s: State, flow: Id, ids: seq<Id>, dst: Id, i: nat, a: nat, b: nat)
    requires Ready(env, s0, s, flow, ids, dst) && Rooted(s0) && flow in s0.flows
    requires ids == s0.Listing(flow) && (forall r | r in ids :: RowIn(s0, flow, r)) && forall n :: !RowIn(s, dst, n)
    requires i < |ids| && ids[i] in ids && BranchAt(env, s0, s, flow, ids, dst, i) != Branch(s0, flow, ids[i])
    requires OrderedBy(env, s.next, s.next + Offset(s0, flow, ids, |ids|), a, b)
    requires s.next + Offset(s0, flow, ids, i) < a < s.next + Offset(s0, flow, ids, i + 1)
    requires s.next + Offset(s0, flow, ids, i) < b < s.next + Offset(s0, flow, ids, i + 1)
    ensures var t := At(env, s0, s, flow, ids, dst, |ids|);
      Rooted(t) && dst in t.flows && Shape(t, dst) != Shape(s0, flow)
  {
    hide Ready, Rooted, At, Orders, BranchAt, Branch, State.Listing, Offset, OrderedBy, NewId, RowIn, Shape;
    forall j: nat, k: nat | j < k < |ids|
      ensures NewId(env, s0, s, flow, ids, dst, j) < NewId(env, s0, s, flow, ids, dst, k)
    {
      UnexchangedNews(env, s0, s, flow, ids, dst, i, a, b, j, k);
    }
    IdentityOrders(env, s0, s, flow, ids, dst);
    var pos := Identity(|ids|);
    OrderedShape(env, s0, s, flow, ids, dst, pos);
    ShapeLine(s0, flow);
    var t := At(env, s0, s, flow, ids, dst, |ids|);
    var shown, were := Shown(env, s0, s, flow, ids, dst, pos), Branches(s0, flow, ids);
    assert pos[i] == i && shown[i] == BranchAt(env, s0, s, flow, ids, dst, i) && were[i] == Branch(s0, flow, ids[i]);
    if Shape(t, dst) == Shape(s0, flow) { LineInjective(shown, were); }
  }

  lemma UnexchangedNews(env: Env, s0: State, s: State, flow: Id, ids: seq<Id>, dst: Id, i: nat, a: nat, b: nat,
    j: nat, k: nat)
    requires Ready(env, s0, s, flow, ids, dst) && Rooted(s0) && flow in s0.flows
      && (forall r | r in ids :: RowIn(s0, flow, r))
    requires i < |ids| && j < k < |ids| && OrderedBy(env, s.next, s.next + Offset(s0, flow, ids, |ids|), a, b)
    requires s.next + Offset(s0, flow, ids, i) < a < s.next + Offset(s0, flow, ids, i + 1)
    requires s.next + Offset(s0, flow, ids, i) < b < s.next + Offset(s0, flow, ids, i + 1)
    ensures NewId(env, s0, s, flow, ids, dst, j) < NewId(env, s0, s, flow, ids, dst, k)
  {
    hide Ready, Rooted, NewId, Offset, RowIn, OrderedBy;
    NewIdIs(env, s0, s, flow, ids, dst, j);
    NewIdIs(env, s0, s, flow, ids, dst, k);
    StartBelow(s0, flow, ids, j);
    StartBelow(s0, flow, ids, k);
    StartsDiffer(s0, flow, ids, j, k);
    NotStart(s0, flow, ids, i, j);
    NotStart(s0, flow, ids, i, k);
    OrderedAt(env, s.next, s.next + Offset(s0, flow, ids, |ids|), a, b, s.next + Offset(s0, flow, ids, j),
      s.next + Offset(s0, flow, ids, k));
  }

  /** No row starts strictly inside another's draws. */
  lemma NotStart(s: State, flow: Id, ids: seq<Id>, i: nat, j: nat)
    requires Rooted(s) && flow in s.flows && (forall r | r in ids :: RowIn(s, flow, r)) && i < |ids| && j < |ids|
    ensures Offset(s, flow, ids, j) <= Offset(s, flow, ids, i) || Offset(s, flow, ids, i + 1) <= Offset(s, flow, ids, j)
  {
    hide Rooted, Offset, RowIn;
    StartsDiffer(s, flow, ids, j, i);
    if i + 1 < |ids| { StartsDiffer(s, flow, ids, i + 1, j); }
  }

  /** With the right two draws exchanged, the copy does not list as its source. */
  lemma {:induction false} SpoiledCopy(env: Env, s0: State, s: State, src: Id, name: string, a: nat, b: nat)
    requires Origin(env, s0, s) && src in s0.flows && Rooted(s0) && Sound(s0, src) && Spoils(s0, src, a, b)
    requires OrderedBy(env, s.next, s.next + Draws(s0, src), s.next + a, s.next + b)
    ensures Copyable(env, s0.flows, s)
    ensures var (t, dst) := CopyTree(env, s0.flows, s, src, name);
      Rooted(t) && dst in t.flows && Shape(t, dst) != Shape(s0, src)
    decreases Above(s0.flows, s0.flows[src].ordinal)
  {
    hide Origin, Rooted, Sound, Draws, OrderedBy, Copyable, CopyTree, Shape, Ready, At, State.Listing, Begun, Offset,
      Branch, BranchAt, RowIn, TidyInfo, DrawsRow;
    TreeReady(env, s0, s, src, name);
    var (s1, dst) := Begun(env, s0, s, src, name);
    var ids := s0.Listing(src);
    DrawsAre(s0, src);
    var hi := s1.next + Offset(s0, src, ids, |ids|);
    OrderedPart(env, s.next, s.next + Draws(s0, src), s.next + a, s.next + b, s1.next, hi);
    var i := SpoilPlace(s0, src, a, b);
    if TiesHere(s0, src, i, a, b) {
      RowsThere(s0, src, i);
      TieSpoils(env, s0, s1, src, ids, dst, i);
    } else {
      var u := BranchAtIs(env, s0, s1, src, ids, dst, i);
      var r, here := ids[i], 1 + Offset(s0, src, ids, i);
      LinkIsDeeperIn(s0, src, r);
      OffsetNext(s0, src, ids, i);
      RowDrawsSome(s0, src, r);
      SoundBranch(s0, src, r);
      BranchShape(s0, src, r);
      var sub := s0.rows[r].flow;
      SpoilsInside(s0, sub, a - here - 1, b - here - 1);
      if i + 1 < |ids| { StartBelow(s0, src, ids, i + 1); }
      OrderedPart(env, s1.next, hi, s.next + a, s.next + b, u.next, u.next + Draws(s0, sub));
      SpoiledCopy(env, s0, u, sub, "", a - here - 1, b - here - 1);
      ChildSpoils(env, s0, s1, src, ids, dst, i, s.next + a, s.next + b);
    }
  }

  lemma SpoilPlace(s: State, flow: Id, a: nat, b: nat) returns (i: nat)
    requires Rooted(s) && flow in s.flows && Spoils(s, flow, a, b)
    ensures i < |s.Listing(flow)| && (forall r | r in s.Listing(flow) :: RowIn(s, flow, r))
    ensures var ids := s.Listing(flow);
      ids[i] in ids && (TiesHere(s, flow, i, a, b)
        || (Live(s, ids[i]) && s.rows[ids[i]].flow in s.flows && a >= 2 + Offset(s, flow, ids, i)
          && b >= 2 + Offset(s, flow, ids, i)
            && Spoils(s, s.rows[ids[i]].flow, a - 2 - Offset(s, flow, ids, i), b - 2 - Offset(s, flow, ids, i))))
  {
    hide Rooted, State.Listing, Offset, TiesHere;
    ListedIn(s, flow);
    i :| i < |s.Listing(flow)| && SpoilsAt(s, flow, i, a, b);
  }

  lemma RowsThere(s: State, flow: Id, i: nat)
    requires i < |s.Listing(flow)|
    ensures forall k: nat | k < |s.Listing(flow)| :: s.Listing(flow)[k] in s.rows
  {
    hide State.Listing;
    ListedPriorities(s, flow);
  }

  lemma LinkIsDeeperIn(s: State, flow: Id, r: Id)
    requires Rooted(s) && flow in s.flows && RowIn(s, flow, r) && s.rows[r].flow in s.flows
    ensures Above(s.flows, s.flows[s.rows[r].flow].ordinal) < Above(s.flows, s.flows[flow].ordinal)
  {
    LinkIsDeeper(s, r);
  }

  // ----- supplies of identifiers -----

  lemma Bound(s: set<nat>) returns (m: nat)
    ensures forall x | x in s :: x < m
    decreases s
  {
    if s == {} {
      m := 0;
    } else {
      var x :| x in s;
      m := Bound(s - {x});
      if m <= x { m := x + 1; }
      forall y | y in s ensures y < m { if y != x { assert y in s - {x}; } }
    }
  }

  /** Everything an identifier still to be drawn must differ from. */
  function Taken(env: Env, s: State): set<nat> {
    s.flows.Keys + s.rows.Keys + s.configs.Keys + (set r | r in s.rows :: s.rows[r].flow) + {NO_ID}
    + set k: nat | k < s.next :: env.ids(k)
  }

  /** The tables as they are can be continued with increasing identifiers. */
  lemma IncreasingSupply(env: Env, s: State) returns (e: Env)
    requires Inv(env, s)
    ensures Inv(e, s) && e.providers == env.providers && forall hi: nat :: IncreasingOn(e, s.next, hi)
  {
    var m := Bound(Taken(env, s));
    e := Env((k: nat) => if k < s.next then env.ids(k) else m + k, env.providers);
    forall k: nat | k >= s.next ensures IsFresh(s, e.ids(k)) {
      assert e.ids(k) == m + k;
      BeyondIsFresh(env, s, m + k);
    }
    forall j: nat, k: nat | j < k ensures e.ids(j) != e.ids(k) {
      if j < s.next { assert env.ids(j) in Taken(env, s); }
    }
    hide IsFresh;
  }

  lemma BeyondIsFresh(env: Env, s: State, x: nat)
    requires x !in Taken(env, s)
    ensures IsFresh(s, x)
  {
    assert NO_ID in Taken(env, s);
    forall r | r in s.rows ensures s.rows[r].flow != x { assert s.rows[r].flow in Taken(env, s); }
  }
}
