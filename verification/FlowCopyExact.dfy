/** The exact condition under which every copy of a flow lists as the flow does. */
module FlowCopyExact {
  import opened Basics
  import opened Ordering
  import opened Forests
  import opened FlowModel
  import opened FlowForest
  import opened FlowTree
  import opened FlowRuns
  import opened FlowCopy
  import opened FlowCopyListing
  import opened FlowCopyAlike

  /** What makes the listing of a copy come out the same whatever identifiers the
      copy draws: no link under the flow dangles, and rows of one flow that share
      a priority look alike, with everything under them. */
  ghost predicate Faithful(s: State, flow: Id)
    requires Rooted(s) && flow in s.flows
    decreases Above(s.flows, s.flows[flow].ordinal), 1
  {
    && (forall r | r in s.RowsOf(flow) :: FaithfulRow(s, flow, r))
    && (forall a, b | a in s.RowsOf(flow) && b in s.RowsOf(flow) && s.rows[a].priority == s.rows[b].priority ::
          Branch(s, flow, a) == Branch(s, flow, b))
  }

  ghost predicate FaithfulRow(s: State, flow: Id, r: Id)
    requires Rooted(s) && flow in s.flows && r in s.RowsOf(flow)
    decreases Above(s.flows, s.flows[flow].ordinal), 0
  {
    if Live(s, r) then
      LinkIsDeeper(s, r);
      Faithful(s, s.rows[r].flow)
    else s.rows[r].flow == NO_ID
  }

  lemma {:induction false} FaithfulIsSound(s: State, flow: Id)
    requires Rooted(s) && flow in s.flows && Faithful(s, flow)
    ensures Sound(s, flow)
    decreases Above(s.flows, s.flows[flow].ordinal)
  {
    forall r | r in s.RowsOf(flow) ensures SoundRow(s, flow, r) {
      assert FaithfulRow(s, flow, r);
      if Live(s, r) {
        LinkIsDeeper(s, r);
        FaithfulIsSound(s, s.rows[r].flow);
      }
    }
  }

  // ----- sufficient -----

  lemma TiesAlike(s: State, flow: Id, a: Id, b: Id)
    requires Rooted(s) && flow in s.flows && Faithful(s, flow) && RowIn(s, flow, a) && RowIn(s, flow, b)
    requires s.Priorities()[a] == s.Priorities()[b]
    ensures Branch(s, flow, a) == Branch(s, flow, b)
  {
    assert a in s.RowsOf(flow) && b in s.RowsOf(flow);
  }

  lemma FaithfulRowOf(s: State, flow: Id, r: Id)
    requires Rooted(s) && flow in s.flows && Faithful(s, flow) && RowIn(s, flow, r)
    ensures if Live(s, r) then s.rows[r].flow in s.flows && Faithful(s, s.rows[r].flow) else s.rows[r].flow == NO_ID
  {
    assert r in s.RowsOf(flow) && FaithfulRow(s, flow, r);
  }

  /** Rows of one priority that point at sub-flows with different descriptions do not
      look alike, whatever else they share. */
  lemma DescriptionsTell(s: State, flow: Id, a: Id, b: Id)
    requires Rooted(s) && flow in s.flows && RowIn(s, flow, a) && RowIn(s, flow, b) && Live(s, a) && Live(s, b)
    requires s.rows[a].priority == s.rows[b].priority
    requires s.flows[s.rows[a].flow].description != s.flows[s.rows[b].flow].description
    ensures !Faithful(s, flow)
  {
    assert Branch(s, flow, a).0.sub != Branch(s, flow, b).0.sub;
    if Faithful(s, flow) { TiesAlike(s, flow, a, b); }
  }

  /** Every branch of the copy of a faithful flow is the source's. */
  lemma {:induction false} FaithfulBranch(env: Env, s0: State, s: State, flow: Id, ids: seq<Id>, dst: Id, i: nat)
    requires Ready(env, s0, s, flow, ids, dst) && i < |ids|
    requires Rooted(s0) && flow in s0.flows && Faithful(s0, flow) && forall r | r in ids :: RowIn(s0, flow, r)
    ensures ids[i] in ids && BranchAt(env, s0, s, flow, ids, dst, i) == Branch(s0, flow, ids[i])
    decreases Above(s0.flows, s0.flows[flow].ordinal), 0
  {
    hide Ready, Rooted, Faithful, Origin, Copyable, CopyTree, BranchAt, ForestOf, Offset, Tidied;
    var u := BranchAtIs(env, s0, s, flow, ids, dst, i);
    var r := ids[i];
    FaithfulRowOf(s0, flow, r);
    if Live(s0, r) {
      LinkIsDeeper(s0, r);
      FaithfulCopy(env, s0, u, s0.rows[r].flow, "");
    }
  }

  /** Rows sharing a priority may change places in the copy; since they look alike,
      every position still shows the same branch. */
  lemma {:induction false} FaithfulCopy(env: Env, s0: State, s: State, src: Id, name: string)
    requires Origin(env, s0, s) && src in s0.flows && Rooted(s0) && Faithful(s0, src)
    ensures Copyable(env, s0.flows, s)
    ensures var (t, dst) := CopyTree(env, s0.flows, s, src, name);
      Rooted(t) && dst in t.flows && Shape(t, dst) == Shape(s0, src)
    decreases Above(s0.flows, s0.flows[src].ordinal), 1
  {
    hide *;
    TreeReady(env, s0, s, src, name);
    var (s1, dst) := Begun(env, s0, s, src, name);
    var ids := s0.Listing(src);
    var t := At(env, s0, s1, src, ids, dst, |ids|);
    forall i: nat | i < |ids|
      ensures ids[i] in ids && BranchAt(env, s0, s1, src, ids, dst, i) == Branch(s0, src, ids[i])
    {
      FaithfulBranch(env, s0, s1, src, ids, dst, i);
    }
    RowsStored(env, s0, s1, src, ids, dst, |ids|);
    StoredRooted(env, s0, s1, src, ids, dst);
    ShapeLine(t, dst);
    ShapeLine(s0, src);
    var listed := t.Listing(dst);
    SameLength(env, s0, s1, src, ids, dst, listed);
    forall i: nat | i < |ids| ensures listed[i] in listed && Branch(t, dst, listed[i]) == Branch(s0, src, ids[i]) {
      var j := TiedPosition(env, s0, s1, src, ids, dst, listed, i);
      NewRowIs(env, s0, s1, src, ids, dst, j);
      TiesAlike(s0, src, ids[i], ids[j]);
    }
    assert Branches(t, dst, listed) == Branches(s0, src, ids);
  }

  lemma NewsAre(env: Env, s0: State, s: State, src: Id, ids: seq<Id>, dst: Id)
    requires Ready(env, s0, s, src, ids, dst) && Stored(env, s0, s, src, ids, dst, |ids|)
      && forall n :: !RowIn(s, dst, n)
    ensures
      var t, news := At(env, s0, s, src, ids, dst, |ids|), NewIds(env, s0, s, src, ids, dst, |ids|);
      NoRepeats(news) && forall x :: x in news <==> x in t.RowsOf(dst)
  {
    hide Ready, At, NewIds, CopiedAs, BranchAt, NewId;
    var t := At(env, s0, s, src, ids, dst, |ids|);
    forall x ensures x in t.RowsOf(dst) <==> RowIn(t, dst, x) { RowsOfAre(t, dst, x); }
    hide State.RowsOf;
  }

  lemma SameLength(env: Env, s0: State, s: State, src: Id, ids: seq<Id>, dst: Id, listed: seq<Id>)
    requires Ready(env, s0, s, src, ids, dst) && Stored(env, s0, s, src, ids, dst, |ids|)
      && forall n :: !RowIn(s, dst, n)
    requires listed == At(env, s0, s, src, ids, dst, |ids|).Listing(dst)
    ensures |listed| == |ids|
  {
    hide *;
    var t, news := At(env, s0, s, src, ids, dst, |ids|), NewIds(env, s0, s, src, ids, dst, |ids|);
    NewsAre(env, s0, s, src, ids, dst);
    ListingLists(t, dst);
    BagLengthOf(news, listed, t.RowsOf(dst), t.Priorities());
  }

  lemma BagLengthOf(a: seq<Id>, b: seq<Id>, s: set<Id>, key: map<Id, int>)
    requires s <= key.Keys && IsListing(b, s, key) && NoRepeats(a) && forall x :: x in a <==> x in s
    ensures |a| == |b|
  {
    ListingNoRepeats(b, s, key);
    SameElements(a, b);
    BagLength(a, b);
  }

  /** What the copy lists at position `i` is the copy of a row of the same priority. */
  lemma TiedPosition(env: Env, s0: State, s: State, src: Id, ids: seq<Id>, dst: Id, listed: seq<Id>,
    i: nat) returns (j: nat)
    requires Ready(env, s0, s, src, ids, dst) && Stored(env, s0, s, src, ids, dst, |ids|)
      && forall n :: !RowIn(s, dst, n)
    requires Rooted(s0) && src in s0.flows && ids == s0.Listing(src) && forall r | r in ids :: RowIn(s0, src, r)
    requires listed == At(env, s0, s, src, ids, dst, |ids|).Listing(dst) && |listed| == |ids| && i < |ids|
    ensures j < |ids| && listed[i] in listed && listed[i] == NewId(env, s0, s, src, ids, dst, j)
    ensures RowIn(s0, src, ids[i]) && RowIn(s0, src, ids[j]) && ids[i] in s0.Priorities() && ids[j] in s0.Priorities()
    ensures s0.Priorities()[ids[i]] == s0.Priorities()[ids[j]]
  {
    hide Ready, At, Stored, NewId, Rooted, BranchAt, State.Listing, Ascends, IsListing, RowIn;
    var t, news := At(env, s0, s, src, ids, dst, |ids|), NewIds(env, s0, s, src, ids, dst, |ids|);
    NewsAre(env, s0, s, src, ids, dst);
    ListingLists(t, dst);
    ListingLists(s0, src);
    ListingAscends(ids, s0.RowsOf(src), s0.Priorities());
    forall k: nat | k < |ids|
      ensures ids[k] in s0.rows && news[k] in t.rows && t.Priorities()[news[k]] == s0.Priorities()[ids[k]]
    {
      NewRowIs(env, s0, s, src, ids, dst, k);
    }
    assert KeysOf(news, t.Priorities()) == KeysOf(ids, s0.Priorities());
    j := Relisted(news, listed, t.RowsOf(dst), t.Priorities(), i);
    assert ids[i] in ids && ids[j] in ids && listed[i] in listed;
  }

  // ----- necessary: two rows that tie without looking alike -----

  /** Exchanging the identifiers drawn at offsets `a` and `b` of a copy changes places
      of two neighbouring rows that tie and differ, here or in a sub-flow. */
  ghost predicate Spoils(s: State, flow: Id, a: nat, b: nat)
    requires Rooted(s) && flow in s.flows
    decreases Above(s.flows, s.flows[flow].ordinal), 1
  {
    exists i: nat :: i < |s.Listing(flow)| && SpoilsAt(s, flow, i, a, b)
  }

  ghost predicate SpoilsAt(s: State, flow: Id, i: nat, a: nat, b: nat)
    requires Rooted(s) && flow in s.flows && i < |s.Listing(flow)|
    decreases Above(s.flows, s.flows[flow].ordinal), 0
  {
    ListedIn(s, flow);
    var ids := s.Listing(flow);
    assert ids[i] in ids;
    var here := 1 + Offset(s, flow, ids, i);
    TiesHere(s, flow, i, a, b)
    || (Live(s, ids[i]) && a >= here + 1 && b >= here + 1 &&
        (LinkIsDeeper(s, ids[i]);
         Spoils(s, s.rows[ids[i]].flow, a - here - 1, b - here - 1)))
  }

  ghost predicate TiesHere(s: State, flow: Id, i: nat, a: nat, b: nat)
    requires Rooted(s) && flow in s.flows && i < |s.Listing(flow)|
  {
    ListedIn(s, flow);
    var ids := s.Listing(flow);
    i + 1 < |ids| && ids[i] in ids && ids[i + 1] in ids
    && s.rows[ids[i]].priority == s.rows[ids[i + 1]].priority && Branch(s, flow, ids[i]) != Branch(s, flow, ids[i + 1])
    && a == 1 + Offset(s, flow, ids, i) && b == 1 + Offset(s, flow, ids, i + 1)
  }

  /** Both offsets lie inside the copy, and are two. */
  lemma {:induction false} SpoilsInside(s: State, flow: Id, a: nat, b: nat)
    requires Rooted(s) && flow in s.flows && Spoils(s, flow, a, b)
    ensures 0 < a < b < Draws(s, flow)
    decreases Above(s.flows, s.flows[flow].ordinal)
  {
    hide Rooted, State.Listing, Offset, Draws, DrawsRow, Branch;
    var ids := s.Listing(flow);
    DrawsAre(s, flow);
    var i: nat :| i < |ids| && SpoilsAt(s, flow, i, a, b);
    assert ids[i] in ids;
    OffsetNext(s, flow, ids, i);
    RowDrawsSome(s, flow, ids[i]);
    OffsetsRise(s, flow, ids, i, |ids|);
    if TiesHere(s, flow, i, a, b) {
      OffsetsRise(s, flow, ids, i + 1, |ids|);
      RowDrawsSome(s, flow, ids[i + 1]);
    } else {
      LinkIsDeeper(s, ids[i]);
      SpoilsInside(s, s.rows[ids[i]].flow, a - (1 + Offset(s, flow, ids, i)) - 1,
        b - (1 + Offset(s, flow, ids, i)) - 1);
    }
  }

  /** Along a list whose ends differ, two neighbours differ. */
  lemma {:induction false} NeighboursDiffer(s: State, flow: Id, ids: seq<Id>, p: nat, q: nat) returns (i: nat)
    requires Rooted(s) && flow in s.flows && (forall r | r in ids :: RowIn(s, flow, r)) && p < q < |ids|
    requires ids[p] in ids && ids[q] in ids && Branch(s, flow, ids[p]) != Branch(s, flow, ids[q])
    ensures p <= i < q && ids[i] in ids && ids[i + 1] in ids && Branch(s, flow, ids[i]) != Branch(s, flow, ids[i + 1])
    decreases q - p
  {
    assert ids[p + 1] in ids;
    if Branch(s, flow, ids[p]) != Branch(s, flow, ids[p + 1]) {
      i := p;
    } else {
      i := NeighboursDiffer(s, flow, ids, p + 1, q);
    }
  }

  lemma SpoilBelow(s: State, flow: Id, i: nat, x: nat, y: nat)
    requires Rooted(s) && flow in s.flows && i < |s.Listing(flow)|
    requires forall r | r in s.Listing(flow) :: RowIn(s, flow, r)
    requires s.Listing(flow)[i] in s.rows && Live(s, s.Listing(flow)[i])
      && Spoils(s, s.rows[s.Listing(flow)[i]].flow, x, y)
    ensures Spoils(s, flow, x + 2 + Offset(s, flow, s.Listing(flow), i), y + 2 + Offset(s, flow, s.Listing(flow), i))
  {
    hide State.Listing, Rooted, Offset, TiesHere;
    assert SpoilsAt(s, flow, i, x + 2 + Offset(s, flow, s.Listing(flow), i),
      y + 2 + Offset(s, flow, s.Listing(flow), i));
  }

  lemma SpoilHere(s: State, flow: Id, i: nat)
    requires Rooted(s) && flow in s.flows && i + 1 < |s.Listing(flow)|
    requires forall r | r in s.Listing(flow) :: RowIn(s, flow, r)
    requires var ids := s.Listing(flow);
      ids[i] in ids && ids[i + 1] in ids && ids[i] in s.rows && ids[i + 1] in s.rows
      && s.rows[ids[i]].priority == s.rows[ids[i + 1]].priority
        && Branch(s, flow, ids[i]) != Branch(s, flow, ids[i + 1])
    ensures Spoils(s, flow, 1 + Offset(s, flow, s.Listing(flow), i), 1 + Offset(s, flow, s.Listing(flow), i + 1))
  {
    hide State.Listing, Rooted, Offset, Branch;
    var a, b := 1 + Offset(s, flow, s.Listing(flow), i), 1 + Offset(s, flow, s.Listing(flow), i + 1);
    assert TiesHere(s, flow, i, a, b);
    assert SpoilsAt(s, flow, i, a, b);
  }

  ghost predicate Tie(s: State, flow: Id, x: Id, y: Id)
    requires Rooted(s) && flow in s.flows
  {
    RowIn(s, flow, x) && RowIn(s, flow, y) && s.rows[x].priority == s.rows[y].priority
      && Branch(s, flow, x) != Branch(s, flow, y)
  }

  /** Why a sound flow is not faithful: a sub-flow that is not, or a tie. */
  lemma NotFaithful(s: State, flow: Id) returns (x: Id, y: Id)
    requires Rooted(s) && flow in s.flows && Sound(s, flow) && !Faithful(s, flow)
    ensures Tie(s, flow, x, y)
         || (RowIn(s, flow, x) && Live(s, x) && s.rows[x].flow in s.flows && Sound(s, s.rows[x].flow)
           && !Faithful(s, s.rows[x].flow))
  {
    hide Branch;
    if r :| r in s.RowsOf(flow) && !FaithfulRow(s, flow, r) {
      assert SoundRow(s, flow, r);
      x, y := r, r;
    } else {
      x, y :| x in s.RowsOf(flow) && y in s.RowsOf(flow) && s.rows[x].priority == s.rows[y].priority
        && Branch(s, flow, x) != Branch(s, flow, y);
    }
  }

  /** A flow that is sound but not faithful can be spoilt. */
  lemma {:induction false} FindSpoil(s: State, flow: Id) returns (a: nat, b: nat)
    requires Rooted(s) && flow in s.flows && Sound(s, flow) && !Faithful(s, flow)
    ensures Spoils(s, flow, a, b)
    decreases Above(s.flows, s.flows[flow].ordinal)
  {
    hide State.Listing, Rooted, Offset, Branch, Sound, Faithful, Spoils;
    var ids := s.Listing(flow);
    ListedIn(s, flow);
    var x, y := NotFaithful(s, flow);
    var p := PositionIn(ids, x);
    if Tie(s, flow, x, y) {
      var q := PositionIn(ids, y);
      var i := NeighboursDiffer(s, flow, ids, if p < q then p else q, if p < q then q else p);
      ListedPriorities(s, flow);
      SpoilHere(s, flow, i);
      a, b := 1 + Offset(s, flow, ids, i), 1 + Offset(s, flow, ids, i + 1);
    } else {
      LinkIsDeeper(s, x);
      var u, v := FindSpoil(s, s.rows[x].flow);
      SpoilBelow(s, flow, p, u, v);
      a, b := u + 2 + Offset(s, flow, ids, p), v + 2 + Offset(s, flow, ids, p);
    }
  }

  lemma PositionIn(ids: seq<Id>, r: Id) returns (i: nat)
    requires r in ids
    ensures i < |ids| && ids[i] == r
  {
    i :| 0 <= i < |ids| && ids[i] == r;
  }
}
