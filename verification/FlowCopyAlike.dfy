/** A copy lists exactly as its source, for every supply of identifiers, when and
    only when no link dangles and rows that share a priority look alike. */
module FlowCopyAlike {
  import opened Basics
  import opened Ordering
  import opened Forests
  import opened FlowModel
  import opened FlowForest
  import opened FlowTree
  import opened FlowRuns
  import opened FlowCopy
  import opened FlowCopyListing

  // ----- the source with its dangling links dropped -----

  function TidyBranch(s: State, flow: Id, r: Id): (Info, Forest<Info>)
    requires Rooted(s) && flow in s.flows && RowIn(s, flow, r)
    decreases Above(s.flows, s.flows[flow].ordinal), 0, 0
  {
    (TidyInfo(s, r),
     if Live(s, r) then
       LinkIsDeeper(s, r);
       Tidied(s, s.rows[r].flow)
     else End)
  }

  function TidyBranches(s: State, flow: Id, ids: seq<Id>): (r: seq<(Info, Forest<Info>)>)
    requires Rooted(s) && flow in s.flows && forall r | r in ids :: RowIn(s, flow, r)
    ensures |r| == |ids| && forall i | 0 <= i < |ids| :: ids[i] in ids && r[i] == TidyBranch(s, flow, ids[i])
    decreases Above(s.flows, s.flows[flow].ordinal), 0, 1
  {
    seq(|ids|, i requires 0 <= i < |ids| => assert ids[i] in ids; TidyBranch(s, flow, ids[i]))
  }

  function Tidied(s: State, flow: Id): Forest<Info>
    requires Rooted(s) && flow in s.flows
    decreases Above(s.flows, s.flows[flow].ordinal), 1, 0
  {
    ListedIn(s, flow);
    Line(TidyBranches(s, flow, s.Listing(flow)))
  }

  /** No link at or below the flow dangles. */
  ghost predicate Sound(s: State, flow: Id)
    requires Rooted(s) && flow in s.flows
    decreases Above(s.flows, s.flows[flow].ordinal), 1
  {
    forall r | r in s.RowsOf(flow) :: SoundRow(s, flow, r)
  }

  ghost predicate SoundRow(s: State, flow: Id, r: Id)
    requires Rooted(s) && flow in s.flows && r in s.RowsOf(flow)
    decreases Above(s.flows, s.flows[flow].ordinal), 0
  {
    if Live(s, r) then
      LinkIsDeeper(s, r);
      Sound(s, s.rows[r].flow)
    else s.rows[r].flow == NO_ID
  }

  lemma {:induction false} TidyRow(s: State, flow: Id, r: Id)
    requires Rooted(s) && flow in s.flows && RowIn(s, flow, r)
    ensures r in s.RowsOf(flow) && (TidyBranch(s, flow, r) == Branch(s, flow, r) <==> SoundRow(s, flow, r))
    decreases Above(s.flows, s.flows[flow].ordinal), 0
  {
    RowsOfAre(s, flow, r);
    if Live(s, r) {
      LinkIsDeeper(s, r);
      TidyIffSound(s, s.rows[r].flow);
    }
    hide Rooted, Tidied, ForestOf, State.RowsOf;
  }

  /** Dropping dangling links changes nothing exactly when there are none. */
  lemma {:induction false} TidyIffSound(s: State, flow: Id)
    requires Rooted(s) && flow in s.flows
    ensures Tidied(s, flow) == Shape(s, flow) <==> Sound(s, flow)
    decreases Above(s.flows, s.flows[flow].ordinal), 1
  {
    hide Rooted, Branch, TidyBranch, State.Listing, Shape, SoundRow, RowIn;
    ShapeLine(s, flow);
    ListedIn(s, flow);
    var ids := s.Listing(flow);
    var tidy, shown0 := TidyBranches(s, flow, ids), Branches(s, flow, ids);
    forall r | RowIn(s, flow, r)
      ensures r in s.RowsOf(flow) && (TidyBranch(s, flow, r) == Branch(s, flow, r) <==> SoundRow(s, flow, r))
    {
      TidyRow(s, flow, r);
    }
    if Tidied(s, flow) == Shape(s, flow) {
      LineInjective(tidy, shown0);
      forall r | r in s.RowsOf(flow) ensures SoundRow(s, flow, r) {
        RowsOfAre(s, flow, r);
        var i :| 0 <= i < |ids| && ids[i] == r;
        assert tidy[i] == shown0[i];
      }
    }
    if Sound(s, flow) { assert tidy == shown0; }
  }

  // ----- identifiers handed out in increasing order -----

  ghost predicate IncreasingOn(env: Env, lo: nat, hi: nat) {
    forall j: nat, k: nat | lo <= j < k < hi :: env.ids(j) < env.ids(k)
  }

  function Identity(n: nat): (r: seq<nat>)
    ensures |r| == n && forall i: nat | i < n :: r[i] == i
  {
    seq(n, i requires 0 <= i < n => i)
  }

  /** Equal priorities keep the source's order when the new ids increase. */
  lemma IdentityOrders(env: Env, s0: State, s: State, flow: Id, ids: seq<Id>, dst: Id)
    requires Ready(env, s0, s, flow, ids, dst) && Rooted(s0) && flow in s0.flows && ids == s0.Listing(flow)
      && forall r | r in ids :: RowIn(s0, flow, r)
    requires forall i: nat, j: nat | i < j < |ids| :: NewId(env, s0, s, flow, ids, dst, i) < NewId(env, s0, s, flow,
      ids, dst, j)
    ensures Orders(env, s0, s, flow, ids, dst, Identity(|ids|))
  {
    hide Ready, Rooted, NewId, State.Listing, RowIn;
    ListedPriorities(s0, flow);
    var pos := Identity(|ids|);
    forall k: nat | k < |ids| ensures k in pos { assert pos[k] == k; }
    forall i, j | 0 <= i < j < |pos| ensures Sooner(env, s0, s, flow, ids, dst, pos[i], pos[j]) {
      assert pos[i] == i && pos[j] == j;
    }
  }

  /** A listing's priorities ascend. */
  lemma ListedPriorities(s: State, flow: Id)
    ensures
      var ids := s.Listing(flow);
      && (forall i: nat | i < |ids| :: ids[i] in s.rows)
      && forall i: nat, j: nat | i < j < |ids| :: s.rows[ids[i]].priority <= s.rows[ids[j]].priority
  {
    var ids := s.Listing(flow);
    ListingLists(s, flow);
    hide State.Listing, Sorted;
    forall i: nat | i < |ids| ensures ids[i] in s.rows { assert ids[i] in ids; }
    forall i: nat, j: nat | i < j < |ids| ensures s.rows[ids[i]].priority <= s.rows[ids[j]].priority {
      assert Before(s.Priorities(), ids[i], ids[j]);
    }
  }

  /** Where the `i`-th row's identifier was drawn. */
  lemma NewIdIs(env: Env, s0: State, s: State, flow: Id, ids: seq<Id>, dst: Id, i: nat)
    requires Ready(env, s0, s, flow, ids, dst) && i < |ids|
    ensures Rooted(s0) && flow in s0.flows && (forall r | r in ids :: RowIn(s0, flow, r))
    ensures NewId(env, s0, s, flow, ids, dst, i) == env.ids(s.next + Offset(s0, flow, ids, i))
  {
    hide Ready, At, Offset, RowIn, Rooted;
    RowsDraw(env, s0, s, flow, ids, dst, i);
  }

  /** The copied sub-flow under the `i`-th row is drawn right after the row's own id. */
  lemma BranchAtIs(env: Env, s0: State, s: State, flow: Id, ids: seq<Id>, dst: Id, i: nat) returns (u: State)
    requires Ready(env, s0, s, flow, ids, dst) && i < |ids|
    ensures Rooted(s0) && flow in s0.flows && (forall r | r in ids :: RowIn(s0, flow, r)) && ids[i] in ids
      && ids[i] in s0.rows
    ensures u.next == s.next + Offset(s0, flow, ids, i) + 1 && Origin(env, s0, u) && Copyable(env, s0.flows, u)
    ensures BranchAt(env, s0, s, flow, ids, dst, i).0 == TidyInfo(s0, ids[i])
    ensures if Live(s0, ids[i])
            then s0.rows[ids[i]].flow in s0.flows &&
              var q := CopyTree(env, s0.flows, u, s0.rows[ids[i]].flow, "");
              Rooted(q.0) && q.1 in q.0.flows && BranchAt(env, s0, s, flow, ids, dst, i).1 == Shape(q.0, q.1)
            else BranchAt(env, s0, s, flow, ids, dst, i).1 == End
  {
    hide Ready, At, Offset, RowIn, Rooted, Origin, RowReady, Copyable, CopyTree, Shape, SubCopy, Inv, SubCopied,
      TidyInfo, Indexed, Deeper, SubFlowOf;
    RowsDraw(env, s0, s, flow, ids, dst, i);
    AtSteps(env, s0, s, flow, ids, dst, i);
    var v := At(env, s0, s, flow, ids, dst, i);
    ReadyFacts(env, s0, v, flow, ids[i], dst);
    SubCopyKeeps(env, s0, v, flow, ids[i], dst);
    u := Drawn(v);
  }

  /** With increasing identifiers - ties broken by creation order - the copy lists as
      the source does, its dangling links dropped. */
  lemma {:induction false} IncreasingCopy(env: Env, s0: State, s: State, src: Id, name: string)
    requires Origin(env, s0, s) && src in s0.flows
    requires Rooted(s0) && IncreasingOn(env, s.next, s.next + Draws(s0, src))
    ensures Copyable(env, s0.flows, s)
    ensures var (t, dst) := CopyTree(env, s0.flows, s, src, name);
      Rooted(t) && dst in t.flows && Shape(t, dst) == Tidied(s0, src)
    decreases Above(s0.flows, s0.flows[src].ordinal), 1
  {
    hide Rooted, Origin, Copyable, CopyTree, Draws, Tidied, Shape, State.Listing, Ready, At, Begun, IncreasingOn,
      TidyBranch, Orders, BranchAt, RowIn, NewId;
    TreeReady(env, s0, s, src, name);
    var (s1, dst) := Begun(env, s0, s, src, name);
    var ids := s0.Listing(src);
    DrawsAre(s0, src);
    IncreasingNews(env, s0, s1, src, ids, dst);
    IncreasingParts(env, s0, s1, src, ids);
    IdentityOrders(env, s0, s1, src, ids, dst);
    var pos := Identity(|ids|);
    OrderedShape(env, s0, s1, src, ids, dst, pos);
    var shown := Shown(env, s0, s1, src, ids, dst, pos);
    forall i: nat | i < |ids| ensures shown[i] == TidyBranches(s0, src, ids)[i] {
      assert pos[i] == i && ids[i] in ids;
      IncreasingRow(env, s0, s1, src, ids, dst, i);
    }
    assert shown == TidyBranches(s0, src, ids);
    TidiedIs(s0, src);
  }

  lemma DrawsAre(s: State, flow: Id)
    requires Rooted(s) && flow in s.flows
    ensures forall r | r in s.Listing(flow) :: RowIn(s, flow, r)
    ensures Draws(s, flow) == 1 + Offset(s, flow, s.Listing(flow), |s.Listing(flow)|)
  {
    ListedIn(s, flow);
    hide Rooted, State.Listing, DrawsOf;
    assert s.Listing(flow)[..|s.Listing(flow)|] == s.Listing(flow);
  }

  lemma TidiedIs(s: State, flow: Id)
    requires Rooted(s) && flow in s.flows
    ensures forall r | r in s.Listing(flow) :: RowIn(s, flow, r)
    ensures Tidied(s, flow) == Line(TidyBranches(s, flow, s.Listing(flow)))
  {
    hide Rooted, State.Listing, TidyBranches;
    ListedIn(s, flow);
  }

  lemma IncreasingNews(env: Env, s0: State, s: State, flow: Id, ids: seq<Id>, dst: Id)
    requires Ready(env, s0, s, flow, ids, dst) && Rooted(s0) && flow in s0.flows
      && (forall r | r in ids :: RowIn(s0, flow, r))
    requires s.next > 0 && IncreasingOn(env, s.next - 1, s.next + Offset(s0, flow, ids, |ids|))
    ensures forall i: nat, j: nat | i < j < |ids| :: NewId(env, s0, s, flow, ids, dst, i) < NewId(env, s0, s, flow,
      ids, dst, j)
  {
    hide Ready, Rooted, NewId, Offset, RowIn;
    forall i: nat, j: nat | i < j < |ids|
      ensures NewId(env, s0, s, flow, ids, dst, i) < NewId(env, s0, s, flow, ids, dst, j)
    {
      NewIdIs(env, s0, s, flow, ids, dst, i);
      NewIdIs(env, s0, s, flow, ids, dst, j);
      OffsetsRise(s0, flow, ids, i, j);
      OffsetsRise(s0, flow, ids, j, |ids|);
      RowDrawsSome(s0, flow, ids[i]);
      RowDrawsSome(s0, flow, ids[j]);
    }
  }

  /** Any stretch of an increasing supply increases. */
  lemma IncreasingPart(env: Env, lo: nat, hi: nat, from: nat, to: nat)
    requires IncreasingOn(env, lo, hi) && lo <= from && to <= hi
    ensures IncreasingOn(env, from, to)
  {
  }

  lemma IncreasingParts(env: Env, s0: State, s: State, flow: Id, ids: seq<Id>)
    requires Rooted(s0) && flow in s0.flows && (forall r | r in ids :: RowIn(s0, flow, r))
    requires s.next > 0 && IncreasingOn(env, s.next - 1, s.next + Offset(s0, flow, ids, |ids|))
    ensures forall i: nat | i < |ids| :: IncreasingOn(env, s.next + Offset(s0, flow, ids, i) + 1,
      s.next + Offset(s0, flow, ids, i + 1))
  {
    hide Rooted, Offset, RowIn, IncreasingOn;
    forall i: nat | i < |ids|
      ensures IncreasingOn(env, s.next + Offset(s0, flow, ids, i) + 1, s.next + Offset(s0, flow, ids, i + 1))
    {
      if i + 1 < |ids| { OffsetsRise(s0, flow, ids, i + 1, |ids|); }
      IncreasingPart(env, s.next - 1, s.next + Offset(s0, flow, ids, |ids|), s.next + Offset(s0, flow, ids, i) + 1,
        s.next + Offset(s0, flow, ids, i + 1));
    }
  }

  lemma RowDrawsSome(s: State, flow: Id, r: Id)
    requires Rooted(s) && flow in s.flows && RowIn(s, flow, r)
    ensures DrawsRow(s, flow, r) >= 1
    ensures Live(s, r) ==> s.rows[r].flow in s.flows && DrawsRow(s, flow, r) == 1 + Draws(s, s.rows[r].flow)
  {
    hide Draws, Rooted;
  }

  lemma {:induction false} IncreasingRow(env: Env, s0: State, s: State, flow: Id, ids: seq<Id>, dst: Id, i: nat)
    requires Ready(env, s0, s, flow, ids, dst) && i < |ids| && Rooted(s0) && flow in s0.flows
      && (forall r | r in ids :: RowIn(s0, flow, r))
    requires IncreasingOn(env, s.next + Offset(s0, flow, ids, i) + 1, s.next + Offset(s0, flow, ids, i + 1))
    ensures ids[i] in ids && BranchAt(env, s0, s, flow, ids, dst, i) == TidyBranch(s0, flow, ids[i])
    decreases Above(s0.flows, s0.flows[flow].ordinal), 0
  {
    hide Ready, Rooted, Origin, Copyable, CopyTree, Tidied, Shape, IncreasingOn, Draws, DrawsRow, Offset, BranchAt,
      TidyInfo;
    var u := BranchAtIs(env, s0, s, flow, ids, dst, i);
    var r := ids[i];
    if Live(s0, r) {
      LinkIsDeeper(s0, r);
      OffsetNext(s0, flow, ids, i);
      RowDrawsSome(s0, flow, r);
      IncreasingCopy(env, s0, u, s0.rows[r].flow, "");
    }
  }
}
