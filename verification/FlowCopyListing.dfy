/** When the listing of a copy is the listing of its source
    (internal/admin/flows.go:731-782, 799-814; the store lists rows by priority,
    then id). */
module FlowCopyListing {
  import opened Basics
  import opened Ordering
  import opened Forests
  import opened FlowModel
  import opened FlowForest
  import opened FlowTree
  import opened FlowRuns
  import opened FlowCopy

  // ----- rows of branches -----

  function Line(bs: seq<(Info, Forest<Info>)>): Forest<Info> {
    if bs == [] then End else Node(bs[0].0, bs[0].1, Line(bs[1..]))
  }

  lemma {:induction false} LineInjective(a: seq<(Info, Forest<Info>)>, b: seq<(Info, Forest<Info>)>)
    requires Line(a) == Line(b)
    ensures a == b
    decreases |a|
  {
    if a != [] && b != [] {
      LineInjective(a[1..], b[1..]);
      assert a == [a[0]] + a[1..] && b == [b[0]] + b[1..];
    }
  }

  function Branches(s: State, flow: Id, ids: seq<Id>): (r: seq<(Info, Forest<Info>)>)
    requires Rooted(s) && flow in s.flows && forall r | r in ids :: RowIn(s, flow, r)
    ensures |r| == |ids| && forall i | 0 <= i < |ids| :: ids[i] in ids && r[i] == Branch(s, flow, ids[i])
  {
    seq(|ids|, i requires 0 <= i < |ids| => assert ids[i] in ids; Branch(s, flow, ids[i]))
  }

  lemma {:induction false} SiblingsLine(s: State, flow: Id, ids: seq<Id>)
    requires Rooted(s) && flow in s.flows && forall r | r in ids :: RowIn(s, flow, r)
    ensures Describe(s, Siblings(s, flow, ids)) == Line(Branches(s, flow, ids))
    decreases |ids|
  {
    hide Rooted, Branch, Describe, Siblings, RowIn;
    if ids == [] {
      NoSiblings(s, flow);
      assert Branches(s, flow, ids) == [];
    } else {
      assert forall r | r in ids[1..] :: r in ids;
      assert ids[0] in ids;
      UnfoldSiblings(s, flow, ids);
      SiblingsLine(s, flow, ids[1..]);
      assert Branches(s, flow, ids)[1..] == Branches(s, flow, ids[1..]);
    }
  }

  lemma NoSiblings(s: State, flow: Id)
    requires Rooted(s) && flow in s.flows
    ensures Describe(s, Siblings(s, flow, [])) == End
  {
  }

  lemma ShapeLine(s: State, flow: Id)
    requires Rooted(s) && flow in s.flows
    ensures forall r | r in s.Listing(flow) :: RowIn(s, flow, r)
    ensures Shape(s, flow) == Line(Branches(s, flow, s.Listing(flow)))
  {
    hide Rooted, Branch, Describe, State.Listing, Siblings, RowIn;
    ListedIn(s, flow);
    SiblingsLine(s, flow, s.Listing(flow));
  }

  // ----- how many identifiers a copy draws -----

  /** One for the flow, one for each row, and what each sub-flow draws. */
  function Draws(s: State, flow: Id): nat
    requires Rooted(s) && flow in s.flows
    decreases Above(s.flows, s.flows[flow].ordinal), 1, 0
  {
    ListedIn(s, flow);
    1 + DrawsOf(s, flow, s.Listing(flow))
  }

  function DrawsOf(s: State, flow: Id, ids: seq<Id>): nat
    requires Rooted(s) && flow in s.flows && forall r | r in ids :: RowIn(s, flow, r)
    decreases Above(s.flows, s.flows[flow].ordinal), 0, |ids| + 1
  {
    if ids == [] then 0
    else
      assert forall r | r in ids[..|ids| - 1] :: r in ids;
      assert ids[|ids| - 1] in ids;
      DrawsOf(s, flow, ids[..|ids| - 1]) + DrawsRow(s, flow, ids[|ids| - 1])
  }

  function DrawsRow(s: State, flow: Id, r: Id): nat
    requires Rooted(s) && flow in s.flows && RowIn(s, flow, r)
    decreases Above(s.flows, s.flows[flow].ordinal), 0, 0
  {
    if Live(s, r) then
      LinkIsDeeper(s, r);
      1 + Draws(s, s.rows[r].flow)
    else 1
  }

  /** What precedes the `i`-th row of a listing. */
  function Offset(s: State, flow: Id, ids: seq<Id>, i: nat): nat
    requires Rooted(s) && flow in s.flows && (forall r | r in ids :: RowIn(s, flow, r)) && i <= |ids|
  {
    assert forall r | r in ids[..i] :: r in ids;
    DrawsOf(s, flow, ids[..i])
  }

  lemma OffsetNext(s: State, flow: Id, ids: seq<Id>, i: nat)
    requires Rooted(s) && flow in s.flows && (forall r | r in ids :: RowIn(s, flow, r)) && i < |ids|
    ensures ids[i] in ids && Offset(s, flow, ids, i + 1) == Offset(s, flow, ids, i) + DrawsRow(s, flow, ids[i])
    ensures Offset(s, flow, ids, 0) == 0
  {
    hide Rooted, DrawsRow, RowIn;
    assert ids[i] in ids && ids[..i + 1][..i] == ids[..i] && ids[..i + 1][i] == ids[i];
  }

  lemma {:induction false} OffsetsRise(s: State, flow: Id, ids: seq<Id>, i: nat, j: nat)
    requires Rooted(s) && flow in s.flows && (forall r | r in ids :: RowIn(s, flow, r)) && i < j <= |ids|
    ensures ids[i] in ids && Offset(s, flow, ids, i) + DrawsRow(s, flow, ids[i]) <= Offset(s, flow, ids, j)
    decreases j
  {
    hide Rooted, DrawsRow, RowIn, Offset;
    OffsetNext(s, flow, ids, j - 1);
    if i < j - 1 { OffsetsRise(s, flow, ids, i, j - 1); } else { OffsetNext(s, flow, ids, i); }
  }

  // ----- the copy of one flow, row by row -----

  /** The copy of a flow is its listing copied row by row into the new flow. */
  lemma TreeReady(env: Env, s0: State, s: State, src: Id, name: string)
    requires Origin(env, s0, s) && src in s0.flows
    ensures Rooted(s0) && Copyable(env, s0.flows, s)
    ensures
      var (s1, dst) := Begun(env, s0, s, src, name);
      var ids := s0.Listing(src);
      && s1.next == s.next + 1 && Ready(env, s0, s1, src, ids, dst) && (forall r | r in ids :: RowIn(s0, src, r))
      && (forall n :: !RowIn(s1, dst, n))
      && CopyTree(env, s0.flows, s, src, name) == (At(env, s0, s1, src, ids, dst, |ids|), dst)
  {
    hide Inv, Rooted, Copyable, Indexed, Unlinked, CopyRows, CopyTree, State.Listing, RowFits, Deeper, Origin, Begun,
      ListRows, RowsAt, RowIn, Sorted, IsListing;
    OriginFacts(env, s0, s);
    BegunKeeps(env, s0, s, src, name);
    var (s1, dst) := Begun(env, s0, s, src, name);
    var ids := s0.Listing(src);
    OriginListing(env, s0, s1, src);
    forall r | r in ids ensures RowReady(env, s0, s1, src, r, dst) {
      RowOfListing(s0, s1, src, ids, r);
    }
    assert ids[..|ids|] == ids;
    ReadyFits(env, s0, s1, src, ids, dst);
  }

  lemma RowOfListing(s0: State, s: State, src: Id, ids: seq<Id>, r: Id)
    requires (forall x | x in ids :: RowIn(s0, src, x)) && ListRows(s, src) == RowsAt(s0, src, ids) && r in ids
    ensures RowIn(s0, src, r) && s0.rows[r] in ListRows(s, src)
  {
    hide ListRows;
    var i :| 0 <= i < |ids| && ids[i] == r;
    assert RowsAt(s0, src, ids)[i] == s0.rows[r];
  }

  /** Draws are counted by the source alone. */
  lemma {:induction false} TreeDraws(env: Env, s0: State, s: State, src: Id, name: string)
    requires Origin(env, s0, s) && src in s0.flows
    ensures Rooted(s0) && Copyable(env, s0.flows, s)
    ensures CopyTree(env, s0.flows, s, src, name).0.next == s.next + Draws(s0, src)
    decreases Above(s0.flows, s0.flows[src].ordinal), 2, 0
  {
    hide Inv, Rooted, Copyable, Origin, CopyTree, State.Listing, Ready, At, RowIn, Begun, DrawsOf;
    TreeReady(env, s0, s, src, name);
    var (s1, dst) := Begun(env, s0, s, src, name);
    var ids := s0.Listing(src);
    RowsDraw(env, s0, s1, src, ids, dst, |ids|);
    assert ids[..|ids|] == ids;
  }

  lemma {:induction false} RowsDraw(env: Env, s0: State, s: State, flow: Id, ids: seq<Id>, dst: Id, j: nat)
    requires Ready(env, s0, s, flow, ids, dst) && j <= |ids|
    ensures Rooted(s0) && flow in s0.flows && (forall r | r in ids :: RowIn(s0, flow, r))
    ensures At(env, s0, s, flow, ids, dst, j).next == s.next + Offset(s0, flow, ids, j)
    decreases Above(s0.flows, s0.flows[flow].ordinal), 1, j
  {
    hide Inv, Rooted, Copyable, Origin, CopyTree, Ready, At, RowIn, Offset, DrawsRow, RowReady, RowCopy, Indexed,
      Unlinked, RowsFit, Deeper;
    ReadyFits(env, s0, s, flow, ids, dst);
    OriginFacts(env, s0, s);
    if j == 0 {
      AtSteps(env, s0, s, flow, ids, dst, 0);
      NoOffset(s0, flow, ids);
    } else {
      RowsDraw(env, s0, s, flow, ids, dst, j - 1);
      AtSteps(env, s0, s, flow, ids, dst, j - 1);
      var u := At(env, s0, s, flow, ids, dst, j - 1);
      assert ids[j - 1] in ids;
      RowDraws(env, s0, u, flow, ids[j - 1], dst);
      OffsetNext(s0, flow, ids, j - 1);
    }
  }

  lemma NoOffset(s: State, flow: Id, ids: seq<Id>)
    requires Rooted(s) && flow in s.flows && forall r | r in ids :: RowIn(s, flow, r)
    ensures Offset(s, flow, ids, 0) == 0
  {
  }

  lemma {:induction false} RowDraws(env: Env, s0: State, s: State, flow: Id, r: Id, dst: Id)
    requires RowReady(env, s0, s, flow, r, dst)
    ensures Rooted(s0) && flow in s0.flows && RowIn(s0, flow, r)
    ensures RowCopy(env, s0, s, flow, r, dst).next == s.next + DrawsRow(s0, flow, r)
    decreases Above(s0.flows, s0.flows[flow].ordinal), 0, 0
  {
    hide Inv, Rooted, Copyable, Origin, CopyTree, RowCopy, SubCopy, Draws, Indexed, Unlinked, Deeper, SubCopied,
      RowFits;
    ReadyFacts(env, s0, s, flow, r, dst);
    RowCopyIs(env, s0, s, flow, r, dst);
    SubCopyKeeps(env, s0, s, flow, r, dst);
    if Live(s0, r) {
      LinkIsDeeper(s0, r);
      TreeDraws(env, s0, Drawn(s), s0.rows[r].flow, "");
    }
  }

  // ----- the order the new rows list in -----

  /** `pos` puts the new rows in (priority, id) order. */
  ghost predicate Orders(env: Env, s0: State, s: State, flow: Id, ids: seq<Id>, dst: Id, pos: seq<nat>)
    requires Ready(env, s0, s, flow, ids, dst)
  {
    && |pos| == |ids| && (forall k: nat | k < |ids| :: k in pos)
    && (forall i | 0 <= i < |pos| :: pos[i] < |ids|)
    && forall i, j | 0 <= i < j < |pos| :: Sooner(env, s0, s, flow, ids, dst, pos[i], pos[j])
  }

  ghost predicate Sooner(env: Env, s0: State, s: State, flow: Id, ids: seq<Id>, dst: Id, i: nat, j: nat)
    requires Ready(env, s0, s, flow, ids, dst)
  {
    && i < |ids| && j < |ids| && ids[i] in s0.rows && ids[j] in s0.rows
    && (s0.rows[ids[i]].priority < s0.rows[ids[j]].priority
        || (s0.rows[ids[i]].priority == s0.rows[ids[j]].priority
          && NewId(env, s0, s, flow, ids, dst, i) < NewId(env, s0, s, flow, ids, dst, j)))
  }

  /** The branches a position list shows. */
  ghost function Shown(env: Env, s0: State, s: State, flow: Id, ids: seq<Id>, dst: Id,
    pos: seq<nat>): (r: seq<(Info, Forest<Info>)>)
    requires Ready(env, s0, s, flow, ids, dst) && forall i | 0 <= i < |pos| :: pos[i] < |ids|
    ensures |r| == |pos| && forall i | 0 <= i < |pos| :: r[i] == BranchAt(env, s0, s, flow, ids, dst, pos[i])
  {
    seq(|pos|, i requires 0 <= i < |pos| => BranchAt(env, s0, s, flow, ids, dst, pos[i]))
  }

  lemma NewRowIs(env: Env, s0: State, s: State, flow: Id, ids: seq<Id>, dst: Id, i: nat)
    requires Ready(env, s0, s, flow, ids, dst) && i < |ids|
    requires var t := At(env, s0, s, flow, ids, dst, |ids|); Stored(env, s0, s, flow, ids, dst, |ids|)
    ensures ids[i] in s0.rows
    ensures
      var t, n := At(env, s0, s, flow, ids, dst, |ids|), NewId(env, s0, s, flow, ids, dst, i);
      && Rooted(t) && dst in t.flows && RowIn(t, dst, n) && Branch(t, dst, n) == BranchAt(env, s0, s, flow, ids, dst, i)
      && n in t.rows && t.rows[n].priority == s0.rows[ids[i]].priority
  {
    hide Ready, At, NewId, RowReady, Rooted, Shape, Under, Describe, Gained, SubCopy;
    AtSteps(env, s0, s, flow, ids, dst, i);
    var t, n := At(env, s0, s, flow, ids, dst, |ids|), NewId(env, s0, s, flow, ids, dst, i);
    assert CopiedAs(t, dst, n, BranchAt(env, s0, s, flow, ids, dst, i));
    ReadyFacts(env, s0, At(env, s0, s, flow, ids, dst, i), flow, ids[i], dst);
    assert InfoOf(t, n).priority == TidyInfo(s0, ids[i]).priority;
  }

  /** The copied flow lists its rows in that order. */
  lemma OrderedShape(env: Env, s0: State, s: State, flow: Id, ids: seq<Id>, dst: Id, pos: seq<nat>)
    requires Ready(env, s0, s, flow, ids, dst) && Orders(env, s0, s, flow, ids, dst, pos)
      && forall n :: !RowIn(s, dst, n)
    ensures
      var t := At(env, s0, s, flow, ids, dst, |ids|);
      Rooted(t) && dst in t.flows && Shape(t, dst) == Line(Shown(env, s0, s, flow, ids, dst, pos))
  {
    hide *;
    var t := At(env, s0, s, flow, ids, dst, |ids|);
    RowsStored(env, s0, s, flow, ids, dst, |ids|);
    StoredRooted(env, s0, s, flow, ids, dst);
    OrdersFacts(env, s0, s, flow, ids, dst, pos);
    var listed := seq(|pos|, i requires 0 <= i < |pos| => NewId(env, s0, s, flow, ids, dst, pos[i]));
    OrderLists(env, s0, s, flow, ids, dst, pos, listed);
    ListingLists(t, dst);
    ListingUnique(listed, t.Listing(dst), t.RowsOf(dst), t.Priorities());
    ShapeLine(t, dst);
    forall i | 0 <= i < |pos| ensures Branches(t, dst, listed)[i] == Shown(env, s0, s, flow, ids, dst, pos)[i] {
      NewRowIs(env, s0, s, flow, ids, dst, pos[i]);
    }
    assert Branches(t, dst, listed) == Shown(env, s0, s, flow, ids, dst, pos);
  }

  lemma OrdersFacts(env: Env, s0: State, s: State, flow: Id, ids: seq<Id>, dst: Id, pos: seq<nat>)
    requires Ready(env, s0, s, flow, ids, dst) && Orders(env, s0, s, flow, ids, dst, pos)
    ensures |pos| == |ids| && (forall k: nat | k < |ids| :: k in pos) && (forall i | 0 <= i < |pos| :: pos[i] < |ids|)
  {
    hide Ready, Sooner;
  }

  lemma StoredRooted(env: Env, s0: State, s: State, flow: Id, ids: seq<Id>, dst: Id)
    requires Ready(env, s0, s, flow, ids, dst)
    ensures var t := At(env, s0, s, flow, ids, dst, |ids|); Rooted(t) && dst in t.flows
  {
    hide Inv, Rooted, At, Origin, Copyable, Indexed, Unlinked, RowReady, Grown, NoNewBuiltIns;
    AtSteps(env, s0, s, flow, ids, dst, |ids|);
    var t := At(env, s0, s, flow, ids, dst, |ids|);
    RowsCopiedInv(env, s, t, dst);
    InvRooted(env, t);
    RowsKeepFlow(env, s, t, dst);
  }

  lemma OrderLists(env: Env, s0: State, s: State, flow: Id, ids: seq<Id>, dst: Id, pos: seq<nat>, listed: seq<Id>)
    requires Ready(env, s0, s, flow, ids, dst) && Orders(env, s0, s, flow, ids, dst, pos)
      && forall n :: !RowIn(s, dst, n)
    requires Stored(env, s0, s, flow, ids, dst, |ids|)
    requires |listed| == |pos| && forall i | 0 <= i < |pos| :: listed[i] == NewId(env, s0, s, flow, ids, dst, pos[i])
    ensures
      var t := At(env, s0, s, flow, ids, dst, |ids|);
      t.RowsOf(dst) <= t.Priorities().Keys && IsListing(listed, t.RowsOf(dst), t.Priorities())
  {
    hide Ready, At, NewId, BranchAt, CopiedAs, Rooted;
    var t := At(env, s0, s, flow, ids, dst, |ids|);
    var news := NewIds(env, s0, s, flow, ids, dst, |ids|);
    forall x ensures x in t.RowsOf(dst) <==> x in listed {
      RowsOfAre(t, dst, x);
      if x in news {
        var k :| 0 <= k < |news| && news[k] == x;
        var at: nat := k;
        assert at in pos;
        var i :| 0 <= i < |pos| && pos[i] == at;
        assert listed[i] == x;
      }
      if x in listed {
        var i :| 0 <= i < |listed| && listed[i] == x;
        assert news[pos[i]] == x;
      }
    }
    forall i | 0 <= i < |listed|
      ensures ids[pos[i]] in s0.rows && listed[i] in t.rows
        && t.rows[listed[i]].priority == s0.rows[ids[pos[i]]].priority
    {
      NewRowIs(env, s0, s, flow, ids, dst, pos[i]);
    }
    forall i, j | 0 <= i < j < |listed| ensures Before(t.Priorities(), listed[i], listed[j]) {
      assert Sooner(env, s0, s, flow, ids, dst, pos[i], pos[j]);
    }
  }

  lemma RowsOfAre(s: State, flow: Id, r: Id)
    ensures r in s.RowsOf(flow) <==> RowIn(s, flow, r)
  {
  }
}
