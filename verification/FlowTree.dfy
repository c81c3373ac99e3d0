/** The tree a flow spells out, its flat listing, and the deep copy. */
module FlowTree {
  import opened Basics
  import opened Ordering
  import opened Forests
  import opened FlowModel
  import opened FlowForest

  ghost predicate Rooted(s: State) {
    forall r | r in s.rows :: Descends(s.flows, s.rows[r])
  }

  predicate RowIn(s: State, flow: Id, r: Id) {
    r in s.rows && s.rows[r].parent == flow
  }

  predicate Live(s: State, r: Id)
    requires r in s.rows
  {
    s.rows[r].flow != NO_ID && s.rows[r].flow in s.flows
  }

  lemma ListedIn(s: State, flow: Id)
    ensures forall r :: r in s.Listing(flow) <==> RowIn(s, flow, r)
  {
    assert forall r :: r in s.RowsOf(flow) <==> RowIn(s, flow, r);
  }

  lemma LinkIsDeeper(s: State, r: Id)
    requires Rooted(s) && r in s.rows && s.rows[r].parent in s.flows && s.rows[r].flow in s.flows
    ensures s.flows[s.rows[r].parent].ordinal < s.flows[s.rows[r].flow].ordinal
    ensures Above(s.flows, s.flows[s.rows[r].flow].ordinal) < Above(s.flows, s.flows[s.rows[r].parent].ordinal)
  {
    assert Descends(s.flows, s.rows[r]);
    var g := s.rows[r].flow;
    assert g in Above(s.flows, s.flows[s.rows[r].parent].ordinal) && g !in Above(s.flows, s.flows[g].ordinal);
  }

  /** walkExecutions, as the tree it walks: the flow's rows in listing order, each
      with the rows of the sub-flow it points at. */
  function ForestOf(s: State, flow: Id): Forest<Id>
    requires Rooted(s) && flow in s.flows
    decreases Above(s.flows, s.flows[flow].ordinal), 1, 0
  {
    ListedIn(s, flow);
    Siblings(s, flow, s.Listing(flow))
  }

  function Siblings(s: State, flow: Id, ids: seq<Id>): Forest<Id>
    requires Rooted(s) && flow in s.flows && forall r | r in ids :: RowIn(s, flow, r)
    decreases Above(s.flows, s.flows[flow].ordinal), 0, |ids| + 1
  {
    if ids == [] then End
    else Node(ids[0], Under(s, flow, ids[0]), Siblings(s, flow, ids[1..]))
  }

  function Under(s: State, flow: Id, r: Id): Forest<Id>
    requires Rooted(s) && flow in s.flows && RowIn(s, flow, r)
    decreases Above(s.flows, s.flows[flow].ordinal), 0, 0
  {
    if Live(s, r) then
      LinkIsDeeper(s, r);
      ForestOf(s, s.rows[r].flow)
    else End
  }

  lemma InvRooted(env: Env, s: State)
    requires Inv(env, s)
    ensures Rooted(s)
  {
    forall r | r in s.rows ensures Descends(s.flows, s.rows[r]) { assert LinkAscends(s.flows, s.rows[r]); }
  }

  // ----- what a listing line shows -----

  /** What a line serves of the sub-flow its row points at. */
  datatype SubFlow = SubFlow(alias: string, description: string)

  function SubFlowOf(f: Flow): SubFlow {
    SubFlow(AliasOf(f), f.description)
  }

  /** A line of the listing without its identifiers, by what determines it: the
      provider's display name, choices and configurability are functions of the
      authenticator, and the config's alias is one of the config. */
  datatype Info = Info(authenticator: string, requirement: string, priority: int, config: Id,
                       isFlow: bool, sub: Option<SubFlow>)

  function InfoOf(s: State, r: Id): Info {
    if r in s.rows then
      var e := s.rows[r];
      Info(e.authenticator, e.requirement, e.priority, e.config, e.flow != NO_ID,
           if Live(s, r) then Some(SubFlowOf(s.flows[e.flow])) else None)
    else Info("", "", 0, NO_ID, false, None)
  }

  function Describe(s: State, f: Forest<Id>): Forest<Info> {
    match f
    case End => End
    case Node(r, sub, next) => Node(InfoOf(s, r), Describe(s, sub), Describe(s, next))
  }

  function Shape(s: State, flow: Id): Forest<Info>
    requires Rooted(s) && flow in s.flows
  {
    Describe(s, ForestOf(s, flow))
  }

  /** A row with everything under it. */
  function Branch(s: State, flow: Id, r: Id): (Info, Forest<Info>)
    requires Rooted(s) && flow in s.flows && RowIn(s, flow, r)
  {
    (InfoOf(s, r), Describe(s, Under(s, flow, r)))
  }

  function DescribeEntry(s: State, e: Entry<Id>): Entry<Info> {
    Entry(InfoOf(s, e.item), e.level, e.index)
  }

  function DescribeAll(s: State, es: seq<Entry<Id>>): seq<Entry<Info>> {
    seq(|es|, i requires 0 <= i < |es| => DescribeEntry(s, es[i]))
  }

  /** Describing the lines of a walk is listing the described tree. */
  lemma {:induction false} DescribeFlatten(s: State, f: Forest<Id>, level: nat, index: nat)
    ensures DescribeAll(s, Flatten(f, level, index)) == Flatten(Describe(s, f), level, index)
  {
    match f
    case End =>
    case Node(r, sub, next) =>
      DescribeFlatten(s, sub, level + 1, 0);
      DescribeFlatten(s, next, level, index + 1);
      var a, b, c := [Entry(r, level, index)], Flatten(sub, level + 1, 0), Flatten(next, level, index + 1);
      assert DescribeAll(s, a + b + c) == DescribeAll(s, a) + DescribeAll(s, b) + DescribeAll(s, c);
  }

  lemma UnfoldSiblings(s: State, f: Id, ids: seq<Id>)
    requires Rooted(s) && f in s.flows && (forall r | r in ids :: RowIn(s, f, r)) && ids != []
    ensures Describe(s, Siblings(s, f, ids)) == Node(Branch(s, f, ids[0]).0, Branch(s, f, ids[0]).1,
      Describe(s, Siblings(s, f, ids[1..])))
  {
  }

  // ----- the tree under a flow does not change when the tables grow elsewhere -----

  /** A flow of ordinal `o` or above. */
  predicate FromOn(s: State, flow: Id, o: int) {
    flow in s.flows && s.flows[flow].ordinal >= o
  }

  /** Flows of ordinal `o` and above keep themselves, exactly their rows, and their
      dangling links; older flows and their rows may change in any way. */
  ghost predicate Unmoved(s: State, t: State, o: int) {
    && (forall f | FromOn(s, f, o) :: f in t.flows && t.flows[f] == s.flows[f])
    && (forall r | r in s.rows && FromOn(s, s.rows[r].parent, o) :: r in t.rows && t.rows[r] == s.rows[r])
    && (forall r | r in t.rows && FromOn(s, t.rows[r].parent, o) :: r in s.rows && s.rows[r] == t.rows[r])
    && (forall r | r in s.rows && FromOn(s, s.rows[r].parent, o) ::
          s.rows[r].flow !in s.flows ==> s.rows[r].flow !in t.flows)
  }

  lemma SameListing(s: State, t: State, flow: Id, o: int)
    requires Unmoved(s, t, o) && flow in s.flows && s.flows[flow].ordinal >= o
    ensures s.Listing(flow) == t.Listing(flow)
  {
    assert FromOn(s, flow, o);
    assert s.RowsOf(flow) == t.RowsOf(flow);
    SortedAgrees(s.RowsOf(flow), s.Priorities(), t.Priorities());
  }

  lemma {:induction false} SameForest(s: State, t: State, flow: Id, o: int)
    requires Rooted(s) && Rooted(t) && Unmoved(s, t, o) && flow in s.flows && s.flows[flow].ordinal >= o
    ensures ForestOf(s, flow) == ForestOf(t, flow) && Shape(s, flow) == Shape(t, flow)
    decreases Above(s.flows, s.flows[flow].ordinal), 1, 0
  {
    SameListing(s, t, flow, o);
    ListedIn(s, flow);
    ListedIn(t, flow);
    SameSiblings(s, t, flow, s.Listing(flow), o);
  }

  lemma {:induction false} SameSiblings(s: State, t: State, flow: Id, ids: seq<Id>, o: int)
    requires Rooted(s) && Rooted(t) && Unmoved(s, t, o) && flow in s.flows && s.flows[flow].ordinal >= o
    requires forall r | r in ids :: RowIn(s, flow, r)
    ensures flow in t.flows && forall r | r in ids :: RowIn(t, flow, r)
    ensures Siblings(s, flow, ids) == Siblings(t, flow, ids)
    ensures Describe(s, Siblings(s, flow, ids)) == Describe(t, Siblings(t, flow, ids))
    decreases Above(s.flows, s.flows[flow].ordinal), 0, |ids| + 1
  {
    assert forall r | r in ids :: RowIn(s, flow, r) && RowIn(t, flow, r);
    if ids != [] {
      SameBranch(s, t, flow, ids[0], o);
      SameSiblings(s, t, flow, ids[1..], o);
    }
  }

  lemma {:induction false} SameBranch(s: State, t: State, flow: Id, r: Id, o: int)
    requires Rooted(s) && Rooted(t) && Unmoved(s, t, o) && flow in s.flows && s.flows[flow].ordinal >= o
    requires RowIn(s, flow, r)
    ensures flow in t.flows && RowIn(t, flow, r)
    ensures Under(s, flow, r) == Under(t, flow, r) && Branch(s, flow, r) == Branch(t, flow, r)
    decreases Above(s.flows, s.flows[flow].ordinal), 0, 0
  {
    if Live(s, r) {
      LinkIsDeeper(s, r);
      SameForest(s, t, s.rows[r].flow, o);
    }
  }

  /** Growing the tables under `dst` leaves every newer flow's tree alone. */
  lemma GrownUnmoved(env: Env, s: State, t: State, dst: Id, o: int)
    requires Inv(env, s) && Grown(env, s, t, dst)
    requires dst in s.flows ==> s.flows[dst].ordinal < o
    ensures Unmoved(s, t, o)
  {
  }

  // ----- the walk visits each reachable row exactly once -----

  /** A chain of rows from a direct row of `flow`, each in the sub-flow the one before points at. */
  ghost predicate Chain(s: State, flow: Id, p: seq<Id>)
    decreases |p|
  {
    && p != [] && flow in s.flows && RowIn(s, flow, p[0])
    && (|p| > 1 ==> Live(s, p[0]) && Chain(s, s.rows[p[0]].flow, p[1..]))
  }

  ghost predicate Reaches(s: State, flow: Id, r: Id) {
    exists p: seq<Id> :: Chain(s, flow, p) && p[|p| - 1] == r
  }

  /** Everything under the siblings `ids` hangs off one of them by a chain. */
  lemma {:induction false} ItemsAreChained(s: State, flow: Id, ids: seq<Id>, r: Id) returns (p: seq<Id>)
    requires Rooted(s) && flow in s.flows && forall x | x in ids :: RowIn(s, flow, x)
    requires r in Items(Siblings(s, flow, ids))
    ensures Chain(s, flow, p) && p[|p| - 1] == r && p[0] in ids
    decreases Above(s.flows, s.flows[flow].ordinal), 0, |ids| + 1
  {
    if r == ids[0] {
      p := [r];
    } else if r in Items(Under(s, flow, ids[0])) {
      p := UnderIsChained(s, flow, ids[0], r);
    } else {
      p := ItemsAreChained(s, flow, ids[1..], r);
    }
  }

  lemma {:induction false} UnderIsChained(s: State, flow: Id, top: Id, r: Id) returns (p: seq<Id>)
    requires Rooted(s) && flow in s.flows && RowIn(s, flow, top) && r in Items(Under(s, flow, top))
    ensures Chain(s, flow, p) && |p| > 1 && p[0] == top && p[|p| - 1] == r
    decreases Above(s.flows, s.flows[flow].ordinal), 0, 0
  {
    LinkIsDeeper(s, top);
    var g := s.rows[top].flow;
    ListedIn(s, g);
    var q := ItemsAreChained(s, g, s.Listing(g), r);
    p := [top] + q;
    assert p[1..] == q;
  }

  /** Conversely, every chain ends in a row the walk visits. */
  lemma {:induction false} ChainsAreItems(s: State, flow: Id, p: seq<Id>)
    requires Rooted(s) && Chain(s, flow, p)
    ensures p[|p| - 1] in Items(ForestOf(s, flow))
    decreases |p|
  {
    ListedIn(s, flow);
    var ids := s.Listing(flow);
    assert p[0] in ids;
    if |p| > 1 {
      var g := s.rows[p[0]].flow;
      ChainsAreItems(s, g, p[1..]);
      assert p[1..][|p[1..]| - 1] == p[|p| - 1];
      assert Under(s, flow, p[0]) == ForestOf(s, g);
    }
    SiblingItems(s, flow, ids, p[0], p[|p| - 1]);
  }

  lemma {:induction false} SiblingItems(s: State, flow: Id, ids: seq<Id>, x: Id, r: Id)
    requires Rooted(s) && flow in s.flows && (forall y | y in ids :: RowIn(s, flow, y)) && x in ids
    requires r == x || r in Items(Under(s, flow, x))
    ensures r in Items(Siblings(s, flow, ids))
    decreases |ids|
  {
    if ids[0] != x { SiblingItems(s, flow, ids[1..], x, r); }
  }

  /** Only one chain leads from a flow to a row. */
  lemma {:induction false} ChainUnique(s: State, flow: Id, p: seq<Id>, q: seq<Id>)
    requires Rooted(s) && UniqueLinks(s) && Chain(s, flow, p) && Chain(s, flow, q)
    requires p[|p| - 1] == q[|q| - 1]
    ensures p[0] == q[0]
    decreases |p| + |q|
  {
    if |p| == 1 && |q| == 1 {
    } else if |p| == 1 {
      ChainDescends(s, flow, q);
    } else if |q| == 1 {
      ChainDescends(s, flow, p);
    } else {
      ChainParent(s, flow, p);
      ChainParent(s, flow, q);
      ChainPrefix(s, flow, p);
      ChainPrefix(s, flow, q);
      var a, b := p[|p| - 2], q[|q| - 2];
      assert s.rows[a].flow == s.rows[b].flow != NO_ID;
      assert a == b;
      ChainUnique(s, flow, p[..|p| - 1], q[..|q| - 1]);
    }
  }

  /** The end of a chain of two or more rows lies in a flow newer than the start. */
  lemma {:induction false} ChainDescends(s: State, flow: Id, p: seq<Id>)
    requires Rooted(s) && Chain(s, flow, p) && |p| > 1
    ensures p[|p| - 1] in s.rows && s.rows[p[|p| - 1]].parent in s.flows
    ensures s.flows[s.rows[p[|p| - 1]].parent].ordinal > s.flows[flow].ordinal
    decreases |p|
  {
    LinkIsDeeper(s, p[0]);
    if |p| > 2 { ChainDescends(s, s.rows[p[0]].flow, p[1..]); }
  }

  lemma {:induction false} ChainParent(s: State, flow: Id, p: seq<Id>)
    requires Chain(s, flow, p) && |p| > 1
    ensures p[|p| - 2] in s.rows && Live(s, p[|p| - 2])
    ensures p[|p| - 1] in s.rows && s.rows[p[|p| - 1]].parent == s.rows[p[|p| - 2]].flow
    decreases |p|
  {
    if |p| > 2 { ChainParent(s, s.rows[p[0]].flow, p[1..]); }
  }

  lemma {:induction false} ChainPrefix(s: State, flow: Id, p: seq<Id>)
    requires Chain(s, flow, p) && |p| > 1
    ensures Chain(s, flow, p[..|p| - 1])
    decreases |p|
  {
    if |p| > 2 {
      ChainPrefix(s, s.rows[p[0]].flow, p[1..]);
      assert p[1..][..|p| - 2] == p[..|p| - 1][1..];
    }
  }

  lemma {:induction false} SiblingsNoRepeats(s: State, flow: Id, ids: seq<Id>)
    requires Rooted(s) && UniqueLinks(s) && flow in s.flows && forall x | x in ids :: RowIn(s, flow, x)
    requires NoRepeats(ids)
    ensures NoRepeats(Items(Siblings(s, flow, ids)))
    decreases Above(s.flows, s.flows[flow].ordinal), 0, |ids| + 1
  {
    if ids != [] {
      var top, sub, next := ids[0], Items(Under(s, flow, ids[0])), Items(Siblings(s, flow, ids[1..]));
      if Live(s, top) {
        LinkIsDeeper(s, top);
        var g := s.rows[top].flow;
        ListedIn(s, g);
        ListingNoRepeats(s.Listing(g), s.RowsOf(g), s.Priorities());
        SiblingsNoRepeats(s, g, s.Listing(g));
        assert Under(s, flow, top) == ForestOf(s, g) == Siblings(s, g, s.Listing(g));
      }
      assert NoRepeats(ids[1..]);
      SiblingsNoRepeats(s, flow, ids[1..]);
      assert NoRepeats(sub) && NoRepeats(next);
      forall x | x in sub ensures x != top && x !in next {
        var p := UnderIsChained(s, flow, top, x);
        if x == top { ChainUniqueTail(s, flow, p); }
        if x in next {
          var q := ItemsAreChained(s, flow, ids[1..], x);
          ChainUnique(s, flow, p, q);
        }
      }
      forall x | x in next ensures x != top {
        var q := ItemsAreChained(s, flow, ids[1..], x);
        if x == top { ChainUnique(s, flow, [top], q); }
      }
      JoinNoRepeats([top], sub);
      JoinNoRepeats([top] + sub, next);
    }
  }

  lemma ChainUniqueTail(s: State, flow: Id, p: seq<Id>)
    requires Rooted(s) && Chain(s, flow, p) && |p| > 1
    ensures p[|p| - 1] != p[0]
  {
    ChainDescends(s, flow, p);
  }

  /** A walk visits exactly the rows reachable from its flow, each of them once. */
  lemma WalkVisitsOnce(env: Env, s: State, flow: Id)
    requires Inv(env, s) && flow in s.flows
    ensures Rooted(s) && NoRepeats(Items(ForestOf(s, flow)))
    ensures forall r :: r in Items(ForestOf(s, flow)) <==> Reaches(s, flow, r)
  {
    InvRooted(env, s);
    ListedIn(s, flow);
    ListingNoRepeats(s.Listing(flow), s.RowsOf(flow), s.Priorities());
    SiblingsNoRepeats(s, flow, s.Listing(flow));
    assert ForestOf(s, flow) == Siblings(s, flow, s.Listing(flow));
    forall r ensures r in Items(ForestOf(s, flow)) <==> Reaches(s, flow, r) {
      if r in Items(ForestOf(s, flow)) {
        var p := ItemsAreChained(s, flow, s.Listing(flow), r);
        assert Reaches(s, flow, r);
      }
      if Reaches(s, flow, r) {
        var p :| Chain(s, flow, p) && p[|p| - 1] == r;
        ChainsAreItems(s, flow, p);
      }
    }
  }
}
