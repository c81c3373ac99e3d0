/** What a deep copy stores: for every row of the source, a row of the new flow
    with the copied sub-flow under it (internal/admin/flows.go:731-782). */
module FlowCopy {
  import opened Basics
  import opened Ordering
  import opened Forests
  import opened FlowModel
  import opened FlowForest
  import opened FlowTree
  import opened FlowRuns

  /** The tables the copy started from, and what they have grown into. */
  ghost predicate Origin(env: Env, s0: State, s: State) {
    && Inv(env, s0) && Inv(env, s) && Rooted(s0) && Rooted(s)
    && Copyable(env, s0.flows, s) && Indexed(s0.flows, s)
    && (forall f | f in s0.flows :: f in s.flows && s.flows[f] == s0.flows[f])
    && (forall r | r in s0.rows :: r in s.rows && s.rows[r] == s0.rows[r])
    && (forall r | r in s.rows && r !in s0.rows :: s.rows[r].parent !in s0.flows)
  }

  lemma OriginGrows(env: Env, s0: State, s: State, t: State, dst: Id)
    requires Origin(env, s0, s) && Grown(env, s, t, dst) && Inv(env, t) && dst !in s0.flows
    requires Copyable(env, s0.flows, t)
    ensures Origin(env, s0, t)
  {
    InvRooted(env, t);
    IndexedGrows(env, s0.flows, s, t, dst);
  }

  function RowsAt(s: State, flow: Id, ids: seq<Id>): seq<Row>
    requires forall r | r in ids :: RowIn(s, flow, r)
  {
    seq(|ids|, i requires 0 <= i < |ids| => assert ids[i] in ids && RowIn(s, flow, ids[i]); s.rows[ids[i]])
  }

  lemma OriginRows(env: Env, s0: State, s: State, flow: Id)
    requires Origin(env, s0, s) && flow in s0.flows
    ensures s.RowsOf(flow) == s0.RowsOf(flow) && forall r | r in s0.RowsOf(flow) :: s.rows[r] == s0.rows[r]
  {
    hide Inv, Rooted, Copyable, Indexed;
  }

  lemma OriginListing(env: Env, s0: State, s: State, flow: Id)
    requires Origin(env, s0, s) && flow in s0.flows
    ensures (forall r | r in s0.Listing(flow) :: RowIn(s0, flow, r))
      && ListRows(s, flow) == RowsAt(s0, flow, s0.Listing(flow))
  {
    OriginRows(env, s0, s, flow);
    SortedAgrees(s0.RowsOf(flow), s0.Priorities(), s.Priorities());
    var ids := s0.Listing(flow);
    assert s.Listing(flow) == ids;
    ListedIn(s0, flow);
    hide State.Listing, Sorted, IsListing, Origin;
    RowsAgree(s0, s, flow, ids);
  }

  lemma RowsAgree(s0: State, s: State, flow: Id, ids: seq<Id>)
    requires s.Listing(flow) == ids && forall r | r in ids :: RowIn(s0, flow, r)
    requires forall r | r in s0.RowsOf(flow) :: r in s.rows && s.rows[r] == s0.rows[r]
    ensures ListRows(s, flow) == RowsAt(s0, flow, ids)
  {
    hide State.Listing, Sorted, IsListing;
    var rows, rows0 := ListRows(s, flow), RowsAt(s0, flow, ids);
    assert |rows| == |ids| == |rows0|;
    forall i | 0 <= i < |ids| ensures rows[i] == rows0[i] { assert ids[i] in ids && RowIn(s0, flow, ids[i]); }
  }

  lemma OriginFacts(env: Env, s0: State, s: State)
    requires Origin(env, s0, s)
    ensures Inv(env, s0) && Rooted(s0) && Inv(env, s) && Copyable(env, s0.flows, s) && Indexed(s0.flows, s)
  {
  }

  // ----- one copied row -----

  /** `n` is a row of `dst` that shows `branch`. */
  ghost predicate CopiedAs(t: State, dst: Id, n: Id, branch: (Info, Forest<Info>)) {
    Rooted(t) && dst in t.flows && RowIn(t, dst, n) && Branch(t, dst, n) == branch
  }

  /** A row as its copy shows it: a link that does not resolve is no link. */
  function TidyInfo(s: State, r: Id): Info
    requires r in s.rows
  {
    InfoOf(s, r).(isFlow := Live(s, r))
  }

  /** Row `r` of `flow` can be copied from the tables `s` into `dst`. */
  ghost predicate RowReady(env: Env, s0: State, s: State, flow: Id, r: Id, dst: Id) {
    && Origin(env, s0, s) && flow in s0.flows && RowIn(s0, flow, r)
    && RowFits(s0.flows, s, s0.rows[r], s0.flows[flow].ordinal)
    && dst in s.flows && dst !in s0.flows && Unlinked(s, dst)
  }

  /** The tables once the row's own identifier is drawn. */
  function Drawn(s: State): State {
    s.(next := s.next + 1)
  }

  lemma ReadyFacts(env: Env, s0: State, s: State, flow: Id, r: Id, dst: Id)
    requires RowReady(env, s0, s, flow, r, dst)
    ensures Inv(env, s0) && Rooted(s0) && Inv(env, s) && Copyable(env, s0.flows, s) && Indexed(s0.flows, s)
    ensures Origin(env, s0, Drawn(s)) && Copyable(env, s0.flows, Drawn(s)) && Indexed(s0.flows, Drawn(s))
      && Inv(env, Drawn(s))
    ensures flow in s0.flows && r in s0.rows && Deeper(s0.flows, s0.rows[r].flow, s0.flows[flow].ordinal)
    ensures s0.rows[r].flow in s0.flows ==> !s0.flows[s0.rows[r].flow].topLevel
    ensures Live(s0, r) ==> s0.flows[flow].ordinal < s0.flows[s0.rows[r].flow].ordinal
  {
    hide Inv, Rooted, Unlinked, Grown, Indexed;
    OriginFacts(env, s0, s);
    DrawKeeps(env, s);
    NoIdIsNoFlow(env, s0);
    OriginGrows(env, s0, s, Drawn(s), NO_ID);
    OriginFacts(env, s0, Drawn(s));
  }

  ghost function SubCopy(env: Env, s0: State, s: State, flow: Id, r: Id, dst: Id): (State, Id)
    requires RowReady(env, s0, s, flow, r, dst)
  {
    ReadyFacts(env, s0, s, flow, r, dst);
    CopySub(env, s0.flows, Drawn(s), s0.rows[r].flow, s0.flows[flow].ordinal)
  }

  ghost function RowCopy(env: Env, s0: State, s: State, flow: Id, r: Id, dst: Id): State
    requires RowReady(env, s0, s, flow, r, dst)
  {
    ReadyFacts(env, s0, s, flow, r, dst);
    CopyRow(env, s0.flows, s, dst, s0.rows[r], s0.flows[flow].ordinal)
  }

  /** What the copied row shows: the tidied line over the shape of the copied sub-flow. */
  ghost function CopyBranch(env: Env, s0: State, s: State, flow: Id, r: Id, dst: Id): (Info, Forest<Info>)
    requires RowReady(env, s0, s, flow, r, dst)
  {
    ReadyFacts(env, s0, s, flow, r, dst);
    var q := SubCopy(env, s0, s, flow, r, dst);
    (TidyInfo(s0, r), if Live(s0, r) && Rooted(q.0) && q.1 in q.0.flows then Shape(q.0, q.1) else End)
  }

  lemma CopySubIs(env: Env, idx: map<Id, Flow>, s: State, flow: Id, o: int)
    requires Copyable(env, idx, s) && Deeper(idx, flow, o)
    ensures CopySub(env, idx, s, flow, o) == if flow != NO_ID
      && flow in idx then CopyTree(env, idx, s, flow, "") else (s, NO_ID)
  {
    hide CopyTree, Copyable, Deeper;
  }

  /** The two halves of a copied row. */
  lemma RowCopyIs(env: Env, s0: State, s: State, flow: Id, r: Id, dst: Id)
    requires RowReady(env, s0, s, flow, r, dst)
    ensures r in s0.rows && flow in s0.flows
    ensures
      var q := SubCopy(env, s0, s, flow, r, dst);
      RowCopy(env, s0, s, flow, r, dst) == q.0.(rows := q.0.rows[env.ids(s.next) := s0.rows[r].(parent := dst,
        flow := q.1)])
  {
    ReadyFacts(env, s0, s, flow, r, dst);
    CopyRowIs(env, s0.flows, s, dst, s0.rows[r], s0.flows[flow].ordinal);
    hide Inv, Rooted, Origin, Copyable, Indexed, Unlinked, CopySub, CopyRow, Deeper;
  }

  /** A live link copies the sub-flow it names, alias and description kept; any other copies nothing. */
  lemma SubCopyKeeps(env: Env, s0: State, s: State, flow: Id, r: Id, dst: Id)
    requires RowReady(env, s0, s, flow, r, dst)
    ensures Copyable(env, s0.flows, Drawn(s)) && r in s0.rows
    ensures
      var q := SubCopy(env, s0, s, flow, r, dst);
      && SubCopied(env, Drawn(s), q) && Inv(env, q.0) && Rooted(q.0) && env.ids(s.next) !in q.0.rows
      && if Live(s0, r)
         then q.1 != NO_ID && q.1 in q.0.flows && SubFlowOf(q.0.flows[q.1]) == SubFlowOf(s0.flows[s0.rows[r].flow])
              && q == CopyTree(env, s0.flows, Drawn(s), s0.rows[r].flow, "")
         else q == (Drawn(s), NO_ID)
  {
    hide Inv, Rooted, Origin, Copyable, Indexed, Unlinked, CopySub, SubCopied, CopyTree, Deeper;
    ReadyFacts(env, s0, s, flow, r, dst);
    NoIdIsNoFlow(env, s0);
    var link, o := s0.rows[r].flow, s0.flows[flow].ordinal;
    CopySubKeeps(env, s0.flows, Drawn(s), link, o);
    CopySubIs(env, s0.flows, Drawn(s), link, o);
    SubFacts(env, s, SubCopy(env, s0, s, flow, r, dst));
    if Live(s0, r) {
      CopyTreeRoot(env, s0, Drawn(s), link, "");
      NoIdIsNoFlow(env, CopyTree(env, s0.flows, Drawn(s), link, "").0);
    }
  }

  /** The root of a copy: the source's record under the name asked for, not built in. */
  predicate Renamed(f: Flow, g: Flow, name: string) {
    g == f.(alias := CopyAlias(f, name), builtIn := false, ordinal := g.ordinal)
  }

  lemma CopyTreeRoot(env: Env, s0: State, s: State, src: Id, name: string)
    requires Origin(env, s0, s) && src in s0.flows
    ensures Copyable(env, s0.flows, s)
    ensures var (t, dst) := CopyTree(env, s0.flows, s, src, name);
      && Inv(env, t) && dst in t.flows && Renamed(s0.flows[src], t.flows[dst], name)
  {
    hide Inv, Rooted, Copyable, Indexed, CopyRows, Grown, NewFlow, RowsFit, TreeCopied;
    OriginFacts(env, s0, s);
    CopyTreeKeeps(env, s0.flows, s, src, name);
    TreeCopiedFacts(env, s, CopyTree(env, s0.flows, s, src, name).0, CopyTree(env, s0.flows, s, src, name).1,
      s0.flows[src].topLevel);
    var (s1, dst) := Begun(env, s0, s, src, name);
    BegunKeeps(env, s0, s, src, name);
    CopyRowsKeeps(env, s0.flows, s1, dst, ListRows(s1, src), s0.flows[src].ordinal);
    RowsKeepFlow(env, s1, CopyRows(env, s0.flows, s1, dst, ListRows(s1, src), s0.flows[src].ordinal), dst);
  }

  lemma RowsKeepFlow(env: Env, s: State, t: State, dst: Id)
    requires RowsCopied(env, s, t, dst) && dst in s.flows
    ensures dst in t.flows && t.flows[dst] == s.flows[dst]
  {
    hide Inv, Unlinked, NoNewBuiltIns, Retired, IsFresh;
  }

  /** The first step of a copy: the new flow, still empty. */
  function Begun(env: Env, s0: State, s: State, src: Id, name: string): (State, Id)
    requires src in s0.flows
  {
    var f := s0.flows[src];
    AddFlow(env, s, Flow(CopyAlias(f, name), f.description, f.provider, f.topLevel, false, 0))
  }

  lemma BegunKeeps(env: Env, s0: State, s: State, src: Id, name: string)
    requires Origin(env, s0, s) && src in s0.flows
    ensures
      var (s1, dst) := Begun(env, s0, s, src, name);
      && Origin(env, s0, s1) && Inv(env, s1) && Indexed(s0.flows, s1) && Copyable(env, s0.flows, s1)
      && dst in s1.flows && dst !in s0.flows && Unlinked(s1, dst) && s1.next == s.next + 1
      && Renamed(s0.flows[src], s1.flows[dst], name)
      && RowsFit(s0.flows, s1, ListRows(s1, src), s0.flows[src].ordinal)
      && (forall e | e in ListRows(s1, src) :: Deeper(s0.flows, e.flow, s0.flows[src].ordinal))
      && (forall n :: !RowIn(s1, dst, n))
      && CopyTree(env, s0.flows, s, src,
        name) == (CopyRows(env, s0.flows, s1, dst, ListRows(s1, src), s0.flows[src].ordinal), dst)
  {
    var f := s0.flows[src];
    var blank := Flow(CopyAlias(f, name), f.description, f.provider, f.topLevel, false, 0);
    OriginFacts(env, s0, s);
    AddFlowKeeps(env, s, blank);
    var (s1, dst) := AddFlow(env, s, blank);
    CopyStarts(env, s0.flows, s, s1, src, dst);
    BegunCopyable(env, s0.flows, s, blank);
    assert Grown(env, s, s1, NO_ID);
    NoIdIsNoFlow(env, s0);
    OriginGrows(env, s0, s, s1, NO_ID);
    NewFlowIsBare(env, s, blank);
    hide Inv, Rooted, Origin, Copyable, Indexed, Unlinked, CopyRows, Grown, NewFlow, State.NextOrdinal, ListRows;
  }

  lemma BegunCopyable(env: Env, idx: map<Id, Flow>, s: State, f: Flow)
    requires Copyable(env, idx, s)
    ensures Copyable(env, idx, AddFlow(env, s, f).0)
  {
    hide Descends, State.NextOrdinal;
  }

  lemma NewFlowIsBare(env: Env, s: State, f: Flow)
    requires Inv(env, s)
    ensures forall n :: !RowIn(AddFlow(env, s, f).0, AddFlow(env, s, f).1, n)
  {
    assert IsFresh(s, env.ids(s.next));
    assert forall r | r in s.rows :: RowLive(s.flows, s.configs, s.rows[r]);
  }

  lemma TreeCopiedFacts(env: Env, s: State, t: State, dst: Id, topLevel: bool)
    requires TreeCopied(env, s, t, dst, topLevel)
    ensures Inv(env, t) && Grown(env, s, t, NO_ID) && dst in t.flows && dst !in s.flows && NoNewBuiltIns(s, t)
      && t.configs == s.configs
    ensures forall r | r in s.rows :: r in t.rows && t.rows[r] == s.rows[r]
  {
    hide Inv, NoNewBuiltIns, Retired, Unlinked;
  }

  lemma GrownFlow(env: Env, s: State, t: State, f: Id)
    requires Grown(env, s, t, NO_ID) && f in s.flows
    ensures f in t.flows && t.flows[f] == s.flows[f]
  {
    hide Retired, IsFresh;
  }

  lemma OriginStarts(env: Env, s: State)
    requires Inv(env, s) && Rooted(s) && Copyable(env, s.flows, s) && Indexed(s.flows, s)
    ensures Origin(env, s, s)
  {
    hide Inv, Rooted, Copyable, Indexed;
  }

  lemma FlowKept(env: Env, s: State, s2: State, sub: Id, dst: Id)
    requires SubCopied(env, s.(next := s.next + 1), (s2, sub)) && dst in s.flows
    ensures dst in s2.flows
  {
    hide Inv, IsFresh, Retired, NoNewBuiltIns;
  }

  lemma StoredIn(u: State, dst: Id, n: Id)
    requires n in u.rows && u.rows[n].parent == dst
    ensures RowIn(u, dst, n)
  {
  }

  /** The stored row sits above the sub-flow it links, whose tree it does not change. */
  lemma StoredSub(s2: State, u: State, n: Id, dst: Id, sub: Id)
    requires Rooted(s2) && Rooted(u) && n !in s2.rows && n in u.rows && u == s2.(rows := s2.rows[n := u.rows[n]])
    requires u.rows[n].parent == dst && u.rows[n].flow == sub && sub in s2.flows && dst in s2.flows
    ensures Shape(u, sub) == Shape(s2, sub)
  {
    hide Rooted, ForestOf, Shape;
    LinkIsDeeper(u, n);
    SameForest(s2, u, sub, s2.flows[sub].ordinal);
  }

  /** Storing the row on top of its copied sub-flow completes the branch. */
  lemma {:induction false} RowCopiedAs(env: Env, s0: State, s: State, flow: Id, r: Id, dst: Id)
    requires RowReady(env, s0, s, flow, r, dst)
    ensures RowsCopied(env, s, RowCopy(env, s0, s, flow, r, dst), dst)
    ensures CopiedAs(RowCopy(env, s0, s, flow, r, dst), dst, env.ids(s.next), CopyBranch(env, s0, s, flow, r, dst))
    ensures Gained(s, RowCopy(env, s0, s, flow, r, dst), dst, [env.ids(s.next)])
  {
    hide Inv, Rooted, Origin, Copyable, Indexed, SubCopied, CopySub, CopyRow, CopyTree, ForestOf, Shape, RowsCopied,
      CopiedAs, Gained, Deeper, Branch, TidyInfo, SubFlowOf;
    ReadyFacts(env, s0, s, flow, r, dst);
    RowCopyIs(env, s0, s, flow, r, dst);
    SubCopyKeeps(env, s0, s, flow, r, dst);
    var (q, sub) := SubCopy(env, s0, s, flow, r, dst);
    var n, u := env.ids(s.next), RowCopy(env, s0, s, flow, r, dst);
    CopyRowKeeps(env, s0.flows, s, dst, s0.rows[r], s0.flows[flow].ordinal);
    RowsCopiedInv(env, s, u, dst);
    InvRooted(env, u);
    FlowKept(env, s, q, sub, dst);
    NextAreFresh(env, s);
    RowJoins(env, s, q, sub, dst, n, s0.rows[r]);
    StoredIn(u, dst, n);
    if Live(s0, r) { StoredSub(q, u, n, dst, sub); }
    StoredBranch(s0, r, u, dst, sub, n, if Live(s0, r) then Shape(q, sub) else End);
  }

  lemma StoredBranch(s0: State, r: Id, u: State, dst: Id, sub: Id, n: Id, shape: Forest<Info>)
    requires r in s0.rows && Rooted(u) && dst in u.flows && RowIn(u, dst, n)
      && u.rows[n] == s0.rows[r].(parent := dst, flow := sub)
    requires if Live(s0, r)
             then sub != NO_ID && sub in u.flows && SubFlowOf(u.flows[sub]) == SubFlowOf(s0.flows[s0.rows[r].flow])
               && Shape(u, sub) == shape
             else sub == NO_ID && shape == End
    ensures CopiedAs(u, dst, n, (TidyInfo(s0, r), shape))
  {
    hide Rooted, ForestOf;
  }

  lemma CopyRowIs(env: Env, idx: map<Id, Flow>, s: State, dst: Id, e: Row, o: int)
    requires Copyable(env, idx, s) && Indexed(idx, s) && Deeper(idx, e.flow, o) && dst !in idx
    ensures Copyable(env, idx, s.(next := s.next + 1)) && Indexed(idx, s.(next := s.next + 1))
    ensures
      var q := CopySub(env, idx, s.(next := s.next + 1), e.flow, o);
      CopyRow(env, idx, s, dst, e, o) == q.0.(rows := q.0.rows[env.ids(s.next) := e.(parent := dst, flow := q.1)])
  {
    hide CopySub, Deeper;
  }

  lemma RowsCopiedInv(env: Env, s: State, t: State, dst: Id)
    requires RowsCopied(env, s, t, dst)
    ensures Inv(env, t) && Grown(env, s, t, dst)
  {
  }

  lemma SubFacts(env: Env, s: State, q: (State, Id))
    requires Inv(env, s) && SubCopied(env, s.(next := s.next + 1), q)
    ensures Inv(env, q.0) && Rooted(q.0) && env.ids(s.next) !in q.0.rows
    ensures q.1 != NO_ID ==> q.1 in q.0.flows
  {
    var s1 := s.(next := s.next + 1);
    DrawKeeps(env, s);
    assert Retired(env, s1, env.ids(s.next));
    assert Inv(env, q.0) && Retired(env, q.0, env.ids(s.next));
    InvRooted(env, q.0);
  }

  /** A copied branch stays as it is while its flow gains further rows. */
  lemma StillCopied(env: Env, s: State, t: State, dst: Id, n: Id, branch: (Info, Forest<Info>))
    requires CopiedAs(s, dst, n, branch) && Inv(env, s) && RowsCopied(env, s, t, dst)
    ensures CopiedAs(t, dst, n, branch)
  {
    hide Inv, Rooted, Grown, ForestOf, Unlinked, NoNewBuiltIns, Unmoved;
    RowsCopiedInv(env, s, t, dst);
    InvRooted(env, t);
    GrownUnmoved(env, s, t, dst, s.flows[dst].ordinal + 1);
    RowsKeepFlow(env, s, t, dst);
    RowKept(env, s, t, dst, n);
    if Live(s, n) {
      LinkIsDeeper(s, n);
      SameForest(s, t, s.rows[n].flow, s.flows[dst].ordinal + 1);
    }
  }

  /** A stored row and the flow it links are never rewritten. */
  lemma RowKept(env: Env, s: State, t: State, dst: Id, n: Id)
    requires Inv(env, s) && Grown(env, s, t, dst) && RowIn(s, dst, n)
    ensures RowIn(t, dst, n) && t.rows[n] == s.rows[n] && InfoOf(t, n) == InfoOf(s, n) && Live(t, n) == Live(s, n)
  {
    assert RowLive(s.flows, s.configs, s.rows[n]);
    hide Inv;
  }

  /** The rows of `dst` in `t` are those it had in `s` and the new ones. */
  ghost predicate Gained(s: State, t: State, dst: Id, news: seq<Id>) {
    && NoRepeats(news) && (forall n | n in news :: n !in s.rows)
    && forall n :: RowIn(t, dst, n) <==> RowIn(s, dst, n) || n in news
  }

  lemma RowJoins(env: Env, s: State, s2: State, sub: Id, dst: Id, n: Id, e: Row)
    requires Inv(env, s) && SubCopied(env, s.(next := s.next + 1), (s2, sub)) && dst in s.flows && n !in s.rows
    ensures Gained(s, s2.(rows := s2.rows[n := e.(parent := dst, flow := sub)]), dst, [n])
  {
    hide Inv, IsFresh;
    NoIdIsNoFlow(env, s);
    if sub == NO_ID { GrownSame(env, s2, NO_ID); }
    var u := s2.(rows := s2.rows[n := e.(parent := dst, flow := sub)]);
    forall m ensures RowIn(u, dst, m) <==> RowIn(s, dst, m) || m in [n] { }
  }

  lemma NoIdIsNoFlow(env: Env, s: State)
    requires Inv(env, s)
    ensures NO_ID !in s.flows
  {
  }

  lemma GainedMore(env: Env, s: State, u: State, t: State, dst: Id, news: seq<Id>, n: Id)
    requires Gained(s, u, dst, news) && Gained(u, t, dst, [n]) && Grown(env, s, u, dst)
    ensures Gained(s, t, dst, news + [n])
  {
    hide Retired, IsFresh;
    assert n in [n] && forall x | x in news :: RowIn(u, dst, x);
    assert forall x :: x in news + [n] <==> x in news || x in [n];
    assert forall i | 0 <= i < |news| :: news[i] in news;
  }

  // ----- the rows of one flow -----

  /** Every row of `ids` can be copied from `s` on. */
  ghost predicate Ready(env: Env, s0: State, s: State, flow: Id, ids: seq<Id>, dst: Id) {
    && Origin(env, s0, s) && flow in s0.flows && dst in s.flows && dst !in s0.flows && Unlinked(s, dst)
    && forall r | r in ids :: RowReady(env, s0, s, flow, r, dst)
  }

  lemma ReadyFits(env: Env, s0: State, s: State, flow: Id, ids: seq<Id>, dst: Id)
    requires Ready(env, s0, s, flow, ids, dst)
    ensures Origin(env, s0, s) && flow in s0.flows && Inv(env, s) && Copyable(env, s0.flows, s) && Indexed(s0.flows, s)
    ensures dst in s.flows && dst !in s0.flows && Unlinked(s, dst)
    ensures forall r | r in ids :: RowIn(s0, flow, r)
    ensures RowsFit(s0.flows, s, RowsAt(s0, flow, ids), s0.flows[flow].ordinal)
    ensures forall e | e in RowsAt(s0, flow, ids) :: Deeper(s0.flows, e.flow, s0.flows[flow].ordinal)
  {
    hide Inv, Rooted, Copyable, Indexed, Unlinked, Origin, RowFits, Deeper;
    OriginFacts(env, s0, s);
    RowsAreIn(env, s0, s, flow, ids, dst);
    forall e | e in RowsAt(s0, flow, ids)
      ensures RowFits(s0.flows, s, e, s0.flows[flow].ordinal) && Deeper(s0.flows, e.flow, s0.flows[flow].ordinal)
    {
      var i :| 0 <= i < |ids| && RowsAt(s0, flow, ids)[i] == e;
      assert ids[i] in ids && RowReady(env, s0, s, flow, ids[i], dst);
      ReadyFacts(env, s0, s, flow, ids[i], dst);
    }
  }

  lemma RowsAreIn(env: Env, s0: State, s: State, flow: Id, ids: seq<Id>, dst: Id)
    requires forall r | r in ids :: RowReady(env, s0, s, flow, r, dst)
    ensures forall r | r in ids :: RowIn(s0, flow, r)
  {
    hide Origin, RowFits, Unlinked;
  }

  /** Copying the first `j` of the rows. */
  ghost function At(env: Env, s0: State, s: State, flow: Id, ids: seq<Id>, dst: Id, j: nat): State
    requires Ready(env, s0, s, flow, ids, dst) && j <= |ids|
  {
    ReadyPrefix(env, s0, s, flow, ids, dst, j);
    ReadyFits(env, s0, s, flow, ids[..j], dst);
    CopyRows(env, s0.flows, s, dst, RowsAt(s0, flow, ids[..j]), s0.flows[flow].ordinal)
  }

  lemma ReadyPrefix(env: Env, s0: State, s: State, flow: Id, ids: seq<Id>, dst: Id, j: nat)
    requires Ready(env, s0, s, flow, ids, dst) && j <= |ids|
    ensures Ready(env, s0, s, flow, ids[..j], dst)
  {
    hide RowReady, Origin, Unlinked;
    assert forall r | r in ids[..j] :: r in ids;
  }

  lemma {:induction false} CopyRowsLast(env: Env, idx: map<Id, Flow>, s: State, dst: Id, rows: seq<Row>, e: Row, o: int)
    requires Copyable(env, idx, s) && dst !in idx && (forall x | x in rows :: Deeper(idx, x.flow, o))
      && Deeper(idx, e.flow, o)
    ensures forall x | x in rows + [e] :: Deeper(idx, x.flow, o)
    ensures CopyRows(env, idx, s, dst, rows + [e], o) == CopyRow(env, idx, CopyRows(env, idx, s, dst, rows, o), dst,
      e, o)
    decreases |rows|
  {
    hide Copyable, Deeper, CopyRow;
    forall x | x in rows + [e] ensures Deeper(idx, x.flow, o) { assert x in rows || x == e; }
    if rows == [] {
      assert (rows + [e])[1..] == [] && (rows + [e])[0] == e;
    } else {
      assert (rows + [e])[1..] == rows[1..] + [e] && (rows + [e])[0] == rows[0];
      CopyRowsLast(env, idx, CopyRow(env, idx, s, dst, rows[0], o), dst, rows[1..], e, o);
    }
  }

  /** Nothing copied yet, and one row further on. */
  lemma AtSteps(env: Env, s0: State, s: State, flow: Id, ids: seq<Id>, dst: Id, j: nat)
    requires Ready(env, s0, s, flow, ids, dst) && j <= |ids|
    ensures At(env, s0, s, flow, ids, dst, 0) == s
    ensures RowsCopied(env, s, At(env, s0, s, flow, ids, dst, j), dst)
    ensures j < |ids| ==> RowReady(env, s0, At(env, s0, s, flow, ids, dst, j), flow, ids[j], dst)
    ensures j < |ids| ==> At(env, s0, s, flow, ids, dst, j + 1) == RowCopy(env, s0, At(env, s0, s, flow, ids, dst, j),
      flow, ids[j], dst)
  {
    hide RowReady, Ready, Inv, Rooted, Copyable, Indexed, Unlinked, CopyRow, Origin, RowsCopied, Deeper, RowFits,
      RowsFit;
    ReadyPrefix(env, s0, s, flow, ids, dst, j);
    ReadyFits(env, s0, s, flow, ids[..j], dst);
    assert RowsAt(s0, flow, ids[..0]) == [];
    var t := At(env, s0, s, flow, ids, dst, j);
    CopyRowsKeeps(env, s0.flows, s, dst, RowsAt(s0, flow, ids[..j]), s0.flows[flow].ordinal);
    if j < |ids| {
      RowStillReady(env, s0, s, flow, ids, dst, j, t);
      ReadyFacts(env, s0, t, flow, ids[j], dst);
      AtLast(env, s0, s, flow, ids, dst, j);
    }
  }

  lemma AtLast(env: Env, s0: State, s: State, flow: Id, ids: seq<Id>, dst: Id, j: nat)
    requires Ready(env, s0, s, flow, ids, dst) && j < |ids|
    requires RowReady(env, s0, At(env, s0, s, flow, ids, dst, j), flow, ids[j], dst)
    ensures At(env, s0, s, flow, ids, dst, j + 1) == RowCopy(env, s0, At(env, s0, s, flow, ids, dst, j), flow, ids[j],
      dst)
  {
    hide RowReady, Ready, Inv, Rooted, Copyable, Indexed, Unlinked, CopyRow, CopyRows, Origin, Deeper, RowFits, RowsFit;
    ReadyPrefix(env, s0, s, flow, ids, dst, j);
    ReadyPrefix(env, s0, s, flow, ids, dst, j + 1);
    ReadyFits(env, s0, s, flow, ids[..j], dst);
    ReadyFits(env, s0, s, flow, ids[..j + 1], dst);
    var t := At(env, s0, s, flow, ids, dst, j);
    ReadyFacts(env, s0, t, flow, ids[j], dst);
    var rows := RowsAt(s0, flow, ids[..j]);
    assert RowsAt(s0, flow, ids[..j + 1]) == rows + [s0.rows[ids[j]]];
    CopyRowsLast(env, s0.flows, s, dst, rows, s0.rows[ids[j]], s0.flows[flow].ordinal);
  }

  lemma RowStillReady(env: Env, s0: State, s: State, flow: Id, ids: seq<Id>, dst: Id, j: nat, t: State)
    requires Ready(env, s0, s, flow, ids, dst) && j < |ids| && RowsCopied(env, s, t, dst) && Copyable(env, s0.flows, t)
    ensures RowReady(env, s0, t, flow, ids[j], dst)
  {
    hide Inv, Rooted, Copyable, Indexed, Origin, Deeper, Unlinked, NoNewBuiltIns;
    assert ids[j] in ids && RowReady(env, s0, s, flow, ids[j], dst);
    RowsKeepFlow(env, s, t, dst);
    RowsCopiedInv(env, s, t, dst);
    OriginGrows(env, s0, s, t, dst);
  }

  /** The identifier the `i`-th row was stored under. */
  ghost function NewId(env: Env, s0: State, s: State, flow: Id, ids: seq<Id>, dst: Id, i: nat): Id
    requires Ready(env, s0, s, flow, ids, dst) && i < |ids|
  {
    env.ids(At(env, s0, s, flow, ids, dst, i).next)
  }

  ghost function NewIds(env: Env, s0: State, s: State, flow: Id, ids: seq<Id>, dst: Id, j: nat): (r: seq<Id>)
    requires Ready(env, s0, s, flow, ids, dst) && j <= |ids|
    ensures |r| == j && forall i | 0 <= i < j :: r[i] == NewId(env, s0, s, flow, ids, dst, i)
  {
    seq(j, i requires 0 <= i < j => NewId(env, s0, s, flow, ids, dst, i))
  }

  ghost function BranchAt(env: Env, s0: State, s: State, flow: Id, ids: seq<Id>, dst: Id, i: nat): (Info, Forest<Info>)
    requires Ready(env, s0, s, flow, ids, dst) && i < |ids|
  {
    AtSteps(env, s0, s, flow, ids, dst, i);
    CopyBranch(env, s0, At(env, s0, s, flow, ids, dst, i), flow, ids[i], dst)
  }

  /** The first `j` rows are stored, each showing its branch, and no others are new. */
  ghost predicate Stored(env: Env, s0: State, s: State, flow: Id, ids: seq<Id>, dst: Id, j: nat)
    requires Ready(env, s0, s, flow, ids, dst) && j <= |ids|
  {
    var t := At(env, s0, s, flow, ids, dst, j);
    && Gained(s, t, dst, NewIds(env, s0, s, flow, ids, dst, j))
    && forall i: nat | i < j :: CopiedAs(t, dst, NewId(env, s0, s, flow, ids, dst, i),
      BranchAt(env, s0, s, flow, ids, dst, i))
  }

  lemma {:induction false} RowsStored(env: Env, s0: State, s: State, flow: Id, ids: seq<Id>, dst: Id, j: nat)
    requires Ready(env, s0, s, flow, ids, dst) && j <= |ids|
    ensures Stored(env, s0, s, flow, ids, dst, j)
    decreases j
  {
    hide *;
    if j == 0 {
      NoneStored(env, s0, s, flow, ids, dst);
    } else {
      RowsStored(env, s0, s, flow, ids, dst, j - 1);
      OneMoreStored(env, s0, s, flow, ids, dst, j - 1);
    }
  }

  lemma NoneStored(env: Env, s0: State, s: State, flow: Id, ids: seq<Id>, dst: Id)
    requires Ready(env, s0, s, flow, ids, dst)
    ensures Stored(env, s0, s, flow, ids, dst, 0)
  {
    hide Ready, At, CopiedAs, CopyBranch, RowReady;
    AtSteps(env, s0, s, flow, ids, dst, 0);
  }

  lemma OneMoreStored(env: Env, s0: State, s: State, flow: Id, ids: seq<Id>, dst: Id, j: nat)
    requires Ready(env, s0, s, flow, ids, dst) && j < |ids| && Stored(env, s0, s, flow, ids, dst, j)
    ensures Stored(env, s0, s, flow, ids, dst, j + 1)
  {
    hide Ready, At, CopiedAs, CopyBranch, RowReady, Gained, RowsCopied, Inv, Grown;
    AtSteps(env, s0, s, flow, ids, dst, j);
    var u, t := At(env, s0, s, flow, ids, dst, j), At(env, s0, s, flow, ids, dst, j + 1);
    RowCopiedAs(env, s0, u, flow, ids[j], dst);
    RowsCopiedInv(env, s, u, dst);
    GainedMore(env, s, u, t, dst, NewIds(env, s0, s, flow, ids, dst, j), NewId(env, s0, s, flow, ids, dst, j));
    assert NewIds(env, s0, s, flow, ids, dst, j + 1) == NewIds(env, s0, s, flow, ids, dst,
      j) + [NewId(env, s0, s, flow, ids, dst, j)];
    forall i: nat | i < j + 1
      ensures CopiedAs(t, dst, NewId(env, s0, s, flow, ids, dst, i), BranchAt(env, s0, s, flow, ids, dst, i))
    {
      if i < j {
        StillCopied(env, u, t, dst, NewId(env, s0, s, flow, ids, dst, i), BranchAt(env, s0, s, flow, ids, dst, i));
      }
    }
  }
}
