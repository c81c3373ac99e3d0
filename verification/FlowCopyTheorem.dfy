/** When a copied flow lists as its source does (internal/admin/flows.go:694-782):
    exactly, for arbitrary and for increasing identifiers. */
module FlowCopyTheorem {
  import opened Basics
  import opened Ordering
  import opened Forests
  import opened FlowModel
  import opened FlowForest
  import opened FlowTree
  import opened FlowRuns
  import opened FlowCopy
  import opened FlowCopyListing
  import opened FlowCopyAlike
  import opened FlowCopyExact
  import opened FlowCopySpoilt

  /** What GET /flows/{alias}/executions shows of a flow, identifiers left out. */
  function Lines(s: State, flow: Id): seq<Entry<Info>>
    requires Rooted(s) && flow in s.flows
  {
    DescribeAll(s, Flatten(ForestOf(s, flow), 0, 0))
  }

  lemma LinesAreShape(s: State, f: Id, t: State, g: Id)
    requires Rooted(s) && f in s.flows && Rooted(t) && g in t.flows
    ensures Lines(s, f) == Lines(t, g) <==> Shape(s, f) == Shape(t, g)
  {
    DescribeFlatten(s, ForestOf(s, f), 0, 0);
    DescribeFlatten(t, ForestOf(t, g), 0, 0);
    hide ForestOf, Describe, Flatten, DescribeAll, Rooted, Rebuild;
    ListingRoundTrip(Shape(s, f));
    ListingRoundTrip(Shape(t, g));
  }

  lemma CopyOrigin(env: Env, s: State)
    requires Inv(env, s)
    ensures Rooted(s) && Copyable(env, s.flows, s) && Origin(env, s, s)
  {
    InvCopyable(env, s);
    InvRooted(env, s);
    hide Inv, Rooted, Copyable, Indexed;
    OriginStarts(env, s);
  }

  /** The copy lists as its source. */
  ghost predicate ListsAlike(env: Env, s: State, src: Id, name: string)
    requires Inv(env, s) && src in s.flows
  {
    CopyOrigin(env, s);
    var (t, dst) := CopyTree(env, s.flows, s, src, name);
    Rooted(t) && dst in t.flows && Lines(t, dst) == Lines(s, src)
  }

  lemma AlikeIfShape(env: Env, s: State, src: Id, name: string)
    requires Inv(env, s) && src in s.flows && Rooted(s) && Copyable(env, s.flows, s)
    requires var (t, dst) := CopyTree(env, s.flows, s, src, name); Rooted(t) && dst in t.flows
    ensures
      var (t, dst) := CopyTree(env, s.flows, s, src, name);
      ListsAlike(env, s, src, name) <==> Shape(t, dst) == Shape(s, src)
  {
    hide Inv, Rooted, CopyTree, Copyable, Shape, Lines;
    var (t, dst) := CopyTree(env, s.flows, s, src, name);
    LinesAreShape(t, dst, s, src);
  }

  /** Identifiers that increase - rows of one priority then list in creation order -
      make the copy list as its source exactly when no link under the source dangles. */
  lemma IncreasingListsAlike(env: Env, s: State, src: Id, name: string)
    requires Inv(env, s) && src in s.flows && Rooted(s) && IncreasingOn(env, s.next, s.next + Draws(s, src))
    ensures ListsAlike(env, s, src, name) <==> Sound(s, src)
  {
    hide Inv, Rooted, CopyTree, Copyable, Shape, IncreasingOn, Draws, Sound, Origin, Tidied, ListsAlike;
    CopyOrigin(env, s);
    IncreasingCopy(env, s, s, src, name);
    TidyIffSound(s, src);
    AlikeIfShape(env, s, src, name);
  }

  lemma FaithfulListsAlike(env: Env, s: State, src: Id, name: string)
    requires Inv(env, s) && src in s.flows && Rooted(s) && Faithful(s, src)
    ensures ListsAlike(env, s, src, name)
  {
    hide Inv, Rooted, CopyTree, Copyable, Shape, Faithful, Origin, ListsAlike;
    CopyOrigin(env, s);
    FaithfulCopy(env, s, s, src, name);
    AlikeIfShape(env, s, src, name);
  }

  /** Exchanging two identifiers still to be drawn. */
  lemma SwappedSupply(env: Env, s: State, a: nat, b: nat) returns (e: Env)
    requires Inv(env, s) && s.next <= a && s.next <= b && forall hi: nat :: IncreasingOn(env, s.next, hi)
    ensures Inv(e, s) && forall hi: nat :: OrderedBy(e, s.next, hi, a, b)
  {
    hide IsFresh, UniqueLinks, Ascending, PointersLive;
    e := Env((k: nat) => env.ids(Exchange(k, a, b)), env.providers);
    forall k: nat | k >= s.next ensures IsFresh(s, e.ids(k)) { assert IsFresh(s, env.ids(Exchange(k, a, b))); }
    forall j: nat, k: nat | j < k ensures e.ids(j) != e.ids(k) {
      var x, y := Exchange(j, a, b), Exchange(k, a, b);
      assert x < y || y < x;
    }
    forall hi: nat ensures OrderedBy(e, s.next, hi, a, b) {
      forall j: nat, k: nat | s.next <= j < hi && s.next <= k < hi && Exchange(j, a, b) < Exchange(k, a, b)
        ensures e.ids(j) < e.ids(k)
      {
        assert IncreasingOn(env, s.next, Exchange(k, a, b) + 1);
      }
    }
  }

  /** A flow that is not faithful has a copy that lists differently. */
  lemma UnfaithfulCopy(env: Env, s: State, src: Id, name: string) returns (e: Env)
    requires Inv(env, s) && src in s.flows && Rooted(s) && !Faithful(s, src)
    ensures Inv(e, s) && !ListsAlike(e, s, src, name)
  {
    hide Inv, Rooted, CopyTree, Copyable, Shape, Faithful, Sound, Origin, ListsAlike, IncreasingOn, OrderedBy, Draws,
      Spoils;
    e := IncreasingSupply(env, s);
    if Sound(s, src) {
      var a, b := FindSpoil(s, src);
      SpoilsInside(s, src, a, b);
      e := SwappedSupply(e, s, s.next + a, s.next + b);
      CopyOrigin(e, s);
      SpoiledCopy(e, s, s, src, name, a, b);
      AlikeIfShape(e, s, src, name);
    } else {
      IncreasingListsAlike(e, s, src, name);
    }
  }

  /** A copy lists as its source whatever identifiers it draws if and only if no link
      under the source dangles and rows of one flow that share a priority look alike. */
  lemma CopiesListAlikeIff(env: Env, s: State, src: Id, name: string)
    requires Inv(env, s) && src in s.flows
    ensures Rooted(s)
    ensures (forall e: Env | Inv(e, s) :: ListsAlike(e, s, src, name)) <==> Faithful(s, src)
  {
    hide Inv, Rooted, Faithful, ListsAlike;
    InvRooted(env, s);
    if Faithful(s, src) {
      forall e: Env | Inv(e, s) ensures ListsAlike(e, s, src, name) { FaithfulListsAlike(e, s, src, name); }
    } else {
      var e := UnfaithfulCopy(env, s, src, name);
    }
  }

  /** POST /flows/{alias}/copy: the copy is new, carries the name asked for and lists as
      its source; nothing copied is built in; and every flow, row and config that was
      there stays as it was, tree and all. */
  lemma CopyFlowCopies(env: Env, s: State, source: string, newName: string, dst: Id)
    requires Inv(env, s) && DoCopyFlow(env, s, source, newName).1 == Created(dst)
    ensures s.ByAlias(source).Some? && Rooted(s)
    ensures
      var t, src := DoCopyFlow(env, s, source, newName).0, s.ByAlias(source).value;
      && Inv(env, t) && Rooted(t) && dst in t.flows && dst !in s.flows
      && Renamed(s.flows[src], t.flows[dst], newName)
      && (Faithful(s, src) ==> Lines(t, dst) == Lines(s, src))
      && NoNewBuiltIns(s, t) && t.configs == s.configs
      && (forall r | r in s.rows :: r in t.rows && t.rows[r] == s.rows[r])
      && (forall f | f in s.flows ::
            f in t.flows && t.flows[f] == s.flows[f] && ForestOf(t, f) == ForestOf(s, f) && Shape(t, f) == Shape(s, f))
  {
    hide Inv, Rooted, CopyTree, Copyable, Indexed, Shape, Faithful, Origin, Lines, ForestOf, TreeCopied,
      NoNewBuiltIns, Grown, State.ByAlias, Unmoved;
    var src := s.ByAlias(source).value;
    InvCopyable(env, s);
    CopyOrigin(env, s);
    var (t, d) := CopyTree(env, s.flows, s, src, newName);
    CopyTreeKeeps(env, s.flows, s, src, newName);
    TreeCopiedFacts(env, s, t, dst, s.flows[src].topLevel);
    CopyTreeRoot(env, s, s, src, newName);
    InvRooted(env, t);
    forall f | f in s.flows
      ensures f in t.flows && t.flows[f] == s.flows[f] && ForestOf(t, f) == ForestOf(s, f) && Shape(t, f) == Shape(s, f)
    {
      GrownFlow(env, s, t, f);
      NoIdIsNoFlow(env, s);
      GrownUnmoved(env, s, t, NO_ID, s.flows[f].ordinal);
      SameForest(s, t, f, s.flows[f].ordinal);
    }
    if Faithful(s, src) { FaithfulListsAlike(env, s, src, newName); }
  }
}
