/** What each flow handler answers and what it leaves, over the tables before and after
    (internal/admin/flows.go:570-1456). */
module FlowEffects {
  import opened Basics
  import opened Ordering
  import opened Forests
  import opened FlowModel
  import opened FlowForest
  import opened FlowTree
  import opened FlowRuns
  import opened FlowCopyTheorem

  /** Flow `f` has the alias. */
  predicate Named(s: State, f: Id, alias: string) {
    alias != "" && f in s.flows && s.flows[f].alias == Some(alias)
  }

  lemma LastListed(r: seq<Id>, s: set<Id>, key: map<Id, int>)
    requires s <= key.Keys && IsListing(r, s, key)
    ensures r == [] <==> s == {}
    ensures r != [] ==> r[|r| - 1] in s && forall g | g in s && g != r[|r| - 1] :: Before(key, g, r[|r| - 1])
  {
    if r != [] {
      assert r[|r| - 1] in r;
      forall g | g in s && g != r[|r| - 1] ensures Before(key, g, r[|r| - 1]) {
        assert g in r;
        var i :| 0 <= i < |r| && r[i] == g;
      }
    }
    if s != {} { var g :| g in s; assert g in r; }
  }

  /** An alias names the newest of the flows that have it. */
  lemma ByAliasIs(s: State, alias: string)
    ensures s.ByAlias(alias) == None <==> forall f | f in s.flows :: !Named(s, f, alias)
    ensures s.ByAlias(alias).Some? ==>
      var f := s.ByAlias(alias).value;
      Named(s, f, alias) && forall g | Named(s, g, alias) && g != f :: Before(s.Ordinals(), g, f)
  {
    var named := set f | f in s.flows && s.flows[f].alias == Some(alias);
    LastListed(Sorted(named, s.Ordinals()), named, s.Ordinals());
    hide Sorted, IsListing, Before;
    forall f ensures f in named && alias != "" <==> Named(s, f, alias) {}
  }

  /** `t` is `s` with one more row, under an identifier that named nothing. */
  ghost predicate RowAdded(s: State, t: State, id: Id, e: Row) {
    IsFresh(s, id) && t.rows == s.rows[id := e] && t.flows == s.flows && t.configs == s.configs
  }

  // ----- flows -----

  lemma CreateFlowEffect(env: Env, s: State, alias: Option<string>, provider: string, description: string,
                         topLevel: bool, builtIn: bool)
    requires Inv(env, s)
    ensures
      var (t, a) := DoCreateFlow(env, s, alias, provider, description, topLevel, builtIn);
      if alias.Some? && alias.value != "" && provider != "" && forall f | f in s.flows :: s.flows[f].alias != alias
      then
        && a.Created? && IsFresh(s, a.id) && t.flows.Keys == s.flows.Keys + {a.id}
        && t.flows[a.id] == Flow(alias, description, provider, topLevel, builtIn, t.flows[a.id].ordinal)
        && (forall f | f in s.flows :: t.flows[f] == s.flows[f] && s.flows[f].ordinal < t.flows[a.id].ordinal)
        && t.rows == s.rows && t.configs == s.configs
      else a == Conflict && t == s
  {
    NextAreFresh(env, s);
    NextOrdinalIsNewest(s);
    if alias.Some? { ByAliasIs(s, alias.value); }
    hide Inv, IsFresh, State.ByAlias, State.NextOrdinal;
    assert alias.Some? && alias.value != "" ==>
      forall f | f in s.flows :: Named(s, f, alias.value) <==> s.flows[f].alias == alias;
  }

  lemma UpdateFlowEffect(s: State, id: Id, alias: Option<string>, description: string)
    ensures
      var (t, a) := DoUpdateFlow(s, id, alias, description);
      && (a == Done <==> id in s.flows && alias.Some? && alias.value != "")
      && (a == NotFound <==> id !in s.flows) && (a != Done && a != NotFound ==> a == Conflict)
      && (a == Done ==>
            && t.flows.Keys == s.flows.Keys && t.flows[id].alias == alias && t.flows[id].description == description
            && t.flows[id] == s.flows[id].(alias := t.flows[id].alias, description := t.flows[id].description)
            && (forall f | f in s.flows && f != id :: t.flows[f] == s.flows[f]) && t == s.(flows := t.flows))
      && (a != Done ==> t == s)
  {
  }

  lemma DeleteFlowEffect(s: State, id: Id)
    ensures
      var (t, a) := DoDeleteFlow(s, id);
      && (a == Done <==> id in s.flows && !s.flows[id].builtIn) && (a == NotFound <==> id !in s.flows)
      && (a != Done && a != NotFound ==> a == BadRequest)
      && (a == Done ==>
            && t.flows.Keys == s.flows.Keys - {id} && (forall f | f in t.flows :: t.flows[f] == s.flows[f])
            && (forall r :: r in t.rows <==> r in s.rows && s.rows[r].parent != id)
            && (forall r | r in t.rows :: t.rows[r] == s.rows[r]) && t.configs == s.configs && t.next == s.next)
      && (a != Done ==> t == s)
  {
  }

  /** The copy is refused without a source or for a name in use, and only then. */
  lemma CopyFlowAnswers(env: Env, s: State, source: string, newName: string)
    requires Inv(env, s)
    ensures
      var (t, a) := DoCopyFlow(env, s, source, newName);
      && (a == NotFound <==> forall f | f in s.flows :: !Named(s, f, source))
      && (a == Conflict <==> (exists f :: Named(s, f, source)) && exists g :: Named(s, g, newName))
      && (a.Created? <==> (exists f :: Named(s, f, source)) && forall g | g in s.flows :: !Named(s, g, newName))
      && (!a.Created? ==> t == s)
  {
    ByAliasIs(s, source);
    ByAliasIs(s, newName);
    hide Inv, State.ByAlias, CopyTree;
    if s.ByAlias(source).Some? { InvCopyable(env, s); }
    assert newName == "" ==> forall g :: !Named(s, g, newName);
  }

  // ----- executions -----

  lemma CreateFlowExecutionEffect(env: Env, s: State, flowAlias: string, provider: string)
    requires Inv(env, s)
    ensures
      var (t, a) := DoCreateFlowExecution(env, s, flowAlias, provider);
      var f := s.ByAlias(flowAlias);
      if f.Some? && !s.flows[f.value].builtIn && provider in env.providers
      then a.Created? && RowAdded(s, t, a.id, Row(f.value, provider, NO_ID, NO_ID, "DISABLED", |s.RowsOf(f.value)|))
      else a == BadRequest && t == s
  {
    NextAreFresh(env, s);
    if s.ByAlias(flowAlias).Some? { ListingCounts(s, s.ByAlias(flowAlias).value); }
    hide Inv, State.ByAlias, State.Listing;
  }

  lemma ListingCounts(s: State, flow: Id)
    ensures |s.Listing(flow)| == |s.RowsOf(flow)|
  {
    ListingLists(s, flow);
    ListedMembers(s.Listing(flow), s.RowsOf(flow), s.Priorities());
  }

  lemma CreateSubFlowEffect(env: Env, s: State, flowAlias: string, subAlias: string, kind: string, description: string,
                            provider: string)
    requires Inv(env, s)
    ensures
      var (t, a) := DoCreateSubFlow(env, s, flowAlias, subAlias, kind, description, provider);
      var f := s.ByAlias(flowAlias);
      && (a == ServerError <==> kind == "")
      && (a == BadRequest <==> kind != "" && (f == None || s.flows[f.value].builtIn))
      && (a == Conflict <==> kind != "" && f.Some? && !s.flows[f.value].builtIn && exists g :: Named(s, g, subAlias))
      && (a.Created? <==> kind != "" && f.Some? && !s.flows[f.value].builtIn
                          && forall g | g in s.flows :: !Named(s, g, subAlias))
      && (!a.Created? ==> t == s)
      && (a.Created? ==> SubFlowAdded(s, t, a.id, env.ids(s.next + 1), f.value, subAlias, kind, description, provider))
  {
    hide *;
    ByAliasIs(s, subAlias);
    var (t, a) := DoCreateSubFlow(env, s, flowAlias, subAlias, kind, description, provider);
    SubFlowAnswers(env, s, flowAlias, subAlias, kind, description, provider);
    if a.Created? {
      SubFlowStores(env, s, flowAlias, subAlias, kind, description, provider);
      NextAreFresh(env, s);
      DrawsDiffer(env, s);
      NextOrdinalIsNewest(s);
      SubFlowIsAdded(env, s, t, s.ByAlias(flowAlias).value, subAlias, kind, description, provider);
    }
    NobodyNamed(s, subAlias);
  }

  lemma NobodyNamed(s: State, alias: string)
    ensures (exists g :: Named(s, g, alias)) <==> !(forall g | g in s.flows :: !Named(s, g, alias))
    ensures alias == "" ==> forall g :: !Named(s, g, alias)
  {
  }

  lemma DrawsDiffer(env: Env, s: State)
    requires Inv(env, s)
    ensures env.ids(s.next) != env.ids(s.next + 1)
  {
    hide IsFresh;
  }

  lemma SubFlowAnswers(env: Env, s: State, flowAlias: string, subAlias: string, kind: string, description: string,
                       provider: string)
    ensures
      var (t, a) := DoCreateSubFlow(env, s, flowAlias, subAlias, kind, description, provider);
      var f := s.ByAlias(flowAlias);
      && (f.Some? ==> f.value in s.flows)
      && a == (if kind == "" then ServerError
               else if f == None || s.flows[f.value].builtIn then BadRequest
               else if subAlias != "" && s.ByAlias(subAlias).Some? then Conflict
               else Created(env.ids(s.next)))
      && (!a.Created? ==> t == s)
  {
    hide State.ByAlias, State.Listing, State.NextOrdinal;
  }

  lemma SubFlowStores(env: Env, s: State, flowAlias: string, subAlias: string, kind: string, description: string,
                      provider: string)
    requires DoCreateSubFlow(env, s, flowAlias, subAlias, kind, description, provider).1.Created?
    ensures s.ByAlias(flowAlias).Some?
    ensures
      var t := DoCreateSubFlow(env, s, flowAlias, subAlias, kind, description, provider).0;
      var parent := s.ByAlias(flowAlias).value;
      t == State(s.flows[env.ids(s.next) := Flow(AliasFor(subAlias), description, kind, false, false, s.NextOrdinal())],
                 s.rows[env.ids(s.next + 1) :=
                         Row(parent, provider, env.ids(s.next), NO_ID, "DISABLED", |s.RowsOf(parent)|)],
                 s.configs, s.next + 2)
  {
    var s1 := AddFlow(env, s, Flow(AliasFor(subAlias), description, kind, false, false, 0)).0;
    if s.ByAlias(flowAlias).Some? {
      var f := s.ByAlias(flowAlias).value;
      ListingCounts(s1, f);
      assert s1.RowsOf(f) == s.RowsOf(f);
    }
    hide State.ByAlias, State.Listing, State.NextOrdinal, State.RowsOf;
  }

  lemma SubFlowIsAdded(env: Env, s: State, t: State, parent: Id, alias: string, kind: string, description: string,
                       provider: string)
    requires IsFresh(s, env.ids(s.next)) && IsFresh(s, env.ids(s.next + 1)) && env.ids(s.next) != env.ids(s.next + 1)
    requires forall f | f in s.flows :: s.flows[f].ordinal < s.NextOrdinal()
    requires t == State(s.flows[env.ids(s.next) :=
                                  Flow(AliasFor(alias), description, kind, false, false, s.NextOrdinal())],
                        s.rows[env.ids(s.next + 1) := Row(parent, provider, env.ids(s.next), NO_ID, "DISABLED",
                                                          |s.RowsOf(parent)|)],
                        s.configs, s.next + 2)
    ensures SubFlowAdded(s, t, env.ids(s.next), env.ids(s.next + 1), parent, alias, kind, description, provider)
  {
    hide State.NextOrdinal, State.RowsOf;
  }

  /** One more flow, newest and empty, and one row of `parent` that points at it. */
  ghost predicate SubFlowAdded(s: State, t: State, sub: Id, row: Id, parent: Id, alias: string, kind: string,
                               description: string, provider: string)
  {
    && IsFresh(s, sub) && IsFresh(s, row) && sub != row
    && t.flows.Keys == s.flows.Keys + {sub} && (forall g | g in s.flows :: t.flows[g] == s.flows[g])
    && t.flows[sub]
       == Flow(if alias == "" then None else Some(alias), description, kind, false, false, t.flows[sub].ordinal)
    && (forall g | g in s.flows :: s.flows[g].ordinal < t.flows[sub].ordinal)
    && t.rows == s.rows[row := Row(parent, provider, sub, NO_ID, "DISABLED", |s.RowsOf(parent)|)]
    && t.configs == s.configs
  }

  lemma CreateExecutionEffect(env: Env, s: State, parent: Id, authenticator: string, requirement: string, priority: int)
    requires Inv(env, s)
    ensures
      var (t, a) := DoCreateExecution(env, s, parent, authenticator, requirement, priority);
      if parent in s.flows && !s.flows[parent].builtIn && authenticator in env.providers
      then
        var known := requirement in {"REQUIRED", "ALTERNATIVE", "DISABLED", "CONDITIONAL"};
        && a.Created?
        && RowAdded(s, t, a.id,
                    Row(parent, authenticator, NO_ID, NO_ID, if known then requirement else "DISABLED", priority))
      else a == BadRequest && t == s
  {
    NextAreFresh(env, s);
    hide Inv;
  }

  lemma DeleteExecutionEffect(env: Env, s: State, row: Id)
    requires Inv(env, s)
    ensures
      var (t, a) := DoDeleteExecution(s, row);
      && (a == NotFound <==> row !in s.rows)
      && (a == BadRequest <==> row in s.rows && s.flows[s.rows[row].parent].builtIn)
      && (a == Done <==> row in s.rows && !s.flows[s.rows[row].parent].builtIn)
      && (a == Done ==>
            && t.rows.Keys == s.rows.Keys - {row} && (forall r | r in t.rows :: t.rows[r] == s.rows[r])
            && t == s.(rows := t.rows))
      && (a != Done ==> t == s)
  {
    if row in s.rows { assert RowLive(s.flows, s.configs, s.rows[row]); }
  }

  lemma MovePriorityAnswers(env: Env, s: State, row: Id, up: bool)
    requires Inv(env, s)
    ensures
      var (t, a) := DoMovePriority(s, row, up);
      && (a == NotFound <==> row !in s.rows)
      && (a == BadRequest <==> row in s.rows && s.flows[s.rows[row].parent].builtIn)
      && (a == Done <==> row in s.rows && !s.flows[s.rows[row].parent].builtIn)
      && (a != Done ==> t == s)
  {
    if row in s.rows { assert RowLive(s.flows, s.configs, s.rows[row]); }
    hide Inv, State.Listing;
  }

  // ----- a requirement -----

  /** `t` is `s` with one row's requirement replaced. */
  ghost predicate Required(s: State, t: State, row: Id, requirement: string) {
    && row in s.rows && t.rows.Keys == s.rows.Keys && t.rows[row].requirement == requirement
    && t.rows[row] == s.rows[row].(requirement := t.rows[row].requirement)
    && (forall r | r in s.rows && r != row :: t.rows[r] == s.rows[r])
    && t.flows == s.flows && t.configs == s.configs && t.next == s.next
  }

  lemma UpdateRequirementEffect(s: State, flowAlias: string, row: Id, requirement: string)
    ensures
      var (t, a) := DoUpdateRequirement(s, flowAlias, row, requirement);
      var known := requirement in {"REQUIRED", "ALTERNATIVE", "DISABLED", "CONDITIONAL"};
      && (a == Done <==> (exists f :: Named(s, f, flowAlias)) && row in s.rows && known)
      && (a == NotFound <==> (forall f | f in s.flows :: !Named(s, f, flowAlias)) || row !in s.rows)
      && (a == ServerError <==> (exists f :: Named(s, f, flowAlias)) && row in s.rows && !known)
      && (a == Done ==> Required(s, t, row, requirement)) && (a != Done ==> t == s)
  {
    ByAliasIs(s, flowAlias);
    hide State.ByAlias;
  }

  /** A requirement is no part of the tree. */
  lemma {:induction false} RequiredForest(s: State, t: State, row: Id, requirement: string, flow: Id)
    requires Rooted(s) && Rooted(t) && Required(s, t, row, requirement) && flow in s.flows
    ensures ForestOf(t, flow) == ForestOf(s, flow)
    decreases Above(s.flows, s.flows[flow].ordinal), 1, 0
  {
    RequiredListing(s, t, row, requirement, flow);
    ListedIn(s, flow);
    ListedIn(t, flow);
    RequiredSiblings(s, t, row, requirement, flow, s.Listing(flow));
  }

  lemma RequiredListing(s: State, t: State, row: Id, requirement: string, flow: Id)
    requires Required(s, t, row, requirement)
    ensures t.Listing(flow) == s.Listing(flow)
  {
    assert t.RowsOf(flow) == s.RowsOf(flow);
    SortedAgrees(s.RowsOf(flow), s.Priorities(), t.Priorities());
  }

  lemma {:induction false} RequiredSiblings(s: State, t: State, row: Id, requirement: string, flow: Id, ids: seq<Id>)
    requires Rooted(s) && Rooted(t) && Required(s, t, row, requirement) && flow in s.flows
    requires forall r | r in ids :: RowIn(s, flow, r)
    ensures forall r | r in ids :: RowIn(t, flow, r)
    ensures Siblings(t, flow, ids) == Siblings(s, flow, ids)
    decreases Above(s.flows, s.flows[flow].ordinal), 0, |ids| + 1
  {
    assert forall r | r in ids :: RowIn(s, flow, r) && RowIn(t, flow, r);
    if ids != [] {
      var r := ids[0];
      assert RowIn(s, flow, r);
      RequiredUnder(s, t, row, requirement, flow, r);
      RequiredSiblings(s, t, row, requirement, flow, ids[1..]);
    }
  }

  lemma {:induction false} RequiredUnder(s: State, t: State, row: Id, requirement: string, flow: Id, r: Id)
    requires Rooted(s) && Rooted(t) && Required(s, t, row, requirement) && flow in s.flows && RowIn(s, flow, r)
    ensures RowIn(t, flow, r) && Under(t, flow, r) == Under(s, flow, r)
    decreases Above(s.flows, s.flows[flow].ordinal), 0, 0
  {
    if Live(s, r) {
      LinkIsDeeper(s, r);
      RequiredForest(s, t, row, requirement, s.rows[r].flow);
    }
  }

  /** The listing of every flow then shows the requirement sent on that row's line, and
      is otherwise as it was. */
  lemma RequiredLines(s: State, t: State, row: Id, requirement: string, flow: Id)
    requires Rooted(s) && Rooted(t) && Required(s, t, row, requirement) && flow in s.flows
    ensures
      var walked := Flatten(ForestOf(s, flow), 0, 0);
      && |Lines(t, flow)| == |Lines(s, flow)| == |walked|
      && forall k | 0 <= k < |walked| ::
           var was, now := Lines(s, flow)[k], Lines(t, flow)[k];
           && now.level == was.level && now.index == was.index
           && now.item == if walked[k].item == row then was.item.(requirement := requirement) else was.item
  {
    RequiredForest(s, t, row, requirement, flow);
    forall r ensures InfoOf(t, r) == if r == row then InfoOf(s, r).(requirement := requirement) else InfoOf(s, r) {}
    hide ForestOf, Flatten, InfoOf;
  }

  // ----- configs -----

  lemma CreateExecutionConfigAnswers(env: Env, s: State, row: Id, config: Config)
    ensures
      var (t, a) := DoCreateExecutionConfig(env, s, row, config);
      (a.Created? <==> row in s.rows) && (!a.Created? ==> a == NotFound && t == s)
  {
  }

  lemma ConfigEffects(env: Env, s: State, id: Id, config: Config)
    requires Inv(env, s)
    ensures
      var (t, a) := DoCreateConfig(env, s, config);
      && a.Created? && IsFresh(s, a.id) && t.configs == s.configs[a.id := config]
      && t.flows == s.flows && t.rows == s.rows
    ensures
      var (t, a) := DoUpdateConfig(s, id, config);
      && (a == if id in s.configs then Done else NotFound) && (a == NotFound ==> t == s)
      && (a == Done ==> t.configs == s.configs[id := config] && t == s.(configs := t.configs))
    ensures
      var (t, a) := DoDeleteConfig(s, id);
      && (a == if id in s.configs then Done else NotFound) && (a == NotFound ==> t == s)
      && (a == Done ==>
            && t.configs.Keys == s.configs.Keys - {id} && (forall c | c in t.configs :: t.configs[c] == s.configs[c])
            && t.flows == s.flows && t.rows.Keys == s.rows.Keys
            && forall r | r in s.rows ::
                 t.rows[r] == s.rows[r].(config := if s.rows[r].config == id then NO_ID else s.rows[r].config))
  {
    NextAreFresh(env, s);
    hide Inv, IsFresh;
  }
}
