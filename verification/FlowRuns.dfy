/** What every run of the flow handlers keeps. */
module FlowRuns {
  import opened Basics
  import opened Ordering
  import opened FlowModel
  import opened FlowForest

  // ----- each handler keeps the invariant -----

  /** Changing or dropping flows' names and dropping flows with their rows. */
  lemma FlowWritesKeep(env: Env, s: State, t: State)
    requires Inv(env, s) && t.configs == s.configs && t.next == s.next
    requires t.flows.Keys <= s.flows.Keys && t.rows.Keys <= s.rows.Keys
    requires forall f | f in t.flows ::
      t.flows[f].ordinal == s.flows[f].ordinal && t.flows[f].topLevel == s.flows[f].topLevel
    requires forall r | r in t.rows :: t.rows[r] == s.rows[r] && t.rows[r].parent in t.flows
    ensures Inv(env, t)
  {
    forall k: nat | k >= t.next ensures IsFresh(t, env.ids(k)) { assert IsFresh(s, env.ids(k)); }
    forall r | r in t.rows ensures LinkAscends(t.flows, t.rows[r]) && RowLive(t.flows, t.configs, t.rows[r]) {
      assert LinkAscends(s.flows, s.rows[r]) && RowLive(s.flows, s.configs, s.rows[r]);
    }
  }

  /** Changing a row's requirement, priority or (live) config pointer. */
  predicate SameLinks(a: Row, b: Row) {
    a.parent == b.parent && a.authenticator == b.authenticator && a.flow == b.flow
  }

  lemma RowWritesKeep(env: Env, s: State, t: State)
    requires Inv(env, s) && t.flows == s.flows && t.rows.Keys == s.rows.Keys && t.next >= s.next
    requires forall r | r in t.rows :: SameLinks(t.rows[r], s.rows[r])
    requires forall r | r in t.rows :: t.rows[r].config == NO_ID || t.rows[r].config in t.configs
    requires forall c | c in t.configs && c !in s.configs ::
      c != NO_ID && forall k: nat | k >= t.next :: env.ids(k) != c
    ensures Inv(env, t)
  {
    assert forall r | r in t.rows :: SameLinks(t.rows[r], s.rows[r]) && r in s.rows;
    forall k: nat | k >= t.next ensures IsFresh(t, env.ids(k)) { assert IsFresh(s, env.ids(k)); }
    forall r | r in t.rows ensures LinkAscends(t.flows, t.rows[r]) && RowLive(t.flows, t.configs, t.rows[r]) {
      assert LinkAscends(s.flows, s.rows[r]) && RowLive(s.flows, s.configs, s.rows[r]);
    }
    forall a, b | a in t.rows && b in t.rows && a != b
      ensures t.rows[a].flow == NO_ID || t.rows[a].flow != t.rows[b].flow
    {
      assert SameLinks(t.rows[a], s.rows[a]) && SameLinks(t.rows[b], s.rows[b]);
    }
  }

  /** One more row, linked to nothing or to a flow nothing points at. */
  lemma NewRowKeeps(env: Env, s: State, e: Row)
    requires Inv(env, s) && e.parent in s.flows && e.config == NO_ID
    requires e.flow == NO_ID || (Unlinked(s, e.flow) && e.flow in s.flows && !s.flows[e.flow].topLevel
                                 && s.flows[e.parent].ordinal < s.flows[e.flow].ordinal)
    ensures Inv(env, AddRow(env, s, e).0)
  {
    DrawKeeps(env, s);
    StoreRowKeeps(env, s.(next := s.next + 1), env.ids(s.next), e);
  }

  lemma CopyFlowKeeps(env: Env, s: State, src: Id, name: string)
    requires Inv(env, s) && src in s.flows
    ensures Copyable(env, s.flows, s)
    ensures TreeCopied(env, s, CopyTree(env, s.flows, s, src, name).0, CopyTree(env, s.flows, s, src, name).1,
      s.flows[src].topLevel)
  {
    InvCopyable(env, s);
    hide *;
    CopyTreeKeeps(env, s.flows, s, src, name);
  }

  lemma SubFlowKeeps(env: Env, s: State, flowAlias: string, subAlias: string, kind: string, description: string,
    provider: string)
    requires Inv(env, s)
    ensures Inv(env, DoCreateSubFlow(env, s, flowAlias, subAlias, kind, description, provider).0)
  {
    var f := s.ByAlias(flowAlias);
    if f.Some? && !s.flows[f.value].builtIn && kind != "" && (subAlias == "" || s.ByAlias(subAlias) == None) {
      var sub := Flow(AliasFor(subAlias), description, kind, false, false, 0);
      AddFlowKeeps(env, s, sub);
      var (s1, id) := AddFlow(env, s, sub);
      NewRowKeeps(env, s1, Row(f.value, provider, id, NO_ID, "DISABLED", |s1.Listing(f.value)|));
    }
  }

  lemma AddConfigKeeps(env: Env, s: State, c: Config)
    requires Inv(env, s)
    ensures Inv(env, AddConfig(env, s, c).0) && IsFresh(s, env.ids(s.next))
  {
    assert IsFresh(s, env.ids(s.next));
    assert forall r | r in s.rows :: SameLinks(s.rows[r], s.rows[r]) && RowLive(s.flows, s.configs, s.rows[r]);
    RowWritesKeep(env, s, AddConfig(env, s, c).0);
  }

  lemma DropConfigKeeps(env: Env, s: State, config: Id)
    requires Inv(env, s)
    ensures Inv(env, DropConfig(s, config))
  {
    var t := DropConfig(s, config);
    forall r | r in t.rows ensures SameLinks(t.rows[r], s.rows[r]) && RowLive(t.flows, t.configs, t.rows[r]) {
      assert RowLive(s.flows, s.configs, s.rows[r]);
    }
    assert forall r | r in t.rows :: RowLive(t.flows, t.configs, t.rows[r]);
    RowWritesKeep(env, s, t);
  }

  lemma WriteRowKeeps(env: Env, s: State, row: Id, e: Row)
    requires Inv(env, s) && row in s.rows && SameLinks(e, s.rows[row])
    requires e.config == NO_ID || e.config in s.configs
    ensures Inv(env, s.(rows := s.rows[row := e]))
  {
    var t := s.(rows := s.rows[row := e]);
    forall r | r in t.rows ensures SameLinks(t.rows[r], s.rows[r]) && RowLive(t.flows, t.configs, t.rows[r]) {
      assert RowLive(s.flows, s.configs, s.rows[r]);
    }
    assert forall r | r in t.rows :: RowLive(t.flows, t.configs, t.rows[r]);
    RowWritesKeep(env, s, t);
  }

  lemma ExecutionConfigKeeps(env: Env, s: State, row: Id, config: Config)
    requires Inv(env, s)
    ensures Inv(env, DoCreateExecutionConfig(env, s, row, config).0)
  {
    if row in s.rows {
      var (s1, id) := AddConfig(env, s, config);
      AddConfigKeeps(env, s, config);
      var s2 := s1.(rows := s1.rows[row := s1.rows[row].(config := id)]);
      WriteRowKeeps(env, s1, row, s1.rows[row].(config := id));
      DropConfigKeeps(env, s2, s.rows[row].config);
    }
  }

  /** A row's config exists, and the next identifier is none of the configs. */
  lemma RowConfig(env: Env, s: State, row: Id)
    requires Inv(env, s) && row in s.rows
    ensures s.rows[row].config == NO_ID || s.rows[row].config in s.configs
    ensures env.ids(s.next) !in s.configs && env.ids(s.next) != NO_ID && NO_ID !in s.configs
  {
    assert IsFresh(s, env.ids(s.next)) && RowLive(s.flows, s.configs, s.rows[row]);
  }

  lemma UpsertedConfigs(env: Env, s: State, row: Id, config: Config)
    requires row in s.rows
    ensures
      var (t, a) := DoCreateExecutionConfig(env, s, row, config);
      var previous, added := s.rows[row].config, s.configs[env.ids(s.next) := config];
      a == Created(env.ids(s.next)) && t.configs == if previous != NO_ID
        && previous in added then added - {previous} else added
  {
  }

  /** The upsert behind POST .../config: the row points at the new config and
      the one it replaces is gone, so the number of configs grows by one when the
      row had none and not at all otherwise. */
  lemma ExecutionConfigUpsert(env: Env, s: State, row: Id, config: Config)
    requires Inv(env, s) && row in s.rows
    ensures
      var (t, a) := DoCreateExecutionConfig(env, s, row, config);
      && a.Created? && a.id !in s.configs && t.configs.Keys == s.configs.Keys + {a.id} - {s.rows[row].config}
      && t.configs[a.id] == config && (forall c | c in t.configs && c != a.id :: t.configs[c] == s.configs[c])
      && |t.configs| == |s.configs| + (if s.rows[row].config == NO_ID then 1 else 0)
  {
    hide Inv, DoCreateExecutionConfig;
    RowConfig(env, s, row);
    UpsertedConfigs(env, s, row, config);
    ReplaceOne(s.configs, env.ids(s.next), config, s.rows[row].config);
  }

  /** Its effect on the rows: the target is repointed, every other row that
      shared the replaced config is cleared, and the rest are untouched. */
  lemma ExecutionConfigRows(env: Env, s: State, row: Id, config: Config, r: Id)
    requires Inv(env, s) && row in s.rows && r in s.rows
    ensures
      var (t, a) := DoCreateExecutionConfig(env, s, row, config);
      && t.rows.Keys == s.rows.Keys && t.flows == s.flows
      && t.rows[r] == s.rows[r].(config :=
           if r == row then a.id
           else if s.rows[r].config == s.rows[row].config then NO_ID
           else s.rows[r].config)
  {
    hide Inv;
    RowConfig(env, s, row);
    RowConfig(env, s, r);
  }

  /** One key in and, unless there was none, one key out. */
  lemma ReplaceOne(configs: map<Id, Config>, id: Id, c: Config, previous: Id)
    requires id !in configs && NO_ID !in configs && id != NO_ID && (previous == NO_ID || previous in configs)
    ensures
      var added := configs[id := c];
      var t := if previous != NO_ID && previous in added then added - {previous} else added;
      && t.Keys == configs.Keys + {id} - {previous} && id in t && t[id] == c
      && (forall x | x in t && x != id :: x in configs && t[x] == configs[x])
      && |t| == |configs| + (if previous == NO_ID then 1 else 0)
  {
    var added := configs[id := c];
    assert added.Keys == configs.Keys + {id} && |added| == |added.Keys|;
    if previous != NO_ID {
      var t := added - {previous};
      assert t.Keys == added.Keys - {previous} && |t| == |t.Keys|;
    }
  }

  lemma InvCopyable(env: Env, s: State)
    requires Inv(env, s)
    ensures Copyable(env, s.flows, s) && Indexed(s.flows, s)
  {
    forall r | r in s.rows ensures Descends(s.flows, s.rows[r]) { assert LinkAscends(s.flows, s.rows[r]); }
    forall k: nat | k >= s.next ensures env.ids(k) !in s.flows { assert IsFresh(s, env.ids(k)); }
  }

  lemma ListedRow(s: State, flow: Id, i: nat)
    requires i < |s.Listing(flow)|
    ensures s.Listing(flow)[i] in s.rows && s.rows[s.Listing(flow)[i]].parent == flow
  {
    assert s.Listing(flow)[i] in s.RowsOf(flow);
  }

  /** A swap exchanges the priorities of two rows of one flow that is not built
      in; otherwise the request changes nothing. */
  lemma MovePrioritySwaps(s: State, row: Id, up: bool)
    ensures
      var t := DoMovePriority(s, row, up).0;
      t == s || exists other ::
        && row in s.rows && other in s.rows && s.rows[other].parent == s.rows[row].parent
        && Editable(s, row) && t == SwapPriorities(s, row, other)
  {
    if row in s.rows && Editable(s, row) {
      var siblings := s.Listing(s.rows[row].parent);
      var at := IndexOf(siblings, row);
      var other := if up then at - 1 else at + 1;
      if !(at < 0 || other < 0 || other >= |siblings|) {
        ListedRow(s, s.rows[row].parent, other);
        hide State.Listing;
        assert DoMovePriority(s, row, up).0 == SwapPriorities(s, row, siblings[other]);
      }
    }
  }

  lemma MovePriorityKeeps(env: Env, s: State, row: Id, up: bool)
    requires Inv(env, s)
    ensures Inv(env, DoMovePriority(s, row, up).0)
  {
    hide DoMovePriority;
    MovePrioritySwaps(s, row, up);
    var t := DoMovePriority(s, row, up).0;
    if t != s {
      var other :| row in s.rows && other in s.rows && t == SwapPriorities(s, row, other);
      assert forall r | r in s.rows :: RowLive(s.flows, s.configs, s.rows[r]);
      RowWritesKeep(env, s, t);
    }
  }

  lemma FlowHandlersKeep(env: Env, s: State, op: Op)
    requires Inv(env, s) && (op.CreateFlow? || op.UpdateFlow? || op.DeleteFlow?)
    ensures Inv(env, Step(env, s, op).0)
  {
    assert forall r | r in s.rows :: RowLive(s.flows, s.configs, s.rows[r]);
    if op.CreateFlow? {
      hide Inv, AddFlow, State.ByAlias;
      if op.alias.Some? {
        AddFlowKeeps(env, s, Flow(op.alias, op.description, op.provider, op.topLevel, op.builtIn, 0));
      }
    } else {
      var t := Step(env, s, op).0;
      assert forall f | f in t.flows ::
        f in s.flows && t.flows[f].ordinal == s.flows[f].ordinal && t.flows[f].topLevel == s.flows[f].topLevel;
      hide Step;
      FlowWritesKeep(env, s, t);
    }
  }

  lemma CopyHandlerKeeps(env: Env, s: State, source: string, newName: string)
    requires Inv(env, s)
    ensures Inv(env, DoCopyFlow(env, s, source, newName).0)
  {
    var src := s.ByAlias(source);
    if src.Some? {
      CopyFlowKeeps(env, s, src.value, newName);
      assert Inv(env, CopyTree(env, s.flows, s, src.value, newName).0);
    }
  }

  lemma RowHandlersKeep(env: Env, s: State, op: Op)
    requires Inv(env, s) && (op.UpdateRequirement? || op.CreateFlowExecution? || op.CreateExecution?
      || op.DeleteExecution?)
    ensures Inv(env, Step(env, s, op).0)
  {
    assert forall r | r in s.rows :: RowLive(s.flows, s.configs, s.rows[r]);
    match op
    case UpdateRequirement(flowAlias, row, requirement) =>
      if row in s.rows { WriteRowKeeps(env, s, row, s.rows[row].(requirement := requirement)); }
    case CreateFlowExecution(flowAlias, provider) =>
      var f := s.ByAlias(flowAlias);
      if f.Some? { NewRowKeeps(env, s, Row(f.value, provider, NO_ID, NO_ID, "DISABLED", |s.Listing(f.value)|)); }
    case CreateExecution(parent, authenticator, requirement, priority) =>
      if parent in s.flows {
        var r := if ValidRequirement(requirement) then requirement else "DISABLED";
        NewRowKeeps(env, s, Row(parent, authenticator, NO_ID, NO_ID, r, priority));
      }
    case DeleteExecution(row) =>
      FlowWritesKeep(env, s, Step(env, s, op).0);
  }

  lemma UpdateConfigKeeps(env: Env, s: State, id: Id, config: Config)
    requires Inv(env, s)
    ensures Inv(env, DoUpdateConfig(s, id, config).0)
  {
    assert forall r | r in s.rows :: SameLinks(s.rows[r], s.rows[r]) && RowLive(s.flows, s.configs, s.rows[r]);
    RowWritesKeep(env, s, DoUpdateConfig(s, id, config).0);
  }

  lemma StepKeeps(env: Env, s: State, op: Op)
    requires Inv(env, s)
    ensures Inv(env, Step(env, s, op).0)
  {
    hide Inv, DoCopyFlow, DoCreateSubFlow, DoCreateExecutionConfig, DoMovePriority;
    match op
    case CopyFlow(source, newName) => CopyHandlerKeeps(env, s, source, newName);
    case CreateSubFlow(flowAlias, subAlias, kind, description, provider) =>
      SubFlowKeeps(env, s, flowAlias, subAlias, kind, description, provider);
    case MovePriority(row, up) => MovePriorityKeeps(env, s, row, up);
    case CreateExecutionConfig(row, config) => ExecutionConfigKeeps(env, s, row, config);
    case CreateConfig(config) => AddConfigKeeps(env, s, config);
    case UpdateConfig(id, config) => UpdateConfigKeeps(env, s, id, config);
    case DeleteConfig(id) => DropConfigKeeps(env, s, id);
    case _ =>
      if op.CreateFlow? || op.UpdateFlow? || op.DeleteFlow? {
        FlowHandlersKeep(env, s, op);
      } else {
        RowHandlersKeep(env, s, op);
      }
  }

  /** The tables of a realm with no flow. */
  const EMPTY := State(map[], map[], map[], 0)

  /** They satisfy the invariant, so every run from them does. */
  lemma EmptyStarts(env: Env)
    requires ValidEnv(env)
    ensures Inv(env, EMPTY) <==> forall k: nat :: env.ids(k) != NO_ID
  {
    if forall k: nat :: env.ids(k) != NO_ID {
      forall k: nat ensures IsFresh(EMPTY, env.ids(k)) {}
    } else {
      var k: nat :| env.ids(k) == NO_ID;
      assert !IsFresh(EMPTY, env.ids(k));
    }
  }

  /** Everything a run of handlers leads to. */
  function Run(env: Env, s: State, ops: seq<Op>): (t: State)
    requires Inv(env, s)
    ensures Inv(env, t)
    decreases |ops|
  {
    if ops == [] then s
    else
      StepKeeps(env, s, ops[0]);
      Run(env, Step(env, s, ops[0]).0, ops[1..])
  }

  // ----- a built-in flow is frozen -----

  /** The parts of a row that nothing may change once its flow is built in. */
  predicate SameStructure(a: Row, b: Row) {
    SameLinks(a, b) && a.priority == b.priority
  }

  /** The flow survives, stays built in, and keeps exactly its rows. */
  ghost predicate FrozenFlow(s: State, t: State, f: Id) {
    && f in t.flows && t.flows[f].builtIn
    && (forall r | r in s.rows && s.rows[r].parent == f :: r in t.rows && SameStructure(t.rows[r], s.rows[r]))
    && (forall r | r in t.rows && t.rows[r].parent == f :: r in s.rows && s.rows[r].parent == f)
  }

  lemma CopyFreezes(env: Env, s: State, t: State, dst: Id, topLevel: bool, f: Id)
    requires TreeCopied(env, s, t, dst, topLevel) && NO_ID !in s.flows && f in s.flows && s.flows[f].builtIn
    ensures FrozenFlow(s, t, f)
  {
  }

  /** Nothing was added to or taken from the flow's rows, and what was rewritten
      kept its structure. */
  lemma RewriteFreezes(s: State, t: State, f: Id)
    requires f in s.flows && s.flows[f].builtIn && f in t.flows && t.flows[f].builtIn
    requires forall r | r in s.rows && s.rows[r].parent == f :: r in t.rows && SameStructure(t.rows[r], s.rows[r])
    requires forall r | r in t.rows && r !in s.rows :: t.rows[r].parent != f
    requires forall r | r in t.rows && r in s.rows :: t.rows[r].parent == s.rows[r].parent
    ensures FrozenFlow(s, t, f)
  {
  }

  lemma MovePriorityFreezes(s: State, row: Id, up: bool, f: Id)
    requires f in s.flows && s.flows[f].builtIn
    ensures FrozenFlow(s, DoMovePriority(s, row, up).0, f)
  {
    hide DoMovePriority;
    MovePrioritySwaps(s, row, up);
  }

  lemma CopyHandlerFreezes(env: Env, s: State, source: string, newName: string, f: Id)
    requires Inv(env, s) && f in s.flows && s.flows[f].builtIn
    ensures FrozenFlow(s, DoCopyFlow(env, s, source, newName).0, f)
  {
    hide Inv, CopyTree, TreeCopied, FrozenFlow, Copyable;
    UnchangedFreezes(s, f);
    var src := s.ByAlias(source);
    if src.Some? {
      CopyFlowKeeps(env, s, src.value, newName);
      NextAreFresh(env, s);
      var r := CopyTree(env, s.flows, s, src.value, newName);
      CopyFreezes(env, s, r.0, r.1, s.flows[src.value].topLevel, f);
    }
  }

  lemma UnchangedFreezes(s: State, f: Id)
    requires f in s.flows && s.flows[f].builtIn
    ensures FrozenFlow(s, s, f)
  {
  }

  /** The next identifiers name nothing yet. */
  lemma NextAreFresh(env: Env, s: State)
    requires Inv(env, s)
    ensures IsFresh(s, env.ids(s.next)) && IsFresh(s, env.ids(s.next + 1)) && NO_ID !in s.flows
  {
  }

  lemma FlowHandlersFreeze(env: Env, s: State, op: Op, f: Id)
    requires Inv(env, s) && f in s.flows && s.flows[f].builtIn
    requires op.CreateFlow? || op.UpdateFlow? || op.DeleteFlow? || op.CreateSubFlow?
    ensures FrozenFlow(s, Step(env, s, op).0, f)
  {
    hide State.Listing, State.NextOrdinal, Inv, FrozenFlow, DoCopyFlow;
    NextAreFresh(env, s);
    RewriteFreezes(s, Step(env, s, op).0, f);
  }

  lemma RowHandlersFreeze(env: Env, s: State, op: Op, f: Id)
    requires Inv(env, s) && f in s.flows && s.flows[f].builtIn
    requires op.UpdateRequirement? || op.CreateFlowExecution? || op.CreateExecution? || op.DeleteExecution?
    ensures FrozenFlow(s, Step(env, s, op).0, f)
  {
    hide State.Listing, Inv, FrozenFlow, DoCopyFlow;
    NextAreFresh(env, s);
    RewriteFreezes(s, Step(env, s, op).0, f);
  }

  lemma ConfigHandlersFreeze(env: Env, s: State, op: Op, f: Id)
    requires Inv(env, s) && f in s.flows && s.flows[f].builtIn
    requires op.CreateExecutionConfig? || op.CreateConfig? || op.UpdateConfig? || op.DeleteConfig?
    ensures FrozenFlow(s, Step(env, s, op).0, f)
  {
    var t := Step(env, s, op).0;
    hide Inv;
    RewriteFreezes(s, t, f);
  }

  lemma StepFreezes(env: Env, s: State, op: Op, f: Id)
    requires Inv(env, s) && f in s.flows && s.flows[f].builtIn
    ensures FrozenFlow(s, Step(env, s, op).0, f)
  {
    hide *;
    match op
    case CopyFlow(source, newName) =>
      assert Step(env, s, op) == DoCopyFlow(env, s, source, newName) by { StepCopy(env, s, source, newName); }
      CopyHandlerFreezes(env, s, source, newName, f);
    case MovePriority(row, up) =>
      assert Step(env, s, op) == DoMovePriority(s, row, up) by { StepMove(env, s, row, up); }
      MovePriorityFreezes(s, row, up, f);
    case CreateFlow(_, _, _, _, _) => FlowHandlersFreeze(env, s, op, f);
    case UpdateFlow(_, _, _) => FlowHandlersFreeze(env, s, op, f);
    case DeleteFlow(_) => FlowHandlersFreeze(env, s, op, f);
    case CreateSubFlow(_, _, _, _, _) => FlowHandlersFreeze(env, s, op, f);
    case UpdateRequirement(_, _, _) => RowHandlersFreeze(env, s, op, f);
    case CreateFlowExecution(_, _) => RowHandlersFreeze(env, s, op, f);
    case CreateExecution(_, _, _, _) => RowHandlersFreeze(env, s, op, f);
    case DeleteExecution(_) => RowHandlersFreeze(env, s, op, f);
    case _ => ConfigHandlersFreeze(env, s, op, f);
  }

  lemma StepCopy(env: Env, s: State, source: string, newName: string)
    requires Inv(env, s)
    ensures Step(env, s, CopyFlow(source, newName)) == DoCopyFlow(env, s, source, newName)
  {
  }

  lemma StepMove(env: Env, s: State, row: Id, up: bool)
    requires Inv(env, s)
    ensures Step(env, s, MovePriority(row, up)) == DoMovePriority(s, row, up)
  {
  }

  lemma {:induction false} RunFreezes(env: Env, s: State, ops: seq<Op>, f: Id)
    requires Inv(env, s) && f in s.flows && s.flows[f].builtIn
    ensures FrozenFlow(s, Run(env, s, ops), f)
    decreases |ops|
  {
    if ops != [] {
      var t := Step(env, s, ops[0]).0;
      StepKeeps(env, s, ops[0]);
      StepFreezes(env, s, ops[0], f);
      RunFreezes(env, t, ops[1..], f);
      FrozenTwice(s, t, Run(env, t, ops[1..]), f);
    }
  }

  lemma FrozenTwice(s: State, t: State, u: State, f: Id)
    requires FrozenFlow(s, t, f) && FrozenFlow(t, u, f)
    ensures FrozenFlow(s, u, f)
  {
  }
}
