/** The invariant of the flow tables, each handler as one step, and what every
    run of handlers keeps. */
module FlowForest {
  import opened Basics
  import opened Ordering
  import opened FlowModel

  /** `x` names nothing, and no link dangles towards it. */
  ghost predicate IsFresh(s: State, x: Id) {
    && x != NO_ID && x !in s.flows && x !in s.rows && x !in s.configs
    && forall r | r in s.rows :: s.rows[r].flow != x
  }

  /** NewID never repeats itself. */
  ghost predicate ValidEnv(env: Env) {
    forall j: nat, k: nat | j < k :: env.ids(j) != env.ids(k)
  }

  /** Drawn and given up: fresh, and never to be handed out again. */
  ghost predicate Retired(env: Env, s: State, x: Id) {
    IsFresh(s, x) && forall k: nat | k >= s.next :: env.ids(k) != x
  }

  /** Each flow is pointed at by at most one row. */
  ghost predicate UniqueLinks(s: State) {
    forall a, b | a in s.rows && b in s.rows && a != b :: s.rows[a].flow == NO_ID || s.rows[a].flow != s.rows[b].flow
  }

  /** A live link runs from an older flow to a newer one, which is not top-level. */
  predicate LinkAscends(flows: map<Id, Flow>, e: Row) {
    Descends(flows, e) && (e.parent in flows && e.flow in flows ==> !flows[e.flow].topLevel)
  }

  ghost predicate Ascending(s: State) {
    forall r | r in s.rows :: LinkAscends(s.flows, s.rows[r])
  }

  predicate RowLive(flows: map<Id, Flow>, configs: map<Id, Config>, e: Row) {
    e.parent in flows && (e.config == NO_ID || e.config in configs)
  }

  ghost predicate PointersLive(s: State) {
    forall r | r in s.rows :: RowLive(s.flows, s.configs, s.rows[r])
  }

  ghost predicate Inv(env: Env, s: State) {
    && ValidEnv(env)
    && (forall k: nat | k >= s.next :: IsFresh(s, env.ids(k)))
    && NO_ID !in s.flows && NO_ID !in s.rows && NO_ID !in s.configs
    && UniqueLinks(s) && Ascending(s) && PointersLive(s)
  }

  // ----- the handlers -----

  datatype Op =
    | CreateFlow(alias: Option<string>, provider: string, description: string, topLevel: bool, builtIn: bool)
    | UpdateFlow(id: Id, alias: Option<string>, description: string)
    | DeleteFlow(id: Id)
    | CopyFlow(source: string, newName: string)
    | UpdateRequirement(flowAlias: string, row: Id, requirement: string)
    | CreateFlowExecution(flowAlias: string, provider: string)
    | CreateSubFlow(flowAlias: string, subAlias: string, kind: string, description: string, provider: string)
    | CreateExecution(parent: Id, authenticator: string, requirement: string, priority: int)
    | DeleteExecution(row: Id)
    | MovePriority(row: Id, up: bool)
    | CreateExecutionConfig(row: Id, config: Config)
    | CreateConfig(config: Config)
    | UpdateConfig(id: Id, config: Config)
    | DeleteConfig(id: Id)

  datatype Answer = Created(id: Id) | Done | NotFound | BadRequest | Conflict | ServerError

  type Outcome = (State, Answer)

  function DoCreateFlow(env: Env, s: State, alias: Option<string>, provider: string, description: string,
                        topLevel: bool, builtIn: bool): Outcome
  {
    if alias == None || alias == Some("") || provider == "" || s.ByAlias(alias.value).Some? then (s, Conflict)
    else
      var (t, id) := AddFlow(env, s, Flow(alias, description, provider, topLevel, builtIn, 0));
      (t, Created(id))
  }

  function DoUpdateFlow(s: State, id: Id, alias: Option<string>, description: string): Outcome {
    if id !in s.flows then (s, NotFound)
    else if alias == None || alias == Some("") then (s, Conflict)
    else (s.(flows := s.flows[id := s.flows[id].(alias := alias, description := description)]), Done)
  }

  function DoDeleteFlow(s: State, id: Id): Outcome {
    if id !in s.flows then (s, NotFound)
    else if s.flows[id].builtIn then (s, BadRequest)
    else (DropFlow(s, id), Done)
  }

  function DoCopyFlow(env: Env, s: State, source: string, newName: string): Outcome
    requires Inv(env, s)
  {
    var src := s.ByAlias(source);
    if src == None then (s, NotFound)
    else if newName != "" && s.ByAlias(newName).Some? then (s, Conflict)
    else
      var (t, id) := CopyTree(env, s.flows, s, src.value, newName);
      (t, Created(id))
  }

  function DoUpdateRequirement(s: State, flowAlias: string, row: Id, requirement: string): Outcome {
    if s.ByAlias(flowAlias) == None || row !in s.rows then (s, NotFound)
    else if !ValidRequirement(requirement) then (s, ServerError)
    else (s.(rows := s.rows[row := s.rows[row].(requirement := requirement)]), Done)
  }

  function DoCreateFlowExecution(env: Env, s: State, flowAlias: string, provider: string): Outcome {
    var f := s.ByAlias(flowAlias);
    if f == None || s.flows[f.value].builtIn || provider !in env.providers then (s, BadRequest)
    else
      var (t, id) := AddRow(env, s, Row(f.value, provider, NO_ID, NO_ID, "DISABLED", |s.Listing(f.value)|));
      (t, Created(id))
  }

  function DoCreateSubFlow(env: Env, s: State, flowAlias: string, subAlias: string, kind: string,
                           description: string, provider: string): Outcome
  {
    var f := s.ByAlias(flowAlias);
    if kind == "" then (s, ServerError)
    else if f == None || s.flows[f.value].builtIn then (s, BadRequest)
    else if subAlias != "" && s.ByAlias(subAlias).Some? then (s, Conflict)
    else
      var (s1, sub) := AddFlow(env, s, Flow(AliasFor(subAlias), description, kind, false, false, 0));
      var (t, _) := AddRow(env, s1, Row(f.value, provider, sub, NO_ID, "DISABLED", |s1.Listing(f.value)|));
      (t, Created(sub))
  }

  function DoCreateExecution(env: Env, s: State, parent: Id, authenticator: string, requirement: string,
    priority: int): Outcome {
    if parent !in s.flows || s.flows[parent].builtIn || authenticator !in env.providers then (s, BadRequest)
    else
      var r := if ValidRequirement(requirement) then requirement else "DISABLED";
      var (t, id) := AddRow(env, s, Row(parent, authenticator, NO_ID, NO_ID, r, priority));
      (t, Created(id))
  }

  /** executionIsEditable: a row is frozen while its parent flow is built in. */
  predicate Editable(s: State, row: Id)
    requires row in s.rows
  {
    s.rows[row].parent in s.flows ==> !s.flows[s.rows[row].parent].builtIn
  }

  function DoDeleteExecution(s: State, row: Id): Outcome {
    if row !in s.rows then (s, NotFound)
    else if !Editable(s, row) then (s, BadRequest)
    else (s.(rows := s.rows - {row}), Done)
  }

  function IndexOf(ids: seq<Id>, x: Id): (i: int)
    ensures if x in ids then 0 <= i < |ids| && ids[i] == x && x !in ids[..i] else i == -1
  {
    if ids == [] then -1
    else if ids[0] == x then 0
    else
      var i := IndexOf(ids[1..], x);
      if i == -1 then -1 else i + 1
  }

  function SwapPriorities(s: State, a: Id, b: Id): State
    requires a in s.rows && b in s.rows
  {
    s.(rows := s.rows[a := s.rows[a].(priority := s.rows[b].priority)][b := s.rows[b].(priority := s.rows[a].priority)])
  }

  function DoMovePriority(s: State, row: Id, up: bool): Outcome {
    if row !in s.rows then (s, NotFound)
    else if !Editable(s, row) then (s, BadRequest)
    else
      var siblings := s.Listing(s.rows[row].parent);
      var at := IndexOf(siblings, row);
      var other := if up then at - 1 else at + 1;
      if at < 0 || other < 0 || other >= |siblings| then (s, Done)
      else
        assert siblings[other] in s.RowsOf(s.rows[row].parent);
        (SwapPriorities(s, row, siblings[other]), Done)
  }

  function DoCreateExecutionConfig(env: Env, s: State, row: Id, config: Config): Outcome {
    if row !in s.rows then (s, NotFound)
    else
      var previous := s.rows[row].config;
      var (s1, id) := AddConfig(env, s, config);
      var s2 := s1.(rows := s1.rows[row := s1.rows[row].(config := id)]);
      (if previous != NO_ID && previous in s2.configs then DropConfig(s2, previous) else s2, Created(id))
  }

  function DoCreateConfig(env: Env, s: State, config: Config): Outcome {
    var (t, id) := AddConfig(env, s, config);
    (t, Created(id))
  }

  function DoUpdateConfig(s: State, id: Id, config: Config): Outcome {
    if id !in s.configs then (s, NotFound)
    else (s.(configs := s.configs[id := config]), Done)
  }

  function DoDeleteConfig(s: State, id: Id): Outcome {
    if id !in s.configs then (s, NotFound) else (DropConfig(s, id), Done)
  }

  function Step(env: Env, s: State, op: Op): Outcome
    requires Inv(env, s)
  {
    match op
    case CreateFlow(alias, provider, description, topLevel, builtIn) =>
      DoCreateFlow(env, s, alias, provider, description, topLevel, builtIn)
    case UpdateFlow(id, alias, description) => DoUpdateFlow(s, id, alias, description)
    case DeleteFlow(id) => DoDeleteFlow(s, id)
    case CopyFlow(source, newName) => DoCopyFlow(env, s, source, newName)
    case UpdateRequirement(flowAlias, row, requirement) => DoUpdateRequirement(s, flowAlias, row, requirement)
    case CreateFlowExecution(flowAlias, provider) => DoCreateFlowExecution(env, s, flowAlias, provider)
    case CreateSubFlow(flowAlias, subAlias, kind, description, provider) =>
      DoCreateSubFlow(env, s, flowAlias, subAlias, kind, description, provider)
    case CreateExecution(parent, authenticator, requirement, priority) =>
      DoCreateExecution(env, s, parent, authenticator, requirement, priority)
    case DeleteExecution(row) => DoDeleteExecution(s, row)
    case MovePriority(row, up) => DoMovePriority(s, row, up)
    case CreateExecutionConfig(row, config) => DoCreateExecutionConfig(env, s, row, config)
    case CreateConfig(config) => DoCreateConfig(env, s, config)
    case UpdateConfig(id, config) => DoUpdateConfig(s, id, config)
    case DeleteConfig(id) => DoDeleteConfig(s, id)
  }

  // ----- growth: what the copy adds and what it leaves alone -----

  lemma NextOrdinalIsNewest(s: State)
    ensures forall f | f in s.flows :: s.flows[f].ordinal < s.NextOrdinal()
  {
    var all := s.ListFlows();
    forall f | f in s.flows ensures s.flows[f].ordinal < s.NextOrdinal() {
      var i :| 0 <= i < |all| && all[i] == f;
      assert i < |all| - 1 ==> Before(s.Ordinals(), all[i], all[|all| - 1]);
    }
  }

  /** `t` extends `s`: old flows, rows and configs are unchanged, no old flow but
      `dst` gained rows, and everything new is fresh. */
  ghost predicate Grown(env: Env, s: State, t: State, dst: Id) {
    && t.next >= s.next && t.configs == s.configs
    && (forall f | f in s.flows :: f in t.flows && t.flows[f] == s.flows[f])
    && (forall r | r in s.rows :: r in t.rows && t.rows[r] == s.rows[r])
    && (forall f | f in t.flows && f !in s.flows :: IsFresh(s, f))
    && (forall r | r in t.rows && r !in s.rows ::
          && IsFresh(s, r)
          && (t.rows[r].parent in s.flows ==> t.rows[r].parent == dst)
          && (t.rows[r].flow == NO_ID || IsFresh(s, t.rows[r].flow)))
    && (forall x :: Retired(env, s, x) ==> Retired(env, t, x))
  }

  lemma FreshBefore(env: Env, s: State, t: State, dst: Id, x: Id)
    requires Grown(env, s, t, dst) && IsFresh(t, x)
    ensures IsFresh(s, x)
  {
    assert forall r | r in s.rows :: t.rows[r].flow == s.rows[r].flow;
  }

  lemma GrownTwice(env: Env, s: State, t: State, u: State, a: Id, b: Id, dst: Id)
    requires Grown(env, s, t, a) && Grown(env, t, u, b)
    requires (a == dst || a !in s.flows) && (b == dst || b !in s.flows)
    ensures Grown(env, s, u, dst)
  {
    forall f | f in u.flows && f !in s.flows ensures IsFresh(s, f) {
      if f !in t.flows { FreshBefore(env, s, t, a, f); }
    }
    forall r | r in u.rows && r !in s.rows
      ensures IsFresh(s, r)
      ensures u.rows[r].parent in s.flows ==> u.rows[r].parent == dst
      ensures u.rows[r].flow == NO_ID || IsFresh(s, u.rows[r].flow)
    {
      if r in t.rows {
      } else {
        FreshBefore(env, s, t, a, r);
        if u.rows[r].flow != NO_ID { FreshBefore(env, s, t, a, u.rows[r].flow); }
      }
    }
  }

  lemma GrownSame(env: Env, s: State, dst: Id)
    ensures Grown(env, s, s, dst)
  {
  }

  // ----- the copy keeps the invariant -----

  /** Every indexed flow is live, and an indexed sub-flow is not top-level. */
  ghost predicate Indexed(idx: map<Id, Flow>, s: State) {
    && idx.Keys <= s.flows.Keys
    && forall r | r in s.rows :: LinkAscends(idx, s.rows[r])
  }

  /** The rows still to be copied, read from an old flow of ordinal `o`. */
  ghost predicate RowsFit(idx: map<Id, Flow>, s: State, rows: seq<Row>, o: int) {
    forall e | e in rows :: RowFits(idx, s, e, o)
  }

  ghost predicate RowFits(idx: map<Id, Flow>, s: State, e: Row, o: int) {
    && (e.config == NO_ID || e.config in s.configs)
    && Deeper(idx, e.flow, o) && (e.flow in idx ==> !idx[e.flow].topLevel)
  }

  ghost predicate Unlinked(s: State, f: Id) {
    forall r | r in s.rows :: s.rows[r].flow != f
  }

  lemma IndexedGrows(env: Env, idx: map<Id, Flow>, s: State, t: State, dst: Id)
    requires Indexed(idx, s) && Grown(env, s, t, dst) && dst !in idx
    ensures Indexed(idx, t)
  {
  }

  /** A new flow nothing points at, newer than every flow of `s`. */
  ghost predicate NewFlow(env: Env, s: State, t: State, f: Id, topLevel: bool) {
    && Inv(env, t) && Grown(env, s, t, NO_ID)
    && IsFresh(s, f) && Unlinked(t, f) && f in t.flows && t.flows[f].topLevel == topLevel
    && forall g | g in s.flows :: g in t.flows && s.flows[g].ordinal < t.flows[f].ordinal
  }

  lemma AddFlowKeeps(env: Env, s: State, f: Flow)
    requires Inv(env, s)
    ensures NewFlow(env, s, AddFlow(env, s, f).0, AddFlow(env, s, f).1, f.topLevel)
  {
    NextOrdinalIsNewest(s);
    var t := AddFlow(env, s, f).0;
    hide State.NextOrdinal;
    forall k: nat | k >= t.next ensures IsFresh(t, env.ids(k)) {
      assert env.ids(s.next) != env.ids(k);
      assert IsFresh(s, env.ids(k));
    }
    assert IsFresh(s, env.ids(s.next));
    forall x | Retired(env, s, x) ensures Retired(env, t, x) { assert env.ids(s.next) != x; }
  }

  /** Storing a row under an identifier drawn earlier. */
  lemma StoreRowKeeps(env: Env, s: State, id: Id, e: Row)
    requires Inv(env, s) && Retired(env, s, id)
    requires e.parent in s.flows && (e.config == NO_ID || e.config in s.configs)
    requires e.flow == NO_ID || (Unlinked(s, e.flow) && e.flow in s.flows && !s.flows[e.flow].topLevel
                                 && s.flows[e.parent].ordinal < s.flows[e.flow].ordinal)
    ensures Inv(env, s.(rows := s.rows[id := e]))
  {
    var t := s.(rows := s.rows[id := e]);
    forall k: nat | k >= t.next ensures IsFresh(t, env.ids(k)) {
      assert IsFresh(s, env.ids(k));
    }
  }

  lemma DrawKeeps(env: Env, s: State)
    requires Inv(env, s)
    ensures var t := s.(next := s.next + 1);
      Inv(env, t) && Retired(env, t, env.ids(s.next)) && Grown(env, s, t, NO_ID)
  {
    var t := s.(next := s.next + 1);
    forall k: nat | k >= t.next ensures IsFresh(t, env.ids(k)) && env.ids(k) != env.ids(s.next) {
      assert IsFresh(s, env.ids(k));
      assert env.ids(s.next) != env.ids(k);
    }
    assert IsFresh(s, env.ids(s.next));
    forall x | Retired(env, s, x) ensures Retired(env, t, x) { }
  }

  ghost predicate NoNewBuiltIns(s: State, t: State) {
    forall f | f in t.flows && f !in s.flows :: !t.flows[f].builtIn
  }

  ghost predicate TreeCopied(env: Env, s: State, t: State, f: Id, topLevel: bool) {
    NewFlow(env, s, t, f, topLevel) && NoNewBuiltIns(s, t)
  }

  ghost predicate RowsCopied(env: Env, s: State, t: State, dst: Id) {
    Inv(env, t) && Grown(env, s, t, dst) && Unlinked(t, dst) && NoNewBuiltIns(s, t)
  }

  ghost predicate SubCopied(env: Env, s: State, r: (State, Id)) {
    if r.1 == NO_ID then r.0 == s else TreeCopied(env, s, r.0, r.1, false)
  }

  /** The copy begins with the new flow, still empty. */
  lemma CopyTreeIs(env: Env, idx: map<Id, Flow>, s: State, src: Id, name: string)
    requires src in idx && Copyable(env, idx, s)
    ensures
      var f := idx[src];
      var blank := Flow(CopyAlias(f, name), f.description, f.provider, f.topLevel, false, 0);
      var (s1, dst) := AddFlow(env, s, blank);
      && Copyable(env, idx, s1) && dst !in idx && (forall e | e in ListRows(s1, src) :: Deeper(idx, e.flow, f.ordinal))
      && blank.topLevel == f.topLevel && dst in s1.flows && !s1.flows[dst].builtIn
        && s1.flows.Keys == s.flows.Keys + {dst}
      && CopyTree(env, idx, s, src, name) == (CopyRows(env, idx, s1, dst, ListRows(s1, src), f.ordinal), dst)
  {
    hide State.NextOrdinal, State.Listing, CopyRows, ListRows;
  }

  lemma {:induction false} CopyTreeKeeps(env: Env, idx: map<Id, Flow>, s: State, src: Id, name: string)
    requires src in idx && Copyable(env, idx, s) && Inv(env, s) && Indexed(idx, s)
    ensures TreeCopied(env, s, CopyTree(env, idx, s, src, name).0, CopyTree(env, idx, s, src, name).1,
      idx[src].topLevel)
    decreases Above(idx, idx[src].ordinal), 2, 0
  {
    hide *;
    CopyTreeIs(env, idx, s, src, name);
    var f := idx[src];
    var blank := Flow(CopyAlias(f, name), f.description, f.provider, f.topLevel, false, 0);
    var (s1, dst) := AddFlow(env, s, blank);
    AddFlowKeeps(env, s, blank);
    CopyStarts(env, idx, s, s1, src, dst);
    CopyRowsKeeps(env, idx, s1, dst, ListRows(s1, src), f.ordinal);
    CopyEnds(env, s, s1, CopyRows(env, idx, s1, dst, ListRows(s1, src), f.ordinal), dst, f.topLevel);
  }

  lemma CopyStarts(env: Env, idx: map<Id, Flow>, s: State, s1: State, src: Id, dst: Id)
    requires src in idx && Indexed(idx, s) && NewFlow(env, s, s1, dst, idx[src].topLevel)
    ensures Inv(env, s1) && Indexed(idx, s1) && dst in s1.flows && dst !in idx && Unlinked(s1, dst)
    ensures RowsFit(idx, s1, ListRows(s1, src), idx[src].ordinal)
  {
    forall e | e in ListRows(s1, src) ensures RowFits(idx, s1, e, idx[src].ordinal) {
      var r :| r in s1.rows && s1.rows[r] == e;
      assert LinkAscends(idx, e) && RowLive(s1.flows, s1.configs, e);
    }
  }

  lemma CopyEnds(env: Env, s: State, s1: State, t: State, dst: Id, topLevel: bool)
    requires NewFlow(env, s, s1, dst, topLevel) && !s1.flows[dst].builtIn && RowsCopied(env, s1, t, dst)
    requires s1.flows.Keys == s.flows.Keys + {dst}
    ensures TreeCopied(env, s, t, dst, topLevel)
  {
    GrownTwice(env, s, s1, t, NO_ID, dst, NO_ID);
  }

  lemma {:induction false} CopyRowsKeeps(env: Env, idx: map<Id, Flow>, s: State, dst: Id, rows: seq<Row>, o: int)
    requires Copyable(env, idx, s) && Inv(env, s) && Indexed(idx, s) && RowsFit(idx, s, rows, o)
    requires forall e | e in rows :: Deeper(idx, e.flow, o)
    requires dst in s.flows && dst !in idx && Unlinked(s, dst)
    ensures RowsCopied(env, s, CopyRows(env, idx, s, dst, rows, o), dst)
    decreases Above(idx, o), 1, |rows|
  {
    if rows == [] {
      GrownSame(env, s, dst);
    } else {
      var e := rows[0];
      var u := CopyRow(env, idx, s, dst, e, o);
      var t := CopyRows(env, idx, u, dst, rows[1..], o);
      assert t == CopyRows(env, idx, s, dst, rows, o);
      assert RowFits(idx, s, e, o) by { assert e in rows; }
      assert Copyable(env, idx, u);
      hide *;
      CopyRowKeeps(env, idx, s, dst, e, o);
      RestFits(env, idx, s, u, dst, rows, o);
      CopyRowsKeeps(env, idx, u, dst, rows[1..], o);
      RowsCopiedTwice(env, s, u, t, dst);
    }
  }

  lemma RowsCopiedTwice(env: Env, s: State, t: State, u: State, dst: Id)
    requires RowsCopied(env, s, t, dst) && RowsCopied(env, t, u, dst)
    ensures RowsCopied(env, s, u, dst)
  {
    GrownTwice(env, s, t, u, dst, dst, dst);
  }

  lemma RestFits(env: Env, idx: map<Id, Flow>, s: State, t: State, dst: Id, rows: seq<Row>, o: int)
    requires RowsFit(idx, s, rows, o) && rows != [] && RowsCopied(env, s, t, dst)
    requires Indexed(idx, s) && dst in s.flows && dst !in idx
    ensures RowsFit(idx, t, rows[1..], o) && (forall e | e in rows[1..] :: Deeper(idx, e.flow, o)) && Inv(env, t)
      && Indexed(idx, t) && dst in t.flows && Unlinked(t, dst)
  {
    forall e | e in rows[1..] ensures RowFits(idx, t, e, o) && Deeper(idx, e.flow, o) {
      assert e in rows && RowFits(idx, s, e, o);
    }
  }

  lemma {:induction false} CopyRowKeeps(env: Env, idx: map<Id, Flow>, s: State, dst: Id, e: Row, o: int)
    requires Copyable(env, idx, s) && Inv(env, s) && Indexed(idx, s) && RowFits(idx, s, e, o)
    requires dst in s.flows && dst !in idx && Unlinked(s, dst)
    ensures RowsCopied(env, s, CopyRow(env, idx, s, dst, e, o), dst)
    decreases Above(idx, o), 0, 1
  {
    var s1 := s.(next := s.next + 1);
    assert Copyable(env, idx, s1) && Indexed(idx, s1);
    var r := CopySub(env, idx, s1, e.flow, o);
    assert CopyRow(env, idx, s, dst, e, o) == r.0.(rows := r.0.rows[env.ids(s.next) := e.(parent := dst, flow := r.1)]);
    assert RowFits(idx, s, e, o);
    assert (e.config == NO_ID || e.config in s.configs) && Deeper(idx, e.flow, o)
      && (e.flow in idx ==> !idx[e.flow].topLevel);
    hide *;
    DrawKeeps(env, s);
    CopySubKeeps(env, idx, s1, e.flow, o);
    StoreCopied(env, s, r.0, dst, r.1, e);
  }

  /** The copied row joins its new flow once the sub-flow is in place. */
  lemma StoreCopied(env: Env, s: State, s2: State, dst: Id, sub: Id, e: Row)
    requires Inv(env, s) && dst in s.flows && Unlinked(s, dst) && (e.config == NO_ID || e.config in s.configs)
    requires SubCopied(env, s.(next := s.next + 1), (s2, sub))
    ensures
      RowsCopied(env, s, s2.(rows := s2.rows[env.ids(s.next) := e.(parent := dst, flow := sub)]), dst)
  {
    var rowId := env.ids(s.next);
    var s1 := s.(next := s.next + 1);
    DrawKeeps(env, s);
    if sub == NO_ID { GrownSame(env, s1, NO_ID); }
    assert Grown(env, s1, s2, NO_ID) && Inv(env, s2);
    assert Retired(env, s1, rowId) && Retired(env, s2, rowId) && IsFresh(s, rowId);
    var row := e.(parent := dst, flow := sub);
    assert sub != NO_ID ==> IsFresh(s, sub) && sub in s2.flows && Unlinked(s2, sub) && !s2.flows[sub].topLevel
                            && s2.flows[dst].ordinal < s2.flows[sub].ordinal;
    assert NoNewBuiltIns(s, s2) && Unlinked(s2, dst) && dst in s2.flows && s2.configs == s.configs;
    assert Unlinked(s2.(rows := s2.rows[rowId := row]), dst) && NoNewBuiltIns(s, s2.(rows := s2.rows[rowId := row]));
    hide *;
    GrownTwice(env, s, s1, s2, NO_ID, NO_ID, dst);
    StoreRowKeeps(env, s2, rowId, row);
    StoredGrown(env, s, s2, rowId, row);
  }

  lemma StoredGrown(env: Env, s: State, t: State, id: Id, e: Row)
    requires Grown(env, s, t, e.parent) && Retired(env, t, id) && IsFresh(s, id)
    requires e.flow == NO_ID || (IsFresh(s, e.flow) && e.flow in t.flows)
    requires id == env.ids(s.next)
    ensures Grown(env, s, t.(rows := t.rows[id := e]), e.parent)
  {
    var u := t.(rows := t.rows[id := e]);
    forall x | Retired(env, s, x) ensures Retired(env, u, x) {
      assert Retired(env, t, x);
      assert env.ids(s.next) != x;
    }
  }

  lemma {:induction false} CopySubKeeps(env: Env, idx: map<Id, Flow>, s: State, flow: Id, o: int)
    requires Copyable(env, idx, s) && Inv(env, s) && Indexed(idx, s)
    requires Deeper(idx, flow, o) && (flow in idx ==> !idx[flow].topLevel)
    ensures SubCopied(env, s, CopySub(env, idx, s, flow, o))
    decreases Above(idx, o), 0, 0
  {
    if flow != NO_ID && flow in idx {
      assert flow !in Above(idx, idx[flow].ordinal) && flow in Above(idx, o);
      assert Above(idx, idx[flow].ordinal) < Above(idx, o);
      CopyTreeKeeps(env, idx, s, flow, "");
    } else {
      GrownSame(env, s, NO_ID);
    }
  }
}
