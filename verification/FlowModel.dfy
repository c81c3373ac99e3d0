/** The authentication flow tables and what each handler does to them
    (internal/admin/flows.go over the store's authentication_* tables). */
module FlowModel {
  import opened Basics
  import opened Ordering

  datatype Flow = Flow(alias: Option<string>, description: string, provider: string,
                       topLevel: bool, builtIn: bool, ordinal: int)

  /** An execution: one row of flow `parent`, possibly pointing at a sub-flow and a config. */
  datatype Row = Row(parent: Id, authenticator: string, flow: Id, config: Id,
                     requirement: string, priority: int)

  datatype Config = Config(alias: string, entries: seq<(string, string)>)

  /** What the handlers take from outside: the identifiers `model.NewID` will
      hand out, in order, and the provider ids the registries publish. */
  datatype Env = Env(ids: nat -> Id, providers: set<string>)

  /** The tables of one realm; `next` counts the identifiers drawn so far. */
  datatype State = State(flows: map<Id, Flow>, rows: map<Id, Row>, configs: map<Id, Config>, next: nat) {

    function Ordinals(): map<Id, int> {
      map f | f in flows :: flows[f].ordinal
    }

    function Priorities(): map<Id, int> {
      map r | r in rows :: rows[r].priority
    }

    function RowsOf(flow: Id): set<Id> {
      set r | r in rows && rows[r].parent == flow
    }

    /** ListExecutions: the direct rows of a flow, by priority and then by id. */
    function Listing(flow: Id): seq<Id> {
      Sorted(RowsOf(flow), Priorities())
    }

    /** ListFlows: every flow, oldest first. */
    function ListFlows(): seq<Id> {
      Sorted(flows.Keys, Ordinals())
    }

    /** COALESCE(MAX(ordinal), -1) + 1. */
    function NextOrdinal(): int {
      var all := ListFlows();
      if all == [] then 0 else
        assert all[|all| - 1] in flows.Keys;
        flows[all[|all| - 1]].ordinal + 1
    }

    /** The alias index: the empty alias names nothing, and of several flows
        with one alias the newest wins. */
    function ByAlias(alias: string): (r: Option<Id>)
      ensures r.Some? ==> r.value in flows && flows[r.value].alias == Some(alias)
    {
      var named := set f | f in flows && flows[f].alias == Some(alias);
      var all := Sorted(named, Ordinals());
      if alias == "" || all == [] then None else
        assert all[|all| - 1] in named;
        Some(all[|all| - 1])
    }
  }

  lemma ListingLists(s: State, flow: Id)
    ensures s.RowsOf(flow) <= s.Priorities().Keys && IsListing(s.Listing(flow), s.RowsOf(flow), s.Priorities())
    ensures forall i | 0 <= i < |s.Listing(flow)| :: s.Listing(flow)[i] in s.Priorities()
    ensures forall i | 0 <= i < |s.Listing(flow)| :: s.Listing(flow)[i] in s.RowsOf(flow)
    ensures NoRepeats(s.Listing(flow))
  {
    ListedMembers(s.Listing(flow), s.RowsOf(flow), s.Priorities());
  }

  function AliasOf(f: Flow): string {
    match f.alias
    case None => ""
    case Some(a) => a
  }

  function AliasFor(text: string): Option<string> {
    if text == "" then None else Some(text)
  }

  predicate ValidRequirement(v: string) {
    v in {"REQUIRED", "ALTERNATIVE", "DISABLED", "CONDITIONAL"}
  }

  // ----- store primitives -----

  function AddFlow(env: Env, s: State, f: Flow): (State, Id) {
    var id := env.ids(s.next);
    (s.(flows := s.flows[id := f.(ordinal := s.NextOrdinal())], next := s.next + 1), id)
  }

  function AddRow(env: Env, s: State, r: Row): (State, Id) {
    var id := env.ids(s.next);
    (s.(rows := s.rows[id := r], next := s.next + 1), id)
  }

  function AddConfig(env: Env, s: State, c: Config): (State, Id) {
    var id := env.ids(s.next);
    (s.(configs := s.configs[id := c], next := s.next + 1), id)
  }

  /** DeleteFlow cascades to the flow's own rows and to nothing else. */
  function DropFlow(s: State, flow: Id): State {
    s.(flows := s.flows - {flow}, rows := s.rows - s.RowsOf(flow))
  }

  /** DeleteConfig clears every pointer to the config. */
  function DropConfig(s: State, config: Id): State {
    s.(configs := s.configs - {config},
       rows := map r | r in s.rows :: if s.rows[r].config == config then s.rows[r].(config := NO_ID) else s.rows[r])
  }

  // ----- the deep copy -----

  function Above(idx: map<Id, Flow>, o: int): set<Id> {
    set f | f in idx && idx[f].ordinal > o
  }

  predicate Descends(idx: map<Id, Flow>, e: Row) {
    e.parent in idx && e.flow in idx ==> idx[e.parent].ordinal < idx[e.flow].ordinal
  }

  /** Links between the indexed flows run from older to newer, and no identifier
      still to be drawn is indexed. */
  ghost predicate Copyable(env: Env, idx: map<Id, Flow>, s: State) {
    && (forall k: nat | k >= s.next :: env.ids(k) !in idx)
    && (forall r | r in s.rows :: Descends(idx, s.rows[r]))
  }

  /** An indexed flow below ordinal `o` in the forest. */
  predicate Deeper(idx: map<Id, Flow>, flow: Id, o: int) {
    flow in idx ==> o < idx[flow].ordinal
  }

  function CopyAlias(src: Flow, name: string): Option<string> {
    if name != "" then Some(name)
    else if !src.topLevel then Some(AliasOf(src))
    else None
  }

  function ListRows(s: State, flow: Id): (rows: seq<Row>)
    ensures forall e :: e in rows ==> e.parent == flow && exists r :: r in s.rows && s.rows[r] == e
  {
    var ids := s.Listing(flow);
    assert forall i | 0 <= i < |ids| :: ids[i] in s.RowsOf(flow);
    seq(|ids|, i requires 0 <= i < |ids| => s.rows[ids[i]])
  }

  /** copyFlowTree: the new flow first, then its rows one at a time, each
      preceded by the copy of the sub-flow it points at. */
  function CopyTree(env: Env, idx: map<Id, Flow>, s: State, src: Id, name: string): (r: (State, Id))
    requires src in idx && Copyable(env, idx, s)
    ensures Copyable(env, idx, r.0) && r.0.next > s.next
    decreases Above(idx, idx[src].ordinal), 2, 0
  {
    var f := idx[src];
    var (s1, dst) := AddFlow(env, s, Flow(CopyAlias(f, name), f.description, f.provider, f.topLevel, false, 0));
    (CopyRows(env, idx, s1, dst, ListRows(s1, src), f.ordinal), dst)
  }

  function CopyRows(env: Env, idx: map<Id, Flow>, s: State, dst: Id, rows: seq<Row>, o: int): (t: State)
    requires Copyable(env, idx, s) && dst !in idx
    requires forall e | e in rows :: Deeper(idx, e.flow, o)
    ensures Copyable(env, idx, t) && t.next >= s.next
    decreases Above(idx, o), 1, |rows|
  {
    if rows == [] then s
    else CopyRows(env, idx, CopyRow(env, idx, s, dst, rows[0], o), dst, rows[1..], o)
  }

  /** One turn of the loop: draw the row's identifier, copy its sub-flow, store the row. */
  function CopyRow(env: Env, idx: map<Id, Flow>, s: State, dst: Id, e: Row, o: int): (t: State)
    requires Copyable(env, idx, s) && dst !in idx
    requires Deeper(idx, e.flow, o)
    ensures Copyable(env, idx, t) && t.next >= s.next
    decreases Above(idx, o), 0, 1
  {
    var (s2, sub) := CopySub(env, idx, s.(next := s.next + 1), e.flow, o);
    s2.(rows := s2.rows[env.ids(s.next) := e.(parent := dst, flow := sub)])
  }

  /** The sub-flow half of one copied row: a link that resolves is followed, any
      other becomes no link. */
  function CopySub(env: Env, idx: map<Id, Flow>, s: State, flow: Id, o: int): (r: (State, Id))
    requires Copyable(env, idx, s)
    requires Deeper(idx, flow, o)
    ensures Copyable(env, idx, r.0) && r.0.next >= s.next
    decreases Above(idx, o), 0, 0
  {
    if flow != NO_ID && flow in idx then
      assert flow !in Above(idx, idx[flow].ordinal) && flow in Above(idx, o);
      assert Above(idx, idx[flow].ordinal) < Above(idx, o);
      CopyTree(env, idx, s, flow, "")
    else (s, NO_ID)
  }
}
