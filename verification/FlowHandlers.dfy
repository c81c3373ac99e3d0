/** The handlers themselves, over tables they update in place. */
module FlowHandlers {
  import opened Basics
  import opened Ordering
  import opened Forests
  import opened FlowModel
  import opened FlowForest
  import opened FlowRuns
  import opened FlowTree

  class FlowStore {
    const env: Env
    var flows: map<Id, Flow>
    var rows: map<Id, Row>
    var configs: map<Id, Config>
    var next: nat

    function Now(): State
      reads this
    {
      State(flows, rows, configs, next)
    }

    ghost predicate Valid()
      reads this
    {
      Inv(env, Now())
    }

    constructor (env: Env, s: State)
      requires Inv(env, s)
      ensures Valid() && Now() == s && this.env == env
    {
      this.env := env;
      flows, rows, configs, next := s.flows, s.rows, s.configs, s.next;
    }

    // ----- the store's writes -----

    method NewId() returns (id: Id)
      modifies this`next
      ensures id == env.ids(old(next)) && next == old(next) + 1
    {
      id := env.ids(next);
      next := next + 1;
    }

    method StoreFlow(f: Flow) returns (id: Id)
      modifies this`flows, this`next
      ensures (Now(), id) == AddFlow(env, old(Now()), f)
    {
      var ordinal := Now().NextOrdinal();
      id := NewId();
      flows := flows[id := f.(ordinal := ordinal)];
    }

    method StoreRow(e: Row) returns (id: Id)
      modifies this`rows, this`next
      ensures (Now(), id) == AddRow(env, old(Now()), e)
    {
      id := NewId();
      rows := rows[id := e];
    }

    method DeleteConfigRow(id: Id)
      modifies this`rows, this`configs
      ensures Now() == DropConfig(old(Now()), id)
    {
      configs := configs - {id};
      rows := map r | r in rows :: if rows[r].config == id then rows[r].(config := NO_ID) else rows[r];
    }

    // ----- flows -----

    method CreateFlow(alias: Option<string>, provider: string, description: string, topLevel: bool, builtIn: bool)
      returns (a: Answer)
      requires Valid()
      modifies this
      ensures Valid() && (Now(), a) == Step(env, old(Now()),
        Op.CreateFlow(alias, provider, description, topLevel, builtIn))
    {
      StepKeeps(env, Now(), Op.CreateFlow(alias, provider, description, topLevel, builtIn));
      if alias == None || alias == Some("") {
        return Conflict;
      }
      if provider == "" {
        return Conflict;
      }
      var taken := Now().ByAlias(alias.value);
      if taken.Some? {
        return Conflict;
      }
      var id := StoreFlow(Flow(alias, description, provider, topLevel, builtIn, 0));
      a := Created(id);
    }

    method UpdateFlow(id: Id, alias: Option<string>, description: string) returns (a: Answer)
      requires Valid()
      modifies this
      ensures Valid() && (Now(), a) == Step(env, old(Now()), Op.UpdateFlow(id, alias, description))
    {
      StepKeeps(env, Now(), Op.UpdateFlow(id, alias, description));
      if id !in flows {
        return NotFound;
      }
      if alias == None || alias == Some("") {
        return Conflict;
      }
      flows := flows[id := flows[id].(alias := alias, description := description)];
      a := Done;
    }

    method DeleteFlow(id: Id) returns (a: Answer)
      requires Valid()
      modifies this
      ensures Valid() && (Now(), a) == Step(env, old(Now()), Op.DeleteFlow(id))
    {
      StepKeeps(env, Now(), Op.DeleteFlow(id));
      if id !in flows {
        return NotFound;
      }
      if flows[id].builtIn {
        return BadRequest;
      }
      var gone := Now().RowsOf(id);
      flows, rows := flows - {id}, rows - gone;
      a := Done;
    }

    method CopyFlow(source: string, newName: string) returns (a: Answer)
      requires Valid()
      modifies this
      ensures Valid() && (Now(), a) == Step(env, old(Now()), Op.CopyFlow(source, newName))
    {
      StepKeeps(env, Now(), Op.CopyFlow(source, newName));
      InvCopyable(env, Now());
      var idx := flows;
      var src := Now().ByAlias(source);
      if src == None {
        return NotFound;
      }
      var taken := Now().ByAlias(newName);
      if newName != "" && taken.Some? {
        return Conflict;
      }
      var id := CopyFlowTree(idx, src.value, newName);
      a := Created(id);
    }

    method CopyFlowTree(idx: map<Id, Flow>, src: Id, name: string) returns (dst: Id)
      requires src in idx && Copyable(env, idx, Now())
      modifies this
      ensures (Now(), dst) == CopyTree(env, idx, old(Now()), src, name)
      decreases Above(idx, idx[src].ordinal), 1
    {
      var f := idx[src];
      dst := StoreFlow(Flow(CopyAlias(f, name), f.description, f.provider, f.topLevel, false, 0));
      var list := ListRows(Now(), src);
      ghost var start := Now();
      assert CopyTree(env, idx, old(Now()), src, name) == (CopyRows(env, idx, start, dst, list, f.ordinal), dst);
      hide CopyTree, ListRows, State.Listing, State.NextOrdinal;
      for i := 0 to |list|
        invariant Copyable(env, idx, Now())
        invariant CopyRows(env, idx, start, dst, list, f.ordinal) == CopyRows(env, idx, Now(), dst, list[i..],
          f.ordinal)
      {
        assert Deeper(idx, list[i].flow, f.ordinal);
        assert list[i..][1..] == list[i + 1..];
        CopyExecution(idx, dst, list[i], f.ordinal);
      }
    }

    /** One turn of that loop: a row of a flow of ordinal `o` goes into `dst`. */
    method CopyExecution(idx: map<Id, Flow>, dst: Id, e: Row, ghost o: int)
      requires Copyable(env, idx, Now()) && dst !in idx && Deeper(idx, e.flow, o)
      modifies this
      ensures Now() == CopyRow(env, idx, old(Now()), dst, e, o)
      decreases Above(idx, o), 0
    {
      var id := NewId();
      var sub := NO_ID;
      if e.flow != NO_ID && e.flow in idx {
        assert e.flow !in Above(idx, idx[e.flow].ordinal) && e.flow in Above(idx, o);
        assert Above(idx, idx[e.flow].ordinal) < Above(idx, o);
        sub := CopyFlowTree(idx, e.flow, "");
      }
      rows := rows[id := e.(parent := dst, flow := sub)];
    }

    // ----- executions -----

    /** walkExecutions appends the flow's rows to `out`, each followed by its sub-flow's. */
    method WalkExecutions(flow: Id, level: nat, out: seq<Entry<Id>>) returns (res: seq<Entry<Id>>)
      requires Rooted(Now()) && flow in flows
      ensures res == out + Flatten(ForestOf(Now(), flow), level, 0)
      decreases Above(flows, flows[flow].ordinal)
    {
      hide Sorted, Above, State.Listing, State.Priorities;
      res := out;
      var ids := Now().Listing(flow);
      ListedIn(Now(), flow);
      var i := 0;
      while i < |ids|
        invariant 0 <= i <= |ids| && forall r | r in ids[i..] :: RowIn(Now(), flow, r)
        invariant res + Flatten(Siblings(Now(), flow, ids[i..]), level, i) == out + Flatten(ForestOf(Now(), flow),
          level, 0)
      {
        var r := ids[i];
        assert r in ids[i..] && ids[i..][1..] == ids[i + 1..];
        res := res + [Entry(r, level, i)];
        if rows[r].flow != NO_ID && rows[r].flow in flows {
          LinkIsDeeper(Now(), r);
          res := WalkExecutions(rows[r].flow, level + 1, res);
        }
        i := i + 1;
      }
    }

    /** GET /flows/{alias}/executions: one line per visited row. */
    method ListFlowExecutions(flowAlias: string) returns (r: Option<seq<Entry<Info>>>)
      requires Valid()
      ensures Rooted(Now())
      ensures r == match Now().ByAlias(flowAlias)
                   case None => None
                   case Some(f) => Some(Flatten(Shape(Now(), f), 0, 0))
    {
      InvRooted(env, Now());
      var f := Now().ByAlias(flowAlias);
      if f == None {
        return None;
      }
      var walked := WalkExecutions(f.value, 0, []);
      var lines := DescribeLines(walked);
      DescribeFlatten(Now(), ForestOf(Now(), f.value), 0, 0);
      assert [] + Flatten(ForestOf(Now(), f.value), 0, 0) == Flatten(ForestOf(Now(), f.value), 0, 0);
      hide DescribeAll, Flatten, Describe, ForestOf;
      r := Some(lines);
    }

    method DescribeLines(walked: seq<Entry<Id>>) returns (lines: seq<Entry<Info>>)
      ensures lines == DescribeAll(Now(), walked)
    {
      lines := [];
      for i := 0 to |walked|
        invariant lines == DescribeAll(Now(), walked[..i])
      {
        lines := lines + [DescribeEntry(Now(), walked[i])];
      }
      assert walked[..|walked|] == walked;
    }

    method UpdateFlowExecution(flowAlias: string, row: Id, requirement: string) returns (a: Answer)
      requires Valid()
      modifies this
      ensures Valid() && (Now(), a) == Step(env, old(Now()), Op.UpdateRequirement(flowAlias, row, requirement))
    {
      StepKeeps(env, Now(), Op.UpdateRequirement(flowAlias, row, requirement));
      var f := Now().ByAlias(flowAlias);
      if f == None || row !in rows {
        return NotFound;
      }
      if !ValidRequirement(requirement) {
        return ServerError;
      }
      rows := rows[row := rows[row].(requirement := requirement)];
      a := Done;
    }

    method CreateFlowExecution(flowAlias: string, provider: string) returns (a: Answer)
      requires Valid()
      modifies this
      ensures Valid() && (Now(), a) == Step(env, old(Now()), Op.CreateFlowExecution(flowAlias, provider))
    {
      StepKeeps(env, Now(), Op.CreateFlowExecution(flowAlias, provider));
      var f := Now().ByAlias(flowAlias);
      if f == None {
        return BadRequest;
      }
      if flows[f.value].builtIn {
        return BadRequest;
      }
      if provider !in env.providers {
        return BadRequest;
      }
      var priority := |Now().Listing(f.value)|;
      var id := StoreRow(Row(f.value, provider, NO_ID, NO_ID, "DISABLED", priority));
      a := Created(id);
    }

    method CreateSubFlow(flowAlias: string, subAlias: string, kind: string, description: string, provider: string)
      returns (a: Answer)
      requires Valid()
      modifies this
      ensures Valid() && (Now(), a) == Step(env, old(Now()),
        Op.CreateSubFlow(flowAlias, subAlias, kind, description, provider))
    {
      StepKeeps(env, Now(), Op.CreateSubFlow(flowAlias, subAlias, kind, description, provider));
      if kind == "" {
        return ServerError;
      }
      var f := Now().ByAlias(flowAlias);
      if f == None {
        return BadRequest;
      }
      if flows[f.value].builtIn {
        return BadRequest;
      }
      var taken := Now().ByAlias(subAlias);
      if subAlias != "" && taken.Some? {
        return Conflict;
      }
      var sub := StoreFlow(Flow(AliasFor(subAlias), description, kind, false, false, 0));
      var priority := |Now().Listing(f.value)|;
      var _ := StoreRow(Row(f.value, provider, sub, NO_ID, "DISABLED", priority));
      a := Created(sub);
    }

    method CreateExecution(parent: Id, authenticator: string, requirement: string, priority: int) returns (a: Answer)
      requires Valid()
      modifies this
      ensures Valid() && (Now(), a) == Step(env, old(Now()),
        Op.CreateExecution(parent, authenticator, requirement, priority))
    {
      StepKeeps(env, Now(), Op.CreateExecution(parent, authenticator, requirement, priority));
      if parent !in flows {
        return BadRequest;
      }
      if flows[parent].builtIn {
        return BadRequest;
      }
      if authenticator !in env.providers {
        return BadRequest;
      }
      var wanted := requirement;
      if !ValidRequirement(wanted) {
        wanted := "DISABLED";
      }
      var id := StoreRow(Row(parent, authenticator, NO_ID, NO_ID, wanted, priority));
      a := Created(id);
    }

    /** executionIsEditable resolves the parent rather than trusting the row. */
    method ExecutionIsEditable(row: Id) returns (ok: bool)
      requires row in rows
      ensures ok == Editable(Now(), row)
    {
      var parent := rows[row].parent;
      ok := parent !in flows || !flows[parent].builtIn;
    }

    method DeleteExecution(row: Id) returns (a: Answer)
      requires Valid()
      modifies this
      ensures Valid() && (Now(), a) == Step(env, old(Now()), Op.DeleteExecution(row))
    {
      StepKeeps(env, Now(), Op.DeleteExecution(row));
      if row !in rows {
        return NotFound;
      }
      var ok := ExecutionIsEditable(row);
      if !ok {
        return BadRequest;
      }
      rows := rows - {row};
      a := Done;
    }

    method MovePriority(row: Id, up: bool) returns (a: Answer)
      requires Valid()
      modifies this
      ensures Valid() && (Now(), a) == Step(env, old(Now()), Op.MovePriority(row, up))
    {
      StepKeeps(env, Now(), Op.MovePriority(row, up));
      if row !in rows {
        return NotFound;
      }
      var ok := ExecutionIsEditable(row);
      if !ok {
        return BadRequest;
      }
      var siblings := Now().Listing(rows[row].parent);
      var at := PositionIn(siblings, row);
      var other := if up then at - 1 else at + 1;
      if at < 0 || other < 0 || other >= |siblings| {
        return Done;
      }
      ListedRow(Now(), rows[row].parent, other);
      var neighbour := siblings[other];
      var p, q := rows[row].priority, rows[neighbour].priority;
      rows := rows[row := rows[row].(priority := q)];
      rows := rows[neighbour := rows[neighbour].(priority := p)];
      a := Done;
    }

    // ----- configs -----

    method CreateExecutionConfig(row: Id, config: Config) returns (a: Answer)
      requires Valid()
      modifies this
      ensures Valid() && (Now(), a) == Step(env, old(Now()), Op.CreateExecutionConfig(row, config))
    {
      StepKeeps(env, Now(), Op.CreateExecutionConfig(row, config));
      if row !in rows {
        return NotFound;
      }
      var previous := rows[row].config;
      var id := NewId();
      configs := configs[id := config];
      rows := rows[row := rows[row].(config := id)];
      if previous != NO_ID && previous in configs {
        DeleteConfigRow(previous);
      }
      a := Created(id);
    }

    method CreateConfig(config: Config) returns (a: Answer)
      requires Valid()
      modifies this
      ensures Valid() && (Now(), a) == Step(env, old(Now()), Op.CreateConfig(config))
    {
      StepKeeps(env, Now(), Op.CreateConfig(config));
      var id := NewId();
      configs := configs[id := config];
      a := Created(id);
    }

    method UpdateConfig(id: Id, config: Config) returns (a: Answer)
      requires Valid()
      modifies this
      ensures Valid() && (Now(), a) == Step(env, old(Now()), Op.UpdateConfig(id, config))
    {
      StepKeeps(env, Now(), Op.UpdateConfig(id, config));
      if id !in configs {
        return NotFound;
      }
      configs := configs[id := config];
      a := Done;
    }

    method DeleteConfig(id: Id) returns (a: Answer)
      requires Valid()
      modifies this
      ensures Valid() && (Now(), a) == Step(env, old(Now()), Op.DeleteConfig(id))
    {
      StepKeeps(env, Now(), Op.DeleteConfig(id));
      if id !in configs {
        return NotFound;
      }
      DeleteConfigRow(id);
      a := Done;
    }
  }

  /** The search loop of movePriority: the first position holding `x`, or -1. */
  method PositionIn(ids: seq<Id>, x: Id) returns (at: int)
    ensures at == IndexOf(ids, x)
  {
    at := -1;
    for i := 0 to |ids|
      invariant x !in ids[..i] && at == -1
    {
      if ids[i] == x {
        FirstIndex(ids, x, i);
        return i;
      }
    }
    assert ids[..|ids|] == ids;
  }

  lemma {:induction false} FirstIndex(ids: seq<Id>, x: Id, i: nat)
    requires i < |ids| && ids[i] == x && x !in ids[..i]
    ensures IndexOf(ids, x) == i
  {
    if i > 0 {
      assert ids[0] == ids[..i][0] && ids[1..][..i - 1] == ids[..i][1..];
      FirstIndex(ids[1..], x, i - 1);
    }
  }
}
