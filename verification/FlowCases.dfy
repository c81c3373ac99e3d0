/** States some requests lead to from the empty tables, in which the conditions of the
    theorems about copies, moves and new rows fail. */
module FlowCases {
  import opened Basics
  import opened Ordering
  import opened FlowModel
  import opened FlowForest
  import opened FlowTree
  import opened FlowRuns
  import opened FlowPriority
  import opened FlowOrder
  import opened FlowCopy
  import opened FlowCopyListing
  import opened FlowCopyAlike
  import opened FlowCopyExact
  import opened FlowCopyTheorem

  /** Identifiers 1, 2, 3 and so on, and two providers. */
  function Counting(): Env {
    Env((k: nat) => k + 1, {"p", "q"})
  }

  lemma CountingStarts()
    ensures Inv(Counting(), EMPTY)
  {
    EmptyStarts(Counting());
  }

  const PARENT := Flow(Some("f"), "", "basic", true, false, 0)

  const MAKE := Op.CreateFlow(Some("f"), "basic", "", true, false)

  /** The first flow, 1. */
  lemma FirstFlow()
    ensures Inv(Counting(), EMPTY)
    ensures Step(Counting(), EMPTY, MAKE) == (State(map[1 := PARENT], map[], map[], 1), Created(1))
  {
    CountingStarts();
    hide Inv;
    assert EMPTY.ByAlias("f") == None;
    assert EMPTY.ListFlows() == [];
    assert EMPTY.NextOrdinal() == 0;
  }

  lemma RunUnfolds(env: Env, s: State, op: Op, ops: seq<Op>)
    requires Inv(env, s)
    ensures Inv(env, Step(env, s, op).0) && Run(env, s, [op] + ops) == Run(env, Step(env, s, op).0, ops)
    ensures Run(env, s, []) == s
  {
    StepKeeps(env, s, op);
    hide Inv, Step;
    assert ([op] + ops)[0] == op && ([op] + ops)[1..] == ops;
  }

  // ----- two rows that tie -----

  const TWO := [Op.CreateExecution(1, "p", "REQUIRED", 1), Op.CreateExecution(1, "q", "REQUIRED", 1)]

  const TIED := State(map[1 := PARENT],
                      map[2 := Row(1, "p", NO_ID, NO_ID, "REQUIRED", 1), 3 := Row(1, "q", NO_ID, NO_ID, "REQUIRED", 1)],
                      map[], 3)

  lemma TiedIsReached()
    ensures Inv(Counting(), EMPTY) && Run(Counting(), EMPTY, [MAKE] + TWO) == TIED && Inv(Counting(), TIED)
  {
    FirstFlow();
    var env := Counting();
    var s := State(map[1 := PARENT], map[], map[], 1);
    hide Inv, State.ByAlias, State.NextOrdinal, State.Listing;
    RunUnfolds(env, EMPTY, MAKE, TWO);
    assert TWO == [TWO[0]] + [TWO[1]] && [TWO[1]] == [TWO[1]] + [];
    RunUnfolds(env, s, TWO[0], [TWO[1]]);
    var t := s.(rows := map[2 := Row(1, "p", NO_ID, NO_ID, "REQUIRED", 1)], next := 2);
    assert Step(env, s, TWO[0]).0 == t;
    RunUnfolds(env, t, TWO[1], []);
    assert Step(env, t, TWO[1]).0 == TIED;
    RunUnfolds(env, TIED, TWO[1], []);
  }

  /** The two rows differ, so some supply of identifiers has the copy list them the
      other way round. */
  lemma TiedCopyDiffers()
    ensures Inv(Counting(), TIED) && Rooted(TIED) && !Faithful(TIED, 1)
    ensures exists e: Env :: Inv(e, TIED) && !ListsAlike(e, TIED, 1, "copy")
  {
    TiedIsReached();
    InvRooted(Counting(), TIED);
    assert 2 in TIED.RowsOf(1) && 3 in TIED.RowsOf(1);
    assert Branch(TIED, 1, 2).0.authenticator == "p" && Branch(TIED, 1, 3).0.authenticator == "q";
    assert !Faithful(TIED, 1);
    hide *;
    var e := UnfaithfulCopy(Counting(), TIED, 1, "copy");
  }

  lemma TiedListing()
    ensures TIED.Listing(1) == [2, 3] && Ladder(TIED, 1) == [1, 1]
  {
    ListingLists(TIED, 1);
    assert TIED.RowsOf(1) == {2, 3};
    assert IsListing([2, 3], TIED.RowsOf(1), TIED.Priorities());
    ListingUnique([2, 3], TIED.Listing(1), TIED.RowsOf(1), TIED.Priorities());
  }

  /** Raising the second of them moves nothing. */
  lemma TiedRaiseStays()
    ensures TIED.Listing(1) == [2, 3] && DoMovePriority(TIED, 3, true).1 == Done
    ensures DoMovePriority(TIED, 3, true).0.Listing(1) == [2, 3] && Swap([2, 3], 0, 1) == [3, 2]
  {
    TiedListing();
    IndexOfListed([2, 3], 1);
    hide State.Listing;
    assert SwapPriorities(TIED, 3, 2) == TIED;
  }

  /** Nor does any run of raises. */
  lemma TiedNeverTurns()
    ensures !Attainable(TIED, 1, [3, 2])
  {
    TiedListing();
    hide *;
    assert Swap([2, 3], 0, 1) == [3, 2];
    TieIsStuck(TIED, 1, 0, [3, 2]);
  }

  // ----- a row ahead of the count -----

  const AHEAD := State(map[1 := PARENT], map[2 := Row(1, "p", NO_ID, NO_ID, "REQUIRED", 5)], map[], 2)

  lemma AheadIsReached()
    ensures Inv(Counting(), EMPTY) && Inv(Counting(), AHEAD)
    ensures Run(Counting(), EMPTY, [MAKE, Op.CreateExecution(1, "p", "REQUIRED", 5)]) == AHEAD
  {
    FirstFlow();
    var env, op := Counting(), Op.CreateExecution(1, "p", "REQUIRED", 5);
    var s := State(map[1 := PARENT], map[], map[], 1);
    hide Inv, State.ByAlias, State.NextOrdinal, State.Listing;
    assert [MAKE, op] == [MAKE] + [op] && [op] == [op] + [];
    RunUnfolds(env, EMPTY, MAKE, [op]);
    RunUnfolds(env, s, op, []);
    assert Step(env, s, op).0 == AHEAD;
    RunUnfolds(env, AHEAD, op, []);
  }

  /** The row created next takes priority 1 and lists first. */
  lemma AheadCreatesFirst()
    ensures DoCreateFlowExecution(Counting(), AHEAD, "f", "q").1 == Created(3)
    ensures DoCreateFlowExecution(Counting(), AHEAD, "f", "q").0.Listing(1) == [3, 2]
  {
    ListingLists(AHEAD, 1);
    assert AHEAD.RowsOf(1) == {2};
    assert IsListing([2], AHEAD.RowsOf(1), AHEAD.Priorities());
    ListingUnique([2], AHEAD.Listing(1), AHEAD.RowsOf(1), AHEAD.Priorities());
    NamedFlow(AHEAD);
    hide State.Listing, State.ByAlias;
    var t := DoCreateFlowExecution(Counting(), AHEAD, "f", "q").0;
    assert t.rows == AHEAD.rows[3 := Row(1, "q", NO_ID, NO_ID, "DISABLED", 1)];
    ThreeBeforeTwo(t);
  }

  lemma ThreeBeforeTwo(t: State)
    requires t.rows == AHEAD.rows[3 := Row(1, "q", NO_ID, NO_ID, "DISABLED", 1)]
    ensures t.Listing(1) == [3, 2]
  {
    ListingLists(t, 1);
    assert t.RowsOf(1) == {2, 3};
    assert IsListing([3, 2], t.RowsOf(1), t.Priorities());
    ListingUnique([3, 2], t.Listing(1), t.RowsOf(1), t.Priorities());
  }

  lemma NamedFlow(s: State)
    requires s.flows == map[1 := PARENT]
    ensures s.ByAlias("f") == Some(1) && s.ByAlias("g") == None && s.NextOrdinal() == 1
  {
    assert (set f | f in s.flows && s.flows[f].alias == Some("f")) == {1};
    assert (set f | f in s.flows && s.flows[f].alias == Some("g")) == {};
    assert 1 in s.ListFlows();
  }

  // ----- a link that dangles -----

  const SUB := Op.CreateSubFlow("f", "g", "basic", "", "")

  const LEFT := State(map[1 := PARENT], map[3 := Row(1, "", 2, NO_ID, "DISABLED", 0)], map[], 3)

  const BOTH := LEFT.(flows := map[1 := PARENT, 2 := Flow(Some("g"), "", "basic", false, false, 1)])

  /** Deleting a sub-flow leaves the row above it pointing at nothing. */
  lemma LeftIsReached()
    ensures Inv(Counting(), EMPTY) && Inv(Counting(), LEFT)
    ensures Run(Counting(), EMPTY, [MAKE, SUB, Op.DeleteFlow(2)]) == LEFT
  {
    hide *;
    FirstFlow();
    var env, gone := Counting(), Op.DeleteFlow(2);
    var s := State(map[1 := PARENT], map[], map[], 1);
    assert [MAKE, SUB, gone] == [MAKE] + [SUB, gone] && [SUB, gone] == [SUB] + [gone] && [gone] == [gone] + [];
    RunUnfolds(env, EMPTY, MAKE, [SUB, gone]);
    SubFlowMade(s);
    RunUnfolds(env, s, SUB, [gone]);
    SubFlowGone();
    RunUnfolds(env, BOTH, gone, []);
    RunUnfolds(env, LEFT, gone, []);
  }

  lemma SubFlowMade(s: State)
    requires Inv(Counting(), s) && s == State(map[1 := PARENT], map[], map[], 1)
    ensures Step(Counting(), s, SUB).0 == BOTH
  {
    hide Inv, DoCreateSubFlow;
    SubFlowStored(s, BOTH);
  }

  lemma SubFlowGone()
    requires Inv(Counting(), BOTH)
    ensures Step(Counting(), BOTH, Op.DeleteFlow(2)).0 == LEFT
  {
    hide Inv;
    assert BOTH.RowsOf(2) == {};
  }

  lemma SubFlowStored(s: State, t: State)
    requires s == State(map[1 := PARENT], map[], map[], 1)
    requires t == State(map[1 := PARENT, 2 := Flow(Some("g"), "", "basic", false, false, 1)], LEFT.rows, map[], 3)
    ensures DoCreateSubFlow(Counting(), s, "f", "g", "basic", "", "") == (t, Created(2))
  {
    NamedFlow(s);
    var s1 := AddFlow(Counting(), s, Flow(Some("g"), "", "basic", false, false, 0)).0;
    assert s1.RowsOf(1) == {};
    assert s1.Listing(1) == [];
    hide State.ByAlias, State.NextOrdinal, State.Listing;
  }

  /** Its copy points at nothing, and says so: it lists differently even when ties fall
      in creation order. */
  lemma LeftCopyDiffers()
    ensures Inv(Counting(), LEFT) && Rooted(LEFT) && !Sound(LEFT, 1) && !ListsAlike(Counting(), LEFT, 1, "copy")
  {
    hide *;
    LeftIsReached();
    InvRooted(Counting(), LEFT);
    LeftUnsound();
    CountingIncreases(LEFT.next, LEFT.next + Draws(LEFT, 1));
    IncreasingListsAlike(Counting(), LEFT, 1, "copy");
  }

  lemma LeftUnsound()
    requires Rooted(LEFT)
    ensures 1 in LEFT.flows && !Sound(LEFT, 1)
  {
    assert 3 in LEFT.RowsOf(1) && !SoundRow(LEFT, 1, 3);
  }

  lemma CountingIncreases(lo: nat, hi: nat)
    ensures IncreasingOn(Counting(), lo, hi)
  {
  }

  // ----- a realm that comes with flows -----

  /** A built-in flow whose two rows point at a built-in sub-flow and at a config. */
  const SEEDED := State(map[1 := PARENT.(builtIn := true), 2 := Flow(Some("g"), "", "basic", false, true, 1)],
                        map[3 := Row(1, "", 2, NO_ID, "REQUIRED", 10), 4 := Row(2, "p", NO_ID, 5, "REQUIRED", 20)],
                        map[5 := Config("c", [])], 5)

  lemma SeededStarts()
    ensures Inv(Counting(), SEEDED)
  {
    var env, s := Counting(), SEEDED;
    forall k: nat | k >= s.next ensures IsFresh(s, env.ids(k)) {}
    forall r | r in s.rows ensures LinkAscends(s.flows, s.rows[r]) && RowLive(s.flows, s.configs, s.rows[r]) {}
  }
}
