/** Where rows land when priorities may tie: exact conditions for one move, and for
    a new row, to do what they promise (internal/admin/flows.go:957-1098, 1248-1293). */
module FlowOrder {
  import opened Basics
  import opened Ordering
  import opened FlowModel
  import opened FlowForest
  import opened FlowRuns
  import opened FlowPriority
  import opened FlowCopyAlike
  import opened FlowCopySpoilt

  // ----- one move -----

  /** The rows at `i` and `i + 1` have different priorities, and if the row on either
      side shares one of them, the row about to stand beside it has the id for the place. */
  predicate Clear(ids: seq<Id>, k: seq<int>, i: nat)
    requires |k| == |ids| && i + 1 < |ids|
  {
    && k[i] < k[i + 1]
    && (i > 0 && k[i - 1] == k[i] ==> ids[i - 1] < ids[i + 1])
    && (i + 2 < |ids| && k[i + 1] == k[i + 2] ==> ids[i] < ids[i + 2])
  }

  /** Exchanging the priorities of two neighbours exchanges the two rows, and moves no
      other, exactly when they are clear of ties. */
  lemma SwapTransposesIff(s: State, flow: Id, i: nat)
    requires i + 1 < |s.Listing(flow)|
    ensures
      SwapPriorities(s, RowAt(s, flow, i), RowAt(s, flow, i + 1)).Listing(flow) == Swap(s.Listing(flow), i, i + 1)
      <==> Clear(s.Listing(flow), Ladder(s, flow), i)
  {
    var ids, k := s.Listing(flow), Ladder(s, flow);
    var t := SwapPriorities(s, RowAt(s, flow, i), RowAt(s, flow, i + 1));
    ListingLists(s, flow);
    ListingLists(t, flow);
    SwapExchanges(s, ids[i], ids[i + 1], flow);
    hide State.Listing, SwapPriorities, State.Priorities, State.RowsOf, IsListing, Exchanged;
    ExchangeTransposes(ids, t.Listing(flow), s.RowsOf(flow), s.Priorities(), t.Priorities(), i);
  }

  lemma ExchangeTransposes(a: seq<Id>, b: seq<Id>, s: set<Id>, key: map<Id, int>, key': map<Id, int>, i: nat)
    requires s <= key.Keys && s <= key'.Keys && IsListing(a, s, key) && IsListing(b, s, key')
    requires i + 1 < |a| && Exchanged(s, key, key', a[i], a[i + 1])
    requires forall p | 0 <= p < |a| :: a[p] in key
    ensures b == Swap(a, i, i + 1) <==> Clear(a, KeysOf(a, key), i)
  {
    hide IsListing, Exchanged, KeysOf, Swap, Clear;
    var c, k := Swap(a, i, i + 1), KeysOf(a, key);
    SwappedKeys(a, s, key, key', i);
    if b == c { ClearIf(a, c, s, key, key', i); }
    if Clear(a, k, i) {
      forall p: nat, q: nat | p < q < |c| ensures k[p] < k[q] || (k[p] == k[q] && c[p] < c[q]) {
        ClearOrder(a, k, c, i, p, q);
      }
      OrderedLists(c, s, key', k);
      ListingUnique(b, c, s, key');
    }
  }

  /** The exchanged keys along the swapped list are the old keys along the old one. */
  lemma SwappedKeys(a: seq<Id>, s: set<Id>, key: map<Id, int>, key': map<Id, int>, i: nat)
    requires s <= key.Keys && s <= key'.Keys && IsListing(a, s, key) && i + 1 < |a|
      && Exchanged(s, key, key', a[i], a[i + 1])
    requires forall p | 0 <= p < |a| :: a[p] in key
    ensures
      var c, k := Swap(a, i, i + 1), KeysOf(a, key);
      && |k| == |a| && (forall x :: x in s <==> x in c)
      && (forall p | 0 <= p < |c| :: c[p] in s && key'[c[p]] == k[p])
      && forall p: nat, q: nat | p < q < |a| :: k[p] < k[q] || (k[p] == k[q] && a[p] < a[q])
  {
    hide Swap, IsListing, Exchanged, KeysOf;
    var c, k := Swap(a, i, i + 1), KeysOf(a, key);
    ListedMembers(a, s, key);
    ExchangedKeys(a, s, key, key', i, i + 1);
    SwapMembers(a, i, s, key, c);
    KeysAre(a, key);
    KeysAre(c, key');
    forall p | 0 <= p < |c| ensures c[p] in s && key'[c[p]] == k[p] { assert c[p] in c; }
    forall p: nat, q: nat | p < q < |a|
      ensures k[p] < k[q] || (k[p] == k[q] && a[p] < a[q])
    {
      ListedOrder(a, s, key, p, q);
    }
  }

  lemma KeysAre(a: seq<Id>, key: map<Id, int>)
    requires forall p | 0 <= p < |a| :: a[p] in key
    ensures |KeysOf(a, key)| == |a| && forall p | 0 <= p < |a| :: KeysOf(a, key)[p] == key[a[p]]
  {
  }

  lemma ClearIf(a: seq<Id>, c: seq<Id>, s: set<Id>, key: map<Id, int>, key': map<Id, int>, i: nat)
    requires s <= key.Keys && s <= key'.Keys && i + 1 < |a| && c == Swap(a, i, i + 1) && IsListing(c, s, key')
    requires forall p | 0 <= p < |a| :: a[p] in key
    requires forall p | 0 <= p < |c| :: c[p] in s && key'[c[p]] == KeysOf(a, key)[p]
    requires
      var k := KeysOf(a, key);
      forall p: nat, q: nat | p < q < |a| :: k[p] < k[q] || (k[p] == k[q] && a[p] < a[q])
    ensures Clear(a, KeysOf(a, key), i)
  {
    hide IsListing, KeysOf, Swap;
    ListedOrder(c, s, key', i, i + 1);
    if i > 0 { ListedOrder(c, s, key', i - 1, i); }
    if i + 2 < |a| { ListedOrder(c, s, key', i + 1, i + 2); }
  }

  lemma SwapMembers(a: seq<Id>, i: nat, s: set<Id>, key: map<Id, int>, c: seq<Id>)
    requires i + 1 < |a| && c == Swap(a, i, i + 1) && s <= key.Keys && IsListing(a, s, key)
    ensures forall x :: x in s <==> x in c
  {
    hide Swap, Before;
    forall x ensures x in s <==> x in c { assert x in a <==> x in multiset(a); }
  }

  lemma ListedOrder(a: seq<Id>, s: set<Id>, key: map<Id, int>, p: nat, q: nat)
    requires s <= key.Keys && IsListing(a, s, key) && p < q < |a|
    ensures a[p] in key && a[q] in key && Before(key, a[p], a[q])
  {
    assert a[p] in a && a[q] in a;
  }

  lemma OrderedLists(c: seq<Id>, s: set<Id>, key: map<Id, int>, k: seq<int>)
    requires s <= key.Keys && |k| == |c| && (forall x :: x in s <==> x in c)
    requires forall p | 0 <= p < |c| :: c[p] in s && key[c[p]] == k[p]
    requires forall p: nat, q: nat | p < q < |c| :: k[p] < k[q] || (k[p] == k[q] && c[p] < c[q])
    ensures IsListing(c, s, key)
  {
  }

  /** With two neighbours clear of ties exchanged, the order still holds everywhere. */
  lemma ClearOrder(a: seq<Id>, k: seq<int>, c: seq<Id>, i: nat, p: nat, q: nat)
    requires |k| == |a| == |c| && i + 1 < |a| && Clear(a, k, i) && p < q < |a|
    requires forall x | 0 <= x < |a| :: c[x] == a[if x == i then i + 1 else if x == i + 1 then i else x]
    requires forall x, y | 0 <= x < y < |a| :: k[x] < k[y] || (k[x] == k[y] && a[x] < a[y])
    ensures k[p] < k[q] || (k[p] == k[q] && c[p] < c[q])
  {
    if q == i && k[p] == k[q] {
      assert p == i - 1 || (k[p] <= k[i - 1] <= k[i] && a[p] < a[i - 1]);
    } else if p == i + 1 && k[p] == k[q] {
      assert q == i + 2 || (k[i + 1] <= k[i + 2] <= k[q] && a[i + 2] < a[q]);
    } else if p == i || q == i + 1 {
      assert p < i ==> k[p] <= k[i];
      assert q > i + 1 ==> k[i + 1] <= k[q];
    }
  }

  /** raise-priority on the row at `i + 1`, and lower-priority on the row at `i`. */
  lemma MoveTransposesIff(s: State, flow: Id, i: nat)
    requires Movable(s, flow) && i + 1 < |s.Listing(flow)|
    ensures
      var raised := DoMovePriority(s, RowAt(s, flow, i + 1), true).0;
      var lowered := DoMovePriority(s, RowAt(s, flow, i), false).0;
      && raised == lowered
      && (raised.Listing(flow) == Swap(s.Listing(flow), i, i + 1) <==> Clear(s.Listing(flow), Ladder(s, flow), i))
  {
    var ids := s.Listing(flow);
    ListingLists(s, flow);
    SwapTransposesIff(s, flow, i);
    hide State.Listing, Clear, Ladder;
    IndexOfListed(ids, i);
    IndexOfListed(ids, i + 1);
    SwapEitherWay(s, ids[i], ids[i + 1]);
  }

  lemma SwapEitherWay(s: State, a: Id, b: Id)
    requires a in s.rows && b in s.rows
    ensures SwapPriorities(s, a, b) == SwapPriorities(s, b, a)
  {
    assert SwapPriorities(s, a, b).rows == SwapPriorities(s, b, a).rows;
  }

  // ----- a new row -----

  /** A row of priority `n` and identifier `id` sorts after every row listed. */
  predicate Afterwards(ids: seq<Id>, k: seq<int>, id: Id, n: int)
    requires |k| == |ids|
  {
    ids == [] || k[|k| - 1] < n || (k[|k| - 1] == n && ids[|ids| - 1] < id)
  }

  /** `t` is `s` with one more row, `id`, in `flow`. */
  ghost predicate OneMore(s: State, t: State, flow: Id, id: Id, n: int) {
    && id !in s.rows && id in t.rows && t.rows[id].parent == flow && t.rows[id].priority == n
    && t.rows.Keys == s.rows.Keys + {id} && forall r | r in s.rows :: t.rows[r] == s.rows[r]
  }

  lemma NewRowLastIff(s: State, t: State, flow: Id, id: Id, n: int)
    requires OneMore(s, t, flow, id, n)
    ensures t.Listing(flow) == s.Listing(flow) + [id] <==> Afterwards(s.Listing(flow), Ladder(s, flow), id, n)
  {
    var ids, k := s.Listing(flow), Ladder(s, flow);
    ListingLists(s, flow);
    ListingLists(t, flow);
    assert t.RowsOf(flow) == s.RowsOf(flow) + {id};
    assert t.Priorities()[id] == n && forall x | x in s.RowsOf(flow) :: t.Priorities()[x] == s.Priorities()[x];
    hide State.Listing, OneMore, State.Priorities, State.RowsOf, IsListing;
    AppendLists(ids, t.Listing(flow), s.RowsOf(flow), s.Priorities(), t.Priorities(), id, n);
  }

  lemma AppendLists(a: seq<Id>, b: seq<Id>, s: set<Id>, key: map<Id, int>, key': map<Id, int>, id: Id, n: int)
    requires s <= key.Keys && s + {id} <= key'.Keys && id !in s && key'[id] == n
      && forall x | x in s :: key'[x] == key[x]
    requires IsListing(a, s, key) && IsListing(b, s + {id}, key') && forall p | 0 <= p < |a| :: a[p] in key && a[p] in s
    ensures b == a + [id] <==> Afterwards(a, KeysOf(a, key), id, n)
  {
    var c, k := a + [id], KeysOf(a, key);
    assert b == c ==> |b| == |a| + 1;
    hide IsListing;
    if b == c && a != [] {
      ListedOrder(b, s + {id}, key', |a| - 1, |a|);
      assert c[|a| - 1] == a[|a| - 1] && c[|a|] == id;
    }
    if Afterwards(a, k, id, n) {
      forall p: nat, q: nat | p < q < |c|
        ensures (k + [n])[p] < (k + [n])[q] || ((k + [n])[p] == (k + [n])[q] && c[p] < c[q])
      {
        if q < |a| {
          ListedOrder(a, s, key, p, q);
        } else if p < |a| - 1 {
          ListedOrder(a, s, key, p, |a| - 1);
        }
      }
      forall x ensures x in s + {id} <==> x in c { assert x in c <==> x in a || x == id; }
      OrderedLists(c, s + {id}, key', k + [n]);
      ListingUnique(b, c, s + {id}, key');
    }
  }

  /** A new row takes the number of rows for its priority. It lists last exactly when
      no listed priority has outrun that number, as deletions and free priorities let one do. */
  lemma CreatedRowLastIff(env: Env, s: State, flowAlias: string, provider: string, id: Id)
    requires Inv(env, s) && DoCreateFlowExecution(env, s, flowAlias, provider).1 == Created(id)
    ensures s.ByAlias(flowAlias).Some?
    ensures
      var t, f := DoCreateFlowExecution(env, s, flowAlias, provider).0, s.ByAlias(flowAlias).value;
      t.Listing(f) == s.Listing(f) + [id] <==> Afterwards(s.Listing(f), Ladder(s, f), id, |s.Listing(f)|)
  {
    var t, f := DoCreateFlowExecution(env, s, flowAlias, provider).0, s.ByAlias(flowAlias).value;
    NextAreFresh(env, s);
    hide State.Listing, Inv, Ladder, Afterwards, State.ByAlias;
    NewRowLastIff(s, t, f, id, |s.Listing(f)|);
  }

  /** The same of the row a new sub-flow hangs on. */
  lemma CreatedSubFlowLastIff(env: Env, s: State, flowAlias: string, subAlias: string, kind: string,
    description: string, provider: string, sub: Id)
    requires Inv(env, s) && DoCreateSubFlow(env, s, flowAlias, subAlias, kind, description, provider).1 == Created(sub)
    ensures s.ByAlias(flowAlias).Some?
    ensures
      var t, f := DoCreateSubFlow(env, s, flowAlias, subAlias, kind, description, provider).0,
        s.ByAlias(flowAlias).value;
      var row := env.ids(s.next + 1);
      && row in t.rows && t.rows[row].flow == sub && t.Listing(sub) == []
      && (t.Listing(f) == s.Listing(f) + [row] <==> Afterwards(s.Listing(f), Ladder(s, f), row, |s.Listing(f)|))
  {
    hide *;
    NextAreFresh(env, s);
    SubFlowTables(env, s, flowAlias, subAlias, kind, description, provider, sub);
    var t, f, row := DoCreateSubFlow(env, s, flowAlias, subAlias, kind, description, provider).0,
      s.ByAlias(flowAlias).value, env.ids(s.next + 1);
    FreshIsNoRow(s, row);
    AddedIsOneMore(s, t, row, t.rows[row]);
    NewRowLastIff(s, t, f, row, |s.Listing(f)|);
    NoRowsOfNew(env, s, sub);
    FreshIsNoRow(s, sub);
    ListsNothing(t, sub);
  }

  lemma AddedIsOneMore(s: State, t: State, id: Id, e: Row)
    requires id !in s.rows && t.rows == s.rows[id := e]
    ensures OneMore(s, t, e.parent, id, e.priority)
  {
  }

  /** What the request stores in the table of rows. */
  lemma SubFlowTables(env: Env, s: State, flowAlias: string, subAlias: string, kind: string, description: string,
    provider: string, sub: Id)
    requires DoCreateSubFlow(env, s, flowAlias, subAlias, kind, description, provider).1 == Created(sub)
    ensures s.ByAlias(flowAlias).Some? && sub == env.ids(s.next)
    ensures
      var t, f := DoCreateSubFlow(env, s, flowAlias, subAlias, kind, description, provider).0,
        s.ByAlias(flowAlias).value;
      f in s.flows && t.rows == s.rows[env.ids(s.next + 1) := Row(f, provider, sub, NO_ID, "DISABLED", |s.Listing(f)|)]
  {
    hide State.Listing, State.NextOrdinal, State.ByAlias, State.RowsOf;
    if s.ByAlias(flowAlias).Some? {
      SameRowsList(s, AddFlow(env, s, Flow(AliasFor(subAlias), description, kind, false, false, 0)).0,
        s.ByAlias(flowAlias).value);
    }
  }

  lemma FreshIsNoRow(s: State, x: Id)
    requires IsFresh(s, x)
    ensures x !in s.rows && x !in s.flows
  {
  }

  lemma SameRowsList(s: State, t: State, flow: Id)
    requires s.rows == t.rows
    ensures s.Listing(flow) == t.Listing(flow)
  {
    assert s.RowsOf(flow) == t.RowsOf(flow);
    SortedAgrees(s.RowsOf(flow), s.Priorities(), t.Priorities());
  }

  lemma ListsNothing(s: State, flow: Id)
    requires forall r | r in s.rows :: s.rows[r].parent != flow
    ensures s.Listing(flow) == []
  {
    ListingLists(s, flow);
    hide State.Listing;
    assert s.RowsOf(flow) == {};
    ListedMembers(s.Listing(flow), s.RowsOf(flow), s.Priorities());
  }

  lemma NoRowsOfNew(env: Env, s: State, x: Id)
    requires Inv(env, s) && IsFresh(s, x)
    ensures forall r | r in s.rows :: s.rows[r].parent != x
  {
    assert forall r | r in s.rows :: RowLive(s.flows, s.configs, s.rows[r]);
  }

  // ----- the same before an identifier is drawn -----

  /** The identifiers `e` supplies could be handed out from here on, in place of `env`'s. */
  ghost predicate Supplies(e: Env, env: Env, s: State) {
    Inv(e, s) && e.providers == env.providers
  }

  predicate Under(k: seq<int>, n: int) {
    k == [] || k[|k| - 1] < n
  }

  /** The last priority listed is `n` itself. */
  predicate Even(k: seq<int>, n: int) {
    k != [] && k[|k| - 1] == n
  }

  /** An identifier not in use and smaller than the last one listed. */
  ghost predicate SpareBelow(s: State, ids: seq<Id>) {
    ids != [] && exists x: Id :: IsFresh(s, x) && x < ids[|ids| - 1]
  }

  /** A supply whose `d`-th identifier, still to be drawn, is a given one not in use. */
  lemma SupplyOf(env: Env, s: State, d: nat, x: Id) returns (e: Env)
    requires Inv(env, s) && IsFresh(s, x) && d >= s.next
    ensures Supplies(e, env, s) && e.ids(d) == x
  {
    var taken := Taken(env, s) + {x};
    var m := Bound(taken);
    e := Env((k: nat) => if k == d then x else m + k, env.providers);
    forall k: nat | k >= s.next ensures IsFresh(s, e.ids(k)) {
      if k != d {
        assert m + k !in taken;
        BeyondIsFresh(env, s, m + k);
      }
    }
    assert x in taken;
    hide IsFresh;
  }

  /** Some supply draws an identifier greater than a given one. */
  lemma SupplyAbove(env: Env, s: State, d: nat, x: Id) returns (e: Env)
    requires Inv(env, s) && d >= s.next
    ensures Supplies(e, env, s) && x < e.ids(d)
  {
    hide Inv;
    var taken := Taken(env, s) + {x};
    var y := Bound(taken);
    assert x in taken && y !in taken;
    BeyondIsFresh(env, s, y);
    e := SupplyOf(env, s, d, y);
  }

  /** Whether a row of priority `n` sorts last depends on the identifier drawn for it
      only when the last priority listed is `n`. */
  lemma DrawDecides(env: Env, s: State, flow: Id, n: int, d: nat)
    requires Inv(env, s) && d >= s.next
    ensures
      var ids, k := s.Listing(flow), Ladder(s, flow);
      && ((exists e: Env :: Supplies(e, env, s) && Afterwards(ids, k, e.ids(d), n)) <==> Under(k, n) || Even(k, n))
      && ((forall e: Env | Supplies(e, env, s) :: Afterwards(ids, k, e.ids(d), n))
          <==> Under(k, n) || (Even(k, n) && !SpareBelow(s, ids)))
  {
    hide Inv, Ladder, State.Listing, SpareBelow, Under, Even, Afterwards, IsFresh;
    assert Supplies(env, env, s);
    var ids, k := s.Listing(flow), Ladder(s, flow);
    forall id: Id
      ensures Afterwards(ids, k, id, n) <==> Under(k, n) || (Even(k, n) && ids != [] && ids[|ids| - 1] < id)
    {
      AfterwardsIs(ids, k, id, n);
    }
    if Even(k, n) {
      UnderNotEven(ids, k, n);
      var e := SupplyAbove(env, s, d, ids[|ids| - 1]);
      assert Afterwards(ids, k, e.ids(d), n);
      if SpareBelow(s, ids) {
        var x := SpareOne(s, ids);
        var low := SupplyOf(env, s, d, x);
        assert !Afterwards(ids, k, low.ids(d), n);
      } else {
        ListedRow(s, flow, |ids| - 1);
        forall e: Env | Supplies(e, env, s) ensures Afterwards(ids, k, e.ids(d), n) { NotBelow(e, env, s, ids, d); }
      }
    } else {
      assert Afterwards(ids, k, env.ids(d), n) <==> Under(k, n);
    }
  }

  lemma UnderNotEven(ids: seq<Id>, k: seq<int>, n: int)
    requires |k| == |ids| && Even(k, n)
    ensures !Under(k, n) && ids != []
  {
  }

  lemma AfterwardsIs(ids: seq<Id>, k: seq<int>, id: Id, n: int)
    requires |k| == |ids|
    ensures Afterwards(ids, k, id, n) <==> Under(k, n) || (Even(k, n) && ids != [] && ids[|ids| - 1] < id)
  {
  }

  lemma SpareOne(s: State, ids: seq<Id>) returns (x: Id)
    requires SpareBelow(s, ids)
    ensures ids != [] && IsFresh(s, x) && x < ids[|ids| - 1]
  {
    hide IsFresh;
    x :| IsFresh(s, x) && x < ids[|ids| - 1];
  }

  /** With no spare identifier below, whatever is drawn is above. */
  lemma NotBelow(e: Env, env: Env, s: State, ids: seq<Id>, d: nat)
    requires Supplies(e, env, s) && ids != [] && !SpareBelow(s, ids) && ids[|ids| - 1] in s.rows && d >= s.next
    ensures ids[|ids| - 1] < e.ids(d)
  {
    assert IsFresh(s, e.ids(d));
  }

  ghost predicate RowLast(e: Env, s: State, flowAlias: string, provider: string) {
    var (t, a) := DoCreateFlowExecution(e, s, flowAlias, provider);
    var f := s.ByAlias(flowAlias);
    a.Created? && f.Some? && t.Listing(f.value) == s.Listing(f.value) + [a.id]
  }

  /** A created row lists last with some supply of identifiers exactly when the last
      priority listed is at most the number of rows, and with every supply exactly when
      it is less, or is that number and no identifier to spare is smaller. */
  lemma CreatedRowLast(env: Env, s: State, flowAlias: string, provider: string)
    requires Inv(env, s) && DoCreateFlowExecution(env, s, flowAlias, provider).1.Created?
    ensures s.ByAlias(flowAlias).Some?
    ensures
      var f := s.ByAlias(flowAlias).value;
      var ids, k, n := s.Listing(f), Ladder(s, f), |s.Listing(f)|;
      && ((exists e: Env :: Supplies(e, env, s) && RowLast(e, s, flowAlias, provider)) <==> Under(k, n) || Even(k, n))
      && ((forall e: Env | Supplies(e, env, s) :: RowLast(e, s, flowAlias, provider))
          <==> Under(k, n) || (Even(k, n) && !SpareBelow(s, ids)))
  {
    hide Inv, Ladder, State.Listing, State.ByAlias, SpareBelow, Under, Even, Afterwards, RowLast, Supplies,
      DoCreateFlowExecution;
    RowLastAfter(env, env, s, flowAlias, provider);
    var f := s.ByAlias(flowAlias).value;
    var ids, k, n := s.Listing(f), Ladder(s, f), |s.Listing(f)|;
    forall e: Env | Supplies(e, env, s)
      ensures RowLast(e, s, flowAlias, provider) <==> Afterwards(ids, k, e.ids(s.next), n)
    {
      RowLastAfter(e, env, s, flowAlias, provider);
    }
    DrawDecides(env, s, f, n, s.next);
  }

  lemma RowLastAfter(e: Env, env: Env, s: State, flowAlias: string, provider: string)
    requires Inv(env, s) && (e == env || Supplies(e, env, s))
    requires DoCreateFlowExecution(env, s, flowAlias, provider).1.Created?
    ensures s.ByAlias(flowAlias).Some?
    ensures
      var f := s.ByAlias(flowAlias).value;
      RowLast(e, s, flowAlias, provider) <==> Afterwards(s.Listing(f), Ladder(s, f), e.ids(s.next), |s.Listing(f)|)
  {
    hide Inv, Afterwards, Ladder, State.Listing, State.ByAlias;
    CreatedRowLastIff(e, s, flowAlias, provider, e.ids(s.next));
  }

  ghost predicate SubFlowLast(e: Env, s: State, flowAlias: string, subAlias: string, kind: string, description: string,
                              provider: string)
  {
    var (t, a) := DoCreateSubFlow(e, s, flowAlias, subAlias, kind, description, provider);
    var f := s.ByAlias(flowAlias);
    && a.Created? && f.Some? && e.ids(s.next + 1) in t.rows && t.rows[e.ids(s.next + 1)].flow == a.id
    && t.Listing(f.value) == s.Listing(f.value) + [e.ids(s.next + 1)]
  }

  /** The same of the row a created sub-flow hangs on. */
  lemma CreatedSubFlowLast(env: Env, s: State, flowAlias: string, subAlias: string, kind: string, description: string,
                           provider: string)
    requires Inv(env, s) && DoCreateSubFlow(env, s, flowAlias, subAlias, kind, description, provider).1.Created?
    ensures s.ByAlias(flowAlias).Some?
    ensures
      var f := s.ByAlias(flowAlias).value;
      var ids, k, n := s.Listing(f), Ladder(s, f), |s.Listing(f)|;
      && ((exists e: Env :: Supplies(e, env, s) && SubFlowLast(e, s, flowAlias, subAlias, kind, description, provider))
          <==> Under(k, n) || Even(k, n))
      && ((forall e: Env | Supplies(e, env, s) :: SubFlowLast(e, s, flowAlias, subAlias, kind, description, provider))
          <==> Under(k, n) || (Even(k, n) && !SpareBelow(s, ids)))
  {
    hide Inv, Ladder, State.Listing, State.ByAlias, SpareBelow, Under, Even, Afterwards, SubFlowLast, Supplies,
      DoCreateSubFlow;
    SubFlowLastAfter(env, env, s, flowAlias, subAlias, kind, description, provider);
    var f := s.ByAlias(flowAlias).value;
    var ids, k, n := s.Listing(f), Ladder(s, f), |s.Listing(f)|;
    forall e: Env | Supplies(e, env, s)
      ensures SubFlowLast(e, s, flowAlias, subAlias, kind, description, provider)
         <==> Afterwards(ids, k, e.ids(s.next + 1), n)
    {
      SubFlowLastAfter(e, env, s, flowAlias, subAlias, kind, description, provider);
    }
    DrawDecides(env, s, f, n, s.next + 1);
  }

  lemma SubFlowAnswers(e: Env, env: Env, s: State, flowAlias: string, subAlias: string, kind: string,
                       description: string, provider: string)
    requires DoCreateSubFlow(env, s, flowAlias, subAlias, kind, description, provider).1.Created?
    ensures DoCreateSubFlow(e, s, flowAlias, subAlias, kind, description, provider).1 == Created(e.ids(s.next))
  {
    hide State.Listing, State.ByAlias, State.NextOrdinal;
  }

  lemma SubFlowLastAfter(e: Env, env: Env, s: State, flowAlias: string, subAlias: string, kind: string,
                         description: string, provider: string)
    requires Inv(env, s) && (e == env || Supplies(e, env, s))
    requires DoCreateSubFlow(env, s, flowAlias, subAlias, kind, description, provider).1.Created?
    ensures s.ByAlias(flowAlias).Some?
    ensures
      var f := s.ByAlias(flowAlias).value;
      SubFlowLast(e, s, flowAlias, subAlias, kind, description, provider)
      <==> Afterwards(s.Listing(f), Ladder(s, f), e.ids(s.next + 1), |s.Listing(f)|)
  {
    hide Inv, Afterwards, Ladder, State.Listing, State.ByAlias, DoCreateSubFlow;
    SubFlowAnswers(e, env, s, flowAlias, subAlias, kind, description, provider);
    CreatedSubFlowLastIff(e, s, flowAlias, subAlias, kind, description, provider, e.ids(s.next));
  }
}
