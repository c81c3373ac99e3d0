/** raise-priority and lower-priority: what one request and a run of them do to the
    order of a flow's rows. */
module FlowPriority {
  import opened Basics
  import opened Ordering
  import opened FlowModel
  import opened FlowForest
  import opened FlowRuns

  /** The flow's rows can be moved, and no two of them share a priority. */
  predicate Movable(s: State, flow: Id) {
    flow in s.flows ==> !s.flows[flow].builtIn
  }

  ghost predicate Distinct(s: State, flow: Id) {
    ListingLists(s, flow);
    DistinctKeys(s.RowsOf(flow), s.Priorities())
  }

  /** The priorities along a flow's listing. */
  function Ladder(s: State, flow: Id): (k: seq<int>)
    ensures |k| == |s.Listing(flow)|
  {
    ListingLists(s, flow);
    KeysOf(s.Listing(flow), s.Priorities())
  }

  /** Exchanging two rows' priorities is exchanging two keys of one flow and none of any other. */
  lemma SwapExchanges(s: State, a: Id, b: Id, flow: Id)
    requires a in s.rows && b in s.rows && s.rows[a].parent == s.rows[b].parent
    ensures SwapPriorities(s, a, b).RowsOf(flow) == s.RowsOf(flow)
    ensures
      var k, k' := s.Priorities(), SwapPriorities(s, a, b).Priorities();
      if flow == s.rows[a].parent then Exchanged(s.RowsOf(flow), k, k', a, b)
      else forall x | x in s.RowsOf(flow) :: x in k && x in k' && k'[x] == k[x]
  {
  }

  /** Exchanging two rows' priorities never changes the ladder of any flow. */
  lemma SwapKeepsLadder(s: State, a: Id, b: Id, flow: Id)
    requires a in s.rows && b in s.rows && s.rows[a].parent == s.rows[b].parent
    ensures Ladder(SwapPriorities(s, a, b), flow) == Ladder(s, flow)
  {
    var t := SwapPriorities(s, a, b);
    SwapExchanges(s, a, b, flow);
    ListingLists(s, flow);
    ListingLists(t, flow);
    var ids, ids', k, k', rows := s.Listing(flow), t.Listing(flow), s.Priorities(), t.Priorities(), s.RowsOf(flow);
    if flow == s.rows[a].parent {
      assert a in rows && b in rows;
      hide SwapPriorities, State.Listing, Exchanged, State.Priorities, State.RowsOf;
      var i := PositionOf(ids, rows, k, a);
      var j := PositionOf(ids, rows, k, b);
      hide IsListing;
      ExchangeKeepsKeys(ids, ids', rows, k, k', i, j);
    } else {
      SortedAgrees(rows, k, k');
      hide SwapPriorities, State.Priorities, IsListing, Sorted;
      assert ids == ids';
      assert forall i | 0 <= i < |ids| :: k[ids[i]] == k'[ids'[i]];
    }
  }

  /** `t` differs from `s` only in priorities of rows of `flow`. */
  ghost predicate OnlyPriorities(s: State, t: State, flow: Id) {
    && t.flows == s.flows && t.configs == s.configs && t.next == s.next && t.rows.Keys == s.rows.Keys
    && forall r | r in s.rows ::
         if s.rows[r].parent == flow then t.rows[r] == s.rows[r].(priority := t.rows[r].priority)
         else t.rows[r] == s.rows[r]
  }

  lemma SwapOnlyPriorities(s: State, a: Id, b: Id)
    requires a in s.rows && b in s.rows && s.rows[a].parent == s.rows[b].parent
    ensures OnlyPriorities(s, SwapPriorities(s, a, b), s.rows[a].parent)
  {
  }

  /** A move changes nothing but priorities, those of the row's own flow alone,
      and conserves the priorities of every flow. */
  lemma MoveConserves(s: State, row: Id, up: bool, flow: Id)
    ensures
      var t := DoMovePriority(s, row, up).0;
      Ladder(t, flow) == Ladder(s, flow)
      && if row in s.rows then OnlyPriorities(s, t, s.rows[row].parent) else t == s
  {
    MovePrioritySwaps(s, row, up);
    hide DoMovePriority, Ladder, Editable;
    var t := DoMovePriority(s, row, up).0;
    if t != s {
      var other :| row in s.rows && other in s.rows && s.rows[other].parent == s.rows[row].parent
        && t == SwapPriorities(s, row, other);
      SwapKeepsLadder(s, row, other, flow);
      SwapOnlyPriorities(s, row, other);
    } else if row in s.rows {
      hide SwapPriorities;
    }
  }

  /** With distinct priorities, exchanging those at positions `i` and `j` of the
      listing exchanges the rows there. */
  lemma SwapListing(s: State, flow: Id, i: nat, j: nat)
    requires Distinct(s, flow) && i < |s.Listing(flow)| && j < |s.Listing(flow)|
    ensures RowAt(s, flow, i) in s.rows && RowAt(s, flow, j) in s.rows
    ensures
      var t := SwapPriorities(s, RowAt(s, flow, i), RowAt(s, flow, j));
      t.Listing(flow) == Swap(s.Listing(flow), i, j) && Distinct(t, flow)
  {
    ListingLists(s, flow);
    var ids := s.Listing(flow);
    var t := SwapPriorities(s, ids[i], ids[j]);
    SwapExchanges(s, ids[i], ids[j], flow);
    ListingLists(t, flow);
    hide State.Listing, SwapPriorities, IsListing, Exchanged, State.Priorities, State.RowsOf, DistinctKeys;
    ExchangeSwaps(ids, t.Listing(flow), s.RowsOf(flow), s.Priorities(), t.Priorities(), i, j);
  }

  function RowAt(s: State, flow: Id, i: nat): (r: Id)
    requires i < |s.Listing(flow)|
    ensures r in s.rows && s.rows[r].parent == flow
  {
    ListedRow(s, flow, i);
    s.Listing(flow)[i]
  }

  lemma IndexOfListed(ids: seq<Id>, i: nat)
    requires NoRepeats(ids) && i < |ids|
    ensures IndexOf(ids, ids[i]) == i
  {
    var j := IndexOf(ids, ids[i]);
    assert ids[i] in ids;
    assert ids[j] == ids[i];
  }

  /** One adjacent transposition of the listing, or nothing at the end. */
  lemma MoveTransposes(s: State, flow: Id, i: nat, up: bool)
    requires Distinct(s, flow) && Movable(s, flow) && i < |s.Listing(flow)|
    ensures
      var t := DoMovePriority(s, RowAt(s, flow, i), up).0;
      var j := if up then i - 1 else i + 1;
      && Distinct(t, flow) && Movable(t, flow)
      && (0 <= j < |s.Listing(flow)| ==>
            t == SwapPriorities(s, RowAt(s, flow, i), RowAt(s, flow, j))
              && t.Listing(flow) == Swap(s.Listing(flow), i, j))
      && (!(0 <= j < |s.Listing(flow)|) ==> t == s)
  {
    var ids := s.Listing(flow);
    ListingLists(s, flow);
    hide State.Listing;
    IndexOfListed(ids, i);
    var j := if up then i - 1 else i + 1;
    if 0 <= j < |ids| {
      SwapListing(s, flow, i, j);
    }
  }

  /** Raise then lower is the identity unless the row already stood first. */
  lemma RaiseThenLower(s: State, flow: Id, i: nat)
    requires Distinct(s, flow) && Movable(s, flow) && 0 < i < |s.Listing(flow)|
    ensures
      var row := RowAt(s, flow, i);
      DoMovePriority(DoMovePriority(s, row, true).0, row, false).0 == s
  {
    var a, b := RowAt(s, flow, i), RowAt(s, flow, i - 1);
    var t := DoMovePriority(s, a, true).0;
    MoveTransposes(s, flow, i, true);
    assert |t.Listing(flow)| == |s.Listing(flow)|;
    assert RowAt(t, flow, i - 1) == a && RowAt(t, flow, i) == b;
    hide Distinct, Movable, DoMovePriority, State.Listing;
    MoveTransposes(t, flow, i - 1, false);
    hide *;
    SwapTwice(s, a, b);
  }

  lemma SwapTwice(s: State, a: Id, b: Id)
    requires a in s.rows && b in s.rows
    ensures SwapPriorities(SwapPriorities(s, a, b), a, b) == s
  {
    assert SwapPriorities(SwapPriorities(s, a, b), a, b).rows == s.rows;
  }

  // ----- runs of raises -----

  function RaiseAll(s: State, rows: seq<Id>): State
    decreases |rows|
  {
    if rows == [] then s else RaiseAll(DoMovePriority(s, rows[0], true).0, rows[1..])
  }

  lemma RaiseFirst(s: State, row: Id, rest: seq<Id>)
    ensures RaiseAll(s, [row] + rest) == RaiseAll(DoMovePriority(s, row, true).0, rest)
  {
    assert ([row] + rest)[1..] == rest;
  }

  /** `target` rearranges `ids`, its first `k` rows stand in place already, and the next
      one wanted stands at `p`. */
  ghost predicate Placed(ids: seq<Id>, target: seq<Id>, k: nat, p: nat) {
    && multiset(target) == multiset(ids) && |target| == |ids|
    && k <= |target| && target[..k] == ids[..k]
    && (k < |target| ==> k <= p < |target| && ids[p] == target[k])
  }

  lemma {:induction false} Arrange(s: State, flow: Id, target: seq<Id>, k: nat, p: nat) returns (rows: seq<Id>)
    requires Distinct(s, flow) && Movable(s, flow) && Placed(s.Listing(flow), target, k, p)
    ensures RaiseAll(s, rows).Listing(flow) == target
    decreases |target| - k, p
  {
    var ids := s.Listing(flow);
    hide State.Listing, Distinct;
    if k == |target| {
      rows := [];
      assert target == target[..k] && ids == ids[..k];
    } else if p == k {
      var q := NextPlace(ids, target, k + 1);
      rows := Arrange(s, flow, target, k + 1, q);
    } else {
      var row := RowAt(s, flow, p);
      var t := DoMovePriority(s, row, true).0;
      MoveTransposes(s, flow, p, true);
      hide DoMovePriority;
      assert t.Listing(flow)[..k] == ids[..k];
      var rest := Arrange(t, flow, target, k, p - 1);
      rows := [row] + rest;
      RaiseFirst(s, row, rest);
    }
  }

  /** Where the next row wanted stands now: among those not yet placed. */
  lemma NextPlace(ids: seq<Id>, target: seq<Id>, k: nat) returns (p: nat)
    requires 0 < k <= |ids| && Placed(ids, target, k - 1, k - 1)
    ensures Placed(ids, target, k, p)
  {
    assert target[..k] == target[..k - 1] + [target[k - 1]] && ids[..k] == ids[..k - 1] + [ids[k - 1]];
    p := k;
    if k < |ids| {
      RestBag(ids, target, k);
      var j := BagFind(target[k..], ids[k..], 0);
      p := k + j;
    }
  }

  lemma RestBag(a: seq<Id>, b: seq<Id>, k: nat)
    requires multiset(a) == multiset(b) && k <= |a| && k <= |b| && a[..k] == b[..k]
    ensures multiset(b[k..]) == multiset(a[k..])
  {
    assert a == a[..k] + a[k..] && b == b[..k] + b[k..];
    assert multiset(a[k..]) == multiset(a) - multiset(a[..k]);
    assert multiset(b[k..]) == multiset(b) - multiset(b[..k]);
  }

  lemma {:induction false} RaisesKeepLadder(s: State, flow: Id, rows: seq<Id>)
    ensures Ladder(RaiseAll(s, rows), flow) == Ladder(s, flow)
    decreases |rows|
  {
    if rows != [] {
      MoveConserves(s, rows[0], true, flow);
      RaisesKeepLadder(DoMovePriority(s, rows[0], true).0, flow, rows[1..]);
    }
  }

  ghost predicate Attainable(s: State, flow: Id, target: seq<Id>) {
    exists rows :: RaiseAll(s, rows).Listing(flow) == target
  }

  /** Two rows tied side by side keep their order through every run of raises. */
  lemma TieIsStuck(s: State, flow: Id, i: nat, target: seq<Id>)
    requires i + 1 < |s.Listing(flow)| && Ladder(s, flow)[i] == Ladder(s, flow)[i + 1]
    requires target == Swap(s.Listing(flow), i, i + 1)
    ensures !Attainable(s, flow, target)
  {
    TieInOrder(s, flow, i);
    forall rows ensures RaiseAll(s, rows).Listing(flow) != target {
      var t := RaiseAll(s, rows);
      RaisesKeepLadder(s, flow, rows);
      TieInOrder(t, flow, i);
    }
  }

  lemma TieInOrder(s: State, flow: Id, i: nat)
    requires i + 1 < |s.Listing(flow)| && Ladder(s, flow)[i] == Ladder(s, flow)[i + 1]
    ensures s.Listing(flow)[i] < s.Listing(flow)[i + 1]
  {
    ListingLists(s, flow);
    assert Before(s.Priorities(), s.Listing(flow)[i], s.Listing(flow)[i + 1]);
  }

  /** Every order of a flow's rows can be reached by raising rows exactly when no
      two of them share a priority. */
  lemma EveryOrderAttainable(s: State, flow: Id)
    requires Movable(s, flow)
    ensures (forall target: seq<Id> | multiset(target) == multiset(s.Listing(flow)) :: Attainable(s, flow, target))
       <==> Distinct(s, flow)
  {
    var ids := s.Listing(flow);
    ListingLists(s, flow);
    if Distinct(s, flow) {
      hide State.Listing, Distinct, Movable, IsListing;
      forall target: seq<Id> | multiset(target) == multiset(ids) ensures Attainable(s, flow, target) {
        BagLength(target, ids);
        var p := 0;
        if target != [] { p := BagFind(target, ids, 0); }
        var rows := Arrange(s, flow, target, 0, p);
      }
    } else {
      var a, b :| a in s.RowsOf(flow) && b in s.RowsOf(flow) && a != b && s.Priorities()[a] == s.Priorities()[b];
      hide State.Listing, IsListing;
      var i := AdjacentTie(s, flow, a, b);
      TieIsStuck(s, flow, i, Swap(ids, i, i + 1));
      assert multiset(Swap(ids, i, i + 1)) == multiset(ids);
    }
  }

  /** Somewhere between two tied rows, two neighbours are tied. */
  lemma AdjacentTie(s: State, flow: Id, a: Id, b: Id) returns (i: nat)
    requires a in s.RowsOf(flow) && b in s.RowsOf(flow) && a != b && s.Priorities()[a] == s.Priorities()[b]
    ensures i + 1 < |s.Listing(flow)| && Ladder(s, flow)[i] == Ladder(s, flow)[i + 1]
  {
    ListingLists(s, flow);
    var ids, k := s.Listing(flow), Ladder(s, flow);
    ListingAscends(ids, s.RowsOf(flow), s.Priorities());
    hide State.Listing;
    var p := PositionOf(ids, s.RowsOf(flow), s.Priorities(), a);
    var q := PositionOf(ids, s.RowsOf(flow), s.Priorities(), b);
    i := if p < q then p else q;
    var j := if p < q then q else p;
    assert k[p] == k[q] && k[i] <= k[i + 1];
    assert i + 1 == j || k[i + 1] <= k[j];
  }
}
