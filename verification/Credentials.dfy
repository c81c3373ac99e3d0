/** Reordering, replacing and labelling a user's credentials
    (internal/admin/credentials.go:162-196, 353-393, 546-558). */
module Credentials {
  import opened Basics
  import opened Ordering

  datatype Credential = Credential(user: Id, kind: string, userLabel: string, value: string, priority: int)

  type Rows = map<Id, Credential>

  function OfUser(rows: Rows, user: Id): set<Id> {
    set x | x in rows && rows[x].user == user
  }

  function Priorities(rows: Rows): map<Id, int> {
    map x | x in rows :: rows[x].priority
  }

  /** ListCredentials: ORDER BY priority, id. */
  function Listing(rows: Rows, user: Id): (r: seq<Id>)
    ensures IsListing(r, OfUser(rows, user), Priorities(rows))
  {
    Sorted(OfUser(rows, user), Priorities(rows))
  }

  // ----- the order a move asks for -----

  function Rest(list: seq<Id>, id: Id): seq<Id> {
    if list == [] then [] else (if list[0] == id then [] else [list[0]]) + Rest(list[1..], id)
  }

  /** Just after the target, or at the end when it is not there. */
  function SlotAfter(rest: seq<Id>, target: Id): (at: nat)
    ensures at <= |rest|
    ensures target in rest ==> 0 < at && rest[at - 1] == target && target !in rest[..at - 1]
    ensures target !in rest ==> at == |rest|
  {
    if rest == [] then 0
    else if rest[0] == target then 1
    else
      var at := SlotAfter(rest[1..], target);
      assert target in rest ==> target in rest[1..] && rest[..at] == [rest[0]] + rest[1..][..at - 1];
      1 + at
  }

  function Slot(rest: seq<Id>, target: Id): (at: nat)
    ensures at <= |rest|
  {
    if target == NO_ID then 0 else SlotAfter(rest, target)
  }

  /** The listing with the credential taken out and put back at its slot. */
  function Moved(list: seq<Id>, id: Id, target: Id): seq<Id> {
    var rest := Rest(list, id);
    rest[..Slot(rest, target)] + [id] + rest[Slot(rest, target)..]
  }

  /** Priorities 0 to n-1 along an order, everything else as it was. */
  ghost predicate Renumbered(was: Rows, now: Rows, order: seq<Id>, upTo: nat) {
    && upTo <= |order| && now.Keys == was.Keys
    && (forall i | 0 <= i < upTo :: order[i] in was && now[order[i]] == was[order[i]].(priority := i))
    && forall x | x in was && x !in order[..upTo] :: now[x] == was[x]
  }

  lemma {:induction false} RestMembers(list: seq<Id>, id: Id, x: Id)
    ensures x in Rest(list, id) <==> x in list && x != id
  {
    if list != [] { RestMembers(list[1..], id, x); }
  }

  lemma {:induction false} RestDiffers(list: seq<Id>, id: Id)
    requires NoRepeats(list)
    ensures NoRepeats(Rest(list, id))
  {
    if list != [] {
      RestDiffers(list[1..], id);
      RestMembers(list[1..], id, list[0]);
      assert list[0] !in list[1..];
    }
  }

  lemma {:induction false} RestNothing(list: seq<Id>, id: Id)
    requires id !in list
    ensures Rest(list, id) == list
  {
    if list != [] { RestNothing(list[1..], id); }
  }

  lemma {:induction false} RestParts(a: seq<Id>, b: seq<Id>, id: Id)
    ensures Rest(a + b, id) == Rest(a, id) + Rest(b, id)
  {
    if a == [] {
      assert a + b == b;
    } else {
      assert (a + b)[1..] == a[1..] + b;
      RestParts(a[1..], b, id);
    }
  }

  lemma RestAround(a: seq<Id>, b: seq<Id>, id: Id)
    requires id !in a && id !in b
    ensures Rest(a + [id] + b, id) == a + b
  {
    hide *;
    assert a + [id] + b == a + ([id] + b) && a + ([] + b) == a + b;
    RestParts(a, [id] + b, id);
    RestParts([id], b, id);
    RestNothing(a, id);
    RestNothing(b, id);
    RestOne(id);
  }

  /** Taking the moved credential out again leaves the others in their old order. */
  lemma RestOfMoved(list: seq<Id>, id: Id, target: Id)
    ensures Rest(Moved(list, id, target), id) == Rest(list, id)
  {
    hide Rest, Slot;
    var rest := Rest(list, id);
    var at := Slot(rest, target);
    RestMembers(list, id, id);
    NotInParts(rest, at, id);
    RestAround(rest[..at], rest[at..], id);
    assert rest[..at] + rest[at..] == rest;
  }

  lemma NotInParts(rest: seq<Id>, at: nat, id: Id)
    requires id !in rest && at <= |rest|
    ensures id !in rest[..at] && id !in rest[at..]
  {
  }

  lemma RestOne(id: Id)
    ensures Rest([id], id) == []
  {
  }

  /** A move is a rearrangement. */
  lemma MovedKeepsAll(list: seq<Id>, id: Id, target: Id)
    requires NoRepeats(list) && id in list
    ensures NoRepeats(Moved(list, id, target)) && forall x :: x in Moved(list, id, target) <==> x in list
  {
    hide Rest, Slot;
    var rest := Rest(list, id);
    var at := Slot(rest, target);
    RestDiffers(list, id);
    RestMembers(list, id, id);
    PutIn(rest, at, id);
    forall x ensures x in Moved(list, id, target) <==> x in list { RestMembers(list, id, x); }
  }

  lemma PutIn(rest: seq<Id>, at: nat, id: Id)
    requires NoRepeats(rest) && id !in rest && at <= |rest|
    ensures NoRepeats(rest[..at] + [id] + rest[at..])
    ensures forall x :: x in rest[..at] + [id] + rest[at..] <==> x in rest || x == id
  {
    var next := rest[..at] + [id] + rest[at..];
    assert forall i | 0 <= i < |next| :: next[i] == if i < at then rest[i] else if i == at then id else rest[i - 1];
    assert rest == rest[..at] + rest[at..];
    forall x ensures x in next <==> x in rest || x == id {
      assert x in next <==> x in rest[..at] || x == id || x in rest[at..];
    }
  }

  lemma {:induction false} RestAhead(list: seq<Id>, id: Id, x: Id, y: Id)
    requires x != id && y != id
    ensures Ahead(Rest(list, id), x, y) <==> Ahead(list, x, y)
  {
    hide Ahead;
    if list != [] {
      assert list == [list[0]] + list[1..];
      RestAhead(list[1..], id, x, y);
      RestMembers(list[1..], id, y);
      AheadFirst(list[0], list[1..], x, y);
      AheadFirst(list[0], Rest(list[1..], id), x, y);
      if list[0] == id { assert Rest(list, id) == Rest(list[1..], id); }
    }
  }

  /** Where the credential ends up: first when no target is given, right behind the target
      when that is another credential of the listing, and last otherwise; any two others
      keep their order. */
  lemma MovedPlaces(list: seq<Id>, id: Id, target: Id)
    requires NoRepeats(list) && id in list
    ensures
      var m := Moved(list, id, target);
      && |m| > 0
      && (target == NO_ID ==> m[0] == id)
      && (target != NO_ID && target in list && target != id ==>
            exists k :: 0 < k < |m| && m[k - 1] == target && m[k] == id)
      && (target != NO_ID && (target !in list || target == id) ==> m[|m| - 1] == id)
      && forall x, y | x != id && y != id :: Ahead(m, x, y) <==> Ahead(list, x, y)
  {
    hide Rest, Ahead;
    var m := Moved(list, id, target);
    var rest := Rest(list, id);
    var at := Slot(rest, target);
    RestMembers(list, id, target);
    assert m[at] == id;
    if at > 0 { assert m[at - 1] == rest[at - 1]; }
    forall x, y | x != id && y != id ensures Ahead(m, x, y) <==> Ahead(list, x, y) {
      RestOfMoved(list, id, target);
      RestAhead(list, id, x, y);
      RestAhead(m, id, x, y);
    }
  }

  lemma {:induction false} MoveTwice(list: seq<Id>, id: Id, target: Id)
    ensures Moved(Moved(list, id, target), id, target) == Moved(list, id, target)
  {
    RestOfMoved(list, id, target);
  }

  // ----- what renumbering lists -----

  /** Rows numbered along an order of all a user's credentials list in that order. */
  lemma RenumberedLists(was: Rows, now: Rows, user: Id, order: seq<Id>)
    requires NoRepeats(order) && (forall x :: x in order <==> x in OfUser(was, user))
      && Renumbered(was, now, order, |order|)
    ensures Listing(now, user) == order && OfUser(now, user) == OfUser(was, user)
  {
    assert order[..|order|] == order;
    var s, key := OfUser(was, user), Priorities(now);
    forall x ensures x in OfUser(now, user) <==> x in s {
      if x in order {
        var i :| 0 <= i < |order| && order[i] == x;
        assert now[order[i]] == was[order[i]].(priority := i);
      } else if x in was {
        assert now[x] == was[x];
      }
    }
    assert OfUser(now, user) == s;
    forall i, j | 0 <= i < j < |order| ensures order[i] in key && order[j] in key && Before(key, order[i], order[j]) {
      assert now[order[i]].priority == i && now[order[j]].priority == j;
    }
    assert s <= key.Keys;
    assert IsListing(order, s, key);
    hide Sorted, Renumbered, OfUser, Priorities;
    ListingUnique(Listing(now, user), order, s, key);
  }

  /** A second renumbering along the same order changes nothing. */
  lemma RenumberedAgain(was: Rows, now: Rows, order: seq<Id>, later: Rows)
    requires Renumbered(was, now, order, |order|) && Renumbered(now, later, order, |order|)
    ensures later == now
  {
    assert order[..|order|] == order;
    forall x | x in now ensures later[x] == now[x] {
      if x in order {
        var i :| 0 <= i < |order| && order[i] == x;
        assert later[order[i]] == now[order[i]].(priority := i) && now[order[i]].priority == i;
      }
    }
  }

  lemma ListingDiffers(rows: Rows, user: Id)
    ensures NoRepeats(Listing(rows, user)) && forall x :: x in Listing(rows, user) <==> x in OfUser(rows, user)
  {
    hide Sorted;
    ListedMembers(Listing(rows, user), OfUser(rows, user), Priorities(rows));
  }

  /** What a completed move leaves: the listing with the credential moved, numbered
      from 0, and every row otherwise as it was. */
  ghost predicate MoveDone(was: Rows, now: Rows, user: Id, id: Id, target: Id) {
    && Listing(now, user) == Moved(Listing(was, user), id, target)
    && Renumbered(was, now, Listing(now, user), |Listing(now, user)|)
  }

  lemma RenumberedMove(was: Rows, now: Rows, user: Id, id: Id, target: Id)
    requires id in OfUser(was, user)
    requires var order := Moved(Listing(was, user), id, target); Renumbered(was, now, order, |order|)
    ensures MoveDone(was, now, user, id, target) && OfUser(now, user) == OfUser(was, user)
  {
    hide Listing, Moved, Renumbered, OfUser;
    ListingDiffers(was, user);
    MovedKeepsAll(Listing(was, user), id, target);
    RenumberedLists(was, now, user, Moved(Listing(was, user), id, target));
  }

  /** Repeating a move changes nothing. */
  lemma MoveAgain(was: Rows, now: Rows, later: Rows, user: Id, id: Id, target: Id)
    requires MoveDone(was, now, user, id, target) && MoveDone(now, later, user, id, target)
    ensures later == now
  {
    hide Listing, Moved, Renumbered;
    MoveTwice(Listing(was, user), id, target);
    RenumberedAgain(was, now, Listing(now, user), later);
  }

  // ----- required actions -----

  const UPDATE_PASSWORD := "UPDATE_PASSWORD"

  function Without(actions: seq<string>, action: string): seq<string> {
    if actions == [] then [] else (if actions[0] == action then [] else [actions[0]]) + Without(actions[1..], action)
  }

  function WithAction(actions: seq<string>, action: string, want: bool): seq<string> {
    Without(actions, action) + if want then [action] else []
  }

  lemma {:induction false} WithoutMembers(actions: seq<string>, action: string)
    ensures forall a :: a in Without(actions, action) <==> a in actions && a != action
  {
    if actions != [] { WithoutMembers(actions[1..], action); }
  }

  lemma {:induction false} WithoutGone(actions: seq<string>, action: string)
    requires action !in actions
    ensures Without(actions, action) == actions
  {
    if actions != [] { WithoutGone(actions[1..], action); }
  }

  lemma {:induction false} WithoutLast(actions: seq<string>, a: string, action: string)
    ensures Without(actions + [a], action) == Without(actions, action) + if a == action then [] else [a]
  {
    if actions != [] {
      WithoutLast(actions[1..], a, action);
      assert (actions + [a])[1..] == actions[1..] + [a];
    }
  }

  /** The last request decides: the action is there once, at the end, or not at all,
      and the others keep their order. */
  lemma LastActionWins(actions: seq<string>, action: string, first: bool, second: bool)
    ensures WithAction(WithAction(actions, action, first), action, second) == WithAction(actions, action, second)
    ensures action in WithAction(actions, action, second) <==> second
  {
    var kept := Without(actions, action);
    WithoutMembers(actions, action);
    WithoutGone(kept, action);
    WithoutLast(kept, action, action);
    assert kept + [] == kept;
  }

  lemma {:induction false} WithoutAhead(actions: seq<string>, action: string, x: string, y: string)
    requires x != action && y != action
    ensures Ahead(Without(actions, action), x, y) <==> Ahead(actions, x, y)
  {
    hide Ahead;
    if actions != [] {
      var rest := Without(actions[1..], action);
      assert actions == [actions[0]] + actions[1..];
      WithoutAhead(actions[1..], action, x, y);
      WithoutMembers(actions[1..], action);
      AheadFirst(actions[0], actions[1..], x, y);
      AheadFirst(actions[0], rest, x, y);
      if actions[0] == action { assert Without(actions, action) == rest; }
    }
  }

  /** An action that is wanted ends up last and nowhere else, one that is not is gone, and
      the others are the same in the same order. */
  lemma ActionPlaced(actions: seq<string>, action: string, want: bool)
    ensures
      var r := WithAction(actions, action, want);
      && (forall a | a != action :: a in r <==> a in actions)
      && (forall x, y | x != action && y != action :: Ahead(r, x, y) <==> Ahead(actions, x, y))
      && (want ==> |r| > 0 && r[|r| - 1] == action && action !in r[..|r| - 1])
      && (!want ==> action !in r)
  {
    var kept := Without(actions, action);
    WithoutMembers(actions, action);
    WithoutGone(kept, action);
    WithoutLast(kept, action, action);
    assert kept + [] == kept;
    hide Ahead, Without;
    forall x, y | x != action && y != action
      ensures Ahead(WithAction(actions, action, want), x, y) <==> Ahead(actions, x, y)
    {
      WithoutAhead(actions, action, x, y);
      WithoutAhead(WithAction(actions, action, want), action, x, y);
    }
    if want { assert (kept + [action])[..|kept|] == kept; }
  }

  /** One entry of an inline credentials array. */
  datatype Request = Request(value: string, temporary: bool)

  predicate AnyTemporary(requests: seq<Request>) {
    exists r :: r in requests && r.temporary
  }
}
