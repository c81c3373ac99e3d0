/** The credential handlers, updating rows in place. */
module CredentialHandlers {
  import opened Basics
  import opened Credentials

  /** All users' credentials, and one user's required actions. */
  class CredentialStore {
    var rows: Rows
    var actions: map<Id, seq<string>>

    constructor ()
      ensures rows == map[] && actions == map[]
    {
      rows, actions := map[], map[];
    }

    /** moveCredential: rebuild the order, then write the rows whose priority differs. */
    method Move(user: Id, id: Id, target: Id) returns (found: bool)
      modifies this`rows
      ensures found <==> id in OfUser(old(rows), user)
      ensures found ==> MoveDone(old(rows), rows, user, id, target)
      ensures found ==> OfUser(rows, user) == OfUser(old(rows), user) && rows.Keys == old(rows).Keys
      ensures forall x | x in rows && x !in OfUser(rows, user) :: x in old(rows) && rows[x] == old(rows)[x]
      ensures !found ==> rows == old(rows)
    {
      if id !in OfUser(rows, user) { return false; }
      hide *;
      ghost var was := rows;
      ListingDiffers(rows, user);
      var listing := Listing(rows, user);
      var ordered := Reorder(listing, id, target);
      MovedKeepsAll(listing, id, target);
      RowsOf(rows, user, ordered);
      WritePriorities(ordered);
      RenumberedMove(was, rows, user, id, target);
      OthersKept(was, rows, user, ordered);
      return true;
    }

    /** Writes 0 to n-1 along the order, skipping the rows that already have it. */
    method WritePriorities(ordered: seq<Id>)
      requires NoRepeats(ordered) && forall x | x in ordered :: x in rows
      modifies this`rows
      ensures Renumbered(old(rows), rows, ordered, |ordered|)
    {
      ghost var was := rows;
      for i := 0 to |ordered|
        invariant Renumbered(was, rows, ordered, i)
      {
        var x := ordered[i];
        NotYet(ordered, i);
        assert x in was && rows[x] == was[x];
        NumberOne(was, rows, ordered, i);
        hide Renumbered, NoRepeats;
        if rows[x].priority == i { continue; }
        rows := rows[x := rows[x].(priority := i)];
      }
    }

    /** applyCredentials: each entry replaces the one before it, and UPDATE_PASSWORD is
        added when any of them is temporary, never taken away. */
    method Apply(user: Id, requests: seq<Request>, newId: Id)
      requires newId !in rows
      requires forall x, y | x in rows && y in rows && IsPassword(rows[x], user) && IsPassword(rows[y], user) :: x == y
      modifies this
      ensures requests == [] ==> rows == old(rows)
      ensures requests != [] ==>
        exists x :: (x == newId || x in old(rows)) && Replaced(old(rows), rows, user, x, requests[|requests| - 1].value)
      ensures actions == if AnyTemporary(requests)
        then old(actions)[user := WithAction(if user in old(actions) then old(actions)[user] else [], UPDATE_PASSWORD,
          true)]
        else old(actions)
    {
      var temporary := false;
      ghost var at: Id := newId;
      for i := 0 to |requests|
        invariant actions == old(actions)
        invariant temporary <==> AnyTemporary(requests[..i])
        invariant i == 0 ==> rows == old(rows)
        invariant i > 0 ==> at == newId || at in old(rows)
        invariant i > 0 ==> Replaced(old(rows), rows, user, at, requests[i - 1].value)
      {
        assert requests[..i + 1] == requests[..i] + [requests[i]];
        at := SetPassword(user, requests[i].value, newId);
        temporary := temporary || requests[i].temporary;
      }
      assert requests[..|requests|] == requests;
      if !temporary { return; }
      var mine := if user in actions then actions[user] else [];
      var next := SetAction(mine, UPDATE_PASSWORD, true);
      actions := actions[user := next];
    }

    /** The upsert on (user, type), which reuses the id of the password it replaces. */
    method SetPassword(user: Id, value: string, newId: Id) returns (x: Id)
      requires newId in rows ==> IsPassword(rows[newId], user)
      requires forall x, y | x in rows && y in rows && IsPassword(rows[x], user) && IsPassword(rows[y], user) :: x == y
      modifies this`rows
      ensures (exists y :: y in old(rows) && IsPassword(old(rows)[y], user))
          ==> x in old(rows) && IsPassword(old(rows)[x], user)
      ensures !(exists y :: y in old(rows) && IsPassword(old(rows)[y], user)) ==> x == newId
      ensures Replaced(old(rows), rows, user, x, value)
    {
      var mine := set y | y in rows && IsPassword(rows[y], user);
      if mine != {} {
        x :| x in mine;
      } else {
        x := newId;
      }
      rows := rows[x := Credential(user, "password", "", value, if x in rows then rows[x].priority else 0)];
    }
  }

  /** The order the move asks for: the others, with the credential put in at its slot. */
  method Reorder(listing: seq<Id>, id: Id, target: Id) returns (ordered: seq<Id>)
    ensures ordered == Moved(listing, id, target)
  {
    ordered := [];
    for i := 0 to |listing|
      invariant ordered == Rest(listing[..i], id)
    {
      RestParts(listing[..i], [listing[i]], id);
      assert listing[..i + 1] == listing[..i] + [listing[i]];
      if listing[i] != id { ordered := ordered + [listing[i]]; }
    }
    assert listing[..|listing|] == listing;
    var at := FindSlot(ordered, target);
    ordered := ordered[..at] + [id] + ordered[at..];
  }

  lemma RowsOf(rows: Rows, user: Id, ordered: seq<Id>)
    requires forall x :: x in ordered <==> x in Listing(rows, user)
    ensures forall x | x in ordered :: x in rows && x in OfUser(rows, user)
  {
    ListingDiffers(rows, user);
    hide Listing;
  }

  predicate IsPassword(c: Credential, user: Id) {
    c.user == user && c.kind == "password"
  }

  /** One password row holds the value, the user has no other, the rest is as it was. */
  ghost predicate Replaced(was: Rows, now: Rows, user: Id, x: Id, value: string) {
    && now.Keys == was.Keys + {x} && IsPassword(now[x], user) && now[x].value == value && now[x].userLabel == ""
    && forall y | y in was && y != x :: now[y] == was[y] && !IsPassword(was[y], user)
  }

  /** The search for the target among the others. */
  method FindSlot(rest: seq<Id>, target: Id) returns (at: nat)
    ensures at == Slot(rest, target)
  {
    at := 0;
    if target != NO_ID {
      at := |rest|;
      for i := 0 to |rest|
        invariant at == |rest| && target !in rest[..i]
      {
        if rest[i] == target {
          SlotIs(rest, target, i);
          return i + 1;
        }
      }
      assert rest[..|rest|] == rest;
    }
  }

  lemma {:induction false} SlotIs(rest: seq<Id>, target: Id, i: nat)
    requires i < |rest| && rest[i] == target && target !in rest[..i]
    ensures SlotAfter(rest, target) == i + 1
  {
    if i > 0 {
      assert rest[0] == rest[..i][0] && rest[1..][..i - 1] == rest[..i][1..];
      SlotIs(rest[1..], target, i - 1);
    }
  }

  lemma NotYet(order: seq<Id>, i: nat)
    requires NoRepeats(order) && i < |order|
    ensures order[i] !in order[..i]
  {
  }

  lemma NumberOne(was: Rows, now: Rows, order: seq<Id>, i: nat)
    requires i < |order| && NoRepeats(order) && Renumbered(was, now, order, i) && order[i] in was
      && now[order[i]] == was[order[i]]
    ensures Renumbered(was, now[order[i] := now[order[i]].(priority := i)], order, i + 1)
    ensures now[order[i]].priority == i ==> now[order[i] := now[order[i]].(priority := i)] == now
  {
    assert order[..i + 1] == order[..i] + [order[i]];
  }

  lemma OthersKept(was: Rows, now: Rows, user: Id, order: seq<Id>)
    requires Renumbered(was, now, order, |order|) && forall x | x in order :: x in OfUser(was, user)
    requires OfUser(now, user) == OfUser(was, user)
    ensures now.Keys == was.Keys && forall x | x in now && x !in OfUser(now, user) :: now[x] == was[x]
  {
    assert order[..|order|] == order;
  }

  /** withAction. */
  method SetAction(actions: seq<string>, action: string, want: bool) returns (out: seq<string>)
    ensures out == WithAction(actions, action, want)
  {
    out := [];
    for i := 0 to |actions|
      invariant out == Without(actions[..i], action)
    {
      WithoutLast(actions[..i], actions[i], action);
      assert actions[..i + 1] == actions[..i] + [actions[i]];
      if actions[i] != action { out := out + [actions[i]]; }
    }
    assert actions[..|actions|] == actions;
    if want { out := out + [action]; }
  }
}
