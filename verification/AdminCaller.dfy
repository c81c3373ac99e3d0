/** The caller of one request, with its memos filled in place: names, grants,
    implies, foreignGrants and mayGrantRole (internal/admin/auth.go:96-300, 548-618). */
module AdminCaller {
  import opened Basics
  import opened AdminRoles

  class Caller {
    const authRealm: string
    const target: string
    const container: Option<Client>
    const held: seq<Role>
    const table: Table
    var heldGrants: Option<set<string>>
    var granted: Option<set<string>>
    var foreign: map<string, set<string>>

    /** The value the caller stands for. */
    ghost function AsHolder(): Holder {
      Holder(authRealm, set r | r in held)
    }

    ghost function NamesHeld(): set<string> {
      set r | r in held && CountsOn(container, authRealm, r) :: r.name
    }

    /** Every memo filled in holds what it is a memo of. */
    ghost predicate Valid()
      reads this
    {
      && (heldGrants.Some? ==> heldGrants.value == NamesHeld())
      && (granted.Some? ==> IsClosure(granted.value))
      && (forall id | id in foreign :: foreign[id] == NamesOnId(id))
    }

    ghost predicate IsClosure(s: set<string>) {
      forall x :: x in s <==> Confers(table, NamesHeld(), x)
    }

    ghost function NamesOnId(id: string): set<string> {
      set r | r in held && r.client == id :: r.name
    }

    /** resolveCaller's last step: the container is chosen for the pair of realms. */
    constructor (clients: seq<Client>, authRealm: string, target: string, held: seq<Role>, table: Table)
      ensures Valid() && this.authRealm == authRealm && this.target == target && this.held == held
        && this.table == table
      ensures container == ContainerFor(clients, authRealm, target)
    {
      this.authRealm, this.target, this.held, this.table := authRealm, target, held, table;
      container := ContainerFor(clients, authRealm, target);
      heldGrants, granted, foreign := None, None, map[];
    }

    /** adminRoleNames: the container's names, then the two realm roles in master. */
    method AdminRoleNames() returns (out: set<string>)
      ensures out == NamesHeld()
    {
      out := {};
      if container.Some? {
        for k := 0 to |held|
          invariant out == set r | r in held[..k] && r.client == container.value.id :: r.name
        {
          assert held[..k + 1] == held[..k] + [held[k]];
          if held[k].client == container.value.id { out := out + {held[k].name}; }
        }
        assert held[..|held|] == held;
      }
      ghost var onContainer := set r | r in held && container.Some? && r.client == container.value.id :: r.name;
      assert out == onContainer;
      if authRealm == MASTER {
        for k := 0 to |held|
          invariant out == onContainer + set r | r in held[..k] && r.client == "" && Reserved(r.name) :: r.name
        {
          assert held[..k + 1] == held[..k] + [held[k]];
          if held[k].client == "" && Reserved(held[k].name) { out := out + {held[k].name}; }
        }
        assert held[..|held|] == held;
      }
    }

    method Names() returns (names: set<string>)
      requires Valid()
      modifies this`heldGrants
      ensures Valid() && names == NamesHeld()
    {
      if heldGrants == None {
        var out := AdminRoleNames();
        heldGrants := Some(out);
      }
      names := heldGrants.value;
    }

    /** implies: one name and all it confers, each added once - which is what stops
        it, whatever cycles the table has. */
    method Implies(name: string, ghost universe: set<string>)
      requires granted.Some? && granted.value <= universe && name in universe && Closed(table, universe)
      modifies this`granted
      ensures granted.Some? && granted.value <= universe && Grown(table, old(granted.value), granted.value, name)
      decreases |universe - granted.value|
    {
      hide Followed, Tight, Closed;
      ghost var was := granted.value;
      if name in granted.value {
        GrownAlready(table, was, name);
        return;
      }
      granted := Some(granted.value + {name});
      GrownFirst(table, was, name);
      if name !in table {
        GrownLeaf(table, was, name);
        return;
      }
      Smaller(universe, was, granted.value, name);
      var next := table[name];
      for k := 0 to |next|
        invariant granted.Some? && was + {name} <= granted.value <= universe
        invariant forall m | m in next[..k] :: m in granted.value
        invariant Followed(table, was + {name}, granted.value) && Tight(table, was, name, granted.value)
      {
        ghost var before := granted.value;
        InUniverse(table, universe, name, k);
        Smaller(universe, was, before, name);
        Implies(next[k], universe);
        assert next[..k + 1] == next[..k] + [next[k]];
        GrownMore(table, was, name, before, k, granted.value);
      }
      assert next[..|next|] == next;
      GrownWhole(table, was, name, granted.value);
    }

    /** The loop of grants over the caller's names. */
    method CloseOver(names: set<string>)
      modifies this`granted
      ensures granted.Some? && forall x :: x in granted.value <==> Confers(table, names, x)
    {
      ghost var universe := Universe(table, names);
      granted := Some({});
      var left := names;
      while left != {}
        invariant left <= names && granted.Some? && names - left <= granted.value <= universe
        invariant forall n | n in granted.value && n in table :: Follows(table, n, granted.value)
        invariant forall s: set<string> | names <= s && Closed(table, s) :: granted.value <= s
        decreases |left|
      {
        var name :| name in left;
        ghost var before := granted.value;
        Implies(name, universe);
        left := left - {name};
        forall n | n in granted.value && n in table ensures Follows(table, n, granted.value) {
          if n in before {
            assert Follows(table, n, before);
          } else {
            assert n in granted.value - before;
          }
        }
      }
      ghost var all := granted.value;
      assert Closed(table, all) by {
        forall n | n in all && n in table
          ensures forall m | m in table[n] :: m in all
        {
          assert Follows(table, n, all);
        }
      }
      LeastIsClosure(table, names, all);
    }

    /** grants: the least set holding the caller's names and closed under the table,
        computed once. */
    method Grants() returns (out: set<string>)
      requires Valid()
      modifies this`heldGrants, this`granted
      ensures Valid() && IsClosure(out)
    {
      if granted == None {
        var names := Names();
        CloseOver(names);
        assert IsClosure(granted.value);
      }
      out := granted.value;
    }

    /** foreignGrants: exact names on another container, memoised by its id. */
    method ForeignGrants(other: Option<Client>) returns (names: set<string>)
      requires Valid()
      modifies this`foreign
      ensures Valid() && names == NamesOn(AsHolder().held, other)
    {
      if other == None { return {}; }
      var id := other.value.id;
      ghost var roles := set r | r in held;
      assert NamesOnId(id) == NamesOn(roles, other);
      if id in foreign { return foreign[id]; }
      names := {};
      for k := 0 to |held|
        invariant names == set r | r in held[..k] && r.client == id :: r.name
      {
        assert held[..k + 1] == held[..k] + [held[k]];
        if held[k].client == id { names := names + {held[k].name}; }
      }
      assert held[..|held|] == held;
      foreign := foreign[id := names];
    }

    /** mayGrantRole for the realm the caller was resolved for. */
    method MayGrantRole(clients: seq<Client>, r: Role) returns (decision: Decision)
      requires Valid() && container == ContainerFor(clients, authRealm, target)
      modifies this
      ensures Valid() && decision == MayGrant(clients, table, AsHolder(), target, r)
    {
      assert NamesHeld() == AdminNames(clients, AsHolder(), target);
      if r.client == "" {
        var grants := Grants();
        if r.name in grants { return Allowed; }
        return if Reserved(r.name) then Refused else Allowed;
      }
      var owned := ById(clients, target, r.client);
      if owned == None { return Failed; }
      var owner := AdminRealmOf(target, owned.value.clientId);
      if owner == "" { return Allowed; }
      if owner == target {
        var grants := Grants();
        return if r.name in grants then Allowed else Refused;
      }
      var names := ForeignGrants(ContainerFor(clients, authRealm, owner));
      return if r.name in names then Allowed else Refused;
    }
  }

  lemma LeastIsClosure(table: Table, seed: set<string>, s: set<string>)
    requires seed <= s && Closed(table, s)
    requires forall u: set<string> | seed <= u && Closed(table, u) :: s <= u
    ensures forall x :: x in s <==> Confers(table, seed, x)
  {
    hide Closed;
    forall x ensures x in s <==> Confers(table, seed, x) {}
  }

  ghost predicate Follows(table: Table, n: string, s: set<string>)
    requires n in table
  {
    forall m | m in table[n] :: m in s
  }

  /** Everything added since has all it implies. */
  ghost predicate Followed(table: Table, since: set<string>, now: set<string>) {
    forall n | n in now - since && n in table :: Follows(table, n, now)
  }

  /** Nothing was added that did not have to be. */
  ghost predicate Tight(table: Table, was: set<string>, name: string, now: set<string>) {
    forall s: set<string> | was <= s && name in s && Closed(table, s) :: now <= s
  }

  /** What one call of implies leaves in the growing set. */
  ghost predicate Grown(table: Table, was: set<string>, now: set<string>, name: string) {
    was <= now && name in now && Followed(table, was, now) && Tight(table, was, name, now)
  }

  lemma GrownAlready(table: Table, was: set<string>, name: string)
    requires name in was
    ensures Grown(table, was, was, name)
  {
  }

  lemma GrownFirst(table: Table, was: set<string>, name: string)
    ensures Followed(table, was + {name}, was + {name}) && Tight(table, was, name, was + {name})
  {
  }

  lemma GrownLeaf(table: Table, was: set<string>, name: string)
    requires name !in table
    ensures Grown(table, was, was + {name}, name)
  {
  }

  lemma InUniverse(table: Table, universe: set<string>, name: string, k: nat)
    requires Closed(table, universe) && name in universe && name in table && k < |table[name]|
    ensures table[name][k] in universe
  {
  }

  lemma GrownMore(table: Table, was: set<string>, name: string, before: set<string>, k: nat, now: set<string>)
    requires was + {name} <= before && name in table && k < |table[name]|
    requires Followed(table, was + {name}, before) && Tight(table, was, name, before)
      && Grown(table, before, now, table[name][k])
    ensures Followed(table, was + {name}, now) && Tight(table, was, name, now)
  {
    forall n | n in now - was - {name} && n in table ensures Follows(table, n, now) {
      if n in before {
        assert n in before - (was + {name}) && Follows(table, n, before);
      } else {
        assert n in now - before;
      }
    }
    forall s: set<string> | was <= s && name in s && Closed(table, s) ensures now <= s {
      assert before <= s && table[name][k] in table[name];
    }
  }

  lemma GrownWhole(table: Table, was: set<string>, name: string, now: set<string>)
    requires was + {name} <= now && name in table && forall m | m in table[name] :: m in now
    requires Followed(table, was + {name}, now) && Tight(table, was, name, now)
    ensures Grown(table, was, now, name)
  {
    forall n | n in now - was && n in table ensures Follows(table, n, now) {
      if n != name { assert n in now - (was + {name}); }
    }
  }

  lemma Smaller(universe: set<string>, was: set<string>, now: set<string>, name: string)
    requires name in universe && name !in was && was + {name} <= now <= universe
    ensures |universe - now| < |universe - was|
  {
    var a, b := universe - was, universe - now;
    assert b <= a - {name};
    Fewer(b, a - {name});
  }

  lemma Fewer(a: set<string>, b: set<string>)
    requires a <= b
    ensures |a| <= |b|
  {
    assert b == a + (b - a);
  }
}
