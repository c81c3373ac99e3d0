/** What a reference resolves to, said of the realm's lists and the server's tables
    (internal/admin/authzimport.go:109-360). */
module AuthzResolution {
  import opened Basics
  import opened AuthzModel
  import opened AuthzConfig
  import opened AuthzImport

  // ----- one reference -----

  /** A realm role of that name. */
  predicate NamesRole(realm: Realm, k: nat, name: string) {
    k < |realm.roles| && realm.roles[k].client == "" && realm.roles[k].name == name
  }

  /** A role reference names the first realm role of that name or, when there is none,
      the role of that id; the empty one and any other name nothing. */
  lemma RoleByRefIs(realm: Realm, ref: string, id: string)
    ensures RoleByRef(realm, ref) == Some(id) <==>
      (ref != "" && ((exists k: nat :: NamesRole(realm, k, ref) && realm.roles[k].id == id
                        && forall j: nat | j < k :: !NamesRole(realm, j, ref))
                     || (id == ref && (exists r :: r in realm.roles && r.id == ref)
                         && forall k: nat :: !NamesRole(realm, k, ref))))
    ensures RoleByRef(realm, ref) == None <==>
      ref == "" || ((forall r | r in realm.roles :: r.id != ref) && forall k: nat :: !NamesRole(realm, k, ref))
  {
    var i := RealmRoleNamed(realm.roles, ref);
    FirstRole(realm.roles, ref);
    RoleIdHeld(realm.roles, ref);
    hide RealmRoleNamed, RoleIds;
    if i >= 0 {
      assert NamesRole(realm, i, ref);
      forall k: nat | NamesRole(realm, k, ref) && forall j: nat | j < k :: !NamesRole(realm, j, ref) ensures k == i {}
    }
  }

  lemma RoleIdHeld(roles: seq<Role>, id: string)
    ensures id in RoleIds(roles) <==> exists r :: r in roles && r.id == id
  {
    if id in RoleIds(roles) {
      var i :| 0 <= i < |roles| && RoleIds(roles)[i] == id;
      assert roles[i] in roles;
    }
    if r :| r in roles && r.id == id {
      var i :| 0 <= i < |roles| && roles[i] == r;
      assert RoleIds(roles)[i] == id;
    }
  }

  lemma {:induction false} FirstRole(roles: seq<Role>, name: string)
    ensures
      var i := RealmRoleNamed(roles, name);
      forall j | 0 <= j < i :: !(roles[j].client == "" && roles[j].name == name)
  {
    if roles != [] && !(roles[0].client == "" && roles[0].name == name) {
      FirstRole(roles[1..], name);
      forall j | 0 <= j < RealmRoleNamed(roles, name) ensures !(roles[j].client == "" && roles[j].name == name) {
        if j > 0 { assert roles[j] == roles[1..][j - 1]; }
      }
    }
  }

  predicate NamesClient(realm: Realm, k: nat, name: string) {
    k < |realm.clients| && realm.clients[k].clientId == name
  }

  /** A client reference names the client of that clientId or, when there is none, the
      client of that id. */
  lemma ClientByRefIs(realm: Realm, ref: string, id: string)
    ensures ClientByRef(realm, ref) == Some(id) <==>
      (ref != "" && ((exists k: nat :: NamesClient(realm, k, ref) && realm.clients[k].id == id
                        && forall j: nat | j < k :: !NamesClient(realm, j, ref))
                     || (id == ref && (exists c :: c in realm.clients && c.id == ref)
                         && forall k: nat :: !NamesClient(realm, k, ref))))
    ensures ClientByRef(realm, ref) == None <==>
      ref == "" || ((forall c | c in realm.clients :: c.id != ref) && forall k: nat :: !NamesClient(realm, k, ref))
  {
    var names := ClientNames(realm.clients);
    var i := Find(names, ref);
    ClientIdHeld(realm.clients, ref);
    forall k: nat ensures NamesClient(realm, k, ref) <==> k < |names| && names[k] == ref {}
    hide ClientNames, ClientIds, NamesClient;
    if i >= 0 {
      forall j: nat | j < i ensures !NamesClient(realm, j, ref) { assert names[j] == names[..i][j]; }
      forall k: nat | NamesClient(realm, k, ref) && forall j: nat | j < k :: !NamesClient(realm, j, ref)
        ensures k == i
      {
      }
    } else {
      forall k: nat ensures !NamesClient(realm, k, ref) { if k < |names| { assert names[k] in names; } }
    }
  }

  lemma ClientIdHeld(clients: seq<Client>, id: string)
    ensures id in ClientIds(clients) <==> exists c :: c in clients && c.id == id
  {
    if id in ClientIds(clients) {
      var i :| 0 <= i < |clients| && ClientIds(clients)[i] == id;
      assert clients[i] in clients;
    }
    if c :| c in clients && c.id == id {
      var i :| 0 <= i < |clients| && clients[i] == c;
      assert ClientIds(clients)[i] == id;
    }
  }

  /** A listed group is meant by the id sent or by the path sent. */
  predicate Meant(groups: seq<string>, paths: map<string, string>, ref: Ref, k: nat) {
    k < |groups| && ((ref.id != "" && groups[k] == ref.id)
                     || (ref.path != "" && groups[k] in paths && paths[groups[k]] == ref.path))
  }

  /** A group reference names the first listed group it means, and nothing when it means none. */
  lemma {:induction false} GroupByRefIs(groups: seq<string>, paths: map<string, string>, ref: Ref, id: string)
    ensures GroupByRef(groups, paths, ref) == Some(id) <==>
      exists k: nat :: (Meant(groups, paths, ref, k) && groups[k] == id
                        && forall j: nat | j < k :: !Meant(groups, paths, ref, j))
    ensures GroupByRef(groups, paths, ref) == None <==> forall k: nat :: !Meant(groups, paths, ref, k)
  {
    if groups != [] {
      forall k: nat ensures k > 0 ==> (Meant(groups, paths, ref, k) <==> Meant(groups[1..], paths, ref, k - 1)) {}
      forall k: nat ensures Meant(groups[1..], paths, ref, k) <==> Meant(groups, paths, ref, k + 1) {}
      GroupByRefIs(groups[1..], paths, ref, id);
      if Meant(groups, paths, ref, 0) {
        assert GroupByRef(groups, paths, ref) == Some(groups[0]);
      } else {
        assert GroupByRef(groups, paths, ref) == GroupByRef(groups[1..], paths, ref);
        hide GroupByRef, Meant;
        if k: nat :| Meant(groups[1..], paths, ref, k) && groups[1..][k] == id
                     && forall j: nat | j < k :: !Meant(groups[1..], paths, ref, j)
        {
          forall j: nat | j < k + 1 ensures !Meant(groups, paths, ref, j) {
            if j > 0 { assert !Meant(groups[1..], paths, ref, j - 1); }
          }
          assert Meant(groups, paths, ref, k + 1) && groups[k + 1] == groups[1..][k];
        }
        if k: nat :| Meant(groups, paths, ref, k) && groups[k] == id
                     && forall j: nat | j < k :: !Meant(groups, paths, ref, j)
        {
          assert k > 0 && groups[1..][k - 1] == groups[k] && Meant(groups[1..], paths, ref, k - 1);
          forall j: nat | j < k - 1 ensures !Meant(groups[1..], paths, ref, j) {
            assert !Meant(groups, paths, ref, j + 1);
          }
        }
      }
    }
  }

  // ----- lists of references -----

  /** Each role entry stands for itself, in order: nothing when its role is unknown, and
      otherwise the role's id with the entry's own flag. */
  lemma {:induction false} RolesByEntry(realm: Realm, a: seq<Ref>, b: seq<Ref>)
    ensures ResolveRoles(realm, a + b) == ResolveRoles(realm, a) + ResolveRoles(realm, b)
    ensures |a| == 1 ==>
      ResolveRoles(realm, a) == match RoleByRef(realm, a[0].id)
                                case None => []
                                case Some(id) => [Ref(id, "", a[0].required, false)]
  {
    hide RoleByRef;
    if a == [] {
      assert a + b == b;
    } else {
      assert (a + b)[1..] == a[1..] + b && (a + b)[0] == a[0];
      RolesByEntry(realm, a[1..], b);
    }
  }

  /** The same of group entries. */
  lemma {:induction false} GroupsByEntry(realm: Realm, a: seq<Ref>, b: seq<Ref>)
    ensures ResolveGroups(realm, a + b) == ResolveGroups(realm, a) + ResolveGroups(realm, b)
    ensures |a| == 1 ==>
      ResolveGroups(realm, a) == match GroupByRef(realm.groups, realm.paths, a[0])
                                 case None => []
                                 case Some(id) => [Ref(id, "", false, a[0].extend)]
  {
    hide GroupByRef;
    if a == [] {
      assert a + b == b;
    } else {
      assert (a + b)[1..] == a[1..] + b && (a + b)[0] == a[0];
      GroupsByEntry(realm, a[1..], b);
    }
  }

  /** Clients resolve one for one, and are refused exactly when one of them is unknown. */
  lemma {:induction false} ClientsByEntry(realm: Realm, refs: seq<string>)
    ensures ResolveClients(realm, refs) == None <==> exists i :: 0 <= i < |refs| && ClientByRef(realm, refs[i]) == None
    ensures ResolveClients(realm, refs).Some? ==>
      var ids := ResolveClients(realm, refs).value;
      |ids| == |refs| && forall i | 0 <= i < |refs| :: ClientByRef(realm, refs[i]) == Some(ids[i])
  {
    hide ClientByRef;
    if refs != [] {
      ClientsByEntry(realm, refs[1..]);
      if i :| 0 <= i < |refs| && ClientByRef(realm, refs[i]) == None {
        if i > 0 { assert refs[1..][i - 1] == refs[i]; }
      }
      if i :| 0 <= i < |refs[1..]| && ClientByRef(realm, refs[1..][i]) == None { assert refs[i + 1] == refs[1..][i]; }
    }
  }

  /** An entry that names a live group by id alone is kept, with its flag. */
  lemma GroupByIdKept(realm: Realm, before: seq<Ref>, ref: Ref, after: seq<Ref>)
    requires ref.id != "" && ref.path == "" && ref.id in realm.groups
    ensures ResolveGroups(realm, before + [ref] + after)
         == ResolveGroups(realm, before) + [Ref(ref.id, "", false, ref.extend)] + ResolveGroups(realm, after)
  {
    hide GroupByRef, ResolveGroups;
    GroupById(realm, ref);
    GroupsByEntry(realm, before + [ref], after);
    GroupsByEntry(realm, before, [ref]);
    GroupsByEntry(realm, [ref], []);
  }

  lemma GroupById(realm: Realm, ref: Ref)
    requires ref.id != "" && ref.path == "" && ref.id in realm.groups
    ensures GroupByRef(realm.groups, realm.paths, ref) == Some(ref.id)
  {
    ListedById(realm.groups, realm.paths, ref);
  }

  lemma {:induction false} ListedById(groups: seq<string>, paths: map<string, string>, ref: Ref)
    requires ref.id != "" && ref.path == "" && ref.id in groups
    ensures GroupByRef(groups, paths, ref) == Some(ref.id)
  {
    if groups[0] != ref.id { ListedById(groups[1..], paths, ref); }
  }

  /** An entry that names a live role by id, not shadowed by a realm role of that name, is
      kept, with its flag; and so is one that names a realm role. */
  lemma RoleKept(realm: Realm, before: seq<Ref>, ref: Ref, after: seq<Ref>, id: string)
    requires RoleByRef(realm, ref.id) == Some(id)
    ensures ResolveRoles(realm, before + [ref] + after)
         == ResolveRoles(realm, before) + [Ref(id, "", ref.required, false)] + ResolveRoles(realm, after)
  {
    hide RoleByRef;
    RolesByEntry(realm, before + [ref], after);
    RolesByEntry(realm, before, [ref]);
    RolesByEntry(realm, [ref], []);
  }

  // ----- association targets -----

  /** A target is named, or, when nothing has that name, given by its id. */
  lemma TargetIdIs(s: Server, kind: Kind, ref: string, id: string)
    requires NoRepeats(TargetNames(s, kind))
    ensures TargetId(s, kind, ref) == Some(id) <==>
      ((exists k :: 0 <= k < |TargetNames(s, kind)| && TargetNames(s, kind)[k] == ref && TargetIds(s, kind)[k] == id)
       || (ref !in TargetNames(s, kind) && ref in TargetIds(s, kind) && id == ref))
    ensures TargetId(s, kind, ref) == None <==> ref !in TargetNames(s, kind) && ref !in TargetIds(s, kind)
  {
    var names := TargetNames(s, kind);
    var i := Find(names, ref);
    hide TargetNames, TargetIds;
    forall k | 0 <= k < |names| && names[k] == ref ensures k == i {
      assert names[i] == names[k];
    }
  }

  /** Targets resolve one for one, and are refused exactly when one of them is unknown. */
  lemma {:induction false} TargetsByEntry(s: Server, kind: Kind, refs: seq<string>)
    ensures ResolveTargets(s, kind, refs) == None <==> exists i :: 0 <= i < |refs| && TargetId(s, kind, refs[i]) == None
    ensures ResolveTargets(s, kind, refs).Some? ==>
      var ids := ResolveTargets(s, kind, refs).value;
      |ids| == |refs| && forall i | 0 <= i < |refs| :: TargetId(s, kind, refs[i]) == Some(ids[i])
  {
    hide TargetId;
    if refs != [] {
      TargetsByEntry(s, kind, refs[1..]);
      if i :| 0 <= i < |refs| && TargetId(s, kind, refs[i]) == None {
        if i > 0 { assert refs[1..][i - 1] == refs[i]; }
      }
      if i :| 0 <= i < |refs[1..]| && TargetId(s, kind, refs[1..][i]) == None { assert refs[i + 1] == refs[1..][i]; }
    }
  }

  // ----- normalisation -----

  /** Entry `e` of a config asks for the association with `id`. */
  predicate Asks(s: Server, kind: Kind, e: (string, Value), id: string) {
    KindOfKey(e.0) == Some(kind) && ParseNames(e.1).Some?
    && exists i :: 0 <= i < |ParseNames(e.1).value| && TargetId(s, kind, ParseNames(e.1).value[i]) == Some(id)
  }

  predicate AnyGone(s: Server, kind: Kind, refs: seq<string>) {
    exists i :: 0 <= i < |refs| && TargetId(s, kind, refs[i]) == None
  }

  /** An association entry that cannot be read, or names an unknown target. */
  predicate Faulty(s: Server, e: (string, Value)) {
    && KindOfKey(e.0).Some?
    && (ParseNames(e.1) == None || AnyGone(s, KindOfKey(e.0).value, ParseNames(e.1).value))
  }

  /** The config without its association entries, in order. */
  function PlainPart(c: Config): Config {
    if c == [] then [] else (if KindOfKey(c[0].0) == None then [c[0]] else []) + PlainPart(c[1..])
  }

  lemma {:induction false} AddAllIs(p: Policy, kind: Kind, ids: seq<string>, x: string, other: Kind)
    ensures
      var q := AddAll(p, kind, ids);
      && (x in AssociationSet(q, other) <==> x in AssociationSet(p, other) || (other == kind && x in ids))
      && AssociationSet(p, other) <= AssociationSet(q, other)
      && q == p.(policies := q.policies, resources := q.resources, scopes := q.scopes)
    decreases |ids|
  {
    if ids != [] {
      var q := if ids[0] in AssociationSet(p, kind) then p else AddAssociation(p, kind, ids[0]);
      AddAllIs(q, kind, ids[1..], x, other);
    }
  }

  ghost predicate AskedIn(s: Server, kind: Kind, c: Config, id: string) {
    exists e :: e in c && Asks(s, kind, e, id)
  }

  ghost predicate FaultyIn(s: Server, c: Config) {
    exists e :: e in c && Faulty(s, e)
  }

  lemma AskedFirst(s: Server, kind: Kind, c: Config, id: string)
    requires c != []
    ensures AskedIn(s, kind, c, id) <==> Asks(s, kind, c[0], id) || AskedIn(s, kind, c[1..], id)
    ensures FaultyIn(s, c) <==> Faulty(s, c[0]) || FaultyIn(s, c[1..])
  {
    hide Asks, Faulty;
    assert forall e :: e in c <==> e == c[0] || e in c[1..];
  }

  /** The association with `x` is there exactly if it was, or was asked for. */
  ghost predicate Gained(s: Server, p: Policy, c: Config, q: Policy, kind: Kind, x: string) {
    x in AssociationSet(q, kind) <==> x in AssociationSet(p, kind) || AskedIn(s, kind, c, x)
  }

  predicate Keeps(p: Policy, q: Policy, kind: Kind) {
    AssociationSet(p, kind) <= AssociationSet(q, kind)
  }

  /** What consuming the association entries of `c` makes of `p`: they leave the config
      and their targets join the sets, which lose nothing. */
  ghost predicate ConsumedTo(s: Server, p: Policy, c: Config, kept: Config, q: Policy) {
    && q == p.(config := q.config, policies := q.policies, resources := q.resources, scopes := q.scopes)
    && q.config == kept + PlainPart(c)
    && (forall kind, x :: Gained(s, p, c, q, kind, x))
    && forall kind :: Keeps(p, q, kind)
  }

  lemma {:induction false} ConsumeIs(s: Server, p: Policy, c: Config, kept: Config)
    ensures
      var n := Consume(s, p, c, kept);
      && (n.Bad? <==> FaultyIn(s, c))
      && (n.Done? ==> ConsumedTo(s, p, c, kept, n.policy))
    decreases |c|
  {
    hide TargetId, KindOfKey, ParseNames, FaultyIn, ConsumedTo, Faulty, ResolveTargets, AddAll;
    if c == [] {
      NothingConsumed(s, p, kept);
    } else {
      AskedFirst(s, OfScope, c, "");
      FaultyIs(s, c[0]);
      match KindOfKey(c[0].0)
      case None =>
        ConsumeIs(s, p, c[1..], kept + [c[0]]);
        if Consume(s, p, c, kept).Done? { ConsumedPlain(s, p, c, kept, Consume(s, p, c, kept).policy); }
      case Some(kind) =>
        if ParseNames(c[0].1).Some? {
          TargetsByEntry(s, kind, ParseNames(c[0].1).value);
          if ResolveTargets(s, kind, ParseNames(c[0].1).value).Some? {
            var ids := ResolveTargets(s, kind, ParseNames(c[0].1).value).value;
            ConsumeIs(s, AddAll(p, kind, ids), c[1..], kept);
            if Consume(s, p, c, kept).Done? {
              ConsumedAssociation(s, p, c, kept, kind, ids, Consume(s, p, c, kept).policy);
            }
          }
        }
    }
  }

  lemma FaultyIs(s: Server, e: (string, Value))
    ensures KindOfKey(e.0) == None ==> !Faulty(s, e)
    ensures KindOfKey(e.0).Some? && ParseNames(e.1) == None ==> Faulty(s, e)
    ensures KindOfKey(e.0).Some? && ParseNames(e.1).Some? ==>
      (Faulty(s, e) <==> ResolveTargets(s, KindOfKey(e.0).value, ParseNames(e.1).value) == None)
  {
    hide TargetId, KindOfKey, ParseNames, ResolveTargets;
    if KindOfKey(e.0).Some? && ParseNames(e.1).Some? { TargetsByEntry(s, KindOfKey(e.0).value, ParseNames(e.1).value); }
  }

  lemma NothingConsumed(s: Server, p: Policy, kept: Config)
    ensures ConsumedTo(s, p, [], kept, p.(config := kept)) && !FaultyIn(s, [])
  {
    assert kept + PlainPart([]) == kept;
  }

  lemma ConsumedPlain(s: Server, p: Policy, c: Config, kept: Config, q: Policy)
    requires c != [] && KindOfKey(c[0].0) == None && ConsumedTo(s, p, c[1..], kept + [c[0]], q)
    ensures ConsumedTo(s, p, c, kept, q)
  {
    assert kept + [c[0]] + PlainPart(c[1..]) == kept + PlainPart(c);
    assert forall kind, x :: !Asks(s, kind, c[0], x);
    hide Asks, KindOfKey, AskedIn, AssociationSet, Keeps, PlainPart;
    forall kind, x ensures Gained(s, p, c, q, kind, x) {
      AskedFirst(s, kind, c, x);
      assert Gained(s, p, c[1..], q, kind, x);
    }
  }

  lemma ConsumedAssociation(s: Server, p: Policy, c: Config, kept: Config, kind: Kind, ids: seq<string>, q: Policy)
    requires c != [] && KindOfKey(c[0].0) == Some(kind) && ParseNames(c[0].1).Some?
    requires ResolveTargets(s, kind, ParseNames(c[0].1).value) == Some(ids)
    requires ConsumedTo(s, AddAll(p, kind, ids), c[1..], kept, q)
    ensures ConsumedTo(s, p, c, kept, q)
  {
    hide KindOfKey, ParseNames, TargetId, AddAll, PlainPart, ResolveTargets, Asks, AskedIn, AssociationSet, Keeps,
         Gained;
    PlainRest(c);
    var m := AddAll(p, kind, ids);
    AddAllIs(p, kind, ids, "", kind);
    TargetsByEntry(s, kind, ParseNames(c[0].1).value);
    forall other, x ensures Gained(s, p, c, q, other, x) {
      AddAllIs(p, kind, ids, x, other);
      AskedOnce(s, kind, c[0], ids, x);
      AskedFirst(s, other, c, x);
      GainedTwice(s, p, m, c, q, kind, ids, other, x);
    }
    forall other ensures Keeps(p, q, other) {
      AddAllIs(p, kind, ids, "", other);
      KeepsTwice(p, m, q, other);
    }
  }

  lemma GainedTwice(s: Server, p: Policy, m: Policy, c: Config, q: Policy, kind: Kind, ids: seq<string>, other: Kind,
                    x: string)
    requires c != [] && Gained(s, m, c[1..], q, other, x)
    requires x in AssociationSet(m, other) <==> x in AssociationSet(p, other) || (other == kind && x in ids)
    requires x in ids <==> Asks(s, kind, c[0], x)
    requires other != kind ==> !Asks(s, other, c[0], x)
    requires AskedIn(s, other, c, x) <==> Asks(s, other, c[0], x) || AskedIn(s, other, c[1..], x)
    ensures Gained(s, p, c, q, other, x)
  {
    hide Asks, AskedIn, AssociationSet;
  }

  lemma KeepsTwice(p: Policy, m: Policy, q: Policy, kind: Kind)
    requires AssociationSet(p, kind) <= AssociationSet(m, kind) && Keeps(m, q, kind)
    ensures Keeps(p, q, kind)
  {
  }

  lemma PlainRest(c: Config)
    requires c != [] && KindOfKey(c[0].0).Some?
    ensures PlainPart(c) == PlainPart(c[1..])
  {
    hide KindOfKey;
    assert [] + PlainPart(c[1..]) == PlainPart(c[1..]);
  }

  lemma AskedOnce(s: Server, kind: Kind, e: (string, Value), ids: seq<string>, x: string)
    requires KindOfKey(e.0) == Some(kind) && ParseNames(e.1).Some? && |ids| == |ParseNames(e.1).value|
    requires forall i | 0 <= i < |ids| :: TargetId(s, kind, ParseNames(e.1).value[i]) == Some(ids[i])
    ensures x in ids <==> Asks(s, kind, e, x)
    ensures forall other | other != kind :: !Asks(s, other, e, x)
  {
    hide TargetId, ParseNames, KindOfKey;
    if x in ids {
      var i :| 0 <= i < |ids| && ids[i] == x;
    }
  }
}
