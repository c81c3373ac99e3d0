/** Who may hand out an admin role: the conferral closure, the per-container
    reduction to names, and what runs of hand-outs can reach
    (internal/admin/auth.go:120-300, 456-618). */
module AdminRoles {
  import opened Basics

  const MASTER := "master"

  /** A role lives in a realm, on a client (by id) or, with no client, on the realm. */
  datatype Role = Role(realm: string, client: string, name: string)
  datatype Client = Client(id: string, realm: string, clientId: string)

  /** A user and the roles it effectively holds, composites expanded. */
  datatype Holder = Holder(realm: string, held: set<Role>)

  /** What holding a name lets its holder hand out beyond that name. */
  type Table = map<string, seq<string>>

  /** What each of Keycloak's admin roles confers beyond itself, as observed of a
      running Keycloak (internal/admin/auth.go:161-172). */
  const IMPLICATIONS: Table := map[
    "manage-realm" := ["view-realm", "manage-organizations"],
    "manage-clients" := ["view-clients", "create-client", "manage-authorization", "query-groups", "query-organizations",
                         "query-realms", "query-users"],
    "manage-users" := ["view-users", "query-clients", "query-organizations", "query-realms"],
    "manage-organizations" := ["view-organizations"],
    "manage-authorization" := ["view-authorization"],
    "manage-events" := ["view-events"],
    "manage-identity-providers" := ["view-identity-providers"],
    "view-clients" := ["view-authorization", "query-clients"],
    "view-users" := ["query-users", "query-groups"],
    "view-organizations" := ["query-organizations"]
  ]

  // ----- the closure -----

  ghost predicate Closed(table: Table, s: set<string>) {
    forall n | n in s && n in table :: forall m | m in table[n] :: m in s
  }

  /** In every set that holds the seed and is closed under the table: the least such. */
  ghost predicate Confers(table: Table, seed: set<string>, x: string) {
    forall s: set<string> | seed <= s && Closed(table, s) :: x in s
  }

  lemma SeedConfers(table: Table, seed: set<string>, x: string)
    requires x in seed
    ensures Confers(table, seed, x)
  {
  }

  /** Closing twice adds nothing, and a larger seed confers more. */
  lemma ConfersThrough(table: Table, seed: set<string>, more: set<string>, x: string)
    requires (forall y | y in more :: Confers(table, seed, y)) && Confers(table, more, x)
    ensures Confers(table, seed, x)
  {
    forall s: set<string> | seed <= s && Closed(table, s) ensures x in s {
      assert forall y | y in more :: y in s;
    }
  }

  predicate Reserved(name: string) {
    name == "admin" || name == "create-realm"
  }

  predicate Implied(table: Table, x: string) {
    exists n :: n in table && x in table[n]
  }

  /** Nothing implies the two realm roles. */
  predicate NoneImplied(table: Table) {
    !Implied(table, "admin") && !Implied(table, "create-realm")
  }

  lemma MeasuredTableImpliesNone()
    ensures NoneImplied(IMPLICATIONS)
  {
  }

  /** A name nothing implies is conferred by itself alone. */
  lemma NeedsSeed(table: Table, seed: set<string>, x: string, all: set<string>)
    requires !Implied(table, x) && Confers(table, seed, x)
    requires seed <= all && Closed(table, all)
    ensures x in seed
  {
    var s := all - {x};
    forall n | n in s && n in table ensures forall m | m in table[n] :: m in s {
      forall m | m in table[n] ensures m in s { assert m in all && m != x; }
    }
    assert Closed(table, s);
  }

  /** Every name a table mentions, and those of a seed: closed, and finite. */
  function Universe(table: Table, seed: set<string>): (u: set<string>)
    ensures seed <= u && Closed(table, u)
  {
    seed + table.Keys + set n, m | n in table && m in table[n] :: m
  }

  // ----- containers -----

  function AdminContainerFor(realm: string): string {
    if realm == MASTER then "master-realm" else "realm-management"
  }

  function MasterContainerFor(realm: string): string {
    if realm == MASTER then "master-realm" else realm + "-realm"
  }

  predicate HasSuffix(s: string, suffix: string) {
    |s| >= |suffix| && s[|s| - |suffix|..] == suffix
  }

  /** The realm whose admin roles a client carries, or "". */
  function AdminRealmOf(realm: string, clientId: string): string {
    if clientId == AdminContainerFor(realm) then realm
    else if HasSuffix(clientId, "-realm") then clientId[..|clientId| - 6]
    else ""
  }

  function ByClientId(clients: seq<Client>, realm: string, clientId: string): (r: Option<Client>)
    ensures r.Some? ==> r.value in clients && r.value.realm == realm && r.value.clientId == clientId
  {
    if clients == [] then None
    else if clients[0].realm == realm && clients[0].clientId == clientId then Some(clients[0])
    else ByClientId(clients[1..], realm, clientId)
  }

  function ById(clients: seq<Client>, realm: string, id: string): (r: Option<Client>)
    ensures r.Some? ==> r.value in clients && r.value.realm == realm && r.value.id == id
    ensures r == None ==> forall c | c in clients :: c.realm != realm || c.id != id
  {
    if clients == [] then None
    else if clients[0].realm == realm && clients[0].id == id then Some(clients[0])
    else ById(clients[1..], realm, id)
  }

  /** Ids are unique and not empty. */
  ghost predicate TidyClients(clients: seq<Client>) {
    (forall c | c in clients :: c.id != "") && forall c, d | c in clients && d in clients && c.id == d.id :: c == d
  }

  /** The client, in the realm a caller signed in to, whose roles decide what it may
      do to the target realm. */
  function ContainerFor(clients: seq<Client>, authRealm: string, target: string): Option<Client> {
    if authRealm == MASTER then ByClientId(clients, authRealm, MasterContainerFor(target))
    else if authRealm == target then ByClientId(clients, authRealm, AdminContainerFor(target))
    else None
  }

  /** Whether a role of the caller's realm is one of its admin roles for the target. */
  predicate Counts(clients: seq<Client>, authRealm: string, target: string, r: Role) {
    CountsOn(ContainerFor(clients, authRealm, target), authRealm, r)
  }

  predicate CountsOn(container: Option<Client>, authRealm: string, r: Role) {
    (container.Some? && r.client == container.value.id) || (authRealm == MASTER && r.client == "" && Reserved(r.name))
  }

  /** adminRoleNames. */
  function AdminNames(clients: seq<Client>, h: Holder, target: string): set<string> {
    set r | r in h.held && Counts(clients, h.realm, target, r) :: r.name
  }

  /** foreignGrants: exact names on one container. */
  function NamesOn(held: set<Role>, container: Option<Client>): set<string> {
    if container == None then {} else set r | r in held && r.client == container.value.id :: r.name
  }

  // ----- the predicate -----

  datatype Decision = Allowed | Refused | Failed

  /** mayGrantRole: may this caller, administering `realm`, hand this role to anybody? */
  ghost function MayGrant(clients: seq<Client>, table: Table, c: Holder, realm: string, r: Role): Decision {
    var grants := AdminNames(clients, c, realm);
    if r.client == "" then
      if Confers(table, grants, r.name) || !Reserved(r.name) then Allowed else Refused
    else
      match ById(clients, realm, r.client)
      case None => Failed
      case Some(container) =>
        var owner := AdminRealmOf(realm, container.clientId);
        if owner == "" then Allowed
        else if owner == realm then (if Confers(table, grants, r.name) then Allowed else Refused)
        else if r.name in NamesOn(c.held, ContainerFor(clients, c.realm, owner)) then Allowed
        else Refused
  }

  // ----- what the decision is -----

  /** The realm whose admin roles a client carries: its own realm's for the realm's
      container, the realm named before "-realm" for any other client spelled so. */
  lemma AdminRealmIs(realm: string, clientId: string, owner: string)
    requires owner != ""
    ensures AdminRealmOf(realm, clientId) == owner
       <==> if clientId == AdminContainerFor(realm) then owner == realm else clientId == owner + "-realm"
  {
    if clientId == owner + "-realm" {
      assert clientId[|owner|..] == "-realm" && clientId[..|owner|] == owner;
    }
    if HasSuffix(clientId, "-realm") {
      assert clientId == clientId[..|clientId| - 6] + clientId[|clientId| - 6..];
    }
  }

  /** Where a caller signed in to one realm holds its admin roles for another: on the
      master client of that realm, or, at home, on the realm's own container. */
  predicate Holds(k: Client, authRealm: string, target: string) {
    && k.realm == authRealm
    && if authRealm == MASTER then k.clientId == MasterContainerFor(target)
       else authRealm == target && k.clientId == AdminContainerFor(target)
  }

  lemma {:induction false} ByClientIdIs(clients: seq<Client>, realm: string, clientId: string)
    ensures ByClientId(clients, realm, clientId) == None
       <==> forall k | k in clients :: k.realm != realm || k.clientId != clientId
  {
    if clients != [] { ByClientIdIs(clients[1..], realm, clientId); }
  }

  lemma ContainerIs(clients: seq<Client>, authRealm: string, target: string)
    ensures
      var container := ContainerFor(clients, authRealm, target);
      && (container.Some? ==> container.value in clients && Holds(container.value, authRealm, target))
      && (container == None <==> forall k | k in clients :: !Holds(k, authRealm, target))
  {
    ByClientIdIs(clients, authRealm, MasterContainerFor(target));
    ByClientIdIs(clients, authRealm, AdminContainerFor(target));
    hide ByClientId, MasterContainerFor, AdminContainerFor;
  }

  /** The caller holds a role of exactly that name on the client its admin roles for
      the target live on. */
  ghost predicate HoldsExactly(clients: seq<Client>, c: Holder, target: string, name: string) {
    exists x, k :: x in c.held && k in clients && Holds(k, c.realm, target) && x.client == k.id && x.name == name
  }

  lemma ExactNames(clients: seq<Client>, c: Holder, target: string, name: string)
    requires UniqueNames(clients)
    ensures name in NamesOn(c.held, ContainerFor(clients, c.realm, target)) <==> HoldsExactly(clients, c, target, name)
  {
    ContainerIs(clients, c.realm, target);
    hide ContainerFor;
    if HoldsExactly(clients, c, target, name) {
      var x, k :| x in c.held && k in clients && Holds(k, c.realm, target) && x.client == k.id && x.name == name;
      assert ContainerFor(clients, c.realm, target) == Some(k);
    }
  }

  /** One client of a realm goes by a clientId. */
  ghost predicate UniqueNames(clients: seq<Client>) {
    forall c, d | c in clients && d in clients && c.realm == d.realm && c.clientId == d.clientId :: c == d
  }

  /** A caller's names for a realm: those it holds on the container, and in master the
      two reserved realm roles it holds. */
  lemma AdminNamesAre(clients: seq<Client>, c: Holder, target: string, name: string)
    requires UniqueNames(clients)
    ensures name in AdminNames(clients, c, target)
       <==> (HoldsExactly(clients, c, target, name)
             || (c.realm == MASTER && Reserved(name) && exists x :: x in c.held && x.client == "" && x.name == name))
  {
    ExactNames(clients, c, target, name);
    hide ContainerFor, HoldsExactly;
    if name in AdminNames(clients, c, target) {
      var x :| x in c.held && Counts(clients, c.realm, target, x) && x.name == name;
    }
    if c.realm == MASTER && Reserved(name) {
      if x :| x in c.held && x.client == "" && x.name == name { assert Counts(clients, c.realm, target, x); }
    }
    if x :| x in c.held && x.name == name && ContainerFor(clients, c.realm, target).Some?
            && x.client == ContainerFor(clients, c.realm, target).value.id
    {
      assert Counts(clients, c.realm, target, x);
    }
  }

  /** A realm role: an unreserved one goes to anybody, and as nothing implies the two
      reserved ones, those go to whoever holds that very name, on the realm's container or,
      in master, as the realm role. */
  lemma RealmRoleDecided(clients: seq<Client>, table: Table, c: Holder, realm: string, r: Role)
    requires r.client == "" && UniqueNames(clients) && NoneImplied(table)
    ensures
      var d := MayGrant(clients, table, c, realm, r);
      var held := HoldsExactly(clients, c, realm, r.name)
                  || (c.realm == MASTER && exists x :: x in c.held && x.client == "" && x.name == r.name);
      d == if Reserved(r.name) && !held then Refused else Allowed
  {
    var names := AdminNames(clients, c, realm);
    AdminNamesAre(clients, c, realm, r.name);
    hide AdminNames, HoldsExactly;
    if r.name in names {
      SeedConfers(table, names, r.name);
    } else if Reserved(r.name) && Confers(table, names, r.name) {
      NeedsSeed(table, names, r.name, Universe(table, names));
    }
  }

  /** A client role fails exactly when no client of the realm has that id; on a client
      that carries no realm's admin roles it goes to anybody; on the realm's own
      container it needs the closure of the caller's names; on another realm's, that
      very name there. */
  lemma ClientRoleDecided(clients: seq<Client>, table: Table, c: Holder, realm: string, r: Role)
    requires r.client != "" && TidyClients(clients) && UniqueNames(clients)
    ensures
      var d := MayGrant(clients, table, c, realm, r);
      && (d == Failed <==> forall k | k in clients :: k.realm != realm || k.id != r.client)
      && forall k | k in clients && k.realm == realm && k.id == r.client ::
           var owner := AdminRealmOf(realm, k.clientId);
           && (owner == "" ==> d == Allowed)
           && (owner != "" && owner == realm ==>
                 (d == Allowed <==> Confers(table, AdminNames(clients, c, realm), r.name)))
           && (owner != "" && owner != realm ==> (d == Allowed <==> HoldsExactly(clients, c, owner, r.name)))
  {
    var found := ById(clients, realm, r.client);
    if found.Some? {
      ExactNames(clients, c, AdminRealmOf(realm, found.value.clientId), r.name);
    }
    hide ById, AdminRealmOf, Confers, AdminNames, HoldsExactly, NamesOn, ContainerFor;
  }

  // ----- runs of hand-outs -----

  /** What there is: clients, the table, the roles that exist, and what each role
      expands to when held. */
  datatype World = World(clients: seq<Client>, table: Table, roles: set<Role>, expand: Role -> set<Role>)

  type Holders = map<string, Holder>

  /** The caller hands a role of the administered realm to a user of that realm. */
  datatype HandOut = HandOut(caller: string, realm: string, recipient: string, role: Role)

  ghost predicate Admitted(w: World, s: Holders, op: HandOut) {
    && op.caller in s && op.recipient in s && s[op.recipient].realm == op.realm
    && op.role in w.roles && op.role.realm == op.realm
    && MayGrant(w.clients, w.table, s[op.caller], op.realm, op.role) == Allowed
  }

  ghost function Step(w: World, s: Holders, op: HandOut): Holders {
    if !Admitted(w, s, op) then s
    else s[op.recipient := Holder(op.realm, s[op.recipient].held + w.expand(op.role))]
  }

  ghost function Run(w: World, s: Holders, ops: seq<HandOut>): Holders
    decreases |ops|
  {
    if ops == [] then s else Run(w, Step(w, s, ops[0]), ops[1..])
  }

  /** The roles that matter in a run: those held at the start and those handed out,
      with all they expand to. */
  ghost function InPlay(w: World, s: Holders, ops: seq<HandOut>): set<Role> {
    (set h, r | h in s && r in s[h].held :: r)
    + (set op | op in ops && op.role in w.roles :: op.role)
    + (set op, r | op in ops && op.role in w.roles && r in w.expand(op.role) :: r)
  }

  /** The same world with the roles in play alone. */
  ghost function Reduced(w: World, s: Holders, ops: seq<HandOut>): World {
    w.(roles := InPlay(w, s, ops))
  }

  /** What is assumed of a world's roles: they expand transitively, within their realm;
      an ordinary role carries no admin role; an admin role carries what the table
      confers as well, or is sovereign; master-realm's roles are never named like the
      two realm roles, which nothing implies. */
  ghost predicate Catalogue(w: World) {
    && TidyClients(w.clients) && NoneImplied(w.table)
    && (forall r | r in w.roles :: Expands(w, r))
    && (forall r | r in w.roles :: r.client != "" ==> !Reserved(r.name) || !OnContainer(w, r))
  }

  ghost predicate OnContainer(w: World, r: Role) {
    exists c :: c in w.clients && c.id == r.client && c.realm == MASTER && c.clientId == "master-realm"
  }

  ghost predicate Expands(w: World, r: Role) {
    && r in w.expand(r)
    && (forall x | x in w.expand(r) :: x in w.roles && x.realm == r.realm && w.expand(x) <= w.expand(r))
    && (Sovereign(w, r) || forall x, target | x in w.expand(r) && Counts(w.clients, r.realm, target, x) ::
          Counts(w.clients, r.realm, target, r) && Confers(w.table, {r.name}, x.name))
  }

  /** A role like admin or realm-admin: it may carry anything, but nothing implies its
      name, and another admin role of that name for the same target carries as much. */
  ghost predicate Sovereign(w: World, r: Role) {
    && !Implied(w.table, r.name)
    && forall y, x, target | y in w.roles && y.name == r.name && x in w.expand(r)
      && Counts(w.clients, r.realm, target, x) ::
         && Counts(w.clients, r.realm, target, r)
         && (Counts(w.clients, y.realm, target, y) ==> CarriesName(w, y, target, x.name))
  }

  ghost predicate CarriesName(w: World, y: Role, target: string, name: string) {
    exists z :: z in w.expand(y) && Counts(w.clients, y.realm, target, z) && z.name == name
  }

  /** A holder's roles are of its realm and expanded. */
  ghost predicate Effective(w: World, h: Holder) {
    forall r | r in h.held :: r in w.roles && r.realm == h.realm && w.expand(r) <= h.held
  }

  ghost predicate AllEffective(w: World, s: Holders) {
    forall h | h in s :: Effective(w, s[h])
  }

  /** The names any holder has for the target realm. */
  ghost function AllNames(w: World, s: Holders, target: string): set<string> {
    set h, x | h in s && x in AdminNames(w.clients, s[h], target) :: x
  }

  /** No holder has a name for the target that the seed does not confer. */
  ghost predicate Confined(w: World, s: Holders, target: string, seed: set<string>) {
    forall h | h in s :: HolderConfined(w, s[h], target, seed)
  }

  ghost predicate HolderConfined(w: World, h: Holder, target: string, seed: set<string>) {
    forall x | x in AdminNames(w.clients, h, target) :: Confers(w.table, seed, x)
  }

  lemma Suffixed(target: string)
    requires target != "" && target != MASTER
    ensures AdminRealmOf(MASTER, MasterContainerFor(target)) == target
  {
    var c := MasterContainerFor(target);
    assert c[|c| - 6..] == "-realm" && c[..|c| - 6] == target;
    assert "master-realm"[..6] == "master";
  }

  /** An admin role the caller may hand out is conferred by its own names for the
      realm that role is about. */
  lemma GrantedIsConferred(w: World, c: Holder, realm: string, r: Role, target: string)
    requires Catalogue(w) && Effective(w, c) && target != "" && r in w.roles && r.realm == realm
    requires MayGrant(w.clients, w.table, c, realm, r) == Allowed && Counts(w.clients, realm, target, r)
    ensures Confers(w.table, AdminNames(w.clients, c, target), r.name)
  {
    var grants := AdminNames(w.clients, c, realm);
    if r.client == "" {
      RealmRoleGranted(w, c, r, target);
    } else {
      var container := ContainerFor(w.clients, realm, target).value;
      assert ById(w.clients, realm, r.client) == Some(container);
      if realm == MASTER && target != MASTER {
        Suffixed(target);
        SeedConfers(w.table, AdminNames(w.clients, c, target), r.name);
      }
    }
  }

  /** A reserved realm role is handed out only by a holder of it. */
  lemma RealmRoleGranted(w: World, c: Holder, r: Role, target: string)
    requires Catalogue(w) && Effective(w, c) && r.client == "" && Reserved(r.name) && r.realm == MASTER
    requires Confers(w.table, AdminNames(w.clients, c, MASTER), r.name)
    ensures Confers(w.table, AdminNames(w.clients, c, target), r.name)
  {
    hide Confers, Universe, Expands, TidyClients;
    assert NoneImplied(w.table) && !Implied(w.table, r.name);
    var names := AdminNames(w.clients, c, MASTER);
    NeedsSeed(w.table, names, r.name, Universe(w.table, names));
    var x :| x in c.held && Counts(w.clients, c.realm, MASTER, x) && x.name == r.name;
    assert x.client != "" ==> OnContainer(w, x);
    assert x == r;
    SeedConfers(w.table, AdminNames(w.clients, c, target), r.name);
  }

  /** A caller with a sovereign role's name has every name the role carries. */
  lemma SovereignHeld(w: World, c: Holder, r: Role, target: string, x: Role)
    requires Effective(w, c) && Sovereign(w, r) && x in w.expand(r) && Counts(w.clients, r.realm, target, x)
    requires Confers(w.table, AdminNames(w.clients, c, target), r.name)
    ensures Confers(w.table, AdminNames(w.clients, c, target), x.name)
  {
    hide Counts, Confers, Implied, Universe, Closed;
    var names := AdminNames(w.clients, c, target);
    NeedsSeed(w.table, names, r.name, Universe(w.table, names));
    var y :| y in c.held && Counts(w.clients, c.realm, target, y) && y.name == r.name;
    assert CarriesName(w, y, target, x.name);
    var z :| z in w.expand(y) && Counts(w.clients, y.realm, target, z) && z.name == x.name;
    assert z in c.held;
    SeedConfers(w.table, names, x.name);
  }

  /** What a hand-out adds to its recipient was conferred by the caller's names. */
  lemma AddedIsConferred(w: World, c: Holder, realm: string, r: Role, target: string, seed: set<string>, x: Role)
    requires Catalogue(w) && Effective(w, c) && target != "" && r in w.roles && r.realm == realm
    requires MayGrant(w.clients, w.table, c, realm, r) == Allowed && HolderConfined(w, c, target, seed)
    requires x in w.expand(r) && Counts(w.clients, realm, target, x)
    ensures Confers(w.table, seed, x.name)
  {
    assert Expands(w, r);
    hide MayGrant, TidyClients, NoneImplied, Implied, Confers, OnContainer;
    assert Counts(w.clients, realm, target, r);
    GrantedIsConferred(w, c, realm, r, target);
    var names := AdminNames(w.clients, c, target);
    if Sovereign(w, r) {
      SovereignHeld(w, c, r, target, x);
      ConfersThrough(w.table, seed, names, x.name);
    } else {
      ConfersThrough(w.table, names, {r.name}, x.name);
      ConfersThrough(w.table, seed, names, x.name);
    }
  }

  lemma StepConfined(w: World, s: Holders, op: HandOut, target: string, seed: set<string>)
    requires Catalogue(w) && AllEffective(w, s) && target != "" && Confined(w, s, target, seed)
    ensures AllEffective(w, Step(w, s, op)) && Confined(w, Step(w, s, op), target, seed)
  {
    if Admitted(w, s, op) {
      var c, g := s[op.caller], s[op.recipient];
      var more := Holder(op.realm, g.held + w.expand(op.role));
      assert HolderConfined(w, c, target, seed) && HolderConfined(w, g, target, seed) && Effective(w, c)
        && Effective(w, g) && Expands(w, op.role);
      hide Catalogue, MayGrant, Confers, Counts;
      forall r | r in more.held ensures r in w.roles && r.realm == more.realm && w.expand(r) <= more.held {}
      forall n | n in AdminNames(w.clients, more, target) ensures Confers(w.table, seed, n) {
        var x :| x in more.held && Counts(w.clients, op.realm, target, x) && x.name == n;
        if x in g.held {
          assert n in AdminNames(w.clients, g, target);
        } else {
          AddedIsConferred(w, c, op.realm, op.role, target, seed, x);
        }
      }
      assert HolderConfined(w, more, target, seed) && Effective(w, more);
      hide HolderConfined, Effective, Expands, Admitted, AdminNames;
    }
  }

  lemma {:induction false} RunConfined(w: World, s: Holders, ops: seq<HandOut>, target: string, seed: set<string>)
    requires Catalogue(w) && AllEffective(w, s) && target != "" && Confined(w, s, target, seed)
    ensures AllEffective(w, Run(w, s, ops)) && Confined(w, Run(w, s, ops), target, seed)
    decreases |ops|
  {
    hide Catalogue, AllEffective, Confined, Step;
    if ops != [] {
      StepConfined(w, s, ops[0], target, seed);
      RunConfined(w, Step(w, s, ops[0]), ops[1..], target, seed);
    }
  }

  /** Roles out of play change nothing about a run. */
  lemma {:induction false} SameRun(w: World, play: set<Role>, s: Holders, ops: seq<HandOut>)
    requires forall op | op in ops :: op.role in w.roles <==> op.role in play
    ensures Run(w.(roles := play), s, ops) == Run(w, s, ops)
    decreases |ops|
  {
    if ops != [] {
      assert ops[0] in ops && forall op | op in ops[1..] :: op in ops;
      hide MayGrant;
      assert Step(w.(roles := play), s, ops[0]) == Step(w, s, ops[0]);
      hide Step;
      SameRun(w, play, Step(w, s, ops[0]), ops[1..]);
    }
  }

  lemma PlayHolds(w: World, s: Holders, ops: seq<HandOut>)
    requires AllEffective(w, s) && forall r | r in w.roles :: w.expand(r) <= w.roles
    ensures AllEffective(Reduced(w, s, ops), s)
    ensures forall op | op in ops :: op.role in w.roles <==> op.role in InPlay(w, s, ops)
  {
    var play := InPlay(w, s, ops);
    forall h | h in s ensures Effective(Reduced(w, s, ops), s[h]) {
      assert Effective(w, s[h]);
      forall r | r in s[h].held ensures r in play {}
    }
    forall op | op in ops ensures op.role in w.roles <==> op.role in play {
      forall h, r | h in s && r in s[h].held ensures r in w.roles { assert Effective(w, s[h]); }
    }
  }

  /** Over every run of hand-outs, whoever hands out what to whom: the closed set of
      any holder's admin names for a realm stays inside the closure of the names all
      holders had for it at the start. Of roles nobody holds or hands out, nothing is
      asked. */
  lemma HandOutsAddNothing(w: World, s: Holders, ops: seq<HandOut>, target: string, h: string, x: string)
    requires Catalogue(Reduced(w, s, ops)) && (forall r | r in w.roles :: w.expand(r) <= w.roles)
    requires AllEffective(w, s) && target != ""
    requires var t := Run(w, s, ops); h in t && Confers(w.table, AdminNames(w.clients, t[h], target), x)
    ensures Confers(w.table, AllNames(w, s, target), x)
  {
    hide Catalogue, InPlay, MayGrant, AdminNames, Confers, Run, Effective;
    PlayHolds(w, s, ops);
    SameRun(w, InPlay(w, s, ops), s, ops);
    assert AllNames(Reduced(w, s, ops), s, target) == AllNames(w, s, target);
    PlayAddsNothing(Reduced(w, s, ops), s, ops, target, h, x);
  }

  lemma PlayAddsNothing(w: World, s: Holders, ops: seq<HandOut>, target: string, h: string, x: string)
    requires Catalogue(w) && AllEffective(w, s) && target != ""
    requires var t := Run(w, s, ops); h in t && Confers(w.table, AdminNames(w.clients, t[h], target), x)
    ensures Confers(w.table, AllNames(w, s, target), x)
  {
    var seed := AllNames(w, s, target);
    forall g | g in s ensures HolderConfined(w, s[g], target, seed) {
      forall n | n in AdminNames(w.clients, s[g], target) ensures Confers(w.table, seed, n) {
        SeedConfers(w.table, seed, n);
      }
    }
    RunConfined(w, s, ops, target, seed);
    hide Catalogue, AllEffective, Run, AdminNames, AllNames, Confers;
    var t := Run(w, s, ops);
    assert HolderConfined(w, t[h], target, seed);
    ConfersThrough(w.table, seed, AdminNames(w.clients, t[h], target), x);
  }

  // ----- a catalogue -----

  /** One realm with its container, an ordinary role, and three admin roles:
      realm-admin carries all, manage-users what the table says of it. */
  function SmallWorld(): World {
    var all := {OfRealm("realm-admin"), OfRealm("manage-users"), OfRealm("view-users"), Role("r", "", "staff")};
    World([Client("c", "r", "realm-management")], IMPLICATIONS, all,
          (x: Role) => if x.name == "realm-admin" then all
                       else if x.name == "manage-users" then {x, OfRealm("view-users")}
                       else {x})
  }

  function OfRealm(name: string): Role {
    Role("r", "c", name)
  }

  lemma SmallCounts(target: string, x: Role)
    ensures Counts(SmallWorld().clients, "r", target, x) <==> target == "r" && x.client == "c"
  {
    hide IMPLICATIONS;
    var clients := SmallWorld().clients;
    assert clients[0].id == "c" && clients[1..] == [];
    assert ContainerFor(clients, "r", target) == if target == "r" then Some(clients[0]) else None;
  }

  lemma TableConfers()
    ensures Confers(IMPLICATIONS, {"manage-users"}, "view-users") && !Implied(IMPLICATIONS, "realm-admin")
  {
    forall s: set<string> | {"manage-users"} <= s && Closed(IMPLICATIONS, s) ensures "view-users" in s {
      assert "manage-users" in s && "manage-users" in IMPLICATIONS;
    }
  }

  lemma SmallExpands(r: Role)
    requires r in SmallWorld().roles
    ensures Expands(SmallWorld(), r)
  {
    hide Counts, Confers, Implied, IMPLICATIONS;
    var w := SmallWorld();
    TableConfers();
    forall x, target
      ensures Counts(w.clients, "r", target, x) <==> target == "r" && x.client == "c"
    {
      SmallCounts(target, x);
    }
    forall x: string ensures Confers(w.table, {x}, x) { SeedConfers(w.table, {x}, x); }
    if r.name == "realm-admin" {
      forall y, x, target | y in w.roles && y.name == r.name && x in w.expand(r)
        && Counts(w.clients, r.realm, target, x)
        ensures Counts(w.clients, r.realm, target, r)
          && (Counts(w.clients, y.realm, target, y) ==> CarriesName(w, y, target, x.name))
      {
        assert y == r && x in w.expand(y);
      }
      assert Sovereign(w, r);
    }
  }

  /** The assumptions on a catalogue can be met, with the measured table. */
  lemma SmallCatalogue()
    ensures Catalogue(SmallWorld())
  {
    hide Expands, IMPLICATIONS, Implied;
    MeasuredTableImpliesNone();
    forall r | r in SmallWorld().roles ensures Expands(SmallWorld(), r) { SmallExpands(r); }
  }
}
