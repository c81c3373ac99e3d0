/** A policy's config in its two forms: ids as stored, names and paths as exported
    (internal/admin/authzimport.go). */
module AuthzConfig {
  import opened Basics
  import opened AuthzModel

  /** The realm the references live in: roles (a realm role has no client), clients,
      the realm's groups in listing order, and the path of every group. */
  datatype Role = Role(id: string, client: string, name: string)
  datatype Client = Client(id: string, clientId: string)
  datatype Realm = Realm(roles: seq<Role>, clients: seq<Client>, groups: seq<string>, paths: map<string, string>)

  datatype Kind = OfPolicy | OfResource | OfScope

  /** The three config keys that are associations. */
  function AssociationKey(kind: Kind): string {
    match kind
    case OfPolicy => "applyPolicies"
    case OfResource => "resources"
    case OfScope => "scopes"
  }

  function KindOfKey(key: string): Option<Kind> {
    if key == "applyPolicies" then Some(OfPolicy)
    else if key == "resources" then Some(OfResource)
    else if key == "scopes" then Some(OfScope)
    else None
  }

  /** The key a provider resolves and writes when it is absent. */
  function DefaultKey(kind: string): Option<string> {
    if kind == "role" then Some("roles")
    else if kind == "client" then Some("clients")
    else if kind == "group" then Some("groups")
    else None
  }

  /** Whether the export keeps a key: three types keep their own keys only. */
  predicate ExportKeeps(kind: string, key: string) {
    if kind == "role" then key == "roles" || key == "fetchRoles"
    else if kind == "client" then key == "clients"
    else if kind == "group" then key == "groups" || key == "groupsClaim"
    else true
  }

  // ----- JSON arrays in config strings -----

  function OfNames(names: seq<string>): Value {
    if names == [] then EmptyArray else Names(names)
  }

  function OfRefs(refs: seq<Ref>): Value {
    if refs == [] then EmptyArray else Refs(refs)
  }

  function ParseNames(v: Value): Option<seq<string>> {
    match v
    case EmptyArray => Some([])
    case Names(names) => Some(names)
    case _ => None
  }

  function ParseRefs(v: Value): Option<seq<Ref>> {
    match v
    case EmptyArray => Some([])
    case Refs(refs) => Some(refs)
    case _ => None
  }

  // ----- config as an ordered map -----

  function Keys(c: Config): (r: seq<string>)
    ensures |r| == |c| && forall i | 0 <= i < |c| :: r[i] == c[i].0
  {
    seq(|c|, i requires 0 <= i < |c| => c[i].0)
  }

  function ConfigValue(c: Config, key: string): Option<Value> {
    var i := Find(Keys(c), key);
    if i < 0 then None else Some(c[i].1)
  }

  /** SetConfig writes in place, or at the end. */
  function SetConfig(c: Config, key: string, v: Value): Config {
    var i := Find(Keys(c), key);
    if i < 0 then c + [(key, v)] else c[i := (key, v)]
  }

  function SetAll(c: Config, entries: Config): Config
    decreases |entries|
  {
    if entries == [] then c else SetAll(SetConfig(c, entries[0].0, entries[0].1), entries[1..])
  }

  // ----- resolving references -----

  function RoleIds(roles: seq<Role>): (r: seq<string>)
    ensures |r| == |roles| && forall i | 0 <= i < |roles| :: r[i] == roles[i].id
  {
    seq(|roles|, i requires 0 <= i < |roles| => roles[i].id)
  }

  function ClientIds(clients: seq<Client>): (r: seq<string>)
    ensures |r| == |clients| && forall i | 0 <= i < |clients| :: r[i] == clients[i].id
  {
    seq(|clients|, i requires 0 <= i < |clients| => clients[i].id)
  }

  function ClientNames(clients: seq<Client>): (r: seq<string>)
    ensures |r| == |clients| && forall i | 0 <= i < |clients| :: r[i] == clients[i].clientId
  {
    seq(|clients|, i requires 0 <= i < |clients| => clients[i].clientId)
  }

  /** Roles().ByName(realm, "", name): the realm role of that name. */
  function RealmRoleNamed(roles: seq<Role>, name: string): (i: int)
    ensures -1 <= i < |roles|
    ensures i >= 0 ==> roles[i].client == "" && roles[i].name == name
    ensures i < 0 ==> forall k | 0 <= k < |roles| :: !(roles[k].client == "" && roles[k].name == name)
  {
    if roles == [] then -1
    else if roles[0].client == "" && roles[0].name == name then 0
    else
      var i := RealmRoleNamed(roles[1..], name);
      if i < 0 then -1 else i + 1
  }

  /** authzRoleByRef: by realm-role name first, then by id. */
  function RoleByRef(realm: Realm, ref: string): Option<string> {
    if ref == "" then None
    else
      var i := RealmRoleNamed(realm.roles, ref);
      if i >= 0 then Some(realm.roles[i].id)
      else if ref in RoleIds(realm.roles) then Some(ref)
      else None
  }

  /** authzClientByRef: by clientId first, then by id. */
  function ClientByRef(realm: Realm, ref: string): Option<string> {
    if ref == "" then None
    else
      var i := Find(ClientNames(realm.clients), ref);
      if i >= 0 then Some(realm.clients[i].id)
      else if ref in ClientIds(realm.clients) then Some(ref)
      else None
  }

  /** The first listed group an entry names, by id or by path. */
  function GroupByRef(groups: seq<string>, paths: map<string, string>, ref: Ref): Option<string> {
    if groups == [] then None
    else if ref.id != "" && groups[0] == ref.id then Some(groups[0])
    else if ref.path != "" && groups[0] in paths && paths[groups[0]] == ref.path then Some(groups[0])
    else GroupByRef(groups[1..], paths, ref)
  }

  /** An unknown role is dropped. */
  function ResolveRoles(realm: Realm, refs: seq<Ref>): seq<Ref> {
    if refs == [] then []
    else
      match RoleByRef(realm, refs[0].id)
      case None => ResolveRoles(realm, refs[1..])
      case Some(id) => [Ref(id, "", refs[0].required, false)] + ResolveRoles(realm, refs[1..])
  }

  /** An unknown client fails the request. */
  function ResolveClients(realm: Realm, refs: seq<string>): Option<seq<string>> {
    if refs == [] then Some([])
    else
      match (ClientByRef(realm, refs[0]), ResolveClients(realm, refs[1..]))
      case (Some(id), Some(rest)) => Some([id] + rest)
      case _ => None
  }

  /** An unknown group is dropped. */
  function ResolveGroups(realm: Realm, refs: seq<Ref>): seq<Ref> {
    if refs == [] then []
    else
      match GroupByRef(realm.groups, realm.paths, refs[0])
      case None => ResolveGroups(realm, refs[1..])
      case Some(id) => [Ref(id, "", false, refs[0].extend)] + ResolveGroups(realm, refs[1..])
  }

  // ----- exporting references -----

  function ExportRole(realm: Realm, ref: Ref): Ref {
    var i := Find(RoleIds(realm.roles), ref.id);
    Ref(if i < 0 then ref.id else realm.roles[i].name, "", ref.required, false)
  }

  function ExportClient(realm: Realm, ref: string): string {
    var i := Find(ClientIds(realm.clients), ref);
    if i < 0 then ref else realm.clients[i].clientId
  }

  function ExportGroup(realm: Realm, ref: Ref): Ref {
    if ref.id in realm.paths then Ref("", realm.paths[ref.id], false, ref.extend)
    else Ref(ref.id, ref.path, false, ref.extend)
  }

  function ExportRoles(realm: Realm, refs: seq<Ref>): (r: seq<Ref>)
    ensures |r| == |refs| && forall i | 0 <= i < |refs| :: r[i] == ExportRole(realm, refs[i])
  {
    seq(|refs|, i requires 0 <= i < |refs| => ExportRole(realm, refs[i]))
  }

  function ExportClients(realm: Realm, refs: seq<string>): (r: seq<string>)
    ensures |r| == |refs| && forall i | 0 <= i < |refs| :: r[i] == ExportClient(realm, refs[i])
  {
    seq(|refs|, i requires 0 <= i < |refs| => ExportClient(realm, refs[i]))
  }

  function ExportGroups(realm: Realm, refs: seq<Ref>): (r: seq<Ref>)
    ensures |r| == |refs| && forall i | 0 <= i < |refs| :: r[i] == ExportGroup(realm, refs[i])
  {
    seq(|refs|, i requires 0 <= i < |refs| => ExportGroup(realm, refs[i]))
  }

  /** exportAuthzRoles and its two neighbours serve a value that does not parse as it stands. */
  function ExportValue(realm: Realm, kind: string, key: string, v: Value): Value {
    if kind == "role" && key == "roles" then
      match ParseRefs(v) case None => v case Some(refs) => OfRefs(ExportRoles(realm, refs))
    else if kind == "client" && key == "clients" then
      match ParseNames(v) case None => v case Some(names) => OfNames(ExportClients(realm, names))
    else if kind == "group" && key == "groups" then
      match ParseRefs(v) case None => v case Some(refs) => OfRefs(ExportGroups(realm, refs))
    else v
  }

  /** What the provider makes of its own key on the way in; None is a refusal. */
  function ImportValue(realm: Realm, kind: string, v: Value): Option<Value> {
    if kind == "role" then
      match ParseRefs(v) case None => None case Some(refs) => Some(OfRefs(ResolveRoles(realm, refs)))
    else if kind == "client" then
      match ParseNames(v)
      case None => None
      case Some(names) =>
        (match ResolveClients(realm, names) case None => None case Some(ids) => Some(OfNames(ids)))
    else if kind == "group" then
      match ParseRefs(v) case None => None case Some(refs) => Some(OfRefs(ResolveGroups(realm, refs)))
    else Some(v)
  }

  // ----- which stored references survive the trip -----

  /** Ids are unique, realm roles are unique by name, clients by clientId, names
      are not empty, and listed groups have unique non-empty paths. */
  ghost predicate TidyRealm(realm: Realm) {
    && NoRepeats(RoleIds(realm.roles)) && NoRepeats(ClientIds(realm.clients)) && NoRepeats(ClientNames(realm.clients))
    && (forall i, j | 0 <= i < |realm.roles| && 0 <= j < |realm.roles| ::
          realm.roles[i].client == "" == realm.roles[j].client && realm.roles[i].name == realm.roles[j].name ==> i == j)
    && (forall r | r in realm.roles :: r.name != "")
    && (forall c | c in realm.clients :: c.clientId != "")
    && NoRepeats(realm.groups)
    && (forall g | g in realm.groups :: g in realm.paths && realm.paths[g] != "")
    && (forall g, h | g in realm.groups && h in realm.groups && realm.paths[g] == realm.paths[h] :: g == h)
  }

  predicate LiveRole(realm: Realm, ref: Ref) {
    var i := Find(RoleIds(realm.roles), ref.id);
    i >= 0 && realm.roles[i].client == "" && ref == Ref(ref.id, "", ref.required, false)
  }

  predicate LiveClient(realm: Realm, ref: string) {
    ref in ClientIds(realm.clients)
  }

  predicate LiveGroup(realm: Realm, ref: Ref) {
    ref.id in realm.groups && ref == Ref(ref.id, "", false, ref.extend)
  }

  /** The provider's own value holds live references in stored form. */
  ghost predicate LiveValue(realm: Realm, kind: string, v: Value) {
    if kind == "role" then ParseRefs(v).Some? && v == OfRefs(ParseRefs(v).value)
      && forall r | r in ParseRefs(v).value :: LiveRole(realm, r)
    else if kind == "client" then ParseNames(v).Some? && v == OfNames(ParseNames(v).value)
      && forall r | r in ParseNames(v).value :: LiveClient(realm, r)
    else if kind == "group" then ParseRefs(v).Some? && v == OfRefs(ParseRefs(v).value)
      && forall r | r in ParseRefs(v).value :: LiveGroup(realm, r)
    else true
  }

  lemma {:induction false} RolesReturn(realm: Realm, refs: seq<Ref>)
    requires TidyRealm(realm) && forall r | r in refs :: LiveRole(realm, r)
    ensures ResolveRoles(realm, ExportRoles(realm, refs)) == refs
  {
    if refs != [] {
      assert ExportRoles(realm, refs)[1..] == ExportRoles(realm, refs[1..]);
      var r := refs[0];
      assert LiveRole(realm, r);
      var i := Find(RoleIds(realm.roles), r.id);
      var j := RealmRoleNamed(realm.roles, realm.roles[i].name);
      assert realm.roles[i] in realm.roles;
      assert i == j;
      RolesReturn(realm, refs[1..]);
    }
  }

  lemma ClientReturns(realm: Realm, ref: string)
    requires TidyRealm(realm) && LiveClient(realm, ref)
    ensures ClientByRef(realm, ExportClient(realm, ref)) == Some(ref)
  {
    var i := Find(ClientIds(realm.clients), ref);
    assert realm.clients[i] in realm.clients;
    FindUnique(ClientNames(realm.clients), i);
  }

  lemma {:induction false} ClientsReturn(realm: Realm, refs: seq<string>)
    requires TidyRealm(realm) && forall r | r in refs :: LiveClient(realm, r)
    ensures ResolveClients(realm, ExportClients(realm, refs)) == Some(refs)
  {
    if refs != [] {
      var out := ExportClients(realm, refs);
      assert out[0] == ExportClient(realm, refs[0]) && out[1..] == ExportClients(realm, refs[1..]);
      ClientReturns(realm, refs[0]);
      ClientsReturn(realm, refs[1..]);
      hide TidyRealm, LiveClient, ClientByRef, ExportClient, ExportClients;
      assert [refs[0]] + refs[1..] == refs;
    }
  }

  lemma {:induction false} GroupFound(realm: Realm, groups: seq<string>, g: string, extend: bool)
    requires TidyRealm(realm) && g in groups && forall h | h in groups :: h in realm.groups
    ensures GroupByRef(groups, realm.paths, Ref("", realm.paths[g], false, extend)) == Some(g)
  {
    assert groups[0] in groups;
    if groups[0] != g { GroupFound(realm, groups[1..], g, extend); }
  }

  lemma {:induction false} GroupsReturn(realm: Realm, refs: seq<Ref>)
    requires TidyRealm(realm) && forall r | r in refs :: LiveGroup(realm, r)
    ensures ResolveGroups(realm, ExportGroups(realm, refs)) == refs
  {
    if refs != [] {
      assert ExportGroups(realm, refs)[1..] == ExportGroups(realm, refs[1..]);
      assert LiveGroup(realm, refs[0]);
      GroupFound(realm, realm.groups, refs[0].id, refs[0].extend);
      GroupsReturn(realm, refs[1..]);
    }
  }

  /** Exporting the provider's value and resolving it again gives it back. */
  lemma ValueReturns(realm: Realm, kind: string, key: string, v: Value)
    requires TidyRealm(realm) && DefaultKey(kind) == Some(key) && LiveValue(realm, kind, v)
    ensures ImportValue(realm, kind, ExportValue(realm, kind, key, v)) == Some(v)
  {
    if kind == "role" {
      RolesReturn(realm, ParseRefs(v).value);
    } else if kind == "client" {
      ClientsReturn(realm, ParseNames(v).value);
    } else {
      GroupsReturn(realm, ParseRefs(v).value);
    }
  }

  // ----- how sharp the condition on references is -----

  predicate StoredRole(ref: Ref) {
    ref == Ref(ref.id, "", ref.required, false)
  }

  /** A client role whose name is its own id, with no realm role of that name. */
  predicate NamedById(realm: Realm, ref: Ref) {
    var i := Find(RoleIds(realm.roles), ref.id);
    i >= 0 && realm.roles[i].client != "" && realm.roles[i].name == ref.id && RealmRoleNamed(realm.roles, ref.id) < 0
  }

  lemma {:induction false} ResolveRolesShrinks(realm: Realm, refs: seq<Ref>)
    ensures |ResolveRoles(realm, refs)| <= |refs|
  {
    if refs != [] { ResolveRolesShrinks(realm, refs[1..]); }
  }

  /** One reference: exported by name if its role exists, resolved by name first. */
  lemma RoleReturns(realm: Realm, ref: Ref)
    requires TidyRealm(realm) && StoredRole(ref)
    ensures RoleByRef(realm, ExportRole(realm, ref).id) == Some(ref.id)
       <==> LiveRole(realm, ref) || NamedById(realm, ref)
  {
    var i := Find(RoleIds(realm.roles), ref.id);
    var name := ExportRole(realm, ref).id;
    var j := RealmRoleNamed(realm.roles, name);
    if i >= 0 { assert realm.roles[i] in realm.roles; }
    if j >= 0 {
      FindUnique(RoleIds(realm.roles), j);
      assert RoleIds(realm.roles)[j] == realm.roles[j].id;
    }
  }

  /** A role policy's references survive the trip exactly when each names a live realm
      role, or a client role that is named by its own id: any other client role, and
      any deleted role, is dropped or rebound. */
  lemma {:induction false} RolesReturnExactly(realm: Realm, refs: seq<Ref>)
    requires TidyRealm(realm) && forall r | r in refs :: StoredRole(r)
    ensures ResolveRoles(realm, ExportRoles(realm, refs)) == refs
       <==> forall r | r in refs :: LiveRole(realm, r) || NamedById(realm, r)
  {
    hide TidyRealm, LiveRole, NamedById, ExportRole, RoleByRef;
    if refs != [] {
      var out := ExportRoles(realm, refs);
      assert out[1..] == ExportRoles(realm, refs[1..]) && out[0] == ExportRole(realm, refs[0]) && refs[0] in refs;
      ExportKeepsRequired(realm, refs[0]);
      RoleReturns(realm, refs[0]);
      RolesReturnExactly(realm, refs[1..]);
      ResolveRolesShrinks(realm, out[1..]);
      var rest := ResolveRoles(realm, out[1..]);
      assert refs == [refs[0]] + refs[1..];
      match RoleByRef(realm, out[0].id)
      case None => assert |rest| < |refs|;
      case Some(id) => assert ResolveRoles(realm, out) == [Ref(id, "", refs[0].required, false)] + rest;
    }
  }

  lemma ExportKeepsRequired(realm: Realm, ref: Ref)
    requires StoredRole(ref)
    ensures ExportRole(realm, ref).required == ref.required
  {
  }

  /** Clients and groups are always left live by the provider itself. */
  lemma {:induction false} GroupByRefLists(groups: seq<string>, paths: map<string, string>, ref: Ref)
    ensures GroupByRef(groups, paths, ref).Some? ==> GroupByRef(groups, paths, ref).value in groups
  {
    if groups != [] { GroupByRefLists(groups[1..], paths, ref); }
  }

  lemma {:induction false} GroupsLeftLive(realm: Realm, refs: seq<Ref>)
    ensures forall r | r in ResolveGroups(realm, refs) :: LiveGroup(realm, r)
  {
    if refs != [] {
      GroupsLeftLive(realm, refs[1..]);
      GroupByRefLists(realm.groups, realm.paths, refs[0]);
    }
  }

  lemma {:induction false} ClientsLeftLive(realm: Realm, refs: seq<string>)
    ensures ResolveClients(realm, refs).Some?
      ==> forall r | r in ResolveClients(realm, refs).value :: LiveClient(realm, r)
  {
    if refs != [] {
      ClientsLeftLive(realm, refs[1..]);
      var i := Find(ClientNames(realm.clients), refs[0]);
      assert i >= 0 ==> ClientIds(realm.clients)[i] == realm.clients[i].id;
    }
  }

  lemma ImportedLive(realm: Realm, kind: string, v: Value)
    requires kind == "client" || kind == "group"
    ensures ImportValue(realm, kind, v).Some? ==> LiveValue(realm, kind, ImportValue(realm, kind, v).value)
  {
    if ParseRefs(v).Some? { GroupsLeftLive(realm, ParseRefs(v).value); }
    if ParseNames(v).Some? { ClientsLeftLive(realm, ParseNames(v).value); }
  }
}
