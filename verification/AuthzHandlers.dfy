/** The resource server as it is kept and written: one object per client, its
    tables reassigned by the handlers, loops where the handlers loop. Every method
    is proved to do what the functions of the other Authz modules say. */
module AuthzHandlers {
  import opened Basics
  import opened AuthzModel
  import opened AuthzConfig
  import opened AuthzImport
  import P = AuthzPolicies
  import W = AuthzWrites

  function FailureOf<T>(o: Outcome<T>): Option<Failure> {
    match o case Ok(_, _) => None case Err(_, f) => Some(f)
  }

  class ResourceServer {
    var settings: Settings
    var scopes: seq<Scope>
    var resources: seq<Resource>
    var policies: seq<Policy>

    function Now(): Server
      reads this
    {
      Server(settings, scopes, resources, policies)
    }

    constructor ()
      ensures Now() == Server(DEFAULT_SETTINGS, [], [], [])
    {
      settings, scopes, resources, policies := DEFAULT_SETTINGS, [], [], [];
    }

    /** Installs the tables a store write returned. */
    method Commit(s: Server)
      modifies this
      ensures Now() == s
    {
      settings, scopes, resources, policies := s.settings, s.scopes, s.resources, s.policies;
    }

    // ----- scopes -----

    method CreateScope(env: Env, b: W.ScopeBody) returns (failure: Option<Failure>, id: string)
      modifies this
      ensures
        var o := W.DoCreateScope(env, old(Now()), b);
        Now() == o.server && failure == FailureOf(o) && (o.Ok? ==> id == o.value)
    {
      id := "";
      if b.name == None { return Some(Conflict), ""; }
      var name := b.name.value;
      var existing := if b.id != "" then Find(ScopeIds(scopes), b.id) else Find(ScopeNames(scopes), name);
      var stored := Scope(b.id, name, b.iconUri, b.displayName);
      var written: Option<Server>;
      if existing >= 0 {
        stored := stored.(id := scopes[existing].id);
        written := PutScope(Now(), stored);
      } else {
        if stored.id == "" { stored := stored.(id := env.newId(UsedIds(Now(), env))); }
        written := AddScope(env, Now(), stored);
      }
      if written == None { return Some(Conflict), ""; }
      Commit(written.value);
      return None, stored.id;
    }

    method UpdateScope(id: string, b: W.ScopeBody) returns (failure: Option<Failure>)
      modifies this
      ensures var o := W.DoUpdateScope(old(Now()), id, b); Now() == o.server && failure == FailureOf(o)
    {
      var i := Find(ScopeIds(scopes), id);
      if i < 0 { return Some(NotFound); }
      if b.name == None { return Some(Conflict); }
      if b.name.value != scopes[i].name {
        if Find(ScopeNames(scopes), b.name.value) >= 0 { return Some(Conflict); }
      }
      var updated := scopes[i];
      updated := updated.(name := b.name.value);
      updated := updated.(iconUri := b.iconUri);
      updated := updated.(displayName := b.displayName);
      scopes := scopes[i := updated];
      return None;
    }

    // ----- resources -----

    /** resolveAuthzScopeRefs, with its `seen` map. */
    method ResolveScopeList(env: Env, refs: seq<ScopeRef>) returns (failure: Option<Failure>, out: seq<string>)
      modifies this
      ensures
        var o := ResolveScopeRefs(env, old(Now()), refs, []);
        Now() == o.server && failure == FailureOf(o) && (o.Ok? ==> out == o.value)
    {
      out := [];
      var seen: set<string> := {};
      assert refs[0..] == refs;
      for k := 0 to |refs|
        invariant seen == set x | x in out
        invariant ResolveScopeRefs(env, Now(), refs[k..], out) == ResolveScopeRefs(env, old(Now()), refs, [])
      {
        var ref := refs[k];
        assert refs[k..][0] == ref && refs[k..][1..] == refs[k + 1..];
        ghost var before := Now();
        var id := "";
        if ref.id != "" {
          if Find(ScopeIds(scopes), ref.id) < 0 { return Some(Conflict), []; }
          id := ref.id;
        } else if ref.name != "" {
          var i := Find(ScopeNames(scopes), ref.name);
          if i < 0 {
            var s := Scope(env.newId(UsedIds(Now(), env)), ref.name, "", "");
            var written := AddScope(env, Now(), s);
            if written == None { return Some(ServerError), []; }
            Commit(written.value);
            id := s.id;
          } else {
            id := scopes[i].id;
          }
        } else {
          continue;
        }
        assert ResolveScopeRef(env, before, ref) == Ok(Now(), Some(id));
        if id in seen { continue; }
        seen := seen + {id};
        out := out + [id];
      }
      return None, out;
    }

    /** `uris`: the singular folded in, repeats collapsed. */
    static method Uris(uris: seq<string>, uri: string) returns (out: seq<string>)
      ensures out == UrisOf(uris, uri)
    {
      var all := if uri != "" then uris + [uri] else uris;
      var seen: set<string> := {};
      out := [];
      assert all[0..] == all;
      for k := 0 to |all|
        invariant seen == set x | x in out
        invariant Dedup(all[k..], out) == Dedup(all, [])
      {
        assert all[k..][0] == all[k] && all[k..][1..] == all[k + 1..];
        if all[k] in seen { continue; }
        seen := seen + {all[k]};
        out := out + [all[k]];
      }
    }

    method CreateResource(env: Env, b: W.ResourceBody) returns (failure: Option<Failure>, id: string)
      modifies this
      ensures
        var o := W.DoCreateResource(env, old(Now()), b);
        Now() == o.server && failure == FailureOf(o) && (o.Ok? ==> id == o.value)
    {
      if b.owner { return Some(ServerError), ""; }
      if b.name == None { return Some(Conflict), ""; }
      if Find(ResourceNames(resources), b.name.value) >= 0 { return Some(NameTaken), ""; }
      var refused, scopeIds := ResolveScopeList(env, b.ScopeRefs());
      if refused.Some? { return refused, ""; }
      hide ResolveScopeRefs, UrisOf;
      var uris := Uris(b.uris, b.uri);
      var stored := Resource(b.id, b.name.value, b.displayName, b.kind, b.iconUri, b.ownerManaged, uris, map[],
        scopeIds);
      var current := -1;
      if stored.id == "" {
        stored := stored.(id := env.newId(UsedIds(Now(), env)));
      } else {
        current := Find(ResourceIds(resources), stored.id);
      }
      if b.attributes.Some? {
        stored := stored.(attributes := b.attributes.value);
      } else if current >= 0 {
        stored := stored.(attributes := resources[current].attributes);
      }
      var written := if current >= 0 then PutResource(Now(), stored) else AddResource(env, Now(), stored);
      if written == None { return Some(Conflict), ""; }
      Commit(written.value);
      return None, stored.id;
    }

    method UpdateResource(env: Env, id: string, b: W.ResourceBody) returns (failure: Option<Failure>)
      modifies this
      ensures var o := W.DoUpdateResource(env, old(Now()), id, b); Now() == o.server && failure == FailureOf(o)
    {
      var i := Find(ResourceIds(resources), id);
      if i < 0 { return Some(NotFound); }
      var current := resources[i];
      if b.name == None || b.owner { return Some(ServerError); }
      var refused, scopeIds := ResolveScopeList(env, b.ScopeRefs());
      if refused.Some? { return refused; }
      hide ResolveScopeRefs, UrisOf;
      var uris := Uris(b.uris, b.uri);
      var updated := Resource(current.id, b.name.value, b.displayName, b.kind, b.iconUri, b.ownerManaged, uris, map[],
        scopeIds);
      if b.attributes.Some? {
        updated := updated.(attributes := b.attributes.value);
      } else {
        updated := updated.(attributes := current.attributes);
      }
      var written := PutResource(Now(), updated);
      if written == None { return Some(Conflict); }
      Commit(written.value);
      return None;
    }

    // ----- the settings -----

    method UpdateSettings(allowRemote: Option<bool>, mode: string,
      strategy: Option<string>) returns (failure: Option<Failure>)
      modifies this
      ensures
        var o := P.DoPutSettings(old(Now()), allowRemote, mode, strategy);
        Now() == o.server && failure == FailureOf(o)
    {
      if strategy == None { return Some(Conflict); }
      if strategy.value == "CONSENSUS" { return Some(ServerError); }
      if strategy.value !in {"AFFIRMATIVE", "UNANIMOUS"} { return Some(BadRequest); }
      if mode != "" && mode !in {"ENFORCING", "PERMISSIVE", "DISABLED"} { return Some(BadRequest); }
      var updated := DEFAULT_SETTINGS;
      if allowRemote.Some? { updated := updated.(allowRemote := allowRemote.value); }
      if mode != "" { updated := updated.(mode := mode); }
      updated := updated.(strategy := strategy.value);
      settings := updated;
      return None;
    }

    // ----- normalisation -----

    /** normaliseAuthzPolicyConfig. */
    method NormaliseConfig(realm: Realm, p: Policy) returns (n: Normalised)
      ensures n == Normalise(realm, Now(), p)
    {
      hide ResolveOwnKey, ResolveTargets, AddAll, Keys;
      var s := Now();
      var q := p;
      var kept: Config := [];
      assert p.config[0..] == p.config;
      for k := 0 to |p.config|
        invariant Consume(s, q, p.config[k..], kept) == Consume(s, p, p.config, [])
      {
        var entry := p.config[k];
        assert p.config[k..][0] == entry && p.config[k..][1..] == p.config[k + 1..];
        var kind := KindOfKey(entry.0);
        if kind == None {
          kept := kept + [entry];
          continue;
        }
        var refs := ParseNames(entry.1);
        if refs == None { return Bad(BadRequest); }
        var ids := ResolveAssociation(kind.value, refs.value);
        if ids == None { return Bad(ServerError); }
        q := AddAssociations(q, kind.value, ids.value);
      }
      q := q.(config := kept);
      var m := ResolveProviderKey(realm, q);
      return m;
    }

    /** The provider's own key: added when absent, then resolved in a loop. */
    static method ResolveProviderKey(realm: Realm, p: Policy) returns (n: Normalised)
      ensures n == ResolveOwnKey(realm, p)
    {
      var q := p;
      var key := DefaultKey(p.kind);
      if key == None { return Done(q); }
      if ConfigValue(q.config, key.value) == None {
        q := q.(config := SetConfig(q.config, key.value, EmptyArray));
      }
      var raw := ConfigValue(q.config, key.value);
      if raw == None { return Bad(ServerError); }
      hide SetConfig, ConfigValue;
      if p.kind == "client" {
        var names := ParseNames(raw.value);
        if names == None { return Bad(BadRequest); }
        var ids := ResolveClientList(realm, names.value);
        if ids == None { return Bad(ServerError); }
        return Done(q.(config := SetConfig(q.config, key.value, OfNames(ids.value))));
      }
      var refs := ParseRefs(raw.value);
      if refs == None { return Bad(BadRequest); }
      if p.kind == "role" {
        var out := ResolveRoleList(realm, refs.value);
        return Done(q.(config := SetConfig(q.config, key.value, OfRefs(out))));
      } else {
        var out := ResolveGroupList(realm, refs.value);
        return Done(q.(config := SetConfig(q.config, key.value, OfRefs(out))));
      }
    }

    static method ResolveRoleList(realm: Realm, refs: seq<Ref>) returns (out: seq<Ref>)
      ensures out == ResolveRoles(realm, refs)
    {
      out := [];
      assert refs[0..] == refs;
      for k := 0 to |refs|
        invariant out + ResolveRoles(realm, refs[k..]) == ResolveRoles(realm, refs)
      {
        assert refs[k..][0] == refs[k] && refs[k..][1..] == refs[k + 1..];
        hide RoleByRef;
        var role := RoleByRef(realm, refs[k].id);
        if role == None { continue; }
        out := out + [Ref(role.value, "", refs[k].required, false)];
      }
    }

    static method ResolveClientList(realm: Realm, refs: seq<string>) returns (out: Option<seq<string>>)
      ensures out == ResolveClients(realm, refs)
    {
      var ids: seq<string> := [];
      assert refs[0..] == refs;
      PrefixedNone(ResolveClients(realm, refs));
      for k := 0 to |refs|
        invariant ResolveClients(realm, refs) == Prefixed(ids, ResolveClients(realm, refs[k..]))
      {
        assert refs[k..][0] == refs[k] && refs[k..][1..] == refs[k + 1..];
        hide ClientByRef;
        var id := ClientByRef(realm, refs[k]);
        if id == None { return None; }
        PrefixedTwice(ids, [id.value], ResolveClients(realm, refs[k + 1..]));
        ids := ids + [id.value];
      }
      assert refs[|refs|..] == [] && ids + [] == ids;
      return Some(ids);
    }

    /** For each entry, the first listed group it names, by id or by path. */
    static method ResolveGroupList(realm: Realm, refs: seq<Ref>) returns (out: seq<Ref>)
      ensures out == ResolveGroups(realm, refs)
    {
      out := [];
      assert refs[0..] == refs && realm.groups[0..] == realm.groups;
      for k := 0 to |refs|
        invariant out + ResolveGroups(realm, refs[k..]) == ResolveGroups(realm, refs)
      {
        var ref := refs[k];
        assert refs[k..][0] == ref && refs[k..][1..] == refs[k + 1..];
        var id: Option<string> := None;
        for j := 0 to |realm.groups|
          invariant id == None
          invariant GroupByRef(realm.groups[j..], realm.paths, ref) == GroupByRef(realm.groups, realm.paths, ref)
        {
          var g := realm.groups[j];
          assert realm.groups[j..][0] == g && realm.groups[j..][1..] == realm.groups[j + 1..];
          if ref.id != "" && g == ref.id { id := Some(g); break; }
          if ref.path != "" && g in realm.paths && realm.paths[g] == ref.path { id := Some(g); break; }
        }
        assert id == GroupByRef(realm.groups, realm.paths, ref);
        if id == None { continue; }
        out := out + [Ref(id.value, "", false, ref.extend)];
      }
    }

    /** resolveAuthzAssociation: the first unknown reference refuses the lot. */
    method ResolveAssociation(kind: Kind, refs: seq<string>) returns (out: Option<seq<string>>)
      ensures out == ResolveTargets(Now(), kind, refs)
    {
      var ids: seq<string> := [];
      assert refs[0..] == refs;
      PrefixedNone(ResolveTargets(Now(), kind, refs));
      for k := 0 to |refs|
        invariant ResolveTargets(Now(), kind, refs) == Prefixed(ids, ResolveTargets(Now(), kind, refs[k..]))
      {
        assert refs[k..][0] == refs[k] && refs[k..][1..] == refs[k + 1..];
        hide TargetId;
        var id := TargetId(Now(), kind, refs[k]);
        if id == None { return None; }
        PrefixedTwice(ids, [id.value], ResolveTargets(Now(), kind, refs[k + 1..]));
        ids := ids + [id.value];
      }
      assert refs[|refs|..] == [] && ids + [] == ids;
      return Some(ids);
    }

    static method AddAssociations(p: Policy, kind: Kind, ids: seq<string>) returns (q: Policy)
      ensures q == AddAll(p, kind, ids)
    {
      q := p;
      assert ids[0..] == ids;
      for k := 0 to |ids|
        invariant AddAll(q, kind, ids[k..]) == AddAll(p, kind, ids)
      {
        assert ids[k..][0] == ids[k] && ids[k..][1..] == ids[k + 1..];
        hide AddAssociation, AssociationSet;
        if ids[k] !in AssociationSet(q, kind) { q := AddAssociation(q, kind, ids[k]); }
      }
    }

    /** The three lookups of a body's lists: the first row with that id or name. */
    method ResolveBodyList(kind: Kind, refs: seq<string>) returns (out: Option<seq<string>>)
      ensures out == P.ResolveRefs(Now(), kind, refs)
    {
      var ids, names := TargetIds(Now(), kind), TargetNames(Now(), kind);
      var found: seq<string> := [];
      assert refs[0..] == refs && ids[0..] == ids && names[0..] == names;
      PrefixedNone(P.ResolveRefs(Now(), kind, refs));
      for k := 0 to |refs|
        invariant P.ResolveRefs(Now(), kind, refs) == Prefixed(found, P.ResolveRefs(Now(), kind, refs[k..]))
      {
        assert refs[k..][0] == refs[k] && refs[k..][1..] == refs[k + 1..];
        hide TargetIds, TargetNames;
        var id := FirstRow(ids, names, refs[k]);
        if id == "" { return None; }
        PrefixedTwice(found, [id], P.ResolveRefs(Now(), kind, refs[k + 1..]));
        found := found + [id];
      }
      assert refs[|refs|..] == [] && found + [] == found;
      return Some(found);
    }

    /** The inner loop; the empty id is how it says that there is no such row. */
    static method FirstRow(ids: seq<string>, names: seq<string>, ref: string) returns (id: string)
      requires |ids| == |names|
      ensures id == var i := P.FirstNamed(ids, names, ref); if i < 0 then "" else ids[i]
    {
      assert ids[0..] == ids && names[0..] == names;
      for j := 0 to |ids|
        invariant P.FirstNamed(ids, names, ref) < 0 <==> P.FirstNamed(ids[j..], names[j..], ref) < 0
        invariant P.FirstNamed(ids[j..], names[j..], ref) >= 0 ==>
                    P.FirstNamed(ids, names, ref) == j + P.FirstNamed(ids[j..], names[j..], ref)
      {
        assert ids[j..][0] == ids[j] && ids[j..][1..] == ids[j + 1..];
        assert names[j..][0] == names[j] && names[j..][1..] == names[j + 1..];
        if ids[j] == ref || names[j] == ref { return ids[j]; }
      }
      return "";
    }

    method ResolveBodyField(kind: Kind, refs: Option<seq<string>>) returns (out: Option<seq<string>>)
      ensures out == P.ResolveField(Now(), kind, refs)
    {
      if refs == None { return Some([]); }
      out := ResolveBodyList(kind, refs.value);
    }

    method CreatePolicy(env: Env, realm: Realm, b: P.PolicyBody) returns (failure: Option<Failure>)
      modifies this
      ensures var o := P.DoCreatePolicy(env, realm, old(Now()), b); Now() == o.server && failure == FailureOf(o)
    {
      hide Normalise, P.ResolveField, AddPolicy;
      if b.name.Some? && Find(PolicyNames(policies), b.name.value) >= 0 { return Some(NameTaken); }
      var associated := ResolveBodyField(OfPolicy, b.policies);
      if associated == None { return Some(ServerError); }
      var onResources := ResolveBodyField(OfResource, b.resources);
      if onResources == None { return Some(ServerError); }
      var onScopes := ResolveBodyField(OfScope, b.scopes);
      if onScopes == None { return Some(BadRequest); }
      if b.name == None || b.kind == None { return Some(Conflict); }
      if !PolicyType(b.kind.value) { return Some(ServerError); }
      var id := env.newId(UsedIds(Now(), env));
      if b.id.Some? { id := b.id.value; }
      var stored := Policy(id, b.name.value, b.description, b.kind.value, EnumOr(b.logic, "POSITIVE"),
                           EnumOr(b.strategy, "UNANIMOUS"), b.owner, [], associated.value, onResources.value,
                           onScopes.value);
      if b.config.Some? { stored := stored.(config := b.config.value); }
      var n := NormaliseConfig(realm, stored);
      if n.Bad? { return Some(n.failure); }
      var written := AddPolicy(env, Now(), n.policy);
      if written == None { return Some(Conflict); }
      Commit(written.value);
      return None;
    }

    // ----- the import -----

    method ImportOneScope(env: Env, e: ScopeEntry) returns (failure: Option<Failure>)
      modifies this
      ensures var o := ImportScope(env, old(Now()), e); Now() == o.server && failure == FailureOf(o)
    {
      if e.name == "" { return None; }
      var i := Find(ScopeNames(scopes), e.name);
      if i >= 0 {
        var existing := scopes[i];
        existing := existing.(iconUri := e.iconUri);
        existing := existing.(displayName := e.displayName);
        scopes := scopes[i := existing];
        return None;
      }
      var s := Scope(e.id, e.name, e.iconUri, e.displayName);
      if s.id == "" { s := s.(id := env.newId(UsedIds(Now(), env))); }
      var written := AddScope(env, Now(), s);
      if written == None { return Some(ServerError); }
      Commit(written.value);
      return None;
    }

    method ImportOneResource(env: Env, e: ResourceEntry) returns (failure: Option<Failure>)
      modifies this
      ensures var o := ImportResource(env, old(Now()), e); Now() == o.server && failure == FailureOf(o)
    {
      if e.name == "" { return None; }
      var refs := e.scopes;
      if e.resourceScopes.Some? { refs := e.resourceScopes.value; }
      var refused, scopeIds := ResolveScopeList(env, refs);
      if refused.Some? { return refused; }
      hide ResolveScopeRefs, UrisOf;
      var uris := Uris(e.uris, e.uri);
      var stored := Resource(e.id, e.name, e.displayName, e.kind, e.iconUri, e.ownerManaged, uris, map[], scopeIds);
      if e.attributes.Some? { stored := stored.(attributes := e.attributes.value); }
      var i := Find(ResourceNames(resources), e.name);
      if i >= 0 {
        stored := stored.(id := resources[i].id);
        resources := resources[i := stored];
        return None;
      }
      if stored.id == "" { stored := stored.(id := env.newId(UsedIds(Now(), env))); }
      var written := AddResource(env, Now(), stored);
      if written == None { return Some(ServerError); }
      Commit(written.value);
      return None;
    }

    /** SetConfig for every entry of the body, in its order. */
    static method MergeConfig(c: Config, entries: Config) returns (m: Config)
      ensures m == SetAll(c, entries)
    {
      m := c;
      assert entries[0..] == entries;
      for k := 0 to |entries|
        invariant SetAll(m, entries[k..]) == SetAll(c, entries)
      {
        assert entries[k..][0] == entries[k] && entries[k..][1..] == entries[k + 1..];
        hide SetConfig;
        m := SetConfig(m, entries[k].0, entries[k].1);
      }
    }

    method ImportOnePolicy(env: Env, realm: Realm, e: PolicyEntry) returns (failure: Option<Failure>)
      modifies this
      ensures var o := ImportPolicy(env, realm, old(Now()), e); Now() == o.server && failure == FailureOf(o)
    {
      hide Normalise, SetAll, Storable, AddPolicy;
      if e.name == "" { return None; }
      var i := Find(PolicyNames(policies), e.name);
      var stored := Policy(e.id, e.name, e.description, e.kind, EnumOr(e.logic, "POSITIVE"),
        EnumOr(e.strategy, "UNANIMOUS"), e.owner, [], [], [], []);
      if i >= 0 {
        var existing := policies[i];
        assert existing.name == e.name;
        stored := existing.(description := e.description, owner := e.owner);
      } else {
        if stored.id == "" { stored := stored.(id := env.newId(UsedIds(Now(), env))); }
        if !PolicyType(stored.kind) { return Some(ServerError); }
      }
      var entries := match e.config case Some(c) => c case None => [];
      var config := MergeConfig(stored.config, entries);
      stored := stored.(config := config);
      var n := NormaliseConfig(realm, stored);
      if n.Bad? { return Some(n.failure); }
      if i >= 0 {
        if !Storable(n.policy) { return Some(ServerError); }
        policies := policies[i := n.policy];
      } else {
        var written := AddPolicy(env, Now(), n.policy);
        if written == None { return Some(ServerError); }
        Commit(written.value);
      }
      return None;
    }

    /** importAuthzSettings: the settings reset and overwritten, then scopes,
        resources and policies, stopping at the first refusal. */
    method ImportAll(env: Env, realm: Realm, b: Body) returns (failure: Option<Failure>)
      modifies this
      ensures var o := Import(env, realm, old(Now()), b); Now() == o.server && failure == FailureOf(o)
    {
      hide ImportScope, ImportResource, ImportPolicy;
      var updated := DEFAULT_SETTINGS;
      if b.allowRemote.Some? { updated := updated.(allowRemote := b.allowRemote.value); }
      if b.mode != "" { updated := updated.(mode := b.mode); }
      if b.strategy.Some? { updated := updated.(strategy := b.strategy.value); }
      settings := updated;

      ghost var s := Now();
      assert s == old(Now()).(settings := ImportedSettings(b));
      assert b.scopes[0..] == b.scopes && b.resources[0..] == b.resources && b.policies[0..] == b.policies;
      for k := 0 to |b.scopes|
        invariant ImportScopes(env, Now(), b.scopes[k..]) == ImportScopes(env, s, b.scopes)
      {
        assert b.scopes[k..][0] == b.scopes[k] && b.scopes[k..][1..] == b.scopes[k + 1..];
        failure := ImportOneScope(env, b.scopes[k]);
        if failure.Some? { return failure; }
      }
      ghost var t := Now();
      for k := 0 to |b.resources|
        invariant ImportResources(env, Now(), b.resources[k..]) == ImportResources(env, t, b.resources)
      {
        assert b.resources[k..][0] == b.resources[k] && b.resources[k..][1..] == b.resources[k + 1..];
        failure := ImportOneResource(env, b.resources[k]);
        if failure.Some? { return failure; }
      }
      ghost var u := Now();
      for k := 0 to |b.policies|
        invariant ImportPolicies(env, realm, Now(), b.policies[k..]) == ImportPolicies(env, realm, u, b.policies)
      {
        assert b.policies[k..][0] == b.policies[k] && b.policies[k..][1..] == b.policies[k + 1..];
        failure := ImportOnePolicy(env, realm, b.policies[k]);
        if failure.Some? { return failure; }
      }
      return None;
    }

    // ----- the export -----

    /** exportedAuthzConfig: the kept entries, then each non-empty association. */
    method ExportPolicyConfig(env: Env, realm: Realm, p: Policy) returns (c: Option<Config>)
      ensures c == ExportConfig(env, realm, Now(), p)
    {
      var out: Config := [];
      assert p.config[0..] == p.config;
      for k := 0 to |p.config|
        invariant out + KeptConfig(realm, p.kind, p.config[k..]) == KeptConfig(realm, p.kind, p.config)
      {
        var entry := p.config[k];
        assert p.config[k..][0] == entry && p.config[k..][1..] == p.config[k + 1..];
        hide ExportKeeps, ExportValue;
        if !ExportKeeps(p.kind, entry.0) { continue; }
        out := out + [(entry.0, ExportValue(realm, p.kind, entry.0, entry.1))];
      }
      assert p.config[|p.config|..] == [] && out == KeptConfig(realm, p.kind, p.config);
      hide KeptConfig, Reordered, Keys;
      var associations: Config := [];
      assert ALL_KINDS[0..] == ALL_KINDS;
      PrefixedNone(AssociationConfig(Now(), p, ALL_KINDS));
      for k := 0 to |ALL_KINDS|
        invariant AssociationConfig(Now(), p, ALL_KINDS) == Prefixed(associations,
          AssociationConfig(Now(), p, ALL_KINDS[k..]))
      {
        var kind := ALL_KINDS[k];
        assert ALL_KINDS[k..][0] == kind && ALL_KINDS[k..][1..] == ALL_KINDS[k + 1..];
        hide TargetNamesOf, AssociationSet, OfNames;
        var names := AssociationNames(kind, AssociationSet(p, kind));
        if names == None { return None; }
        AssociationsMore(Now(), p, k, associations, names.value);
        if names.value == [] {
          assert associations + [] == associations;
          continue;
        }
        associations := associations + [(AssociationKey(kind), OfNames(names.value))];
      }
      assert ALL_KINDS[|ALL_KINDS|..] == [] && associations + [] == associations;
      out := out + associations;
      return Some(Reordered(out, env.keyOrder(Keys(out))));
    }

    method AssociationNames(kind: Kind, ids: seq<string>) returns (out: Option<seq<string>>)
      ensures out == TargetNamesOf(Now(), kind, ids)
    {
      hide TargetName;
      var names: seq<string> := [];
      assert ids[0..] == ids;
      PrefixedNone(TargetNamesOf(Now(), kind, ids));
      for k := 0 to |ids|
        invariant TargetNamesOf(Now(), kind, ids) == Prefixed(names, TargetNamesOf(Now(), kind, ids[k..]))
      {
        assert ids[k..][0] == ids[k] && ids[k..][1..] == ids[k + 1..];
        var name := TargetName(Now(), kind, ids[k]);
        if name == None { return None; }
        PrefixedTwice(names, [name.value], TargetNamesOf(Now(), kind, ids[k + 1..]));
        names := names + [name.value];
      }
      assert ids[|ids|..] == [] && names + [] == names;
      return Some(names);
    }

    /** The resource and scope rows moved to the end. */
    method PartitionPolicies() returns (order: seq<nat>)
      ensures order == ExportOrder(Now())
    {
      hide ServedLast, Positions;
      var first: seq<nat>, last: seq<nat> := [], [];
      PositionsEnd(policies);
      assert [] + Positions(policies, false, 0) == Positions(policies, false, 0)
        && [] + Positions(policies, true, 0) == Positions(policies, true, 0);
      for k := 0 to |policies|
        invariant first + Positions(policies, false, k) == Positions(policies, false, 0)
        invariant last + Positions(policies, true, k) == Positions(policies, true, 0)
      {
        PositionsNext(policies, k);
        if ServedLast(policies[k]) {
          assert last + ([k] + Positions(policies, true, k + 1)) == last + [k] + Positions(policies, true, k + 1);
          last := last + [k];
        } else {
          assert first + ([k] + Positions(policies, false, k + 1)) == first + [k] + Positions(policies, false, k + 1);
          first := first + [k];
        }
      }
      return first + last;
    }

    /** authzExportedPolicies. */
    method ExportPolicyList(env: Env, realm: Realm) returns (out: Option<seq<PolicyEntry>>)
      ensures out == ExportPolicies(env, realm, Now(), ExportOrder(Now()))
    {
      hide ExportPolicy, ExportOrder, Positions, ExportConfig;
      var order := PartitionPolicies();
      var entries: seq<PolicyEntry> := [];
      assert order[0..] == order;
      PrefixedNone(ExportPolicies(env, realm, Now(), order));
      for k := 0 to |order|
        invariant forall i | i in order[k..] :: i < |policies|
        invariant ExportPolicies(env, realm, Now(), order) == Prefixed(entries,
          ExportPolicies(env, realm, Now(), order[k..]))
      {
        assert order[k..][0] == order[k] && order[k..][1..] == order[k + 1..] && order[k] in order[k..];
        ghost var rest := order[k + 1..];
        assert forall i | i in rest :: i in order[k..];
        var p := policies[order[k]];
        var config := ExportPolicyConfig(env, realm, p);
        EntryIs(env, realm, Now(), p);
        if config == None { return None; }
        PrefixedTwice(entries, [Entry(p, config).value], ExportPolicies(env, realm, Now(), rest));
        entries := entries + [Entry(p, config).value];
      }
      assert order[|order|..] == [] && entries + [] == entries;
      return Some(entries);
    }

    /** readResourceServerSettings: scopes and resources in creation order. */
    method ExportAll(env: Env, realm: Realm) returns (b: Option<Body>)
      ensures b == Export(env, realm, Now())
    {
      hide ExportScope, ExportResource, ExportPolicies, ExportOrder;
      var exportedScopes: seq<ScopeEntry> := [];
      for k := 0 to |scopes|
        invariant exportedScopes == ExportScopes(scopes)[..k]
      {
        exportedScopes := exportedScopes + [ExportScope(scopes[k])];
      }
      var exportedResources: seq<ResourceEntry> := [];
      for k := 0 to |resources|
        invariant exportedResources == ExportResources(env, Now(), resources)[..k]
      {
        exportedResources := exportedResources + [ExportResource(env, Now(), resources[k])];
      }
      var exportedPolicies := ExportPolicyList(env, realm);
      if exportedPolicies == None { return None; }
      assert exportedScopes == ExportScopes(scopes) && exportedResources == ExportResources(env, Now(), resources);
      return Some(Body(Some(settings.allowRemote), settings.mode, Some(settings.strategy),
                       exportedResources, exportedPolicies.value, exportedScopes));
    }
  }

  function Entry(p: Policy, c: Option<Config>): Option<PolicyEntry> {
    if c == None then None
    else Some(PolicyEntry("", p.name, p.description, p.kind, OmitEmpty(p.logic), OmitEmpty(p.strategy), "", c))
  }

  lemma PositionsEnd(ps: seq<Policy>)
    ensures forall last :: Positions(ps, last, |ps|) == []
  {
  }

  lemma PositionsNext(ps: seq<Policy>, k: nat)
    requires k < |ps|
    ensures Positions(ps, true, k) == (if ServedLast(ps[k]) then [k] else []) + Positions(ps, true, k + 1)
    ensures Positions(ps, false, k) == (if ServedLast(ps[k]) then [] else [k]) + Positions(ps, false, k + 1)
  {
    hide ServedLast;
  }

  lemma EntryIs(env: Env, realm: Realm, s: Server, p: Policy)
    ensures ExportPolicy(env, realm, s, p) == Entry(p, ExportConfig(env, realm, s, p))
  {
  }

  lemma AssociationsMore(s: Server, p: Policy, k: nat, done: Config, names: seq<string>)
    requires k < |ALL_KINDS| && TargetNamesOf(s, ALL_KINDS[k], AssociationSet(p, ALL_KINDS[k])) == Some(names)
    ensures Prefixed(done, AssociationConfig(s, p, ALL_KINDS[k..]))
         == Prefixed(done + Association(ALL_KINDS[k], names), AssociationConfig(s, p, ALL_KINDS[k + 1..]))
  {
    var kinds := ALL_KINDS[k..];
    assert kinds[0] == ALL_KINDS[k] && kinds[1..] == ALL_KINDS[k + 1..];
    hide TargetNamesOf, OfNames, AssociationKey, AssociationSet;
    var rest := AssociationConfig(s, p, kinds[1..]);
    assert AssociationConfig(s, p, kinds) == Prefixed(Association(kinds[0], names), rest);
    hide AssociationConfig, Association;
    PrefixedTwice(done, Association(kinds[0], names), rest);
  }

  /** The config entry of one association set, if it is not empty. */
  function Association(kind: Kind, names: seq<string>): Config {
    if names == [] then [] else [(AssociationKey(kind), OfNames(names))]
  }

  function Prefixed<T>(xs: seq<T>, rest: Option<seq<T>>): Option<seq<T>> {
    match rest case None => None case Some(more) => Some(xs + more)
  }

  lemma PrefixedNone<T>(rest: Option<seq<T>>)
    ensures Prefixed([], rest) == rest
  {
    if rest.Some? { assert [] + rest.value == rest.value; }
  }

  lemma PrefixedTwice<T>(xs: seq<T>, ys: seq<T>, rest: Option<seq<T>>)
    ensures Prefixed(xs, Prefixed(ys, rest)) == Prefixed(xs + ys, rest)
  {
    if rest.Some? { assert xs + (ys + rest.value) == xs + ys + rest.value; }
  }
}
