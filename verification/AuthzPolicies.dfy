/** Policy creation, the settings update, and whole runs of every write a resource
    server takes (internal/admin/authzpolicy.go, authz.go, authzimport.go). */
module AuthzPolicies {
  import opened Basics
  import opened AuthzModel
  import opened AuthzConfig
  import opened AuthzImport
  import opened AuthzRoundTrip
  import W = AuthzWrites

  datatype PolicyBody = PolicyBody(id: Option<string>, name: Option<string>, description: string, kind: Option<string>,
                                   logic: EnumField, strategy: EnumField, owner: string, config: Option<Config>,
                                   policies: Option<seq<string>>, resources: Option<seq<string>>,
                                   scopes: Option<seq<string>>)

  datatype Op =
    | Write(op: W.Op)
    | PutSettings(allowRemote: Option<bool>, mode: string, strategy: Option<string>)
    | CreatePolicy(body: PolicyBody)
    | ImportSettings(settings: Body)

  /** The three lookups by name or id: the first row either one names. */
  function FirstNamed(ids: seq<string>, names: seq<string>, ref: string): (i: int)
    requires |ids| == |names|
    ensures -1 <= i < |ids|
    ensures i >= 0 ==> ids[i] == ref || names[i] == ref
    ensures i < 0 <==> ref !in ids && ref !in names
  {
    if ids == [] then -1
    else if ids[0] == ref || names[0] == ref then 0
    else
      var i := FirstNamed(ids[1..], names[1..], ref);
      if i < 0 then -1 else i + 1
  }

  /** One row a reference, refused at the first that names none. A row found under the
      empty id counts as not found. */
  function ResolveRefs(s: Server, kind: Kind, refs: seq<string>): Option<seq<string>> {
    if refs == [] then Some([])
    else
      var i := FirstNamed(TargetIds(s, kind), TargetNames(s, kind), refs[0]);
      if i < 0 || TargetIds(s, kind)[i] == "" then None
      else
        match ResolveRefs(s, kind, refs[1..])
        case Some(rest) => Some([TargetIds(s, kind)[i]] + rest)
        case None => None
  }

  function ResolveField(s: Server, kind: Kind, refs: Option<seq<string>>): Option<seq<string>> {
    match refs
    case None => Some([])
    case Some(refs) => ResolveRefs(s, kind, refs)
  }

  /** createAuthzPolicy, its refusals in order. */
  function DoCreatePolicy(env: Env, realm: Realm, s: Server, b: PolicyBody): Outcome<()> {
    if b.name.Some? && b.name.value in PolicyNames(s.policies) then Err(s, NameTaken)
    else
      match ResolveField(s, OfPolicy, b.policies)
      case None => Err(s, ServerError)
      case Some(policies) =>
        match ResolveField(s, OfResource, b.resources)
        case None => Err(s, ServerError)
        case Some(resources) =>
          match ResolveField(s, OfScope, b.scopes)
          case None => Err(s, BadRequest)
          case Some(scopes) =>
            if b.name == None || b.kind == None then Err(s, Conflict)
            else if !PolicyType(b.kind.value) then Err(s, ServerError)
            else
              var id := match b.id case Some(id) => id case None => env.newId(UsedIds(s, env));
              var p := Policy(id, b.name.value, b.description, b.kind.value, EnumOr(b.logic, "POSITIVE"),
                              EnumOr(b.strategy, "UNANIMOUS"), b.owner,
                              match b.config case Some(c) => c case None => [],
                              policies, resources, scopes);
              match Normalise(realm, s, p)
              case Bad(f) => Err(s, f)
              case Done(q) =>
                match AddPolicy(env, s, q)
                case None => Err(s, Conflict)
                case Some(t) => Ok(t, ())
  }

  /** updateResourceServer: the strategy is the gate, an absent field is reset. */
  function DoPutSettings(s: Server, allowRemote: Option<bool>, mode: string, strategy: Option<string>): Outcome<()> {
    match strategy
    case None => Err(s, Conflict)
    case Some(v) =>
      if v == "CONSENSUS" then Err(s, ServerError)
      else if v !in {"AFFIRMATIVE", "UNANIMOUS"} then Err(s, BadRequest)
      else if mode != "" && mode !in {"ENFORCING", "PERMISSIVE", "DISABLED"} then Err(s, BadRequest)
      else Ok(s.(settings := ImportedSettings(Body(allowRemote, mode, strategy, [], [], []))), ())
  }

  function Step(env: Env, realm: Realm, s: Server, op: Op): Server {
    match op
    case Write(op) => W.Step(env, s, op).server
    case PutSettings(allowRemote, mode, strategy) => DoPutSettings(s, allowRemote, mode, strategy).server
    case CreatePolicy(b) => DoCreatePolicy(env, realm, s, b).server
    case ImportSettings(b) => Import(env, realm, s, b).server
  }

  /** One request: what the realm and the rest of the store hold by then, and the write. */
  datatype Request = Request(env: Env, realm: Realm, op: Op)

  function Run(s: Server, requests: seq<Request>): Server
    decreases |requests|
  {
    if requests == [] then s
    else Run(Step(requests[0].env, requests[0].realm, s, requests[0].op), requests[1..])
  }

  // ----- what every write leaves behind -----

  ghost predicate Stored(s: Server) {
    Unique(s) && s.settings.mode != "" && forall p | p in s.policies :: TidyPolicy(p)
  }

  predicate Plain(c: Config) {
    forall e | e in c :: KindOfKey(e.0) == None
  }

  /** Normalisation touches the config and the association sets only. */
  predicate SameRow(p: Policy, q: Policy) {
    q == p.(config := q.config, policies := q.policies, resources := q.resources, scopes := q.scopes)
  }

  lemma {:induction false} ConsumeRemoves(s: Server, p: Policy, c: Config, kept: Config)
    requires Plain(kept)
    ensures
      var n := Consume(s, p, c, kept);
      n.Done? ==> SameRow(p, n.policy) && Plain(n.policy.config)
    decreases |c|
  {
    if c != [] {
      match KindOfKey(c[0].0)
      case None => ConsumeRemoves(s, p, c[1..], kept + [c[0]]);
      case Some(kind) =>
        if ParseNames(c[0].1).Some? && ResolveTargets(s, kind, ParseNames(c[0].1).value).Some? {
          var ids := ResolveTargets(s, kind, ParseNames(c[0].1).value).value;
          AddAllKeeps(p, kind, ids);
          hide Plain, KindOfKey, ResolveTargets, AddAll;
          ConsumeRemoves(s, AddAll(p, kind, ids), c[1..], kept);
        }
    }
  }

  lemma {:induction false} AddAllKeeps(p: Policy, kind: Kind, ids: seq<string>)
    ensures SameRow(p, AddAll(p, kind, ids))
    decreases |ids|
  {
    if ids != [] {
      AddAllKeeps(if ids[0] in AssociationSet(p, kind) then p else AddAssociation(p, kind, ids[0]), kind, ids[1..]);
    }
  }

  lemma SetConfigKeeps(c: Config, key: string, v: Value)
    requires Plain(c) && KindOfKey(key) == None
    ensures Plain(SetConfig(c, key, v)) && key in Keys(SetConfig(c, key, v))
  {
    var d := SetConfig(c, key, v);
    hide KindOfKey;
    assert forall e | e in d :: e.0 == key || e in c;
    var i := Find(Keys(c), key);
    assert Keys(d)[if i < 0 then |c| else i] == key;
  }

  lemma ResolveOwnKeyTidies(realm: Realm, p: Policy)
    requires Plain(p.config)
    ensures
      var n := ResolveOwnKey(realm, p);
      n.Done? ==> n.policy == p.(config := n.policy.config) && Plain(n.policy.config)
                  && (DefaultKey(p.kind).Some? ==> DefaultKey(p.kind).value in Keys(n.policy.config))
  {
    match DefaultKey(p.kind)
    case None =>
    case Some(key) =>
      assert KindOfKey(key) == None;
      hide Plain, KindOfKey, SetConfig, ImportValue, Keys;
      SetConfigKeeps(p.config, key, EmptyArray);
      var c := if ConfigValue(p.config, key).Some? then p.config else SetConfig(p.config, key, EmptyArray);
      if ConfigValue(c, key).Some? && ImportValue(realm, p.kind, ConfigValue(c, key).value).Some? {
        SetConfigKeeps(c, key, ImportValue(realm, p.kind, ConfigValue(c, key).value).value);
      }
  }

  /** Whatever the config was, the one stored has no association key and no key
      twice, and has the provider's own key. */
  lemma NormaliseTidies(realm: Realm, s: Server, p: Policy)
    ensures
      var n := Normalise(realm, s, p);
      n.Done? ==> SameRow(p, n.policy) && (Storable(n.policy) ==> TidyPolicy(n.policy))
  {
    ConsumeRemoves(s, p, p.config, []);
    var n := Consume(s, p, p.config, []);
    if n.Done? { ResolveOwnKeyTidies(realm, n.policy); }
    hide Consume, ResolveOwnKey, Storable, KindOfKey;
  }

  // ----- runs -----

  lemma PolicyAdded(env: Env, s: Server, p: Policy)
    requires Stored(s) && (Storable(p) ==> TidyPolicy(p))
    ensures AddPolicy(env, s, p).Some? ==> Stored(AddPolicy(env, s, p).value)
  {
    if AddPolicy(env, s, p).Some? {
      var t := AddPolicy(env, s, p).value;
      hide TidyPolicy, Storable, TidyResource;
      assert PolicyIds(t.policies) == PolicyIds(s.policies) + [p.id]
        && PolicyNames(t.policies) == PolicyNames(s.policies) + [p.name];
    }
  }

  lemma PolicyReplaced(s: Server, i: nat, p: Policy)
    requires Stored(s) && i < |s.policies| && TidyPolicy(p) && p.id == s.policies[i].id && p.name == s.policies[i].name
    ensures Stored(s.(policies := s.policies[i := p]))
  {
    var t := s.(policies := s.policies[i := p]);
    hide TidyPolicy, TidyResource;
    assert PolicyIds(t.policies) == PolicyIds(s.policies) && PolicyNames(t.policies) == PolicyNames(s.policies);
  }

  lemma ImportScopeKeeps(env: Env, s: Server, e: ScopeEntry)
    requires ValidEnv(env) && Stored(s)
    ensures Stored(ImportScope(env, s, e).server)
  {
    if e.name != "" {
      var i := Find(ScopeNames(s.scopes), e.name);
      hide TidyPolicy, ValidEnv;
      if i >= 0 {
        var x := s.scopes[i].(iconUri := e.iconUri, displayName := e.displayName);
        assert ScopeIds(s.scopes)[i] == x.id;
        FindUnique(ScopeIds(s.scopes), i);
        W.PutScopeKeeps(s, x);
      } else {
        var id := if e.id != "" then e.id else env.newId(UsedIds(s, env));
        W.AddScopeKeeps(env, s, Scope(id, e.name, e.iconUri, e.displayName));
      }
      hide Unique;
    }
  }

  lemma ImportResourceKeeps(env: Env, s: Server, e: ResourceEntry)
    requires ValidEnv(env) && Stored(s)
    ensures Stored(ImportResource(env, s, e).server)
  {
    hide TidyPolicy;
    if e.name != "" {
      var refs := match e.resourceScopes case Some(refs) => refs case None => e.scopes;
      W.ResolveCreatesMissing(env, s, refs, []);
      var o := ResolveScopeRefs(env, s, refs, []);
      if o.Ok? {
        var t := o.server;
        var i := Find(ResourceNames(t.resources), e.name);
        var id := if i >= 0 then t.resources[i].id else if e.id != "" then e.id else env.newId(UsedIds(t, env));
        var x := Resource(id, e.name, e.displayName, e.kind, e.iconUri, e.ownerManaged, UrisOf(e.uris, e.uri),
                          match e.attributes case Some(a) => a case None => map[], o.value);
        ResourceWritten(env, t, x, i);
        hide ResolveScopeRefs, UrisOf, Unique, ValidEnv;
      }
    }
  }

  lemma ResourceWritten(env: Env, t: Server, x: Resource, i: int)
    requires Unique(t) && TidyResource(t.scopes, x) && i == Find(ResourceNames(t.resources), x.name)
    requires i >= 0 ==> x.id == t.resources[i].id
    ensures i >= 0 ==> Unique(t.(resources := t.resources[i := x]))
    ensures
      var u := AddResource(env, t, x);
      u.Some? ==> Unique(u.value) && u.value == t.(resources := t.resources + [x])
  {
    W.AddResourceKeeps(env, t, x);
    if i >= 0 {
      assert ResourceIds(t.resources)[i] == x.id;
      FindUnique(ResourceIds(t.resources), i);
      W.PutResourceKeeps(t, x);
    }
  }

  lemma ImportPolicyKeeps(env: Env, realm: Realm, s: Server, e: PolicyEntry)
    requires ValidEnv(env) && Stored(s)
    ensures Stored(ImportPolicy(env, realm, s, e).server)
  {
    hide ValidEnv, Stored, Normalise, TidyPolicy, Storable, SetAll;
    if e.name != "" {
      var entries := match e.config case Some(c) => c case None => [];
      var i := Find(PolicyNames(s.policies), e.name);
      if i >= 0 {
        var was := s.policies[i];
        var p := was.(description := e.description, owner := e.owner, config := SetAll(was.config, entries));
        NormaliseTidies(realm, s, p);
        var n := Normalise(realm, s, p);
        if n.Done? && Storable(n.policy) { PolicyReplaced(s, i, n.policy); }
      } else if PolicyType(e.kind) {
        var id := if e.id != "" then e.id else env.newId(UsedIds(s, env));
        var p := Policy(id, e.name, e.description, e.kind, EnumOr(e.logic, "POSITIVE"), EnumOr(e.strategy, "UNANIMOUS"),
                        e.owner, SetAll([], entries), [], [], []);
        NormaliseTidies(realm, s, p);
        var n := Normalise(realm, s, p);
        if n.Done? { PolicyAdded(env, s, n.policy); }
      }
    }
  }

  lemma {:induction false} ImportScopesKeep(env: Env, s: Server, es: seq<ScopeEntry>)
    requires ValidEnv(env) && Stored(s)
    ensures Stored(ImportScopes(env, s, es).server)
    decreases |es|
  {
    hide ValidEnv, Stored, ImportScope;
    if es != [] {
      ImportScopeKeeps(env, s, es[0]);
      var o := ImportScope(env, s, es[0]);
      if o.Ok? { ImportScopesKeep(env, o.server, es[1..]); }
    }
  }

  lemma {:induction false} ImportResourcesKeep(env: Env, s: Server, es: seq<ResourceEntry>)
    requires ValidEnv(env) && Stored(s)
    ensures Stored(ImportResources(env, s, es).server)
    decreases |es|
  {
    hide ValidEnv, Stored, ImportResource;
    if es != [] {
      ImportResourceKeeps(env, s, es[0]);
      var o := ImportResource(env, s, es[0]);
      if o.Ok? { ImportResourcesKeep(env, o.server, es[1..]); }
    }
  }

  lemma {:induction false} ImportPoliciesKeep(env: Env, realm: Realm, s: Server, es: seq<PolicyEntry>)
    requires ValidEnv(env) && Stored(s)
    ensures Stored(ImportPolicies(env, realm, s, es).server)
    decreases |es|
  {
    hide ValidEnv, Stored, ImportPolicy;
    if es != [] {
      ImportPolicyKeeps(env, realm, s, es[0]);
      var o := ImportPolicy(env, realm, s, es[0]);
      if o.Ok? { ImportPoliciesKeep(env, realm, o.server, es[1..]); }
    }
  }

  lemma ImportKeeps(env: Env, realm: Realm, s: Server, b: Body)
    requires ValidEnv(env) && Stored(s)
    ensures Stored(Import(env, realm, s, b).server)
  {
    SettingsReplaced(s, ImportedSettings(b));
    hide ValidEnv, Stored, ImportScopes, ImportResources, ImportPolicies, ImportedSettings;
    var r := s.(settings := ImportedSettings(b));
    ImportScopesKeep(env, r, b.scopes);
    var o := ImportScopes(env, r, b.scopes);
    if o.Ok? {
      ImportResourcesKeep(env, o.server, b.resources);
      var u := ImportResources(env, o.server, b.resources);
      if u.Ok? { ImportPoliciesKeep(env, realm, u.server, b.policies); }
    }
  }

  lemma SettingsReplaced(s: Server, x: Settings)
    requires Stored(s) && x.mode != ""
    ensures Stored(s.(settings := x))
  {
    hide TidyPolicy, TidyResource;
  }

  lemma CreatePolicyKeeps(env: Env, realm: Realm, s: Server, b: PolicyBody)
    requires ValidEnv(env) && Stored(s)
    ensures Stored(DoCreatePolicy(env, realm, s, b).server)
  {
    hide ValidEnv, Stored, Normalise, TidyPolicy, Storable, ResolveField, AddPolicy;
    var policies, resources, scopes := ResolveField(s, OfPolicy, b.policies),
      ResolveField(s, OfResource, b.resources), ResolveField(s, OfScope, b.scopes);
    if policies.Some? && resources.Some? && scopes.Some? && b.name.Some? && b.kind.Some? {
      var id := match b.id case Some(id) => id case None => env.newId(UsedIds(s, env));
      var p := Policy(id, b.name.value, b.description, b.kind.value, EnumOr(b.logic, "POSITIVE"),
                      EnumOr(b.strategy, "UNANIMOUS"), b.owner, match b.config case Some(c) => c case None => [],
                      policies.value, resources.value, scopes.value);
      NormaliseTidies(realm, s, p);
      var n := Normalise(realm, s, p);
      if n.Done? { PolicyAdded(env, s, n.policy); }
    }
  }

  lemma StepKeeps(env: Env, realm: Realm, s: Server, op: Op)
    requires ValidEnv(env) && Stored(s)
    ensures Stored(Step(env, realm, s, op))
  {
    match op
    case Write(w) =>
      W.StepKeeps(env, s, w);
      W.StepFrame(env, s, w);
      hide ValidEnv, Unique, TidyPolicy;
    case PutSettings(allowRemote, mode, strategy) =>
      SettingsReplaced(s, ImportedSettings(Body(allowRemote, mode, strategy, [], [], [])));
      hide ValidEnv, Stored;
    case CreatePolicy(b) => CreatePolicyKeeps(env, realm, s, b);
    case ImportSettings(b) => ImportKeeps(env, realm, s, b);
  }

  /** Over every run of scope, resource and policy writes, settings updates and
      imports, refusals included: names and ids stay unique, resources list live
      scopes once, and every policy is in stored form, whatever becomes of the realm's
      roles, clients and groups between requests. */
  lemma {:induction false} RunKeepsStored(s: Server, requests: seq<Request>)
    requires Stored(s) && forall r | r in requests :: ValidEnv(r.env)
    ensures Stored(Run(s, requests))
    decreases |requests|
  {
    hide ValidEnv, Stored, Step;
    if requests != [] {
      var r := requests[0];
      assert r in requests && forall x | x in requests[1..] :: x in requests;
      StepKeeps(r.env, r.realm, s, r.op);
      RunKeepsStored(Step(r.env, r.realm, s, r.op), requests[1..]);
    }
  }

  ghost predicate AllLive(realm: Realm, s: Server) {
    forall p | p in s.policies :: LivePolicy(realm, p) && NoDangling(s, p)
  }

  /** So whatever was written, a settings export is only ever spoilt by an empty
      name or a reference that is no longer live: otherwise it succeeds, and
      importing it changes nothing. */
  lemma RunThenRoundTrip(env: Env, realm: Realm, s: Server, requests: seq<Request>)
    requires ValidEnv(env) && TidyRealm(realm) && Stored(s) && forall r | r in requests :: ValidEnv(r.env)
    ensures
      var t := Run(s, requests);
      Named(t) && AllLive(realm, t) ==>
        var b := Export(env, realm, t);
        b.Some? && var o := Import(env, realm, t, b.value); o.Ok? && SameServer(t, o.server)
  {
    hide ValidEnv, TidyRealm, SameServer, Import, Export, Run;
    RunKeepsStored(s, requests);
    var t := Run(s, requests);
    hide Unique, TidyPolicy, LivePolicy, NoDangling;
    if Named(t) && AllLive(realm, t) {
      ExportSucceeds(env, realm, t);
      ImportOfExport(env, realm, t);
    }
  }
}
