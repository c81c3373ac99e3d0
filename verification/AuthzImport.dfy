/** The settings export, the import, and the trip between them
    (internal/admin/authz.go, authzimport.go, authzpolicy.go). */
module AuthzImport {
  import opened Basics
  import opened AuthzModel
  import opened AuthzConfig

  // ----- the exported body -----

  /** A JSON enum: absent, null, or a value. */
  datatype EnumField = Absent | Null | Given(value: string)

  datatype ScopeEntry = ScopeEntry(id: string, name: string, iconUri: string, displayName: string)

  datatype ResourceEntry = ResourceEntry(id: string, name: string, displayName: string, kind: string, iconUri: string,
                                         uris: seq<string>, uri: string, ownerManaged: bool,
                                         attributes: Option<map<string, seq<string>>>,
                                         scopes: seq<ScopeRef>, resourceScopes: Option<seq<ScopeRef>>)

  datatype PolicyEntry = PolicyEntry(id: string, name: string, description: string, kind: string, logic: EnumField,
                                     strategy: EnumField, owner: string, config: Option<Config>)

  datatype Body = Body(allowRemote: Option<bool>, mode: string, strategy: Option<string>,
                       resources: seq<ResourceEntry>, policies: seq<PolicyEntry>, scopes: seq<ScopeEntry>)

  // ----- associations -----

  function AssociationSet(p: Policy, kind: Kind): seq<string> {
    match kind
    case OfPolicy => p.policies
    case OfResource => p.resources
    case OfScope => p.scopes
  }

  function AddAssociation(p: Policy, kind: Kind, id: string): Policy {
    match kind
    case OfPolicy => p.(policies := p.policies + [id])
    case OfResource => p.(resources := p.resources + [id])
    case OfScope => p.(scopes := p.scopes + [id])
  }

  function TargetIds(s: Server, kind: Kind): seq<string> {
    match kind
    case OfPolicy => PolicyIds(s.policies)
    case OfResource => ResourceIds(s.resources)
    case OfScope => ScopeIds(s.scopes)
  }

  function TargetNames(s: Server, kind: Kind): (r: seq<string>)
    ensures |r| == |TargetIds(s, kind)|
  {
    match kind
    case OfPolicy => PolicyNames(s.policies)
    case OfResource => ResourceNames(s.resources)
    case OfScope => ScopeNames(s.scopes)
  }

  /** authzAssociationTarget: by name first, then by id. */
  function TargetId(s: Server, kind: Kind, ref: string): Option<string> {
    var i := Find(TargetNames(s, kind), ref);
    if i >= 0 then Some(TargetIds(s, kind)[i])
    else if ref in TargetIds(s, kind) then Some(ref)
    else None
  }

  function TargetName(s: Server, kind: Kind, id: string): Option<string> {
    var i := Find(TargetIds(s, kind), id);
    if i < 0 then None else Some(TargetNames(s, kind)[i])
  }

  /** All the names, or None when some id names nothing. */
  function TargetNamesOf(s: Server, kind: Kind, ids: seq<string>): Option<seq<string>> {
    if ids == [] then Some([])
    else
      match (TargetName(s, kind, ids[0]), TargetNamesOf(s, kind, ids[1..]))
      case (Some(name), Some(rest)) => Some([name] + rest)
      case _ => None
  }

  // ----- the export -----

  function ScopeNamesOf(s: Server, ids: seq<string>): seq<string> {
    if ids == [] then []
    else
      var i := Find(ScopeIds(s.scopes), ids[0]);
      (if i < 0 then [] else [s.scopes[i].name]) + ScopeNamesOf(s, ids[1..])
  }

  function ByName(names: seq<string>): (r: seq<ScopeRef>)
    ensures |r| == |names| && forall i | 0 <= i < |names| :: r[i] == ScopeRef("", names[i])
  {
    seq(|names|, i requires 0 <= i < |names| => ScopeRef("", names[i]))
  }

  function ExportScope(x: Scope): ScopeEntry {
    ScopeEntry("", x.name, x.iconUri, x.displayName)
  }

  function ExportResource(env: Env, s: Server, r: Resource): ResourceEntry {
    ResourceEntry("", r.name, r.displayName, r.kind, r.iconUri, env.keyOrder(r.uris), "", r.ownerManaged,
                  Some(r.attributes), ByName(env.keyOrder(ScopeNamesOf(s, r.scopes))), None)
  }

  /** The provider's own keys, denormalised. */
  function KeptConfig(realm: Realm, kind: string, c: Config): Config {
    if c == [] then []
    else (if ExportKeeps(kind, c[0].0) then [(c[0].0, ExportValue(realm, kind, c[0].0, c[0].1))] else [])
         + KeptConfig(realm, kind, c[1..])
  }

  /** The association sets, synthesised back into config by name. */
  function AssociationConfig(s: Server, p: Policy, kinds: seq<Kind>): Option<Config> {
    if kinds == [] then Some([])
    else
      match (TargetNamesOf(s, kinds[0], AssociationSet(p, kinds[0])), AssociationConfig(s, p, kinds[1..]))
      case (Some(names), Some(rest)) =>
        Some((if names == [] then [] else [(AssociationKey(kinds[0]), OfNames(names))]) + rest)
      case _ => None
  }

  /** authzOrderedConfig: the entries in the order a Java map serves their keys. */
  function Reordered(c: Config, keys: seq<string>): Config {
    if keys == [] then []
    else
      (match ConfigValue(c, keys[0]) case None => [] case Some(v) => [(keys[0], v)]) + Reordered(c, keys[1..])
  }

  const ALL_KINDS := [OfPolicy, OfResource, OfScope]

  function ExportConfig(env: Env, realm: Realm, s: Server, p: Policy): Option<Config> {
    match AssociationConfig(s, p, ALL_KINDS)
    case None => None
    case Some(associations) =>
      var c := KeptConfig(realm, p.kind, p.config) + associations;
      Some(Reordered(c, env.keyOrder(Keys(c))))
  }

  function OmitEmpty(v: string): EnumField {
    if v == "" then Absent else Given(v)
  }

  function ExportPolicy(env: Env, realm: Realm, s: Server, p: Policy): Option<PolicyEntry> {
    match ExportConfig(env, realm, s, p)
    case None => None
    case Some(c) => Some(PolicyEntry("", p.name, p.description, p.kind, OmitEmpty(p.logic), OmitEmpty(p.strategy), "",
      Some(c)))
  }

  predicate ServedLast(p: Policy) {
    p.kind == "resource" || p.kind == "scope"
  }

  /** Positions of the policies in export order: creation order, with the resource
      and scope rows moved to the end. */
  function Positions(ps: seq<Policy>, last: bool, from: nat): seq<nat>
    requires from <= |ps|
    decreases |ps| - from
  {
    if from == |ps| then []
    else (if ServedLast(ps[from]) == last then [from] else []) + Positions(ps, last, from + 1)
  }

  lemma {:induction false} PositionsInRange(ps: seq<Policy>, last: bool, from: nat)
    requires from <= |ps|
    ensures forall i | i in Positions(ps, last, from) :: i < |ps|
    decreases |ps| - from
  {
    if from < |ps| { PositionsInRange(ps, last, from + 1); }
  }

  predicate InHalf(ps: seq<Policy>, last: bool, from: nat, i: nat) {
    from <= i < |ps| && ServedLast(ps[i]) == last
  }

  ghost predicate Half(ps: seq<Policy>, last: bool, from: nat, at: seq<nat>) {
    && (forall a | 0 <= a < |at| :: InHalf(ps, last, from, at[a]))
    && (forall a, b | 0 <= a < b < |at| :: at[a] < at[b])
  }

  lemma HalfGrows(ps: seq<Policy>, last: bool, from: nat, rest: seq<nat>)
    requires from < |ps| && Half(ps, last, from + 1, rest)
    ensures Half(ps, last, from, if ServedLast(ps[from]) == last then [from] + rest else rest)
  {
    hide ServedLast;
    assert forall a | 0 <= a < |rest| :: InHalf(ps, last, from + 1, rest[a]);
  }

  lemma {:induction false} PositionsRise(ps: seq<Policy>, last: bool, from: nat)
    requires from <= |ps|
    ensures Half(ps, last, from, Positions(ps, last, from))
    decreases |ps| - from
  {
    hide ServedLast, Half;
    if from < |ps| {
      PositionsRise(ps, last, from + 1);
      HalfGrows(ps, last, from, Positions(ps, last, from + 1));
      assert [] + Positions(ps, last, from + 1) == Positions(ps, last, from + 1);
    } else {
      assert Half(ps, last, from, []) by { NoHalf(ps, last, from); }
    }
  }

  lemma NoHalf(ps: seq<Policy>, last: bool, from: nat)
    ensures Half(ps, last, from, [])
  {
  }

  /** Resource and scope policies come last; within either half, creation order. */
  predicate ServedBefore(ps: seq<Policy>, i: nat, j: nat) {
    i < |ps| && j < |ps| && if ServedLast(ps[i]) == ServedLast(ps[j]) then i < j else ServedLast(ps[j])
  }

  /** The export serves every policy, each once, in that order. */
  lemma ExportOrderIs(s: Server)
    ensures
      var at := ExportOrder(s);
      && (forall i: nat | i < |s.policies| :: i in at)
      && (forall a, b | 0 <= a < b < |at| :: ServedBefore(s.policies, at[a], at[b]))
  {
    hide ServedLast;
    PositionsRise(s.policies, false, 0);
    PositionsRise(s.policies, true, 0);
    forall i: nat | i < |s.policies| ensures i in ExportOrder(s) {
      PositionsCover(s.policies, false, 0, i);
      PositionsCover(s.policies, true, 0, i);
    }
    HalvesJoin(s.policies, Positions(s.policies, false, 0), Positions(s.policies, true, 0), ExportOrder(s));
  }

  lemma HalvesJoin(ps: seq<Policy>, x: seq<nat>, y: seq<nat>, at: seq<nat>)
    requires Half(ps, false, 0, x) && Half(ps, true, 0, y) && at == x + y
    ensures forall a, b | 0 <= a < b < |at| :: ServedBefore(ps, at[a], at[b])
  {
    hide ServedLast;
    forall a, b | 0 <= a < b < |at| ensures ServedBefore(ps, at[a], at[b]) {
      assert InHalf(ps, a >= |x|, 0, if a < |x| then x[a] else y[a - |x|]);
      assert InHalf(ps, b >= |x|, 0, if b < |x| then x[b] else y[b - |x|]);
    }
  }

  lemma {:induction false} PositionsCover(ps: seq<Policy>, last: bool, from: nat, i: nat)
    requires from <= |ps|
    ensures i in Positions(ps, last, from) <==> from <= i < |ps| && ServedLast(ps[i]) == last
    decreases |ps| - from
  {
    hide ServedLast;
    if from < |ps| {
      PositionsCover(ps, last, from + 1, i);
      var head: seq<nat> := if ServedLast(ps[from]) == last then [from] else [];
      assert i in Positions(ps, last, from) <==> i in head || i in Positions(ps, last, from + 1);
    }
  }

  function ExportPolicies(env: Env, realm: Realm, s: Server, at: seq<nat>): Option<seq<PolicyEntry>>
    requires forall i | i in at :: i < |s.policies|
  {
    if at == [] then Some([])
    else
      assert at[0] in at && forall i | i in at[1..] :: i in at;
      match (ExportPolicy(env, realm, s, s.policies[at[0]]), ExportPolicies(env, realm, s, at[1..]))
      case (Some(e), Some(rest)) => Some([e] + rest)
      case _ => None
  }

  function ExportScopes(xs: seq<Scope>): (r: seq<ScopeEntry>)
    ensures |r| == |xs| && forall i | 0 <= i < |xs| :: r[i] == ExportScope(xs[i])
  {
    seq(|xs|, i requires 0 <= i < |xs| => ExportScope(xs[i]))
  }

  function ExportResources(env: Env, s: Server, rs: seq<Resource>): (r: seq<ResourceEntry>)
    ensures |r| == |rs| && forall i | 0 <= i < |rs| :: r[i] == ExportResource(env, s, rs[i])
  {
    seq(|rs|, i requires 0 <= i < |rs| => ExportResource(env, s, rs[i]))
  }

  function ExportOrder(s: Server): (at: seq<nat>)
    ensures forall i | i in at :: i < |s.policies|
  {
    PositionsInRange(s.policies, false, 0);
    PositionsInRange(s.policies, true, 0);
    Positions(s.policies, false, 0) + Positions(s.policies, true, 0)
  }

  /** readResourceServerSettings; None when an association names nothing. */
  function Export(env: Env, realm: Realm, s: Server): Option<Body> {
    match ExportPolicies(env, realm, s, ExportOrder(s))
    case None => None
    case Some(policies) =>
      Some(Body(Some(s.settings.allowRemote), s.settings.mode, Some(s.settings.strategy),
                ExportResources(env, s, s.resources), policies, ExportScopes(s.scopes)))
  }

  // ----- normalisation -----

  datatype Normalised = Done(policy: Policy) | Bad(failure: Failure)

  function ResolveTargets(s: Server, kind: Kind, refs: seq<string>): Option<seq<string>> {
    if refs == [] then Some([])
    else
      match (TargetId(s, kind, refs[0]), ResolveTargets(s, kind, refs[1..]))
      case (Some(id), Some(rest)) => Some([id] + rest)
      case _ => None
  }

  function AddAll(p: Policy, kind: Kind, ids: seq<string>): Policy
    decreases |ids|
  {
    if ids == [] then p
    else AddAll(if ids[0] in AssociationSet(p, kind) then p else AddAssociation(p, kind, ids[0]), kind, ids[1..])
  }

  /** The association keys are consumed into the sets and removed from the config. */
  function Consume(s: Server, p: Policy, c: Config, kept: Config): Normalised
    decreases |c|
  {
    if c == [] then Done(p.(config := kept))
    else
      match KindOfKey(c[0].0)
      case None => Consume(s, p, c[1..], kept + [c[0]])
      case Some(kind) =>
        match ParseNames(c[0].1)
        case None => Bad(BadRequest)
        case Some(refs) =>
          match ResolveTargets(s, kind, refs)
          case None => Bad(ServerError)
          case Some(ids) => Consume(s, AddAll(p, kind, ids), c[1..], kept)
  }

  /** The provider's own key: written when absent, then resolved. */
  function ResolveOwnKey(realm: Realm, p: Policy): Normalised {
    match DefaultKey(p.kind)
    case None => Done(p)
    case Some(key) =>
      var c := if ConfigValue(p.config, key).Some? then p.config else SetConfig(p.config, key, EmptyArray);
      match ConfigValue(c, key)
      case None => Bad(ServerError)
      case Some(v) =>
        match ImportValue(realm, p.kind, v)
        case None => Bad(if p.kind == "client" && ParseNames(v).Some? then ServerError else BadRequest)
        case Some(w) => Done(p.(config := SetConfig(c, key, w)))
  }

  function Normalise(realm: Realm, s: Server, p: Policy): Normalised {
    match Consume(s, p, p.config, [])
    case Bad(f) => Bad(f)
    case Done(q) => ResolveOwnKey(realm, q)
  }

  // ----- the import -----

  function ImportScope(env: Env, s: Server, e: ScopeEntry): Outcome<()> {
    if e.name == "" then Ok(s, ())
    else
      var i := Find(ScopeNames(s.scopes), e.name);
      if i >= 0 then Ok(s.(scopes := s.scopes[i := s.scopes[i].(iconUri := e.iconUri, displayName := e.displayName)]),
        ())
      else
        var id := if e.id != "" then e.id else env.newId(UsedIds(s, env));
        match AddScope(env, s, Scope(id, e.name, e.iconUri, e.displayName))
        case None => Err(s, ServerError)
        case Some(t) => Ok(t, ())
  }

  function ImportResource(env: Env, s: Server, e: ResourceEntry): Outcome<()> {
    if e.name == "" then Ok(s, ())
    else
      match ResolveScopeRefs(env, s, (match e.resourceScopes case Some(refs) => refs case None => e.scopes), [])
      case Err(t, f) => Err(t, f)
      case Ok(t, scopes) =>
        var i := Find(ResourceNames(t.resources), e.name);
        var id := if i >= 0 then t.resources[i].id else if e.id != "" then e.id else env.newId(UsedIds(t, env));
        var x := Resource(id, e.name, e.displayName, e.kind, e.iconUri, e.ownerManaged, UrisOf(e.uris, e.uri),
                          match e.attributes case Some(a) => a case None => map[], scopes);
        if i >= 0 then Ok(t.(resources := t.resources[i := x]), ())
        else
          match AddResource(env, t, x)
          case None => Err(t, ServerError)
          case Some(u) => Ok(u, ())
  }

  predicate PolicyType(kind: string) {
    kind in {"regex", "role", "resource", "scope", "client", "time", "group", "aggregate", "uma"}
  }

  function EnumOr(field: EnumField, default: string): string {
    match field
    case Absent => default
    case Null => ""
    case Given(v) => v
  }

  /** The child tables' primary keys: one row a config key, one row a target. */
  predicate Storable(p: Policy) {
    NoRepeats(Keys(p.config)) && NoRepeats(p.policies) && NoRepeats(p.resources) && NoRepeats(p.scopes)
  }

  function AddPolicy(env: Env, s: Server, p: Policy): Option<Server> {
    if !Storable(p) || p.id in env.foreign || p.id in PolicyIds(s.policies)
      || p.name in PolicyNames(s.policies) then None
    else Some(s.(policies := s.policies + [p]))
  }

  /** An existing name is merged into: type, logic and strategy stay, the config grows. */
  function ImportPolicy(env: Env, realm: Realm, s: Server, e: PolicyEntry): Outcome<()> {
    if e.name == "" then Ok(s, ())
    else
      var entries := match e.config case Some(c) => c case None => [];
      var i := Find(PolicyNames(s.policies), e.name);
      if i >= 0 then
        var was := s.policies[i];
        var p := was.(description := e.description, owner := e.owner, config := SetAll(was.config, entries));
        match Normalise(realm, s, p)
        case Bad(f) => Err(s, f)
        case Done(q) => if Storable(q) then Ok(s.(policies := s.policies[i := q]), ()) else Err(s, ServerError)
      else if !PolicyType(e.kind) then Err(s, ServerError)
      else
        var id := if e.id != "" then e.id else env.newId(UsedIds(s, env));
        var p := Policy(id, e.name, e.description, e.kind, EnumOr(e.logic, "POSITIVE"), EnumOr(e.strategy, "UNANIMOUS"),
                        e.owner, SetAll([], entries), [], [], []);
        match Normalise(realm, s, p)
        case Bad(f) => Err(s, f)
        case Done(q) =>
          match AddPolicy(env, s, q)
          case None => Err(s, ServerError)
          case Some(t) => Ok(t, ())
  }

  function ImportScopes(env: Env, s: Server, es: seq<ScopeEntry>): Outcome<()>
    decreases |es|
  {
    if es == [] then Ok(s, ())
    else
      match ImportScope(env, s, es[0])
      case Err(t, f) => Err(t, f)
      case Ok(t, _) => ImportScopes(env, t, es[1..])
  }

  function ImportResources(env: Env, s: Server, es: seq<ResourceEntry>): Outcome<()>
    decreases |es|
  {
    if es == [] then Ok(s, ())
    else
      match ImportResource(env, s, es[0])
      case Err(t, f) => Err(t, f)
      case Ok(t, _) => ImportResources(env, t, es[1..])
  }

  function ImportPolicies(env: Env, realm: Realm, s: Server, es: seq<PolicyEntry>): Outcome<()>
    decreases |es|
  {
    if es == [] then Ok(s, ())
    else
      match ImportPolicy(env, realm, s, es[0])
      case Err(t, f) => Err(t, f)
      case Ok(t, _) => ImportPolicies(env, realm, t, es[1..])
  }

  /** The settings are reset to the defaults and overwritten by what the body names. */
  function ImportedSettings(b: Body): Settings {
    Settings(match b.allowRemote case Some(v) => v case None => DEFAULT_SETTINGS.allowRemote,
             if b.mode != "" then b.mode else DEFAULT_SETTINGS.mode,
             match b.strategy case Some(v) => v case None => DEFAULT_SETTINGS.strategy)
  }

  function Import(env: Env, realm: Realm, s: Server, b: Body): Outcome<()> {
    match ImportScopes(env, s.(settings := ImportedSettings(b)), b.scopes)
    case Err(t, f) => Err(t, f)
    case Ok(t, _) =>
      match ImportResources(env, t, b.resources)
      case Err(u, f) => Err(u, f)
      case Ok(u, _) => ImportPolicies(env, realm, u, b.policies)
  }
}
