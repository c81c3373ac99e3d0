/** A client's authorization resource server: its stored form, the lookups the
    handlers make, and the writes to scopes and resources
    (internal/admin/authzscope.go, authzresource.go). */
module AuthzModel {
  import opened Basics

  datatype Settings = Settings(allowRemote: bool, mode: string, strategy: string)

  const DEFAULT_SETTINGS := Settings(true, "ENFORCING", "UNANIMOUS")

  datatype Scope = Scope(id: string, name: string, iconUri: string, displayName: string)

  datatype Resource = Resource(id: string, name: string, displayName: string, kind: string, iconUri: string,
                               ownerManaged: bool, uris: seq<string>, attributes: map<string, seq<string>>,
                               scopes: seq<string>)

  /** One entry of a JSON array of objects held in a policy's config: a role entry
      uses `id` and `required`, a group entry `id` or `path` and `extend`. */
  datatype Ref = Ref(id: string, path: string, required: bool, extend: bool)

  /** A config value: a string that is either some text or a JSON array. The empty
      array is one string whatever it is an array of. */
  datatype Value = Text(text: string) | EmptyArray | Names(names: seq<string>) | Refs(refs: seq<Ref>)

  type Config = seq<(string, Value)>

  datatype Policy = Policy(id: string, name: string, description: string, kind: string, logic: string,
                           strategy: string, owner: string, config: Config,
                           policies: seq<string>, resources: seq<string>, scopes: seq<string>)

  /** Every list is in creation order. */
  datatype Server = Server(settings: Settings, scopes: seq<Scope>, resources: seq<Resource>, policies: seq<Policy>)

  /** What the handlers take from outside: the source of new identifiers, the ids
      other resource servers already hold, and the order a Java map serves keys in. */
  datatype Env = Env(newId: set<string> -> string, foreign: set<string>, keyOrder: seq<string> -> seq<string>)

  ghost predicate ValidEnv(env: Env) {
    && (forall used :: env.newId(used) !in used && env.newId(used) != "")
    && (forall keys :: multiset(env.keyOrder(keys)) == multiset(keys))
  }

  // ----- lookups -----

  function ScopeIds(s: seq<Scope>): (r: seq<string>)
    ensures |r| == |s| && forall i | 0 <= i < |s| :: r[i] == s[i].id
  {
    seq(|s|, i requires 0 <= i < |s| => s[i].id)
  }

  function ScopeNames(s: seq<Scope>): (r: seq<string>)
    ensures |r| == |s| && forall i | 0 <= i < |s| :: r[i] == s[i].name
  {
    seq(|s|, i requires 0 <= i < |s| => s[i].name)
  }

  function ResourceIds(s: seq<Resource>): (r: seq<string>)
    ensures |r| == |s| && forall i | 0 <= i < |s| :: r[i] == s[i].id
  {
    seq(|s|, i requires 0 <= i < |s| => s[i].id)
  }

  function ResourceNames(s: seq<Resource>): (r: seq<string>)
    ensures |r| == |s| && forall i | 0 <= i < |s| :: r[i] == s[i].name
  {
    seq(|s|, i requires 0 <= i < |s| => s[i].name)
  }

  function PolicyIds(s: seq<Policy>): (r: seq<string>)
    ensures |r| == |s| && forall i | 0 <= i < |s| :: r[i] == s[i].id
  {
    seq(|s|, i requires 0 <= i < |s| => s[i].id)
  }

  function PolicyNames(s: seq<Policy>): (r: seq<string>)
    ensures |r| == |s| && forall i | 0 <= i < |s| :: r[i] == s[i].name
  {
    seq(|s|, i requires 0 <= i < |s| => s[i].name)
  }

  /** Names and ids are unique within the resource server, and a resource lists
      uris and live scopes without repeats. */
  ghost predicate Unique(s: Server) {
    && NoRepeats(ScopeIds(s.scopes)) && NoRepeats(ScopeNames(s.scopes))
    && NoRepeats(ResourceIds(s.resources)) && NoRepeats(ResourceNames(s.resources))
    && NoRepeats(PolicyIds(s.policies)) && NoRepeats(PolicyNames(s.policies))
    && forall r | r in s.resources :: TidyResource(s.scopes, r)
  }

  ghost predicate TidyResource(scopes: seq<Scope>, r: Resource) {
    NoRepeats(r.uris) && NoRepeats(r.scopes) && forall x | x in r.scopes :: x in ScopeIds(scopes)
  }

  // ----- the store's constraints -----

  function UsedIds(s: Server, env: Env): set<string> {
    env.foreign + (set x | x in ScopeIds(s.scopes)) + (set x | x in ResourceIds(s.resources))
    + (set x | x in PolicyIds(s.policies))
  }

  /** CreateScope: refused when the id is held anywhere or the name is held here. */
  function AddScope(env: Env, s: Server, x: Scope): Option<Server> {
    if x.id in env.foreign || x.id in ScopeIds(s.scopes) || x.name in ScopeNames(s.scopes) then None
    else Some(s.(scopes := s.scopes + [x]))
  }

  /** UpdateScope by id: refused when another row holds the name. */
  function PutScope(s: Server, x: Scope): Option<Server> {
    var i := Find(ScopeIds(s.scopes), x.id);
    if i < 0 then Some(s)
    else if x.name != s.scopes[i].name && x.name in ScopeNames(s.scopes) then None
    else Some(s.(scopes := s.scopes[i := x]))
  }

  function AddResource(env: Env, s: Server, x: Resource): Option<Server> {
    if x.id in env.foreign || x.id in ResourceIds(s.resources) || x.name in ResourceNames(s.resources) then None
    else Some(s.(resources := s.resources + [x]))
  }

  function PutResource(s: Server, x: Resource): Option<Server> {
    var i := Find(ResourceIds(s.resources), x.id);
    if i < 0 then None
    else if x.name != s.resources[i].name && x.name in ResourceNames(s.resources) then None
    else Some(s.(resources := s.resources[i := x]))
  }

  /** Deleting a scope takes its links from every resource with it. */
  function DropScope(s: Server, i: nat): Server
    requires i < |s.scopes|
  {
    s.(scopes := s.scopes[..i] + s.scopes[i + 1..],
       resources := seq(|s.resources|, k requires 0 <= k < |s.resources| =>
                     s.resources[k].(scopes := Without(s.resources[k].scopes, s.scopes[i].id))))
  }

  function Without(xs: seq<string>, x: string): (r: seq<string>)
    ensures forall y :: y in r <==> y in xs && y != x
    ensures |r| <= |xs|
  {
    if xs == [] then [] else (if xs[0] == x then [] else [xs[0]]) + Without(xs[1..], x)
  }

  // ----- scope references -----

  /** One entry of a resource's `scopes`. */
  datatype ScopeRef = ScopeRef(id: string, name: string)

  datatype Failure = Conflict | ServerError | NotFound | NameTaken | BadRequest

  /** The tables after a request, and whether it was carried out: a refusal can
      come after part of the work is done. */
  datatype Outcome<T> = Ok(server: Server, value: T) | Err(server: Server, failure: Failure)

  /** resolveAuthzScopeRefs: an id is looked up alone, a name is created when
      nobody holds it, and an entry with neither is skipped. */
  function ResolveScopeRef(env: Env, s: Server, ref: ScopeRef): Outcome<Option<string>> {
    if ref.id != "" then
      if ref.id in ScopeIds(s.scopes) then Ok(s, Some(ref.id)) else Err(s, Conflict)
    else if ref.name != "" then
      var i := Find(ScopeNames(s.scopes), ref.name);
      if i >= 0 then Ok(s, Some(s.scopes[i].id))
      else
        var id := env.newId(UsedIds(s, env));
        match AddScope(env, s, Scope(id, ref.name, "", ""))
        case None => Err(s, ServerError)
        case Some(t) => Ok(t, Some(id))
    else Ok(s, None)
  }

  function Append(out: seq<string>, id: Option<string>): seq<string> {
    if id == None || id.value in out then out else out + [id.value]
  }

  function ResolveScopeRefs(env: Env, s: Server, refs: seq<ScopeRef>, out: seq<string>): Outcome<seq<string>>
    decreases |refs|
  {
    if refs == [] then Ok(s, out)
    else
      match ResolveScopeRef(env, s, refs[0])
      case Err(t, f) => Err(t, f)
      case Ok(t, id) => ResolveScopeRefs(env, t, refs[1..], Append(out, id))
  }

  /** `uris` with the legacy singular folded in and repeats dropped. */
  function Dedup(xs: seq<string>, out: seq<string>): (r: seq<string>)
    ensures (forall y :: y in r <==> y in out || y in xs) && (NoRepeats(out) ==> NoRepeats(r))
    decreases |xs|
  {
    if xs == [] then out else Dedup(xs[1..], if xs[0] in out then out else out + [xs[0]])
  }

  function UrisOf(uris: seq<string>, uri: string): (r: seq<string>)
    ensures NoRepeats(r) && forall y :: y in r <==> y in uris || (uri != "" && y == uri)
  {
    Dedup(if uri != "" then uris + [uri] else uris, [])
  }
}
