/** Scope and resource writes, one request at a time and over whole runs. */
module AuthzWrites {
  import opened Basics
  import opened AuthzModel

  datatype ScopeBody = ScopeBody(id: string, name: Option<string>, iconUri: string, displayName: string)

  datatype ResourceBody = ResourceBody(id: string, name: Option<string>, displayName: string, kind: string,
                                       iconUri: string, uris: seq<string>, uri: string, owner: bool,
                                       ownerManaged: bool, attributes: Option<map<string, seq<string>>>,
                                       scopes: seq<ScopeRef>, resourceScopes: Option<seq<ScopeRef>>)
  {
    /** `resource_scopes` wins over `scopes` when both are present. */
    function ScopeRefs(): seq<ScopeRef> {
      match resourceScopes
      case Some(refs) => refs
      case None => scopes
    }
  }

  datatype Op =
    | CreateScope(scope: ScopeBody)
    | UpdateScope(id: string, scope: ScopeBody)
    | DeleteScope(id: string)
    | CreateResource(resource: ResourceBody)
    | UpdateResource(id: string, resource: ResourceBody)
    | DeleteResource(id: string)

  /** The upsert: a body's id names the row to write over and is looked up alone;
      a body without one upserts on its name. */
  function DoCreateScope(env: Env, s: Server, b: ScopeBody): Outcome<string> {
    match b.name
    case None => Err(s, Conflict)
    case Some(name) =>
      var i := if b.id != "" then Find(ScopeIds(s.scopes), b.id) else Find(ScopeNames(s.scopes), name);
      var id := if i >= 0 then s.scopes[i].id else if b.id != "" then b.id else env.newId(UsedIds(s, env));
      var x := Scope(id, name, b.iconUri, b.displayName);
      match (if i >= 0 then PutScope(s, x) else AddScope(env, s, x))
      case None => Err(s, Conflict)
      case Some(t) => Ok(t, id)
  }

  /** The body's id is read and discarded: the path decides which row moves. */
  function DoUpdateScope(s: Server, id: string, b: ScopeBody): Outcome<string> {
    var i := Find(ScopeIds(s.scopes), id);
    if i < 0 then Err(s, NotFound)
    else if b.name == None then Err(s, Conflict)
    else if b.name.value != s.scopes[i].name && b.name.value in ScopeNames(s.scopes) then Err(s, Conflict)
    else Ok(s.(scopes := s.scopes[i := Scope(id, b.name.value, b.iconUri, b.displayName)]), id)
  }

  function DoDeleteScope(s: Server, id: string): Outcome<string> {
    var i := Find(ScopeIds(s.scopes), id);
    if i < 0 then Err(s, NotFound) else Ok(DropScope(s, i), id)
  }

  function ResourceOf(id: string, name: string, b: ResourceBody, attributes: map<string, seq<string>>,
    scopes: seq<string>): Resource {
    Resource(id, name, b.displayName, b.kind, b.iconUri, b.ownerManaged, UrisOf(b.uris, b.uri), attributes, scopes)
  }

  /** The create upserts on `_id` alone; a taken name is refused first. */
  function DoCreateResource(env: Env, s: Server, b: ResourceBody): Outcome<string> {
    if b.owner then Err(s, ServerError)
    else
      match b.name
      case None => Err(s, Conflict)
      case Some(name) =>
        if name in ResourceNames(s.resources) then Err(s, NameTaken)
        else
          match ResolveScopeRefs(env, s, b.ScopeRefs(), [])
          case Err(t, f) => Err(t, f)
          case Ok(t, scopes) =>
            var i := if b.id == "" then -1 else Find(ResourceIds(t.resources), b.id);
            var id := if b.id == "" then env.newId(UsedIds(t, env)) else b.id;
            var attributes := match b.attributes
              case Some(a) => a
              case None => if i >= 0 then t.resources[i].attributes else map[];
            var x := ResourceOf(id, name, b, attributes, scopes);
            match (if i >= 0 then PutResource(t, x) else AddResource(env, t, x))
            case None => Err(t, Conflict)
            case Some(u) => Ok(u, id)
  }

  /** The update replaces every field but `attributes`, which an absent key keeps. */
  function DoUpdateResource(env: Env, s: Server, id: string, b: ResourceBody): Outcome<string> {
    var i := Find(ResourceIds(s.resources), id);
    if i < 0 then Err(s, NotFound)
    else if b.name == None || b.owner then Err(s, ServerError)
    else
      match ResolveScopeRefs(env, s, b.ScopeRefs(), [])
      case Err(t, f) => Err(t, f)
      case Ok(t, scopes) =>
        var attributes := match b.attributes case Some(a) => a case None => s.resources[i].attributes;
        match PutResource(t, ResourceOf(id, b.name.value, b, attributes, scopes))
        case None => Err(t, Conflict)
        case Some(u) => Ok(u, id)
  }

  function DoDeleteResource(s: Server, id: string): Outcome<string> {
    var i := Find(ResourceIds(s.resources), id);
    if i < 0 then Err(s, NotFound)
    else Ok(s.(resources := s.resources[..i] + s.resources[i + 1..]), id)
  }

  function Step(env: Env, s: Server, op: Op): Outcome<string> {
    match op
    case CreateScope(b) => DoCreateScope(env, s, b)
    case UpdateScope(id, b) => DoUpdateScope(s, id, b)
    case DeleteScope(id) => DoDeleteScope(s, id)
    case CreateResource(b) => DoCreateResource(env, s, b)
    case UpdateResource(id, b) => DoUpdateResource(env, s, id, b)
    case DeleteResource(id) => DoDeleteResource(s, id)
  }

  function Run(env: Env, s: Server, ops: seq<Op>): Server
    decreases |ops|
  {
    if ops == [] then s else Run(env, Step(env, s, ops[0]).server, ops[1..])
  }

  // ----- scope references -----

  /** `t` is `s` with scopes added at the end. */
  predicate Extends(s: Server, t: Server) {
    s.scopes <= t.scopes && t == s.(scopes := t.scopes)
  }

  lemma AddScopeKeeps(env: Env, s: Server, x: Scope)
    requires Unique(s)
    ensures AddScope(env, s, x).Some? ==> Unique(AddScope(env, s, x).value) && Extends(s, AddScope(env, s, x).value)
  {
    if AddScope(env, s, x).Some? {
      var t := AddScope(env, s, x).value;
      assert ScopeIds(t.scopes) == ScopeIds(s.scopes) + [x.id];
      assert ScopeNames(t.scopes) == ScopeNames(s.scopes) + [x.name];
      forall r | r in t.resources ensures TidyResource(t.scopes, r) { assert TidyResource(s.scopes, r); }
    }
  }

  /** A name or an id held before is found at the same place afterwards. */
  lemma FoundInExtension(s: Server, t: Server, i: nat)
    requires Unique(t) && Extends(s, t) && i < |s.scopes|
    ensures Find(ScopeNames(t.scopes), s.scopes[i].name) == i && s.scopes[i].id in ScopeIds(t.scopes)
    ensures t.scopes[i] == s.scopes[i]
  {
    assert t.scopes[i] == s.scopes[i];
    FindUnique(ScopeNames(t.scopes), i);
    assert ScopeIds(t.scopes)[i] == s.scopes[i].id;
  }

  /** The names an entry list asks for. */
  predicate Wanted(refs: seq<ScopeRef>, name: string) {
    name != "" && exists i :: 0 <= i < |refs| && refs[i].id == "" && refs[i].name == name
  }

  lemma WantedFirst(refs: seq<ScopeRef>, name: string)
    requires refs != []
    ensures Wanted(refs, name) <==> Wanted(refs[1..], name) || (name != "" && refs[0].id == "" && refs[0].name == name)
  {
    if Wanted(refs, name) {
      var i :| 0 <= i < |refs| && refs[i].id == "" && refs[i].name == name;
      if i > 0 { assert refs[1..][i - 1] == refs[i]; }
    }
    if Wanted(refs[1..], name) {
      var i :| 0 <= i < |refs[1..]| && refs[1..][i].id == "" && refs[1..][i].name == name;
      assert refs[i + 1] == refs[1..][i];
    }
  }

  /** A scope created for its name alone, under an id nobody uses. */
  predicate Bare(env: Env, x: Scope) {
    x.iconUri == "" && x.displayName == "" && x.id != "" && x.id !in env.foreign
  }

  /** What resolving one entry does: nothing, or one new scope of the wanted name. */
  lemma ResolveOne(env: Env, s: Server, ref: ScopeRef)
    requires ValidEnv(env) && Unique(s)
    ensures
      var o := ResolveScopeRef(env, s, ref);
      && Unique(o.server) && Extends(s, o.server)
      && (o.Ok? && o.value.Some? ==> o.value.value in ScopeIds(o.server.scopes))
      && (o.server == s || (o.Ok? && ref.id == "" && ref.name != "" && ref.name !in ScopeNames(s.scopes)
            && |o.server.scopes| == |s.scopes| + 1 && o.server.scopes[|s.scopes|].name == ref.name
            && Bare(env, o.server.scopes[|s.scopes|])))
      && (o.Ok? && ref.id == "" && ref.name != "" ==> ref.name in ScopeNames(o.server.scopes))
  {
    if ref.id == "" && ref.name != "" {
      var i := Find(ScopeNames(s.scopes), ref.name);
      if i >= 0 {
        assert ScopeIds(s.scopes)[i] == s.scopes[i].id;
      } else {
        var x := Scope(env.newId(UsedIds(s, env)), ref.name, "", "");
        AddScopeKeeps(env, s, x);
        if AddScope(env, s, x).Some? {
          var t := AddScope(env, s, x).value;
          assert ScopeIds(t.scopes)[|s.scopes|] == x.id && ScopeNames(t.scopes)[|s.scopes|] == x.name;
        }
      }
    }
  }

  lemma ResolveOneAgain(env: Env, s: Server, ref: ScopeRef, t: Server)
    requires ValidEnv(env) && Unique(s) && ResolveScopeRef(env, s, ref).Ok?
    requires Unique(t) && Extends(ResolveScopeRef(env, s, ref).server, t)
    ensures ResolveScopeRef(env, t, ref) == Ok(t, ResolveScopeRef(env, s, ref).value)
  {
    var u := ResolveScopeRef(env, s, ref).server;
    ResolveOne(env, s, ref);
    if ref.id != "" {
      var i := Find(ScopeIds(s.scopes), ref.id);
      FoundInExtension(s, t, i);
    } else if ref.name != "" {
      var i := Find(ScopeNames(u.scopes), ref.name);
      FoundInExtension(u, t, i);
      if u == s { } else { FindUnique(ScopeNames(u.scopes), |s.scopes|); }
    }
  }

  /** Resolving a list: the ids come out without repeats and alive, nothing but
      scopes is added, and the scopes added are exactly the missing names. */
  lemma {:induction false} ResolveCreatesMissing(env: Env, s: Server, refs: seq<ScopeRef>, out: seq<string>)
    requires ValidEnv(env) && Unique(s) && NoRepeats(out) && forall x | x in out :: x in ScopeIds(s.scopes)
    ensures
      var o := ResolveScopeRefs(env, s, refs, out);
      && Unique(o.server) && Extends(s, o.server)
      && (forall k | |s.scopes| <= k < |o.server.scopes| ::
            && Wanted(refs, o.server.scopes[k].name) && o.server.scopes[k].name !in ScopeNames(s.scopes)
            && Bare(env, o.server.scopes[k]))
      && (o.Ok? ==>
            && NoRepeats(o.value) && (forall x | x in o.value :: x in ScopeIds(o.server.scopes))
            && forall name :: Wanted(refs, name) ==> name in ScopeNames(o.server.scopes))
    decreases |refs|
  {
    if refs != [] {
      var o := ResolveScopeRef(env, s, refs[0]);
      ResolveOne(env, s, refs[0]);
      forall name
    ensures Wanted(refs, name) <==> Wanted(refs[1..], name) || (name != "" && refs[0].id == "" && refs[0].name == name)
      {
        WantedFirst(refs, name);
      }
      if o.Ok? {
        var t := o.server;
        KeptAlive(s, t, out);
        ResolveCreatesMissing(env, t, refs[1..], Append(out, o.value));
        var u := ResolveScopeRefs(env, t, refs[1..], Append(out, o.value)).server;
        NamesKept(s, t);
        NamesKept(t, u);
      }
    }
  }

  lemma KeptAlive(s: Server, t: Server, ids: seq<string>)
    requires Extends(s, t) && forall x | x in ids :: x in ScopeIds(s.scopes)
    ensures forall x | x in ids :: x in ScopeIds(t.scopes)
  {
    forall x | x in ids ensures x in ScopeIds(t.scopes) {
      var i := Find(ScopeIds(s.scopes), x);
      assert ScopeIds(t.scopes)[i] == x;
    }
  }

  lemma NamesKept(s: Server, t: Server)
    requires Extends(s, t)
    ensures forall x | x in ScopeNames(s.scopes) :: x in ScopeNames(t.scopes)
  {
    forall x | x in ScopeNames(s.scopes) ensures x in ScopeNames(t.scopes) {
      var i := Find(ScopeNames(s.scopes), x);
      assert ScopeNames(t.scopes)[i] == x;
    }
  }

  /** Resolving the same list again, at once or after further scopes were added,
      creates nothing and returns the same ids. */
  lemma {:induction false} ResolveAgain(env: Env, s: Server, refs: seq<ScopeRef>, out: seq<string>, t: Server)
    requires ValidEnv(env) && Unique(s) && ResolveScopeRefs(env, s, refs, out).Ok?
    requires Unique(t) && Extends(ResolveScopeRefs(env, s, refs, out).server, t)
    ensures ResolveScopeRefs(env, t, refs, out) == Ok(t, ResolveScopeRefs(env, s, refs, out).value)
    decreases |refs|
  {
    if refs != [] {
      var o := ResolveScopeRef(env, s, refs[0]);
      ResolveOne(env, s, refs[0]);
      ResolveExtends(env, o.server, refs[1..], Append(out, o.value));
      ResolveOneAgain(env, s, refs[0], t);
      ResolveAgain(env, o.server, refs[1..], Append(out, o.value), t);
    }
  }

  lemma {:induction false} ResolveExtends(env: Env, s: Server, refs: seq<ScopeRef>, out: seq<string>)
    requires ValidEnv(env) && Unique(s)
    ensures Extends(s, ResolveScopeRefs(env, s, refs, out).server) && Unique(ResolveScopeRefs(env, s, refs, out).server)
    decreases |refs|
  {
    if refs != [] {
      ResolveOne(env, s, refs[0]);
      var o := ResolveScopeRef(env, s, refs[0]);
      if o.Ok? { ResolveExtends(env, o.server, refs[1..], Append(out, o.value)); }
    }
  }

  // ----- every write keeps names and ids unique -----

  lemma SetNoRepeats(a: seq<string>, i: nat, x: string)
    requires NoRepeats(a) && i < |a| && (x == a[i] || x !in a)
    ensures NoRepeats(a[i := x])
  {
  }

  lemma PutScopeKeeps(s: Server, x: Scope)
    requires Unique(s)
    ensures PutScope(s, x).Some? ==> Unique(PutScope(s, x).value)
  {
    var i := Find(ScopeIds(s.scopes), x.id);
    if i >= 0 && PutScope(s, x).Some? {
      var t := PutScope(s, x).value;
      assert ScopeIds(t.scopes) == ScopeIds(s.scopes);
      assert ScopeNames(t.scopes) == ScopeNames(s.scopes)[i := x.name];
      SetNoRepeats(ScopeNames(s.scopes), i, x.name);
      forall r | r in t.resources ensures TidyResource(t.scopes, r) { assert TidyResource(s.scopes, r); }
    }
  }

  lemma PutResourceKeeps(s: Server, x: Resource)
    requires Unique(s) && TidyResource(s.scopes, x)
    ensures PutResource(s, x).Some? ==> Unique(PutResource(s, x).value)
  {
    var i := Find(ResourceIds(s.resources), x.id);
    if PutResource(s, x).Some? {
      var t := PutResource(s, x).value;
      assert ResourceIds(t.resources) == ResourceIds(s.resources);
      assert ResourceNames(t.resources) == ResourceNames(s.resources)[i := x.name];
      SetNoRepeats(ResourceNames(s.resources), i, x.name);
    }
  }

  lemma AddResourceKeeps(env: Env, s: Server, x: Resource)
    requires Unique(s) && TidyResource(s.scopes, x)
    ensures AddResource(env, s, x).Some? ==> Unique(AddResource(env, s, x).value)
  {
    if AddResource(env, s, x).Some? {
      var t := AddResource(env, s, x).value;
      assert ResourceIds(t.resources) == ResourceIds(s.resources) + [x.id];
      assert ResourceNames(t.resources) == ResourceNames(s.resources) + [x.name];
    }
  }

  lemma {:induction false} WithoutNoRepeats(xs: seq<string>, x: string)
    requires NoRepeats(xs)
    ensures NoRepeats(Without(xs, x))
  {
    if xs != [] {
      WithoutNoRepeats(xs[1..], x);
      assert xs[0] !in xs[1..];
    }
  }

  lemma CutNoRepeats(a: seq<string>, i: nat)
    requires NoRepeats(a) && i < |a|
    ensures NoRepeats(a[..i] + a[i + 1..])
  {
  }

  lemma DroppedTidy(scopes: seq<Scope>, i: nat, was: Resource)
    requires i < |scopes| && TidyResource(scopes, was)
    ensures TidyResource(scopes[..i] + scopes[i + 1..], was.(scopes := Without(was.scopes, scopes[i].id)))
  {
    WithoutNoRepeats(was.scopes, scopes[i].id);
    hide NoRepeats;
    var kept := scopes[..i] + scopes[i + 1..];
    forall x | x in Without(was.scopes, scopes[i].id) ensures x in ScopeIds(kept) {
      var j := Find(ScopeIds(scopes), x);
      assert j != i;
      assert ScopeIds(kept)[if j < i then j else j - 1] == x;
    }
  }

  lemma DropScopeKeeps(s: Server, i: nat)
    requires Unique(s) && i < |s.scopes|
    ensures Unique(DropScope(s, i))
  {
    hide NoRepeats, TidyResource;
    var t := DropScope(s, i);
    CutNoRepeats(ScopeIds(s.scopes), i);
    CutNoRepeats(ScopeNames(s.scopes), i);
    assert ScopeIds(t.scopes) == ScopeIds(s.scopes)[..i] + ScopeIds(s.scopes)[i + 1..];
    assert ScopeNames(t.scopes) == ScopeNames(s.scopes)[..i] + ScopeNames(s.scopes)[i + 1..];
    assert ResourceIds(t.resources) == ResourceIds(s.resources)
      && ResourceNames(t.resources) == ResourceNames(s.resources);
    forall r | r in t.resources ensures TidyResource(t.scopes, r) {
      var k :| 0 <= k < |t.resources| && t.resources[k] == r;
      assert s.resources[k] in s.resources;
      DroppedTidy(s.scopes, i, s.resources[k]);
    }
  }

  lemma ScopeWritesKeep(env: Env, s: Server, op: Op)
    requires ValidEnv(env) && Unique(s) && (op.CreateScope? || op.UpdateScope? || op.DeleteScope?)
    ensures Unique(Step(env, s, op).server)
  {
    match op
    case CreateScope(b) =>
      if b.name.Some? {
        var i := if b.id != "" then Find(ScopeIds(s.scopes), b.id) else Find(ScopeNames(s.scopes), b.name.value);
        var id := if i >= 0 then s.scopes[i].id else if b.id != "" then b.id else env.newId(UsedIds(s, env));
        var x := Scope(id, b.name.value, b.iconUri, b.displayName);
        PutScopeKeeps(s, x);
        AddScopeKeeps(env, s, x);
      }
    case UpdateScope(id, b) =>
      if b.name.Some? { PutScopeKeeps(s, Scope(id, b.name.value, b.iconUri, b.displayName)); }
    case DeleteScope(id) =>
      var i := Find(ScopeIds(s.scopes), id);
      if i >= 0 { DropScopeKeeps(s, i); }
  }

  lemma ResourcesCut(rs: seq<Resource>, i: nat)
    requires i < |rs|
    ensures ResourceIds(rs[..i] + rs[i + 1..]) == ResourceIds(rs)[..i] + ResourceIds(rs)[i + 1..]
    ensures ResourceNames(rs[..i] + rs[i + 1..]) == ResourceNames(rs)[..i] + ResourceNames(rs)[i + 1..]
  {
    var cut := rs[..i] + rs[i + 1..];
    var ids := ResourceIds(rs)[..i] + ResourceIds(rs)[i + 1..];
    var names := ResourceNames(rs)[..i] + ResourceNames(rs)[i + 1..];
    forall k | 0 <= k < |cut| ensures ResourceIds(cut)[k] == ids[k] && ResourceNames(cut)[k] == names[k] {
      assert cut[k] == rs[if k < i then k else k + 1];
    }
  }

  lemma DeleteResourceKeeps(s: Server, id: string)
    requires Unique(s)
    ensures Unique(DoDeleteResource(s, id).server)
  {
    var i := Find(ResourceIds(s.resources), id);
    if i >= 0 {
      hide NoRepeats, TidyResource;
      var t := DoDeleteResource(s, id).server;
      CutNoRepeats(ResourceIds(s.resources), i);
      CutNoRepeats(ResourceNames(s.resources), i);
      ResourcesCut(s.resources, i);
      hide ResourceIds, ResourceNames;
      assert t.scopes == s.scopes && t.policies == s.policies;
      forall r | r in t.resources ensures TidyResource(t.scopes, r) { assert r in s.resources; }
    }
  }

  /** Storing a resource whose scopes were just resolved. */
  lemma StoreResolved(env: Env, t: Server, x: Resource)
    requires Unique(t) && NoRepeats(x.uris) && NoRepeats(x.scopes)
      && forall y | y in x.scopes :: y in ScopeIds(t.scopes)
    ensures PutResource(t, x).Some? ==> Unique(PutResource(t, x).value)
    ensures AddResource(env, t, x).Some? ==> Unique(AddResource(env, t, x).value)
  {
    PutResourceKeeps(t, x);
    AddResourceKeeps(env, t, x);
  }

  lemma CreateResourceKeeps(env: Env, s: Server, b: ResourceBody)
    requires ValidEnv(env) && Unique(s)
    ensures Unique(DoCreateResource(env, s, b).server)
  {
    if !b.owner && b.name.Some? && b.name.value !in ResourceNames(s.resources) {
      var o := ResolveScopeRefs(env, s, b.ScopeRefs(), []);
      ResolveCreatesMissing(env, s, b.ScopeRefs(), []);
      if o.Ok? {
        var t := o.server;
        var i := if b.id == "" then -1 else Find(ResourceIds(t.resources), b.id);
        var id := if b.id == "" then env.newId(UsedIds(t, env)) else b.id;
        var attributes := match b.attributes
          case Some(a) => a
          case None => if i >= 0 then t.resources[i].attributes else map[];
        var x := ResourceOf(id, b.name.value, b, attributes, o.value);
        StoreResolved(env, t, x);
        hide Unique, ResolveScopeRefs, PutResource, AddResource, UrisOf;
      }
    }
  }

  lemma UpdateResourceKeeps(env: Env, s: Server, id: string, b: ResourceBody)
    requires ValidEnv(env) && Unique(s)
    ensures Unique(DoUpdateResource(env, s, id, b).server)
  {
    var i := Find(ResourceIds(s.resources), id);
    if i >= 0 && b.name.Some? && !b.owner {
      var o := ResolveScopeRefs(env, s, b.ScopeRefs(), []);
      ResolveCreatesMissing(env, s, b.ScopeRefs(), []);
      if o.Ok? {
        var attributes := match b.attributes case Some(a) => a case None => s.resources[i].attributes;
        StoreResolved(env, o.server, ResourceOf(id, b.name.value, b, attributes, o.value));
        hide Unique, ResolveScopeRefs, PutResource, UrisOf;
      }
    }
  }

  lemma StepKeeps(env: Env, s: Server, op: Op)
    requires ValidEnv(env) && Unique(s)
    ensures Unique(Step(env, s, op).server)
  {
    hide Unique, ValidEnv, DoCreateResource, DoUpdateResource, DoDeleteResource;
    match op
    case CreateResource(b) => CreateResourceKeeps(env, s, b);
    case UpdateResource(id, b) => UpdateResourceKeeps(env, s, id, b);
    case DeleteResource(id) => DeleteResourceKeeps(s, id);
    case _ => ScopeWritesKeep(env, s, op);
  }

  /** A write touches nothing but scopes and resources. */
  lemma StepFrame(env: Env, s: Server, op: Op)
    requires ValidEnv(env) && Unique(s)
    ensures Step(env, s, op).server == s.(scopes := Step(env, s, op).server.scopes,
      resources := Step(env, s, op).server.resources)
  {
    match op
    case CreateResource(b) => ResolveExtends(env, s, b.ScopeRefs(), []); hide Unique, ValidEnv, ResolveScopeRefs;
    case UpdateResource(id, b) => ResolveExtends(env, s, b.ScopeRefs(), []); hide Unique, ValidEnv, ResolveScopeRefs;
    case _ =>
  }

  /** Over every run of scope and resource writes, refused ones included, names
      and ids stay unique and no resource holds a repeated or dead scope id. */
  lemma {:induction false} RunKeepsUnique(env: Env, s: Server, ops: seq<Op>)
    requires ValidEnv(env) && Unique(s)
    ensures Unique(Run(env, s, ops))
    decreases |ops|
  {
    if ops != [] {
      StepKeeps(env, s, ops[0]);
      RunKeepsUnique(env, Step(env, s, ops[0]).server, ops[1..]);
    }
  }
}
