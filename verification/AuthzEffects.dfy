/** What each write to scopes and resources answers and what it stores, over the tables
    before and after (internal/admin/authzscope.go:241-446, authzresource.go:763-1033). */
module AuthzEffects {
  import opened Basics
  import opened AuthzModel
  import opened AuthzWrites

  // ----- scopes -----

  /** The row a create writes over: by the body's id, or, without one, by its name. */
  predicate Target(s: Server, b: ScopeBody, i: nat) {
    i < |s.scopes| && b.name.Some? && if b.id != "" then s.scopes[i].id == b.id else s.scopes[i].name == b.name.value
  }

  /** Another row holds the name. */
  predicate ScopeHeld(s: Server, name: string, i: nat) {
    i < |s.scopes| && s.scopes[i].name == name
  }

  /** Exactly one scope is stored: over row `i`, or at the end. */
  predicate ScopeStored(s: Server, t: Server, i: Option<nat>, x: Scope) {
    match i
    case None => t == s.(scopes := s.scopes + [x])
    case Some(i) => i < |s.scopes| && s.scopes[i].id == x.id && t == s.(scopes := s.scopes[i := x])
  }

  /** A create is refused without a name, for a name another row holds, and for a new id
      that another resource server has; otherwise it stores what was sent. */
  lemma CreateScopeEffect(env: Env, s: Server, b: ScopeBody)
    requires ValidEnv(env) && Unique(s)
    ensures
      var o := DoCreateScope(env, s, b);
      var clash := exists j: nat :: b.name.Some? && ScopeHeld(s, b.name.value, j) && !Target(s, b, j);
      var foreign := b.id in env.foreign && forall i: nat :: !Target(s, b, i);
      && (o.Err? <==> b.name == None || clash || (b.id != "" && foreign))
      && (o.Err? ==> o.server == s && o.failure == Conflict)
      && (o.Ok? ==>
            && (forall i: nat | Target(s, b, i) ::
                  && o.value == s.scopes[i].id
                  && ScopeStored(s, o.server, Some(i), Scope(o.value, b.name.value, b.iconUri, b.displayName)))
            && ((forall i: nat :: !Target(s, b, i)) ==>
                  && (if b.id != "" then o.value == b.id else o.value != "" && o.value !in UsedIds(s, env))
                  && ScopeStored(s, o.server, None, Scope(o.value, b.name.value, b.iconUri, b.displayName))))
  {
    ScopeRows(s);
    if b.name.Some? {
      var i := if b.id != "" then Find(ScopeIds(s.scopes), b.id) else Find(ScopeNames(s.scopes), b.name.value);
      FoundTarget(s, b, i);
      hide Find, Unique, ScopeIds, ScopeNames;
      if i >= 0 {
        assert Target(s, b, i);
        assert b.name.value != s.scopes[i].name && b.name.value in ScopeNames(s.scopes) <==>
          exists j: nat :: ScopeHeld(s, b.name.value, j) && !Target(s, b, j);
      } else {
        assert b.name.value in ScopeNames(s.scopes) <==>
          exists j: nat :: ScopeHeld(s, b.name.value, j) && !Target(s, b, j);
      }
    }
  }

  lemma ScopeRows(s: Server)
    requires Unique(s)
    ensures forall x :: x in ScopeNames(s.scopes) <==> exists i: nat :: ScopeHeld(s, x, i)
    ensures forall x :: x in ScopeIds(s.scopes) <==> exists i: nat :: i < |s.scopes| && s.scopes[i].id == x
    ensures forall i: nat, j: nat | i < |s.scopes| && j < |s.scopes| && s.scopes[i].name == s.scopes[j].name :: i == j
    ensures forall i: nat, j: nat | i < |s.scopes| && j < |s.scopes| && s.scopes[i].id == s.scopes[j].id :: i == j
  {
    var names, ids := ScopeNames(s.scopes), ScopeIds(s.scopes);
    forall i: nat, j: nat | i < |s.scopes| && j < |s.scopes| && s.scopes[i].name == s.scopes[j].name ensures i == j {
      assert names[i] == names[j];
    }
    forall i: nat, j: nat | i < |s.scopes| && j < |s.scopes| && s.scopes[i].id == s.scopes[j].id ensures i == j {
      assert ids[i] == ids[j];
    }
    forall x ensures x in names <==> exists i: nat :: ScopeHeld(s, x, i) {
      if x in names {
        var k :| 0 <= k < |names| && names[k] == x;
        assert ScopeHeld(s, x, k);
      }
      if i: nat :| ScopeHeld(s, x, i) { assert names[i] == x; }
    }
    forall x ensures x in ids <==> exists i: nat :: i < |s.scopes| && s.scopes[i].id == x {
      if i: nat :| i < |s.scopes| && s.scopes[i].id == x { assert ids[i] == x; }
    }
  }

  lemma FoundTarget(s: Server, b: ScopeBody, i: int)
    requires Unique(s) && b.name.Some?
    requires i == if b.id != "" then Find(ScopeIds(s.scopes), b.id) else Find(ScopeNames(s.scopes), b.name.value)
    ensures -1 <= i < |s.scopes| && forall j: nat :: Target(s, b, j) <==> j == i
    ensures b.id != "" ==> Find(ScopeIds(s.scopes), b.id) == i
    ensures i >= 0 ==> Find(ScopeIds(s.scopes), s.scopes[i].id) == i
    ensures i < 0 && b.id != "" ==> b.id !in ScopeIds(s.scopes)
  {
    ScopeRows(s);
    if i >= 0 { FindUnique(ScopeIds(s.scopes), i); }
  }

  /** An update writes over the path's row, whatever id the body holds; it is refused for
      an unknown row, without a name, and for a name another row holds. */
  lemma UpdateScopeEffect(s: Server, id: string, b: ScopeBody)
    requires Unique(s)
    ensures
      var o := DoUpdateScope(s, id, b);
      && (o == Err(s, NotFound) <==> forall i: nat | i < |s.scopes| :: s.scopes[i].id != id)
      && forall i: nat | i < |s.scopes| && s.scopes[i].id == id ::
           && (o.Err? <==> b.name == None || exists j: nat :: j != i && ScopeHeld(s, b.name.value, j))
           && (o.Err? ==> o == Err(s, Conflict))
           && (o.Ok? ==> && o.value == id
                         && ScopeStored(s, o.server, Some(i), Scope(id, b.name.value, b.iconUri, b.displayName)))
  {
    ScopeRows(s);
    var i := Find(ScopeIds(s.scopes), id);
    hide Find, Unique, ScopeIds, ScopeNames;
    if i >= 0 && b.name.Some? {
      assert s.scopes[i].id == id;
      assert b.name.value != s.scopes[i].name && b.name.value in ScopeNames(s.scopes) <==>
        exists j: nat :: j != i && ScopeHeld(s, b.name.value, j);
    }
  }

  /** A delete takes the row out, and its id out of every resource's scopes. */
  lemma DeleteScopeEffect(s: Server, id: string)
    requires Unique(s)
    ensures
      var o := DoDeleteScope(s, id);
      && (o == Err(s, NotFound) <==> forall i: nat | i < |s.scopes| :: s.scopes[i].id != id)
      && forall i: nat | i < |s.scopes| && s.scopes[i].id == id ::
           && o.Ok? && o.value == id && o.server == s.(scopes := o.server.scopes, resources := o.server.resources)
           && o.server.scopes == s.scopes[..i] + s.scopes[i + 1..] && |o.server.resources| == |s.resources|
           && forall k | 0 <= k < |s.resources| :: Unlinked(s.resources[k], o.server.resources[k], id)
  {
    ScopeRows(s);
    hide Unique, ScopeNames;
  }

  /** A resource as it was, without that scope. */
  ghost predicate Unlinked(was: Resource, now: Resource, scope: string) {
    && now == was.(scopes := now.scopes)
    && (forall y :: y in now.scopes <==> y in was.scopes && y != scope)
  }

  // ----- the scopes a body names -----

  /** The entry selects scope `y`: by its id, or else by its name. */
  ghost predicate Selects(t: Server, ref: ScopeRef, y: string) {
    if ref.id != "" then y == ref.id
    else ref.name != "" && exists k: nat :: ScopeHeld(t, ref.name, k) && t.scopes[k].id == y
  }

  ghost predicate Selected(t: Server, refs: seq<ScopeRef>, y: string) {
    exists i :: 0 <= i < |refs| && Selects(t, refs[i], y)
  }

  /** An entry gives an id no scope has. */
  predicate Unknown(t: Server, ref: ScopeRef) {
    ref.id != "" && ref.id !in ScopeIds(t.scopes)
  }

  ghost predicate AnyUnknown(t: Server, refs: seq<ScopeRef>) {
    exists i :: 0 <= i < |refs| && Unknown(t, refs[i])
  }

  lemma SelectedFirst(t: Server, refs: seq<ScopeRef>, y: string)
    requires refs != []
    ensures Selected(t, refs, y) <==> Selects(t, refs[0], y) || Selected(t, refs[1..], y)
  {
    hide Selects;
    if i :| 0 <= i < |refs| && Selects(t, refs[i], y) { if i > 0 { assert refs[1..][i - 1] == refs[i]; } }
    if i :| 0 <= i < |refs[1..]| && Selects(t, refs[1..][i], y) { assert refs[i + 1] == refs[1..][i]; }
  }

  lemma UnknownFirst(t: Server, refs: seq<ScopeRef>)
    requires refs != []
    ensures AnyUnknown(t, refs) <==> Unknown(t, refs[0]) || AnyUnknown(t, refs[1..])
  {
    hide Unknown;
    if i :| 0 <= i < |refs| && Unknown(t, refs[i]) { if i > 0 { assert refs[1..][i - 1] == refs[i]; } }
    if i :| 0 <= i < |refs[1..]| && Unknown(t, refs[1..][i]) { assert refs[i + 1] == refs[1..][i]; }
  }

  lemma OneSelects(env: Env, s: Server, ref: ScopeRef, t: Server, y: string)
    requires ValidEnv(env) && Unique(s) && ResolveScopeRef(env, s, ref).Ok?
    requires Unique(t) && Extends(ResolveScopeRef(env, s, ref).server, t)
    ensures ResolveScopeRef(env, s, ref).value == Some(y) <==> Selects(t, ref, y)
    ensures !Unknown(t, ref)
  {
    var o := ResolveScopeRef(env, s, ref);
    ResolveOne(env, s, ref);
    ScopeRows(t);
    if ref.id != "" {
      var i := Find(ScopeIds(s.scopes), ref.id);
      FoundInExtension(s, t, i);
    } else if ref.name != "" {
      var i := Find(ScopeNames(o.server.scopes), ref.name);
      FoundInExtension(o.server, t, i);
      assert ScopeHeld(t, ref.name, i);
      if o.server == s { } else { FindUnique(ScopeNames(o.server.scopes), |s.scopes|); }
    }
  }

  lemma OneRefused(env: Env, s: Server, ref: ScopeRef)
    requires ValidEnv(env) && Unique(s)
    ensures
      var o := ResolveScopeRef(env, s, ref);
      (o.Err? <==> Unknown(s, ref)) && (o.Err? ==> o == Err(s, Conflict))
  {
    hide Unique;
  }

  /** Resolving a list selects exactly the scopes its entries name, and is refused exactly
      when an entry gives an id that is not a scope's by the time it stops. */
  lemma {:induction false} ResolvesExactly(env: Env, s: Server, refs: seq<ScopeRef>, out: seq<string>)
    requires ValidEnv(env) && Unique(s)
    ensures
      var o := ResolveScopeRefs(env, s, refs, out);
      && (o.Err? <==> AnyUnknown(o.server, refs)) && (o.Err? ==> o.failure == Conflict)
      && (o.Ok? ==> forall y :: y in o.value <==> y in out || Selected(o.server, refs, y))
    decreases |refs|
  {
    hide Unique, Extends, ResolveScopeRef, Selected, AnyUnknown, Unknown, ValidEnv, Selects;
    var o := ResolveScopeRefs(env, s, refs, out);
    if refs == [] {
      NoneSelected(o.server);
    } else {
      OneRefused(env, s, refs[0]);
      UnknownFirst(o.server, refs);
      var one := ResolveScopeRef(env, s, refs[0]);
      if one.Ok? {
        ResolveOne(env, s, refs[0]);
        var out1 := Append(out, one.value);
        ResolveExtends(env, one.server, refs[1..], out1);
        ResolvesExactly(env, one.server, refs[1..], out1);
        forall y ensures Selects(o.server, refs[0], y) <==> one.value == Some(y) {
          OneSelects(env, s, refs[0], o.server, y);
        }
        OneSelects(env, s, refs[0], o.server, "");
        forall y
          ensures Selected(o.server, refs, y) <==> Selects(o.server, refs[0], y) || Selected(o.server, refs[1..], y)
        {
          SelectedFirst(o.server, refs, y);
        }
      }
    }
  }

  lemma NoneSelected(t: Server)
    ensures !AnyUnknown(t, []) && forall y :: !Selected(t, [], y)
  {
  }

  // ----- resources -----

  /** Resource `x` is what a body says: its fields, its uris with the singular folded in,
      each once, and exactly the scopes its entries select, each once. */
  ghost predicate Carries(t: Server, x: Resource, name: string, displayName: string, kind: string, iconUri: string,
                          ownerManaged: bool, uris: seq<string>, uri: string, refs: seq<ScopeRef>)
  {
    && x.name == name && x.displayName == displayName && x.kind == kind && x.iconUri == iconUri
    && x.ownerManaged == ownerManaged
    && NoRepeats(x.uris) && (forall y :: y in x.uris <==> y in uris || (uri != "" && y == uri))
    && NoRepeats(x.scopes) && (forall y :: y in x.scopes <==> Selected(t, refs, y)) && WantedHeld(t, refs)
  }

  /** Every name the entries ask for is a scope's. */
  ghost predicate WantedHeld(t: Server, refs: seq<ScopeRef>) {
    forall name :: Wanted(refs, name) ==> name in ScopeNames(t.scopes)
  }

  ghost predicate CarriesBody(t: Server, x: Resource, b: ResourceBody) {
    && b.name.Some?
    && Carries(t, x, b.name.value, b.displayName, b.kind, b.iconUri, b.ownerManaged, b.uris, b.uri, b.ScopeRefs())
  }

  /** `t` is `s` with scopes added that entries ask for by name and nobody held, each with
      its name alone. */
  ghost predicate ScopesAdded(env: Env, s: Server, t: Server, refs: seq<ScopeRef>) {
    && s.scopes <= t.scopes
    && forall k | |s.scopes| <= k < |t.scopes| ::
         Wanted(refs, t.scopes[k].name) && t.scopes[k].name !in ScopeNames(s.scopes) && Bare(env, t.scopes[k])
  }

  /** Row `i` holds that id. */
  predicate ResourceHeld(s: Server, id: string, i: nat) {
    i < |s.resources| && s.resources[i].id == id
  }

  predicate ResourceNamed(s: Server, name: string, i: nat) {
    i < |s.resources| && s.resources[i].name == name
  }

  lemma ResourceRows(s: Server)
    requires Unique(s)
    ensures forall x :: x in ResourceNames(s.resources) <==> exists i: nat :: ResourceNamed(s, x, i)
    ensures forall x :: x in ResourceIds(s.resources) <==> exists i: nat :: ResourceHeld(s, x, i)
    ensures forall x, i: nat, j: nat | ResourceHeld(s, x, i) && ResourceHeld(s, x, j) :: i == j
    ensures forall x, i: nat, j: nat | ResourceNamed(s, x, i) && ResourceNamed(s, x, j) :: i == j
  {
    var names, ids := ResourceNames(s.resources), ResourceIds(s.resources);
    forall x, i: nat, j: nat | ResourceNamed(s, x, i) && ResourceNamed(s, x, j) ensures i == j {
      assert names[i] == names[j];
    }
    forall x, i: nat, j: nat | ResourceHeld(s, x, i) && ResourceHeld(s, x, j) ensures i == j {
      assert ids[i] == ids[j];
    }
    forall x ensures x in names <==> exists i: nat :: ResourceNamed(s, x, i) {
      if x in names {
        var k :| 0 <= k < |names| && names[k] == x;
        assert ResourceNamed(s, x, k);
      }
      if i: nat :| ResourceNamed(s, x, i) { assert names[i] == x; }
    }
    forall x ensures x in ids <==> exists i: nat :: ResourceHeld(s, x, i) {
      if x in ids {
        var k :| 0 <= k < |ids| && ids[k] == x;
        assert ResourceHeld(s, x, k);
      }
      if i: nat :| ResourceHeld(s, x, i) { assert ids[i] == x; }
    }
  }

  /** What resolving a body's scopes leaves: the tables with scopes added. */
  lemma Resolved(env: Env, s: Server, refs: seq<ScopeRef>)
    requires ValidEnv(env) && Unique(s)
    ensures
      var o := ResolveScopeRefs(env, s, refs, []);
      && Unique(o.server) && o.server == s.(scopes := o.server.scopes) && ScopesAdded(env, s, o.server, refs)
      && (o.Err? <==> AnyUnknown(o.server, refs)) && (o.Err? ==> o.failure == Conflict)
      && (o.Ok? ==>
            && NoRepeats(o.value) && WantedHeld(o.server, refs)
            && forall y :: y in o.value <==> Selected(o.server, refs, y))
  {
    hide Unique, Selected, AnyUnknown, ValidEnv, Wanted, ResolveScopeRefs;
    ResolveCreatesMissing(env, s, refs, []);
    ResolvesExactly(env, s, refs, []);
  }

  /** A refusal before the body's scopes are looked at. */
  function Refusal(s: Server, b: ResourceBody): Option<Failure> {
    if b.owner then Some(ServerError)
    else if b.name == None then Some(Conflict)
    else if b.name.value in ResourceNames(s.resources) then Some(NameTaken)
    else None
  }

  /** A create stores what was sent, over the row of that id or at the end; a held row's
      attributes stay when none were sent. */
  ghost predicate ResourceCreated(env: Env, s: Server, t: Server, b: ResourceBody, x: Resource) {
    && CarriesBody(t, x, b)
    && (if b.id != "" then x.id == b.id else x.id != "" && x.id !in UsedIds(s, env))
    && (forall i: nat | b.id != "" && ResourceHeld(s, b.id, i) ::
          && t.resources == s.resources[i := x]
          && x.attributes == match b.attributes case Some(a) => a case None => s.resources[i].attributes)
    && ((b.id == "" || forall i: nat :: !ResourceHeld(s, b.id, i)) ==>
          && t.resources == s.resources + [x]
          && x.attributes == match b.attributes case Some(a) => a case None => map[])
  }

  /** Refused before anything is looked up; or, its missing scopes created, for an unknown
      scope id or for an id another resource server has; and otherwise stored. */
  lemma CreateResourceEffect(env: Env, s: Server, b: ResourceBody)
    requires ValidEnv(env) && Unique(s)
    ensures
      var o := DoCreateResource(env, s, b);
      && o.server == s.(scopes := o.server.scopes, resources := o.server.resources)
      && (Refusal(s, b).Some? ==> o == Err(s, Refusal(s, b).value))
      && (Refusal(s, b) == None ==>
            && ScopesAdded(env, s, o.server, b.ScopeRefs())
            && (o.Err? <==> AnyUnknown(o.server, b.ScopeRefs())
                            || (b.id != "" && b.id in env.foreign && b.id !in ResourceIds(s.resources)))
            && (o.Err? ==> o.failure == Conflict && o.server.resources == s.resources)
            && (o.Ok? ==> exists x: Resource :: x.id == o.value && ResourceCreated(env, s, o.server, b, x)))
  {
    hide *;
    if Refusal(s, b).Some? {
      CreateRefused(env, s, b);
    } else {
      var refs := b.ScopeRefs();
      Resolved(env, s, refs);
      var r := ResolveScopeRefs(env, s, refs, []);
      CreateStores(env, s, b, r);
      AddedKeeps(env, s, r.server, refs);
      if r.Ok? { StoredAsSent(env, s, b, r.server, r.value); }
      SameScopes(env, s, r.server, DoCreateResource(env, s, b).server, refs);
    }
  }

  lemma AddedKeeps(env: Env, s: Server, t: Server, refs: seq<ScopeRef>)
    requires ScopesAdded(env, s, t, refs)
    ensures s.scopes <= t.scopes
  {
  }

  lemma SameScopes(env: Env, s: Server, t: Server, u: Server, refs: seq<ScopeRef>)
    requires t.scopes == u.scopes
    ensures AnyUnknown(t, refs) <==> AnyUnknown(u, refs)
    ensures ScopesAdded(env, s, t, refs) <==> ScopesAdded(env, s, u, refs)
  {
    forall ref ensures Unknown(t, ref) <==> Unknown(u, ref) {}
    hide Unknown, Wanted, Bare;
  }

  lemma CreateRefused(env: Env, s: Server, b: ResourceBody)
    requires Refusal(s, b).Some?
    ensures DoCreateResource(env, s, b) == Err(s, Refusal(s, b).value)
  {
    hide ResolveScopeRefs;
  }

  /** The row a create stores once its scopes are resolved. */
  function Sent(env: Env, t: Server, b: ResourceBody, scopes: seq<string>): Resource
    requires b.name.Some?
  {
    var i := if b.id == "" then -1 else Find(ResourceIds(t.resources), b.id);
    var attributes := match b.attributes
      case Some(a) => a
      case None => if i >= 0 then t.resources[i].attributes else map[];
    ResourceOf(if b.id == "" then env.newId(UsedIds(t, env)) else b.id, b.name.value, b, attributes, scopes)
  }

  lemma CreateStores(env: Env, s: Server, b: ResourceBody, r: Outcome<seq<string>>)
    requires Refusal(s, b) == None && r == ResolveScopeRefs(env, s, b.ScopeRefs(), [])
    ensures b.name.Some?
    ensures r.Err? ==> DoCreateResource(env, s, b) == Err(r.server, r.failure)
    ensures r.Ok? ==>
      var t, x := r.server, Sent(env, r.server, b, r.value);
      var held := b.id != "" && b.id in ResourceIds(t.resources);
      DoCreateResource(env, s, b) == match (if held then PutResource(t, x) else AddResource(env, t, x))
                                     case None => Err(t, Conflict)
                                     case Some(u) => Ok(u, x.id)
  {
    hide ResolveScopeRefs, PutResource, AddResource, UsedIds;
  }

  lemma StoredAsSent(env: Env, s: Server, b: ResourceBody, t: Server, scopes: seq<string>)
    requires ValidEnv(env) && Unique(s) && Unique(t) && t == s.(scopes := t.scopes)
    requires Refusal(s, b) == None && b.name.Some?
    requires s.scopes <= t.scopes && NoRepeats(scopes) && WantedHeld(t, b.ScopeRefs())
    requires forall y :: y in scopes <==> Selected(t, b.ScopeRefs(), y)
    ensures
      var x := Sent(env, t, b, scopes);
      var held := b.id != "" && b.id in ResourceIds(t.resources);
      var u := if held then PutResource(t, x) else AddResource(env, t, x);
      && (u == None <==> b.id != "" && b.id in env.foreign && b.id !in ResourceIds(s.resources))
      && (u.Some? ==> u.value == t.(resources := u.value.resources) && ResourceCreated(env, s, u.value, b, x))
  {
    var x := Sent(env, t, b, scopes);
    ResourceRows(s);
    UsedGrow(env, s, t);
    SentCarries(env, t, b, scopes);
    var i := Find(ResourceIds(s.resources), b.id);
    if i >= 0 { FindUnique(ResourceIds(s.resources), i); }
    hide Unique, Selected, WantedHeld, UsedIds, NoRepeats, CarriesBody, ResourceOf, Find;
    var held := b.id != "" && b.id in ResourceIds(t.resources);
    var u := if held then PutResource(t, x) else AddResource(env, t, x);
    if u.Some? { CarriesSame(t, u.value, x, b); }
  }

  lemma UsedGrow(env: Env, s: Server, t: Server)
    requires ValidEnv(env) && t == s.(scopes := t.scopes) && s.scopes <= t.scopes
    ensures UsedIds(s, env) <= UsedIds(t, env)
    ensures
      var id := env.newId(UsedIds(t, env));
      id != "" && id !in UsedIds(t, env) && id !in env.foreign && id !in ResourceIds(t.resources)
  {
    forall x | x in ScopeIds(s.scopes) ensures x in ScopeIds(t.scopes) {
      var i :| 0 <= i < |s.scopes| && ScopeIds(s.scopes)[i] == x;
      assert ScopeIds(t.scopes)[i] == x;
    }
  }

  lemma SentCarries(env: Env, t: Server, b: ResourceBody, scopes: seq<string>)
    requires b.name.Some? && NoRepeats(scopes) && WantedHeld(t, b.ScopeRefs())
    requires forall y :: y in scopes <==> Selected(t, b.ScopeRefs(), y)
    ensures CarriesBody(t, Sent(env, t, b, scopes), b)
  {
    hide Selected, Find, WantedHeld;
  }

  lemma CarriesSame(t: Server, u: Server, x: Resource, b: ResourceBody)
    requires CarriesBody(t, x, b) && u.scopes == t.scopes
    ensures CarriesBody(u, x, b)
  {
    forall y ensures Selected(t, b.ScopeRefs(), y) <==> Selected(u, b.ScopeRefs(), y) {
      forall ref ensures Selects(t, ref, y) <==> Selects(u, ref, y) {
        assert forall k: nat :: ScopeHeld(t, ref.name, k) <==> ScopeHeld(u, ref.name, k);
      }
    }
    hide Selects, Wanted;
  }

  /** Row `i` is replaced by what was sent, its id kept, and its attributes too when none
      were sent. */
  ghost predicate ResourceReplaced(s: Server, t: Server, b: ResourceBody, i: nat, x: Resource) {
    && i < |s.resources| && CarriesBody(t, x, b) && x.id == s.resources[i].id && t.resources == s.resources[i := x]
    && x.attributes == match b.attributes case Some(a) => a case None => s.resources[i].attributes
  }

  /** An update is refused for an unknown row, without a name or with an owner; or, its
      missing scopes created, for an unknown scope id or a name another row holds; and
      otherwise replaces the path's row. */
  lemma UpdateResourceEffect(env: Env, s: Server, id: string, b: ResourceBody)
    requires ValidEnv(env) && Unique(s)
    ensures
      var o := DoUpdateResource(env, s, id, b);
      && o.server == s.(scopes := o.server.scopes, resources := o.server.resources)
      && (o == Err(s, NotFound) <==> forall i: nat :: !ResourceHeld(s, id, i))
      && forall i: nat | ResourceHeld(s, id, i) ::
           if b.name == None || b.owner then o == Err(s, ServerError)
           else
             && ScopesAdded(env, s, o.server, b.ScopeRefs())
             && (o.Err? <==> AnyUnknown(o.server, b.ScopeRefs())
                             || exists j: nat :: j != i && ResourceNamed(s, b.name.value, j))
             && (o.Err? ==> o.failure == Conflict && o.server.resources == s.resources)
             && (o.Ok? ==> o.value == id && exists x :: ResourceReplaced(s, o.server, b, i, x))
  {
    hide *;
    RowsOf(s, id);
    UpdateFirst(env, s, id, b);
    if i: nat :| ResourceHeld(s, id, i) {
      forall j: nat | ResourceHeld(s, id, j) ensures j == i { OneRow(s, id, i, j); }
      if b.name.Some? && !b.owner {
        var refs := b.ScopeRefs();
        Resolved(env, s, refs);
        var r := ResolveScopeRefs(env, s, refs, []);
        AddedKeeps(env, s, r.server, refs);
        UpdateStores(env, s, id, b, i, r);
        if r.Ok? { ReplacedAsSent(s, id, b, i, r.server, r.value); }
        SameScopes(env, s, r.server, DoUpdateResource(env, s, id, b).server, refs);
      }
    }
  }

  lemma RowsOf(s: Server, id: string)
    requires Unique(s)
    ensures id in ResourceIds(s.resources) <==> exists i: nat :: ResourceHeld(s, id, i)
  {
    ResourceRows(s);
  }

  lemma OneRow(s: Server, id: string, i: nat, j: nat)
    requires Unique(s) && ResourceHeld(s, id, i) && ResourceHeld(s, id, j)
    ensures i == j
  {
    ResourceRows(s);
  }

  lemma UpdateFirst(env: Env, s: Server, id: string, b: ResourceBody)
    ensures id !in ResourceIds(s.resources) <==> DoUpdateResource(env, s, id, b) == Err(s, NotFound)
    ensures id in ResourceIds(s.resources) && (b.name == None || b.owner) ==>
      DoUpdateResource(env, s, id, b) == Err(s, ServerError)
  {
    NeverNotFound(env, s, b.ScopeRefs(), []);
    hide ResolveScopeRefs, PutResource;
  }

  lemma {:induction false} NeverNotFound(env: Env, s: Server, refs: seq<ScopeRef>, out: seq<string>)
    ensures var o := ResolveScopeRefs(env, s, refs, out); o.Err? ==> o.failure != NotFound
    decreases |refs|
  {
    if refs != [] {
      var o := ResolveScopeRef(env, s, refs[0]);
      if o.Ok? { NeverNotFound(env, o.server, refs[1..], Append(out, o.value)); }
    }
  }

  function Replacement(was: Resource, b: ResourceBody, scopes: seq<string>): Resource
    requires b.name.Some?
  {
    ResourceOf(was.id, b.name.value, b, match b.attributes case Some(a) => a case None => was.attributes, scopes)
  }

  lemma UpdateStores(env: Env, s: Server, id: string, b: ResourceBody, i: nat, r: Outcome<seq<string>>)
    requires Unique(s) && ResourceHeld(s, id, i) && b.name.Some? && !b.owner
    requires r == ResolveScopeRefs(env, s, b.ScopeRefs(), [])
    ensures r.Err? ==> DoUpdateResource(env, s, id, b) == Err(r.server, r.failure)
    ensures r.Ok? ==>
      DoUpdateResource(env, s, id, b) == match PutResource(r.server, Replacement(s.resources[i], b, r.value))
                                         case None => Err(r.server, Conflict)
                                         case Some(u) => Ok(u, id)
  {
    FindUnique(ResourceIds(s.resources), i);
    hide ResolveScopeRefs, PutResource, Unique;
  }

  lemma ReplacedAsSent(s: Server, id: string, b: ResourceBody, i: nat, t: Server, scopes: seq<string>)
    requires Unique(s) && t == s.(scopes := t.scopes) && ResourceHeld(s, id, i) && b.name.Some?
    requires NoRepeats(scopes) && WantedHeld(t, b.ScopeRefs())
    requires forall y :: y in scopes <==> Selected(t, b.ScopeRefs(), y)
    ensures
      var u := PutResource(t, Replacement(s.resources[i], b, scopes));
      && (u == None <==> exists j: nat :: j != i && ResourceNamed(s, b.name.value, j))
      && (u.Some? ==> u.value == t.(resources := u.value.resources)
                      && ResourceReplaced(s, u.value, b, i, Replacement(s.resources[i], b, scopes)))
  {
    var x := Replacement(s.resources[i], b, scopes);
    ResourceRows(s);
    FindUnique(ResourceIds(s.resources), i);
    ReplacementCarries(t, s.resources[i], b, scopes);
    hide Unique, Selected, WantedHeld, NoRepeats, CarriesBody, ResourceOf, Find, ResourceNames;
    var u := PutResource(t, x);
    if u.Some? { CarriesSame(t, u.value, x, b); }
    assert ResourceNames(t.resources) == ResourceNames(s.resources);
    assert b.name.value != s.resources[i].name && b.name.value in ResourceNames(s.resources)
      <==> exists j: nat :: j != i && ResourceNamed(s, b.name.value, j);
  }

  lemma ReplacementCarries(t: Server, was: Resource, b: ResourceBody, scopes: seq<string>)
    requires b.name.Some? && NoRepeats(scopes) && WantedHeld(t, b.ScopeRefs())
    requires forall y :: y in scopes <==> Selected(t, b.ScopeRefs(), y)
    ensures CarriesBody(t, Replacement(was, b, scopes), b)
  {
    hide Selected, WantedHeld;
  }

  /** A delete takes the row out and nothing else. */
  lemma DeleteResourceEffect(s: Server, id: string)
    requires Unique(s)
    ensures
      var o := DoDeleteResource(s, id);
      && (o == Err(s, NotFound) <==> forall i: nat :: !ResourceHeld(s, id, i))
      && forall i: nat | ResourceHeld(s, id, i) ::
           o == Ok(s.(resources := s.resources[..i] + s.resources[i + 1..]), id)
  {
    ResourceRows(s);
    hide Unique;
  }
}
