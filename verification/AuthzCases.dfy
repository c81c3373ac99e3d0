/** Requests and realms in which the conditions of the theorems about a resource
    server's settings fail, and the start of its runs. */
module AuthzCases {
  import opened Basics
  import opened AuthzModel
  import opened AuthzConfig
  import opened AuthzImport
  import opened AuthzRoundTrip
  import opened AuthzPolicies
  import W = AuthzWrites

  // ----- where runs start -----

  const EMPTY := Server(DEFAULT_SETTINGS, [], [], [])

  lemma EmptyIsStored()
    ensures Stored(EMPTY)
  {
  }

  lemma {:induction false} LongString(used: set<string>) returns (x: string)
    ensures x != "" && forall y | y in used :: |y| < |x|
    decreases used
  {
    if used == {} {
      x := "x";
    } else {
      var y :| y in used;
      var rest := LongString(used - {y});
      x := rest + y + "x";
      forall z | z in used ensures |z| < |x| { if z != y { assert z in used - {y}; } }
    }
  }

  lemma NewExists(used: set<string>)
    ensures exists x: string :: x !in used && x != ""
  {
    var x := LongString(used);
    assert x !in used;
  }

  ghost function New(used: set<string>): (x: string)
    ensures x !in used && x != ""
  {
    NewExists(used);
    var x: string :| x !in used && x != "";
    x
  }

  /** The assumptions on the environment can be met. */
  lemma EnvExists() returns (env: Env)
    ensures ValidEnv(env) && env.foreign == {}
  {
    env := Env(used => New(used), {}, keys => keys);
  }

  // ----- an association that outlives its target -----

  const SCOPE := W.ScopeBody("s1", Some("read"), "", "")

  const POLICY := PolicyBody(Some("p1"), Some("may read"), "", Some("scope"), EnumField.Absent, EnumField.Absent, "",
                             None, None, None, Some(["s1"]))

  const KEPT := Policy("p1", "may read", "", "scope", "POSITIVE", "UNANIMOUS", "", [], [], [], ["s1"])

  function Requests(env: Env, realm: Realm): seq<Request> {
    [Request(env, realm, Op.Write(W.CreateScope(SCOPE))), Request(env, realm, Op.CreatePolicy(POLICY)),
     Request(env, realm, Op.Write(W.DeleteScope("s1")))]
  }

  lemma RunUnfolds(s: Server, r: Request, rest: seq<Request>)
    ensures Run(s, [r] + rest) == Run(Step(r.env, r.realm, s, r.op), rest) && Run(s, []) == s
  {
    hide Step;
    assert ([r] + rest)[0] == r && ([r] + rest)[1..] == rest;
  }

  lemma ScopeMade(env: Env, realm: Realm)
    requires env.foreign == {}
    ensures Step(env, realm, EMPTY, Op.Write(W.CreateScope(SCOPE))) == EMPTY.(scopes := [Scope("s1", "read", "", "")])
  {
  }

  lemma PolicyMade(env: Env, realm: Realm)
    requires env.foreign == {}
    ensures
      var s := EMPTY.(scopes := [Scope("s1", "read", "", "")]);
      Step(env, realm, s, Op.CreatePolicy(POLICY)) == s.(policies := [KEPT])
  {
    OneScopeResolves(EMPTY.(scopes := [Scope("s1", "read", "", "")]));
    hide ResolveRefs, FirstNamed;
    assert PolicyIds([]) == [] && PolicyNames([]) == [];
  }

  lemma OneScopeResolves(s: Server)
    requires s.scopes == [Scope("s1", "read", "", "")]
    ensures ResolveRefs(s, OfScope, ["s1"]) == Some(["s1"])
  {
    assert TargetIds(s, OfScope) == ["s1"] && TargetNames(s, OfScope) == ["read"];
    assert FirstNamed(["s1"], ["read"], "s1") == 0;
    assert ["s1"][1..] == [] && ["s1"] + [] == ["s1"];
    assert ResolveRefs(s, OfScope, []) == Some([]);
  }

  lemma ScopeGone(env: Env, realm: Realm)
    ensures
      var s := EMPTY.(scopes := [Scope("s1", "read", "", "")], policies := [KEPT]);
      Step(env, realm, s, Op.Write(W.DeleteScope("s1"))) == EMPTY.(policies := [KEPT])
  {
    var s := EMPTY.(scopes := [Scope("s1", "read", "", "")], policies := [KEPT]);
    assert ScopeIds(s.scopes) == ["s1"];
    assert Find(["s1"], "s1") == 0;
    assert s.scopes[..0] + s.scopes[1..] == [];
  }

  /** A scope, a policy on it, and the scope deleted: the settings export fails. */
  lemma GoneScopeSpoilsExport(env: Env, realm: Realm)
    requires ValidEnv(env) && env.foreign == {}
    ensures var s := Run(EMPTY, Requests(env, realm));
      Stored(s) && s == EMPTY.(policies := [KEPT]) && Export(env, realm, s) == None
  {
    hide *;
    var rs := Requests(env, realm);
    RequestsAre(env, realm);
    ScopeMade(env, realm);
    PolicyMade(env, realm);
    ScopeGone(env, realm);
    RunUnfolds(EMPTY, rs[0], [rs[1], rs[2]]);
    RunUnfolds(EMPTY.(scopes := [Scope("s1", "read", "", "")]), rs[1], [rs[2]]);
    RunUnfolds(EMPTY.(scopes := [Scope("s1", "read", "", "")], policies := [KEPT]), rs[2], []);
    RunUnfolds(EMPTY.(policies := [KEPT]), rs[0], []);
    EmptyIsStored();
    RunKeepsStored(EMPTY, rs);
    KeptDangles();
    ExportSucceeds(env, realm, EMPTY.(policies := [KEPT]));
    assert KEPT in [KEPT];
  }

  lemma RequestsAre(env: Env, realm: Realm)
    requires ValidEnv(env)
    ensures
      var rs := Requests(env, realm);
      && |rs| == 3 && rs == [rs[0]] + [rs[1], rs[2]] && [rs[1], rs[2]] == [rs[1]] + [rs[2]] && [rs[2]] == [rs[2]] + []
      && (forall r | r in rs :: r.env == env && r.realm == realm && ValidEnv(r.env))
      && rs[0].op == Op.Write(W.CreateScope(SCOPE)) && rs[1].op == Op.CreatePolicy(POLICY)
      && rs[2].op == Op.Write(W.DeleteScope("s1"))
  {
    hide ValidEnv;
  }

  lemma KeptDangles()
    ensures !NoDangling(EMPTY.(policies := [KEPT]), KEPT)
  {
    assert "s1" in AssociationSet(KEPT, OfScope) && "s1" !in TargetIds(EMPTY.(policies := [KEPT]), OfScope);
  }

  // ----- references that are lost -----

  /** A realm with one client role. */
  const REALM := Realm([Role("r1", "c1", "view")], [Client("c1", "app")], [], map[])

  const REFERENCE := Ref("r1", "", true, false)

  /** A role policy may store a client role by its id; the export names it, and the name
      is nobody's: the import drops it. */
  lemma ClientRoleIsLost()
    ensures TidyRealm(REALM) && ResolveRoles(REALM, [REFERENCE]) == [REFERENCE]
    ensures ResolveRoles(REALM, ExportRoles(REALM, [REFERENCE])) == []
  {
    assert RoleIds(REALM.roles) == ["r1"];
    assert ClientIds(REALM.clients) == ["c1"] && ClientNames(REALM.clients) == ["app"];
    assert REALM.roles[1..] == [];
    assert RealmRoleNamed([], "r1") == -1 && RealmRoleNamed([], "view") == -1;
    assert RealmRoleNamed(REALM.roles, "r1") == -1 && RealmRoleNamed(REALM.roles, "view") == -1;
    assert Find(["r1"], "r1") == 0;
    assert ExportRoles(REALM, [REFERENCE]) == [Ref("view", "", true, false)];
    assert ResolveRoles(REALM, []) == [];
  }
}
