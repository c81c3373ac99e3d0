/** What an import, a policy creation and a settings update leave, over the entry sent and
    the tables before and after (internal/admin/authzimport.go:109-152, 617-826,
    authzpolicy.go:782-896, authz.go:313-364), and what the export serves. */
module AuthzImportEffects {
  import opened Basics
  import opened AuthzModel
  import opened AuthzConfig
  import opened AuthzImport
  import opened AuthzResolution
  import opened AuthzEffects
  import opened AuthzPolicies
  import opened AuthzWrites

  // ----- reading a config back -----

  lemma WriteReads(c: Config, key: string, v: Value, k: string)
    ensures ConfigValue(SetConfig(c, key, v), k) == if k == key then Some(v) else ConfigValue(c, k)
  {
    var i := Find(Keys(c), key);
    var d := SetConfig(c, key, v);
    if i < 0 {
      assert Keys(d) == Keys(c) + [key];
      FindAppended(Keys(c), key, k);
    } else {
      assert Keys(d) == Keys(c);
    }
  }

  lemma {:induction false} FindAppended(xs: seq<string>, x: string, k: string)
    ensures Find(xs + [x], k) == if k in xs then Find(xs, k) else if k == x then |xs| else -1
  {
    if xs != [] {
      assert (xs + [x])[1..] == xs[1..] + [x];
      FindAppended(xs[1..], x, k);
    }
  }

  /** `v` is the last value sent under the key. */
  predicate LastSent(entries: Config, k: string, v: Value) {
    exists i :: 0 <= i < |entries| && entries[i] == (k, v) && forall j | i < j < |entries| :: entries[j].0 != k
  }

  /** Every key sent reads back as last sent; every other key as before. */
  lemma {:induction false} WritesRead(c: Config, entries: Config, k: string)
    ensures k !in Keys(entries) ==> ConfigValue(SetAll(c, entries), k) == ConfigValue(c, k)
    ensures forall v | LastSent(entries, k, v) :: ConfigValue(SetAll(c, entries), k) == Some(v)
    decreases |entries|
  {
    hide ConfigValue, SetConfig, LastSent;
    if entries == [] {
      NothingSent(k);
    } else {
      var (key, v) := entries[0];
      var d := SetConfig(c, key, v);
      WriteReads(c, key, v, k);
      WritesRead(d, entries[1..], k);
      assert Keys(entries) == [key] + Keys(entries[1..]);
      forall w | LastSent(entries, k, w) ensures ConfigValue(SetAll(c, entries), k) == Some(w) {
        LastOfFirst(entries, k, w);
      }
    }
  }

  lemma NothingSent(k: string)
    ensures forall v :: !LastSent([], k, v)
  {
  }

  /** The last value sent is the first entry's, or the last sent after it. */
  lemma LastOfFirst(entries: Config, k: string, w: Value)
    requires entries != [] && LastSent(entries, k, w)
    ensures LastSent(entries[1..], k, w) || (entries[0] == (k, w) && k !in Keys(entries[1..]))
  {
    var i :| 0 <= i < |entries| && entries[i] == (k, w) && forall j | i < j < |entries| :: entries[j].0 != k;
    var rest := entries[1..];
    if i > 0 {
      assert rest[i - 1] == (k, w);
    } else {
      forall j | 0 <= j < |rest| ensures Keys(rest)[j] != k { assert entries[j + 1].0 != k; }
    }
  }

  lemma {:induction false} PlainReads(c: Config, k: string)
    ensures ConfigValue(PlainPart(c), k) == if KindOfKey(k).Some? then None else ConfigValue(c, k)
  {
    hide KindOfKey;
    if c == [] {
      assert Keys(c) == [];
    } else {
      PlainReads(c[1..], k);
      assert Keys(c) == [c[0].0] + Keys(c[1..]);
      ReadFirst(c, k);
      if KindOfKey(c[0].0) == None {
        assert PlainPart(c)[1..] == PlainPart(c[1..]);
        ReadFirst(PlainPart(c), k);
      } else {
        assert PlainPart(c) == PlainPart(c[1..]);
      }
    }
  }

  lemma ReadFirst(c: Config, k: string)
    requires c != []
    ensures ConfigValue(c, k) == if c[0].0 == k then Some(c[0].1) else ConfigValue(c[1..], k)
  {
    assert Keys(c) == [c[0].0] + Keys(c[1..]);
    assert Keys(c)[1..] == Keys(c[1..]);
  }

  // ----- normalisation -----

  /** What the provider reads under its own key: nothing sent is an empty array. */
  function OwnValue(c: Config, key: string): Value {
    match ConfigValue(c, key) case None => EmptyArray case Some(v) => v
  }

  /** How a key of the normalised config reads. */
  function Reads(realm: Realm, kind: string, c: Config, k: string): Option<Value> {
    if KindOfKey(k).Some? then None
    else if DefaultKey(kind) == Some(k) then ImportValue(realm, kind, OwnValue(c, k))
    else ConfigValue(c, k)
  }

  /** The provider cannot take its own value. */
  predicate OwnRefused(realm: Realm, kind: string, c: Config) {
    DefaultKey(kind).Some? && ImportValue(realm, kind, OwnValue(c, DefaultKey(kind).value)) == None
  }

  /** `q` is `p` normalised: the associations its config asks for have joined the sets,
      their keys are gone, its own key is resolved and every other key reads as before. */
  ghost predicate NormalisedTo(realm: Realm, s: Server, p: Policy, q: Policy) {
    && q == p.(config := q.config, policies := q.policies, resources := q.resources, scopes := q.scopes)
    && (forall kind, x :: Gained(s, p, p.config, q, kind, x)) && (forall kind :: Keeps(p, q, kind))
    && forall k :: ConfigValue(q.config, k) == Reads(realm, p.kind, p.config, k)
  }

  /** The first entry that is faulty decides the failure: one that cannot be read is a bad
      request, an unknown target a server error. */
  ghost predicate FailsFirst(s: Server, c: Config, f: Failure) {
    exists i :: 0 <= i < |c| && FaultyAt(s, c, i) && (forall j | 0 <= j < i :: !Faulty(s, c[j]))
                && f == if ParseNames(c[i].1) == None then BadRequest else ServerError
  }

  predicate FaultyAt(s: Server, c: Config, i: nat) {
    i < |c| && Faulty(s, c[i])
  }

  /** What a config that cannot be used is answered. */
  ghost predicate FailsAs(s: Server, kind: string, c: Config, f: Failure) {
    if FaultyIn(s, c) then FailsFirst(s, c, f)
    else f == if kind == "client" && ParseNames(OwnValue(c, "clients")).Some? then ServerError else BadRequest
  }

  lemma {:induction false} ConsumeFails(s: Server, p: Policy, c: Config, kept: Config)
    requires Consume(s, p, c, kept).Bad?
    ensures FailsFirst(s, c, Consume(s, p, c, kept).failure)
    decreases |c|
  {
    hide KindOfKey, ParseNames, ResolveTargets, AddAll, Faulty;
    if c != [] {
      FaultyIs(s, c[0]);
      if FaultyAt(s, c, 0) {
      } else {
        var f := Consume(s, p, c, kept).failure;
        match KindOfKey(c[0].0) {
          case None => ConsumeFails(s, p, c[1..], kept + [c[0]]);
          case Some(kind) =>
            ConsumeFails(s, AddAll(p, kind, ResolveTargets(s, kind, ParseNames(c[0].1).value).value), c[1..], kept);
        }
        FailsLater(s, c, f);
      }
    }
  }

  lemma FailsLater(s: Server, c: Config, f: Failure)
    requires c != [] && !FaultyAt(s, c, 0) && FailsFirst(s, c[1..], f)
    ensures FailsFirst(s, c, f)
  {
    hide ParseNames, Faulty;
    var i :| 0 <= i < |c[1..]| && FaultyAt(s, c[1..], i) && (forall j | 0 <= j < i :: !Faulty(s, c[1..][j]))
             && f == if ParseNames(c[1..][i].1) == None then BadRequest else ServerError;
    assert FaultyAt(s, c, i + 1) && c[i + 1] == c[1..][i];
    forall j | 0 <= j < i + 1 ensures !Faulty(s, c[j]) { if j > 0 { assert c[j] == c[1..][j - 1]; } }
  }

  lemma NormaliseExactly(realm: Realm, s: Server, p: Policy)
    ensures
      var n := Normalise(realm, s, p);
      && (n.Bad? <==> FaultyIn(s, p.config) || OwnRefused(realm, p.kind, p.config))
      && (n.Bad? ==> FailsAs(s, p.kind, p.config, n.failure))
      && (n.Done? ==> NormalisedTo(realm, s, p, n.policy))
  {
    hide FaultyIn, ConsumedTo, Consume, ResolveOwnKey, OwnRefused, NormalisedTo, FailsFirst;
    ConsumeIs(s, p, p.config, []);
    var c := Consume(s, p, p.config, []);
    if c.Bad? {
      ConsumeFails(s, p, p.config, []);
    } else {
      ConsumedKind(s, p, c.policy);
      assert Normalise(realm, s, p) == ResolveOwnKey(realm, c.policy);
      OwnKeyExactly(realm, s, p, c.policy);
    }
  }

  lemma ConsumedKind(s: Server, p: Policy, m: Policy)
    requires ConsumedTo(s, p, p.config, [], m)
    ensures m.kind == p.kind && m.config == PlainPart(p.config)
  {
    assert [] + PlainPart(p.config) == PlainPart(p.config);
  }

  lemma OwnKeyIsPlain(kind: string)
    ensures DefaultKey(kind).Some? ==> KindOfKey(DefaultKey(kind).value) == None
    ensures kind == "client" ==> DefaultKey(kind) == Some("clients")
  {
  }

  lemma OwnKeyExactly(realm: Realm, s: Server, p: Policy, m: Policy)
    requires ConsumedTo(s, p, p.config, [], m) && m.kind == p.kind && m.config == PlainPart(p.config)
    ensures
      var n := ResolveOwnKey(realm, m);
      && (n.Bad? <==> OwnRefused(realm, p.kind, p.config))
      && (n.Bad? ==>
            var lost := p.kind == "client" && ParseNames(OwnValue(p.config, "clients")).Some?;
            n.failure == if lost then ServerError else BadRequest)
      && (n.Done? ==> NormalisedTo(realm, s, p, n.policy))
  {
    hide KindOfKey, DefaultKey, ConfigValue, SetConfig, PlainPart, ImportValue, ParseNames;
    OwnKeyIsPlain(p.kind);
    forall k ensures ConfigValue(m.config, k) == if KindOfKey(k).Some? then None else ConfigValue(p.config, k) {
      PlainReads(p.config, k);
    }
    var n := ResolveOwnKey(realm, m);
    if DefaultKey(p.kind).Some? {
      var key := DefaultKey(p.kind).value;
      var c := if ConfigValue(m.config, key).Some? then m.config else SetConfig(m.config, key, EmptyArray);
      WriteReads(m.config, key, EmptyArray, key);
      assert ConfigValue(c, key) == Some(OwnValue(p.config, key));
      if n.Done? {
        var w := ImportValue(realm, p.kind, OwnValue(p.config, key)).value;
        forall k ensures ConfigValue(n.policy.config, k) == Reads(realm, p.kind, p.config, k) {
          WriteReads(c, key, w, k);
          WriteReads(m.config, key, EmptyArray, k);
        }
        SameSets(s, p, m, n.policy);
      }
    } else {
      SameSets(s, p, m, m);
    }
  }

  lemma SameSets(s: Server, p: Policy, m: Policy, q: Policy)
    requires ConsumedTo(s, p, p.config, [], m) && q == m.(config := q.config)
    ensures q == p.(config := q.config, policies := q.policies, resources := q.resources, scopes := q.scopes)
    ensures (forall kind, x :: Gained(s, p, p.config, q, kind, x)) && forall kind :: Keeps(p, q, kind)
  {
    hide AskedIn, PlainPart;
    forall kind, x ensures Gained(s, p, p.config, q, kind, x) { assert Gained(s, p, p.config, m, kind, x); }
    forall kind ensures Keeps(p, q, kind) { assert Keeps(p, m, kind); }
  }

  // ----- rows without repeats stay so -----

  lemma WriteNoRepeats(c: Config, key: string, v: Value)
    requires NoRepeats(Keys(c))
    ensures NoRepeats(Keys(SetConfig(c, key, v)))
    ensures forall k :: k in Keys(SetConfig(c, key, v)) <==> k in Keys(c) || k == key
  {
    var i := Find(Keys(c), key);
    if i < 0 {
      assert Keys(SetConfig(c, key, v)) == Keys(c) + [key];
    } else {
      assert Keys(SetConfig(c, key, v)) == Keys(c);
    }
  }

  lemma {:induction false} WritesNoRepeats(c: Config, entries: Config)
    requires NoRepeats(Keys(c))
    ensures NoRepeats(Keys(SetAll(c, entries)))
    decreases |entries|
  {
    hide NoRepeats, Keys, SetConfig;
    if entries != [] {
      WriteNoRepeats(c, entries[0].0, entries[0].1);
      WritesNoRepeats(SetConfig(c, entries[0].0, entries[0].1), entries[1..]);
    }
  }

  lemma {:induction false} PlainNoRepeats(c: Config)
    requires NoRepeats(Keys(c))
    ensures NoRepeats(Keys(PlainPart(c))) && forall k | k in Keys(PlainPart(c)) :: k in Keys(c)
  {
    hide KindOfKey;
    if c == [] {
      assert Keys(PlainPart(c)) == [];
    } else {
      assert Keys(c) == [c[0].0] + Keys(c[1..]);
      FirstDiffers(c[0].0, Keys(c[1..]));
      PlainNoRepeats(c[1..]);
      if KindOfKey(c[0].0) == None {
        assert Keys(PlainPart(c)) == [c[0].0] + Keys(PlainPart(c[1..]));
      } else {
        assert PlainPart(c) == PlainPart(c[1..]);
      }
    }
  }

  lemma {:induction false} AddAllNoRepeats(p: Policy, kind: Kind, ids: seq<string>)
    requires SetsNoRepeats(p)
    ensures SetsNoRepeats(AddAll(p, kind, ids))
    decreases |ids|
  {
    if ids != [] {
      AddAllNoRepeats(if ids[0] in AssociationSet(p, kind) then p else AddAssociation(p, kind, ids[0]), kind, ids[1..]);
    }
  }

  predicate SetsNoRepeats(p: Policy) {
    NoRepeats(p.policies) && NoRepeats(p.resources) && NoRepeats(p.scopes)
  }

  lemma {:induction false} ConsumeNoRepeats(s: Server, p: Policy, c: Config, kept: Config)
    requires SetsNoRepeats(p) && Consume(s, p, c, kept).Done?
    ensures SetsNoRepeats(Consume(s, p, c, kept).policy)
    decreases |c|
  {
    hide KindOfKey, ParseNames, ResolveTargets, AddAll, NoRepeats;
    if c != [] {
      match KindOfKey(c[0].0)
      case None => ConsumeNoRepeats(s, p, c[1..], kept + [c[0]]);
      case Some(kind) =>
        var ids := ResolveTargets(s, kind, ParseNames(c[0].1).value).value;
        AddAllNoRepeats(p, kind, ids);
        ConsumeNoRepeats(s, AddAll(p, kind, ids), c[1..], kept);
    }
  }

  /** Normalising a row without repeats gives one. */
  lemma NormaliseStorable(realm: Realm, s: Server, p: Policy)
    requires Storable(p) && Normalise(realm, s, p).Done?
    ensures Storable(Normalise(realm, s, p).policy)
  {
    hide Consume, NoRepeats, Keys, KindOfKey, ImportValue, ConfigValue, SetConfig, DefaultKey, PlainPart, ConsumedTo;
    ConsumeIs(s, p, p.config, []);
    ConsumeNoRepeats(s, p, p.config, []);
    PlainNoRepeats(p.config);
    var m := Consume(s, p, p.config, []).policy;
    ConsumedKind(s, p, m);
    var q := Normalise(realm, s, p).policy;
    if DefaultKey(m.kind).Some? {
      var key := DefaultKey(m.kind).value;
      WriteNoRepeats(m.config, key, EmptyArray);
      var c := if ConfigValue(m.config, key).Some? then m.config else SetConfig(m.config, key, EmptyArray);
      if ConfigValue(c, key).Some? && ImportValue(realm, m.kind, ConfigValue(c, key).value).Some? {
        WriteNoRepeats(c, key, ImportValue(realm, m.kind, ConfigValue(c, key).value).value);
      }
    }
  }

  // ----- one entry of an import -----

  /** One scope is added: as sent, under the id sent or a new one. */
  ghost predicate ScopeImported(env: Env, s: Server, t: Server, e: ScopeEntry, id: string) {
    && (if e.id != "" then id == e.id else id != "" && id !in UsedIds(s, env))
    && ScopeStored(s, t, None, Scope(id, e.name, e.iconUri, e.displayName))
  }

  /** A scope entry without a name is skipped; over a held name it takes the icon and the
      display name; otherwise it is added, or refused for an id in use. */
  lemma ImportScopeEffect(env: Env, s: Server, e: ScopeEntry)
    requires ValidEnv(env) && Unique(s)
    ensures
      var o := ImportScope(env, s, e);
      && (e.name == "" ==> o == Ok(s, ()))
      && (e.name != "" ==>
            && (forall i: nat | ScopeHeld(s, e.name, i) ::
                  o.Ok? && ScopeStored(s, o.server, Some(i), Scope(s.scopes[i].id, e.name, e.iconUri, e.displayName)))
            && ((forall i: nat :: !ScopeHeld(s, e.name, i)) ==>
                  && (o.Err? <==> e.id != "" && (e.id in env.foreign || e.id in ScopeIds(s.scopes)))
                  && (o.Err? ==> o == Err(s, ServerError))
                  && (o.Ok? ==> exists id :: ScopeImported(env, s, o.server, e, id))))
  {
    ScopeRows(s);
    var i := Find(ScopeNames(s.scopes), e.name);
    if i >= 0 { assert ScopeHeld(s, e.name, i); }
    hide Find, Unique;
    var id := if e.id != "" then e.id else env.newId(UsedIds(s, env));
    if e.name != "" && i < 0 && ImportScope(env, s, e).Ok? {
      assert ScopeImported(env, s, ImportScope(env, s, e).server, e, id);
    }
  }

  function RefsOf(e: ResourceEntry): seq<ScopeRef> {
    match e.resourceScopes case Some(refs) => refs case None => e.scopes
  }

  ghost predicate CarriesEntry(t: Server, x: Resource, e: ResourceEntry) {
    && Carries(t, x, e.name, e.displayName, e.kind, e.iconUri, e.ownerManaged, e.uris, e.uri, RefsOf(e))
    && x.attributes == match e.attributes case Some(a) => a case None => map[]
  }

  /** The resource of that name is rewritten, its id kept, or one is added. */
  ghost predicate ResourceImported(env: Env, s: Server, t: Server, e: ResourceEntry, x: Resource) {
    && CarriesEntry(t, x, e)
    && (forall i: nat | ResourceNamed(s, e.name, i) :: x.id == s.resources[i].id && t.resources == s.resources[i := x])
    && ((forall i: nat :: !ResourceNamed(s, e.name, i)) ==>
          && (if e.id != "" then x.id == e.id else x.id != "" && x.id !in UsedIds(s, env))
          && t.resources == s.resources + [x])
  }

  lemma ImportResourceEffect(env: Env, s: Server, e: ResourceEntry)
    requires ValidEnv(env) && Unique(s)
    ensures
      var o := ImportResource(env, s, e);
      && o.server == s.(scopes := o.server.scopes, resources := o.server.resources)
      && (e.name == "" ==> o == Ok(s, ()))
      && (e.name != "" ==>
            && ScopesAdded(env, s, o.server, RefsOf(e))
            && (o.Err? <==> AnyUnknown(o.server, RefsOf(e))
                            || ((forall i: nat :: !ResourceNamed(s, e.name, i)) && e.id != ""
                                && (e.id in env.foreign || e.id in ResourceIds(s.resources))))
            && (o.Err? ==> o.server.resources == s.resources)
            && (o.Ok? ==> exists x :: ResourceImported(env, s, o.server, e, x)))
  {
    hide *;
    if e.name != "" {
      var refs := RefsOf(e);
      Resolved(env, s, refs);
      var r := ResolveScopeRefs(env, s, refs, []);
      AddedKeeps(env, s, r.server, refs);
      EntryStores(env, s, e, r);
      if r.Ok? { StoredAsEntered(env, s, e, r.server, r.value); }
      SameScopes(env, s, r.server, ImportResource(env, s, e).server, refs);
    } else {
      UnnamedResource(env, s, e);
    }
  }

  lemma UnnamedResource(env: Env, s: Server, e: ResourceEntry)
    requires e.name == ""
    ensures ImportResource(env, s, e) == Ok(s, ())
  {
  }

  function Entered(env: Env, t: Server, e: ResourceEntry, scopes: seq<string>): Resource {
    var i := Find(ResourceNames(t.resources), e.name);
    Resource(if i >= 0 then t.resources[i].id else if e.id != "" then e.id else env.newId(UsedIds(t, env)),
             e.name, e.displayName, e.kind, e.iconUri, e.ownerManaged, UrisOf(e.uris, e.uri),
             match e.attributes case Some(a) => a case None => map[], scopes)
  }

  function PutEntered(env: Env, t: Server, x: Resource): Option<Server> {
    var i := Find(ResourceNames(t.resources), x.name);
    if i >= 0 then Some(t.(resources := t.resources[i := x])) else AddResource(env, t, x)
  }

  lemma EntryStores(env: Env, s: Server, e: ResourceEntry, r: Outcome<seq<string>>)
    requires e.name != "" && r == ResolveScopeRefs(env, s, RefsOf(e), [])
    ensures r.Err? ==> ImportResource(env, s, e) == Err(r.server, r.failure)
    ensures r.Ok? ==>
      ImportResource(env, s, e) == match PutEntered(env, r.server, Entered(env, r.server, e, r.value))
                                   case None => Err(r.server, ServerError)
                                   case Some(u) => Ok(u, ())
  {
    hide ResolveScopeRefs, AddResource, UsedIds;
  }

  lemma StoredAsEntered(env: Env, s: Server, e: ResourceEntry, t: Server, scopes: seq<string>)
    requires ValidEnv(env) && Unique(s) && Unique(t) && t == s.(scopes := t.scopes) && e.name != ""
    requires s.scopes <= t.scopes && NoRepeats(scopes) && WantedHeld(t, RefsOf(e))
    requires forall y :: y in scopes <==> Selected(t, RefsOf(e), y)
    ensures
      var x := Entered(env, t, e, scopes);
      var u := PutEntered(env, t, x);
      && (u == None <==> (forall i: nat :: !ResourceNamed(s, e.name, i)) && e.id != ""
                         && (e.id in env.foreign || e.id in ResourceIds(s.resources)))
      && (u.Some? ==> u.value == t.(resources := u.value.resources) && ResourceImported(env, s, u.value, e, x))
  {
    var x := Entered(env, t, e, scopes);
    ResourceRows(s);
    UsedGrow(env, s, t);
    EnteredCarries(env, t, e, scopes);
    hide Unique, Selected, WantedHeld, UsedIds, NoRepeats, CarriesEntry, Find, UrisOf;
    var u := PutEntered(env, t, x);
    if u.Some? { EntrySame(t, u.value, x, e); }
    var i := Find(ResourceNames(t.resources), e.name);
    if i >= 0 { assert ResourceNamed(s, e.name, i); }
  }

  lemma EnteredCarries(env: Env, t: Server, e: ResourceEntry, scopes: seq<string>)
    requires NoRepeats(scopes) && WantedHeld(t, RefsOf(e))
    requires forall y :: y in scopes <==> Selected(t, RefsOf(e), y)
    ensures CarriesEntry(t, Entered(env, t, e, scopes), e)
  {
    hide Selected, Find, WantedHeld;
  }

  lemma EntrySame(t: Server, u: Server, x: Resource, e: ResourceEntry)
    requires CarriesEntry(t, x, e) && u.scopes == t.scopes
    ensures CarriesEntry(u, x, e)
  {
    SelectedSame(t, u, RefsOf(e));
    hide Selected, Wanted;
  }

  lemma SelectedSame(t: Server, u: Server, refs: seq<ScopeRef>)
    requires u.scopes == t.scopes
    ensures forall y :: Selected(t, refs, y) <==> Selected(u, refs, y)
  {
    forall ref, y ensures Selects(t, ref, y) <==> Selects(u, ref, y) {
      assert forall k: nat :: ScopeHeld(t, ref.name, k) <==> ScopeHeld(u, ref.name, k);
    }
    hide Selects;
  }
}
