/** What the settings export serves of every row, in both directions: all that is stored
    and nothing else (internal/admin/authz.go:180-232, authzimport.go:362-545). */
module AuthzServed {
  import opened Basics
  import opened AuthzModel
  import opened AuthzConfig
  import opened AuthzImport
  import opened AuthzRoundTrip
  import opened AuthzPolicies
  import Ordering

  // ----- a policy's config -----

  /** The row of that id has that name. */
  ghost predicate NamedTarget(s: Server, kind: Kind, id: string, name: string) {
    exists k :: 0 <= k < |TargetIds(s, kind)| && TargetIds(s, kind)[k] == id && TargetNames(s, kind)[k] == name
  }

  /** A set that is not empty is served under its kind's key, target by target by name. */
  ghost predicate ServedSet(s: Server, p: Policy, kind: Kind, e: (string, Value)) {
    && AssociationSet(p, kind) != [] && e.0 == AssociationKey(kind)
    && e.1.Names? && |e.1.names| == |AssociationSet(p, kind)|
    && forall i | 0 <= i < |e.1.names| :: NamedTarget(s, kind, AssociationSet(p, kind)[i], e.1.names[i])
  }

  /** A stored entry of a key the type's export keeps, its value denormalised. */
  predicate ServedRow(realm: Realm, p: Policy, i: nat, e: (string, Value)) {
    && i < |p.config| && ExportKeeps(p.kind, p.config[i].0) && ExportOf(realm, p.kind, p.config[i], e)
  }

  ghost predicate ServedEntry(realm: Realm, s: Server, p: Policy, e: (string, Value)) {
    (exists i: nat :: ServedRow(realm, p, i, e)) || exists kind :: ServedSet(s, p, kind, e)
  }

  lemma {:induction false} NamesServed(s: Server, kind: Kind, ids: seq<string>)
    requires TargetNamesOf(s, kind, ids).Some?
    ensures
      var names := TargetNamesOf(s, kind, ids).value;
      |names| == |ids| && forall i | 0 <= i < |ids| :: NamedTarget(s, kind, ids[i], names[i])
  {
    if ids != [] {
      NamesServed(s, kind, ids[1..]);
      var k := Find(TargetIds(s, kind), ids[0]);
      assert NamedTarget(s, kind, ids[0], TargetNamesOf(s, kind, ids).value[0]);
    }
  }

  /** The association set of one kind as the export serves it: one entry, or none. */
  function SetServed(s: Server, p: Policy, kind: Kind): Config
    requires TargetNamesOf(s, kind, AssociationSet(p, kind)).Some?
  {
    var names := TargetNamesOf(s, kind, AssociationSet(p, kind)).value;
    if names == [] then [] else [(AssociationKey(kind), OfNames(names))]
  }

  lemma SetServedIs(s: Server, p: Policy, kind: Kind, e: (string, Value))
    requires NoRepeats(TargetIds(s, kind)) && TargetNamesOf(s, kind, AssociationSet(p, kind)).Some?
    ensures e in SetServed(s, p, kind) <==> ServedSet(s, p, kind, e)
  {
    NamesServed(s, kind, AssociationSet(p, kind));
    var names := TargetNamesOf(s, kind, AssociationSet(p, kind)).value;
    if ServedSet(s, p, kind, e) {
      forall i | 0 <= i < |names| ensures names[i] == e.1.names[i] {
        OneName(s, kind, AssociationSet(p, kind)[i], names[i], e.1.names[i]);
      }
      assert e.1.names == names;
    }
  }

  lemma OneName(s: Server, kind: Kind, id: string, a: string, b: string)
    requires NoRepeats(TargetIds(s, kind)) && NamedTarget(s, kind, id, a) && NamedTarget(s, kind, id, b)
    ensures a == b
  {
  }

  lemma AssociationsAre(s: Server, p: Policy)
    requires AssociationConfig(s, p, ALL_KINDS).Some?
    ensures TargetNamesOf(s, OfPolicy, p.policies).Some? && TargetNamesOf(s, OfResource, p.resources).Some?
    ensures TargetNamesOf(s, OfScope, p.scopes).Some?
    ensures AssociationConfig(s, p, ALL_KINDS).value
         == SetServed(s, p, OfPolicy) + SetServed(s, p, OfResource) + SetServed(s, p, OfScope)
  {
    AssociationsExport(s, p);
    hide TargetNamesOf, OfNames, AssociationKey;
    AssociationHead(s, p, ALL_KINDS);
    AssociationHead(s, p, [OfResource, OfScope]);
    AssociationHead(s, p, [OfScope]);
    assert ALL_KINDS[1..] == [OfResource, OfScope] && [OfResource, OfScope][1..] == [OfScope] && [OfScope][1..] == [];
  }

  lemma AssociationHead(s: Server, p: Policy, kinds: seq<Kind>)
    requires kinds != [] && AssociationConfig(s, p, kinds).Some?
    ensures TargetNamesOf(s, kinds[0], AssociationSet(p, kinds[0])).Some? && AssociationConfig(s, p, kinds[1..]).Some?
    ensures AssociationConfig(s, p, kinds).value
         == SetServed(s, p, kinds[0]) + AssociationConfig(s, p, kinds[1..]).value
    ensures AssociationConfig(s, p, []) == Some([])
  {
    hide TargetNamesOf, OfNames, AssociationKey;
  }

  lemma {:induction false} KeptNoRepeats(realm: Realm, kind: string, c: Config)
    requires NoRepeats(Keys(c)) && Plain(c)
    ensures NoRepeats(Keys(KeptConfig(realm, kind, c))) && Plain(KeptConfig(realm, kind, c))
    ensures forall k | k in Keys(KeptConfig(realm, kind, c)) :: k in Keys(c)
  {
    hide KindOfKey, ExportKeeps, ExportValue;
    if c == [] {
      assert Keys(KeptConfig(realm, kind, c)) == [];
    } else {
      assert Keys(c) == [c[0].0] + Keys(c[1..]);
      FirstDiffers(c[0].0, Keys(c[1..]));
      hide NoRepeats;
      KeptNoRepeats(realm, kind, c[1..]);
      var rest := KeptConfig(realm, kind, c[1..]);
      if ExportKeeps(kind, c[0].0) {
        assert Keys(KeptConfig(realm, kind, c)) == [c[0].0] + Keys(rest);
        FirstDiffers(c[0].0, Keys(rest));
      } else {
        assert KeptConfig(realm, kind, c) == rest;
      }
    }
  }

  lemma SetJoins(s: Server, p: Policy, c: Config, kind: Kind)
    requires TargetNamesOf(s, kind, AssociationSet(p, kind)).Some?
    requires NoRepeats(Keys(c)) && AssociationKey(kind) !in Keys(c)
    ensures NoRepeats(Keys(c + SetServed(s, p, kind)))
    ensures forall k | k in Keys(c + SetServed(s, p, kind)) :: k in Keys(c) || k == AssociationKey(kind)
  {
    hide TargetNamesOf, OfNames, AssociationKey;
    var d := SetServed(s, p, kind);
    assert Keys(c + d) == Keys(c) + Keys(d);
  }

  lemma PlainKeys(kept: Config)
    requires Plain(kept)
    ensures forall kind :: AssociationKey(kind) !in Keys(kept)
  {
    forall k | k in Keys(kept) ensures KindOfKey(k) == None {
      var i :| 0 <= i < |kept| && Keys(kept)[i] == k;
      assert kept[i] in kept;
    }
    forall kind ensures KindOfKey(AssociationKey(kind)) == Some(kind) {}
  }

  lemma KeysApart()
    ensures AssociationKey(OfPolicy) != AssociationKey(OfResource)
    ensures AssociationKey(OfScope) != AssociationKey(OfPolicy) && AssociationKey(OfScope) != AssociationKey(OfResource)
  {
    assert forall kind :: KindOfKey(AssociationKey(kind)) == Some(kind);
  }

  lemma SetKeys(s: Server, p: Policy, kept: Config)
    requires AssociationConfig(s, p, ALL_KINDS).Some? && NoRepeats(Keys(kept)) && Plain(kept)
    ensures NoRepeats(Keys(kept + AssociationConfig(s, p, ALL_KINDS).value))
  {
    hide *;
    AssociationsAre(s, p);
    SetsOf(p);
    PlainKeys(kept);
    KeysApart();
    var a, b, c := SetServed(s, p, OfPolicy), SetServed(s, p, OfResource), SetServed(s, p, OfScope);
    SetJoins(s, p, kept, OfPolicy);
    SetJoins(s, p, kept + a, OfResource);
    SetJoins(s, p, kept + a + b, OfScope);
    assert kept + a + b + c == kept + (a + b + c);
  }

  lemma SetsOf(p: Policy)
    ensures AssociationSet(p, OfPolicy) == p.policies && AssociationSet(p, OfResource) == p.resources
    ensures AssociationSet(p, OfScope) == p.scopes
  {
  }

  /** Reordering by keys that are all there keeps every entry, each once. */
  lemma {:induction false} ReorderedIs(c: Config, keys: seq<string>, e: (string, Value))
    requires NoRepeats(Keys(c)) && forall k | k in keys :: k in Keys(c)
    ensures Keys(Reordered(c, keys)) == keys
    ensures e in Reordered(c, keys) <==> e in c && e.0 in keys
  {
    if keys != [] {
      ReorderedIs(c, keys[1..], e);
      var i := Find(Keys(c), keys[0]);
      var head := [(keys[0], c[i].1)];
      assert Reordered(c, keys) == head + Reordered(c, keys[1..]);
      assert Keys(Reordered(c, keys)) == Keys(head) + Keys(Reordered(c, keys[1..]));
      assert Keys(head) == [keys[0]];
      if e in c && e.0 == keys[0] {
        var j :| 0 <= j < |c| && c[j] == e;
        assert Keys(c)[j] == Keys(c)[i];
      }
    }
  }

  lemma ReorderedByKeys(env: Env, c: Config, e: (string, Value))
    requires ValidEnv(env) && NoRepeats(Keys(c))
    ensures
      var d := Reordered(c, env.keyOrder(Keys(c)));
      NoRepeats(Keys(d)) && (e in d <==> e in c)
  {
    OrderKeeps(env, Keys(c));
    ReorderedIs(c, env.keyOrder(Keys(c)), e);
    Ordering.BagNoRepeats(Keys(c), env.keyOrder(Keys(c)));
    if e in c {
      var j :| 0 <= j < |c| && c[j] == e;
      assert Keys(c)[j] == e.0;
    }
  }

  /** An exported config has each key once, and holds exactly the stored entries of the keys
      its type keeps and the association sets that are not empty. */
  lemma ConfigServed(env: Env, realm: Realm, s: Server, p: Policy, e: (string, Value))
    requires ValidEnv(env) && Unique(s) && TidyPolicy(p) && ExportConfig(env, realm, s, p).Some?
    ensures
      var c := ExportConfig(env, realm, s, p).value;
      NoRepeats(Keys(c)) && (e in c <==> ServedEntry(realm, s, p, e))
  {
    var kept := KeptConfig(realm, p.kind, p.config);
    var associations := AssociationConfig(s, p, ALL_KINDS).value;
    TidyIsPlain(p);
    hide TidyPolicy, Unique, ValidEnv, KeptConfig, AssociationConfig, NoRepeats, Plain, Keys, ServedRow, ServedSet,
         Reordered;
    KeptNoRepeats(realm, p.kind, p.config);
    SetKeys(s, p, kept);
    ReorderedByKeys(env, kept + associations, e);
    RowsServed(realm, p, e);
    SetsServed(s, p, e);
  }

  lemma TidyIsPlain(p: Policy)
    requires TidyPolicy(p)
    ensures Plain(p.config) && NoRepeats(Keys(p.config))
  {
    hide KindOfKey;
  }

  lemma RowsServed(realm: Realm, p: Policy, e: (string, Value))
    ensures e in KeptConfig(realm, p.kind, p.config) <==> exists i: nat :: ServedRow(realm, p, i, e)
  {
    KeptHolds(realm, p.kind, p.config, e);
    hide KeptConfig, ExportKeeps, ExportOf;
    if i :| 0 <= i < |p.config| && ExportKeeps(p.kind, p.config[i].0) && ExportOf(realm, p.kind, p.config[i], e) {
      assert ServedRow(realm, p, i, e);
    }
  }

  lemma SetsServed(s: Server, p: Policy, e: (string, Value))
    requires Unique(s) && AssociationConfig(s, p, ALL_KINDS).Some?
    ensures e in AssociationConfig(s, p, ALL_KINDS).value <==> exists kind :: ServedSet(s, p, kind, e)
  {
    assert NoRepeats(TargetIds(s, OfPolicy)) && NoRepeats(TargetIds(s, OfResource)) && NoRepeats(TargetIds(s, OfScope));
    hide Unique, ServedSet, TargetNamesOf, AssociationConfig, TargetIds, NoRepeats;
    AssociationsAre(s, p);
    SetServedIs(s, p, OfPolicy, e);
    SetServedIs(s, p, OfResource, e);
    SetServedIs(s, p, OfScope, e);
    if kind :| ServedSet(s, p, kind, e) { assert kind == OfPolicy || kind == OfResource || kind == OfScope; }
  }

  // ----- the whole export -----

  /** A policy is served without its id and its owner; an empty logic or strategy is left out. */
  ghost predicate PolicyServed(realm: Realm, s: Server, p: Policy, e: PolicyEntry) {
    && e.id == "" && e.name == p.name && e.description == p.description && e.kind == p.kind && e.owner == ""
    && e.logic == (if p.logic == "" then Absent else Given(p.logic))
    && e.strategy == (if p.strategy == "" then Absent else Given(p.strategy))
    && e.config.Some? && NoRepeats(Keys(e.config.value))
    && forall x :: x in e.config.value <==> ServedEntry(realm, s, p, x)
  }

  /** A resource is served without its id, its uris in some order and its scopes by name. */
  ghost predicate ResourceServed(s: Server, r: Resource, e: ResourceEntry) {
    && e.id == "" && e.name == r.name && e.displayName == r.displayName && e.kind == r.kind && e.iconUri == r.iconUri
    && e.ownerManaged == r.ownerManaged && e.attributes == Some(r.attributes)
    && multiset(e.uris) == multiset(r.uris) && e.uri == "" && e.resourceScopes == None
    && |e.scopes| == |r.scopes| && forall ref :: ref in e.scopes <==> ref.id == "" && NamedAmong(s, r.scopes, ref.name)
  }

  lemma {:induction false} OneNameEach(s: Server, ids: seq<string>)
    requires forall x | x in ids :: x in ScopeIds(s.scopes)
    ensures |ScopeNamesOf(s, ids)| == |ids|
  {
    if ids != [] { OneNameEach(s, ids[1..]); }
  }

  lemma ResourceServedIs(env: Env, s: Server, r: Resource)
    requires ValidEnv(env) && Unique(s) && r in s.resources
    ensures ResourceServed(s, r, ExportResource(env, s, r))
  {
    assert TidyResource(s.scopes, r);
    NamesOfScopes(s, r.scopes);
    OneNameEach(s, r.scopes);
    hide Unique, NamedAmong, ScopeNamesOf;
    var names := ScopeNamesOf(s, r.scopes);
    OrderKeeps(env, names);
    assert |env.keyOrder(names)| == |multiset(env.keyOrder(names))| == |multiset(names)| == |names|;
    var refs := ExportResource(env, s, r).scopes;
    forall ref ensures ref in refs <==> ref.id == "" && NamedAmong(s, r.scopes, ref.name) {
      if ref.id == "" && ref.name in env.keyOrder(names) {
        var i :| 0 <= i < |env.keyOrder(names)| && env.keyOrder(names)[i] == ref.name;
        assert refs[i] == ref;
      }
    }
  }

  lemma PolicyServedIs(env: Env, realm: Realm, s: Server, p: Policy)
    requires ValidEnv(env) && Unique(s) && TidyPolicy(p) && ExportPolicy(env, realm, s, p).Some?
    ensures PolicyServed(realm, s, p, ExportPolicy(env, realm, s, p).value)
  {
    hide ValidEnv, Unique, TidyPolicy, ExportConfig, ServedEntry, Keys, NoRepeats;
    ConfigServed(env, realm, s, p, ("", EmptyArray));
    forall x { ConfigServed(env, realm, s, p, x); }
  }

  lemma {:induction false} PoliciesServed(env: Env, realm: Realm, s: Server, at: seq<nat>)
    requires ValidEnv(env) && Stored(s) && (forall i | i in at :: i < |s.policies|)
    requires ExportPolicies(env, realm, s, at).Some?
    ensures
      var es := ExportPolicies(env, realm, s, at).value;
      |es| == |at| && forall a | 0 <= a < |at| :: at[a] in at && PolicyServed(realm, s, s.policies[at[a]], es[a])
  {
    hide ValidEnv, TidyPolicy, Unique, ExportPolicy, PolicyServed;
    if at != [] {
      assert at[0] in at && forall i | i in at[1..] :: i in at;
      PoliciesServed(env, realm, s, at[1..]);
      assert s.policies[at[0]] in s.policies;
      PolicyServedIs(env, realm, s, s.policies[at[0]]);
    }
  }

  /** The export serves every row, each once: scopes and resources in creation order,
      policies in export order. */
  lemma ExportServes(env: Env, realm: Realm, s: Server)
    requires ValidEnv(env) && Stored(s) && Export(env, realm, s).Some?
    ensures
      var b := Export(env, realm, s).value;
      var at := ExportOrder(s);
      && b.allowRemote == Some(s.settings.allowRemote) && b.mode == s.settings.mode
      && b.strategy == Some(s.settings.strategy)
      && |b.scopes| == |s.scopes| && |b.resources| == |s.resources| && |b.policies| == |at|
      && (forall i | 0 <= i < |s.scopes| ::
            b.scopes[i] == ScopeEntry("", s.scopes[i].name, s.scopes[i].iconUri, s.scopes[i].displayName))
      && (forall i | 0 <= i < |s.resources| :: ResourceServed(s, s.resources[i], b.resources[i]))
      && (forall a | 0 <= a < |at| :: at[a] in at && PolicyServed(realm, s, s.policies[at[a]], b.policies[a]))
  {
    hide ValidEnv, TidyPolicy, Unique, ExportPolicies, PolicyServed, ResourceServed, ExportResource, ExportOrder;
    PoliciesServed(env, realm, s, ExportOrder(s));
    forall i | 0 <= i < |s.resources|
      ensures ResourceServed(s, s.resources[i], ExportResource(env, s, s.resources[i]))
    {
      ResourceServedIs(env, s, s.resources[i]);
    }
  }
}
