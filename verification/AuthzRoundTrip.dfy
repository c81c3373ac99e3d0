/** Importing a resource server's own settings export changes nothing but the
    policies' owners (internal/admin/authz.go:180-232, authzimport.go). */
module AuthzRoundTrip {
  import opened Basics
  import opened AuthzModel
  import opened AuthzConfig
  import opened AuthzImport
  import W = AuthzWrites

  /** The stored form every policy write leaves behind: keys without repeats, the
      associations in their sets and not in the config, the provider's key there. */
  ghost predicate TidyPolicy(p: Policy) {
    && Storable(p)
    && (forall e | e in p.config :: KindOfKey(e.0) == None)
    && (DefaultKey(p.kind).Some? ==> DefaultKey(p.kind).value in Keys(p.config))
  }

  /** The references in the provider's own value are live and in stored form. */
  ghost predicate LivePolicy(realm: Realm, p: Policy) {
    forall e | e in p.config :: DefaultKey(p.kind) == Some(e.0) ==> LiveValue(realm, p.kind, e.1)
  }

  ghost predicate Named(s: Server) {
    && "" !in ScopeNames(s.scopes) && "" !in ResourceNames(s.resources) && "" !in PolicyNames(s.policies)
    && s.settings.mode != ""
  }

  ghost predicate Exportable(realm: Realm, s: Server) {
    && Unique(s) && Named(s)
    && forall p | p in s.policies :: TidyPolicy(p) && LivePolicy(realm, p)
  }

  ghost predicate SameList(a: seq<string>, b: seq<string>) {
    NoRepeats(b) && forall x :: x in a <==> x in b
  }

  /** Equal but for the order of uris and of scopes. */
  ghost predicate SameResource(a: Resource, b: Resource) {
    && b == a.(uris := b.uris, scopes := b.scopes)
    && SameList(a.uris, b.uris) && SameList(a.scopes, b.scopes)
  }

  ghost predicate SameResources(a: seq<Resource>, b: seq<Resource>) {
    |a| == |b| && forall i | 0 <= i < |a| :: SameResource(a[i], b[i])
  }

  /** Equal but for the owner, in the policies at the given positions. */
  ghost predicate Disowned(a: seq<Policy>, b: seq<Policy>, at: set<nat>) {
    |a| == |b| && forall i: nat | i < |a| :: b[i] == if i in at then a[i].(owner := "") else a[i]
  }

  // ----- scopes -----

  lemma ScopeReturns(env: Env, s: Server, i: nat)
    requires Unique(s) && Named(s) && i < |s.scopes|
    ensures ImportScope(env, s, ExportScope(s.scopes[i])) == Ok(s, ())
  {
    FindUnique(ScopeNames(s.scopes), i);
    assert ScopeNames(s.scopes)[i] != "";
    assert s.scopes[i := s.scopes[i]] == s.scopes;
  }

  lemma {:induction false} ScopesReturn(env: Env, s: Server, from: nat)
    requires Unique(s) && Named(s) && from <= |s.scopes|
    ensures ImportScopes(env, s, ExportScopes(s.scopes)[from..]) == Ok(s, ())
    decreases |s.scopes| - from
  {
    if from < |s.scopes| {
      ScopeReturns(env, s, from);
      ScopesReturn(env, s, from + 1);
      hide Unique, Named, ImportScope;
      var es := ExportScopes(s.scopes)[from..];
      assert es[0] == ExportScope(s.scopes[from]) && es[1..] == ExportScopes(s.scopes)[from + 1..];
    }
  }

  // ----- resources -----

  /** Some scope of that name has its id in the list. */
  ghost predicate NamedAmong(s: Server, ids: seq<string>, n: string) {
    exists i :: 0 <= i < |s.scopes| && s.scopes[i].name == n && s.scopes[i].id in ids
  }

  lemma {:induction false} NamesOfScopes(s: Server, ids: seq<string>)
    requires Unique(s) && forall x | x in ids :: x in ScopeIds(s.scopes)
    ensures forall n :: n in ScopeNamesOf(s, ids) <==> NamedAmong(s, ids, n)
  {
    if ids != [] {
      NamesOfScopes(s, ids[1..]);
      var k := Find(ScopeIds(s.scopes), ids[0]);
      assert s.scopes[k].id == ids[0];
      assert ScopeNamesOf(s, ids) == [s.scopes[k].name] + ScopeNamesOf(s, ids[1..]);
      forall n ensures n in ScopeNamesOf(s, ids) <==> NamedAmong(s, ids, n) {
        if i :| 0 <= i < |s.scopes| && s.scopes[i].name == n && s.scopes[i].id in ids {
          if s.scopes[i].id == ids[0] {
            assert ScopeIds(s.scopes)[i] == ScopeIds(s.scopes)[k];
          }
        }
      }
    }
  }

  /** The id of the scope of that name. */
  function IdOfName(s: Server, name: string): string
    requires name in ScopeNames(s.scopes)
  {
    s.scopes[Find(ScopeNames(s.scopes), name)].id
  }

  ghost predicate NamesId(s: Server, names: seq<string>, x: string) {
    exists n :: n in names && n in ScopeNames(s.scopes) && IdOfName(s, n) == x
  }

  lemma NamesIdFirst(s: Server, names: seq<string>, x: string)
    requires names != [] && names[0] in ScopeNames(s.scopes)
    ensures NamesId(s, names, x) <==> x == IdOfName(s, names[0]) || NamesId(s, names[1..], x)
  {
    hide IdOfName, ScopeNames;
  }

  lemma AppendOne(out: seq<string>, id: string)
    requires NoRepeats(out)
    ensures NoRepeats(Append(out, Some(id))) && forall x :: x in Append(out, Some(id)) <==> x in out || x == id
  {
  }

  /** Names already held resolve to the ids that hold them; nothing is created. */
  lemma {:induction false} KnownNamesResolve(env: Env, s: Server, names: seq<string>, out: seq<string>)
    requires forall n | n in names :: n != "" && n in ScopeNames(s.scopes)
    requires NoRepeats(out)
    ensures
      var o := ResolveScopeRefs(env, s, ByName(names), out);
      && o.Ok? && o.server == s && NoRepeats(o.value)
      && forall x :: x in o.value <==> x in out || NamesId(s, names, x)
    decreases |names|
  {
    if names == [] {
      assert ByName(names) == [];
    } else {
      var n := names[0];
      var id := IdOfName(s, n);
      assert ByName(names)[0] == ScopeRef("", n) && ByName(names)[1..] == ByName(names[1..]);
      assert ResolveScopeRef(env, s, ScopeRef("", n)) == Ok(s, Some(id));
      AppendOne(out, id);
      KnownNamesResolve(env, s, names[1..], Append(out, Some(id)));
      assert ResolveScopeRefs(env, s, ByName(names), out) == ResolveScopeRefs(env, s, ByName(names[1..]),
        Append(out, Some(id)));
      hide ResolveScopeRefs, ResolveScopeRef, ScopeNames, IdOfName, Append, ByName, NoRepeats, NamesId;
      forall x { NamesIdFirst(s, names, x); }
    }
  }

  lemma OrderKeeps(env: Env, xs: seq<string>)
    requires ValidEnv(env)
    ensures forall x :: x in env.keyOrder(xs) <==> x in xs
  {
    forall x ensures x in env.keyOrder(xs) <==> x in xs {
      assert multiset(env.keyOrder(xs)) == multiset(xs);
      assert x in multiset(env.keyOrder(xs)) <==> x in multiset(xs);
    }
  }

  /** The exported scope list resolves to the same scopes. */
  lemma ScopeListReturns(env: Env, s: Server, r: Resource, t: Server)
    requires ValidEnv(env) && Unique(s) && Named(s) && r in s.resources && t.scopes == s.scopes
    ensures
      var o := ResolveScopeRefs(env, t, ExportResource(env, s, r).scopes, []);
      o.Ok? && o.server == t && SameList(r.scopes, o.value)
  {
    assert TidyResource(s.scopes, r);
    var names := ScopeNamesOf(s, r.scopes);
    NamesOfScopes(s, r.scopes);
    OrderKeeps(env, names);
    forall n | n in env.keyOrder(names) ensures n != "" && n in ScopeNames(s.scopes) {
      var i :| 0 <= i < |s.scopes| && s.scopes[i].name == n && s.scopes[i].id in r.scopes;
      assert ScopeNames(s.scopes)[i] == n;
    }
    KnownNamesResolve(env, t, env.keyOrder(names), []);
    var o := ResolveScopeRefs(env, t, ByName(env.keyOrder(names)), []);
    forall x ensures x in r.scopes <==> x in o.value {
      if x in r.scopes {
        var i := Find(ScopeIds(s.scopes), x);
        FindUnique(ScopeNames(s.scopes), i);
        assert s.scopes[i].name in env.keyOrder(names) && IdOfName(t, s.scopes[i].name) == x;
        assert NamesId(t, env.keyOrder(names), x);
      }
      if x in o.value {
        assert NamesId(t, env.keyOrder(names), x);
        var n :| n in env.keyOrder(names) && n in ScopeNames(t.scopes) && IdOfName(t, n) == x;
        var i :| 0 <= i < |s.scopes| && s.scopes[i].name == n && s.scopes[i].id in r.scopes;
        FindUnique(ScopeNames(s.scopes), i);
      }
    }
  }

  lemma UrisReturn(env: Env, uris: seq<string>)
    requires ValidEnv(env)
    ensures SameList(uris, UrisOf(env.keyOrder(uris), ""))
  {
    OrderKeeps(env, uris);
  }

  /** Some resources written back, nothing else touched. */
  ghost predicate Refilled(s: Server, t: Server) {
    t == s.(resources := t.resources) && SameResources(s.resources, t.resources)
  }

  lemma ResourceReturns(env: Env, s: Server, t: Server, k: nat)
    requires ValidEnv(env) && Unique(s) && Named(s) && Refilled(s, t) && k < |s.resources|
    ensures
      var o := ImportResource(env, t, ExportResource(env, s, s.resources[k]));
      o.Ok? && Refilled(s, o.server)
  {
    var r := s.resources[k];
    var e := ExportResource(env, s, r);
    ScopeListReturns(env, s, r, t);
    UrisReturn(env, r.uris);
    assert ResourceNames(s.resources)[k] == r.name;
    FindUnique(ResourceNames(s.resources), k);
    assert ResourceNames(t.resources) == ResourceNames(s.resources) by {
      forall i | 0 <= i < |s.resources| ensures t.resources[i].name == s.resources[i].name {
        assert SameResource(s.resources[i], t.resources[i]);
      }
    }
    assert SameResource(r, t.resources[k]);
    hide Unique, Named, ResolveScopeRefs, ValidEnv, UrisOf, SameList, ResourceNames, Find, ScopeNamesOf;
    var o := ResolveScopeRefs(env, t, e.scopes, []);
    var x := Resource(r.id, r.name, r.displayName, r.kind, r.iconUri, r.ownerManaged, UrisOf(e.uris, ""),
      r.attributes, o.value);
    assert SameResource(r, x);
    assert ImportResource(env, t, e) == Ok(t.(resources := t.resources[k := x]), ());
  }

  lemma {:induction false} ResourcesReturn(env: Env, s: Server, t: Server, from: nat)
    requires ValidEnv(env) && Unique(s) && Named(s) && Refilled(s, t) && from <= |s.resources|
    ensures
      var o := ImportResources(env, t, ExportResources(env, s, s.resources)[from..]);
      o.Ok? && Refilled(s, o.server)
    decreases |s.resources| - from
  {
    if from < |s.resources| {
      ResourceReturns(env, s, t, from);
      var es := ExportResources(env, s, s.resources)[from..];
      assert es[0] == ExportResource(env, s, s.resources[from])
        && es[1..] == ExportResources(env, s, s.resources)[from + 1..];
      hide Unique, Named, ValidEnv, ImportResource, ExportResource, ExportResources, Refilled;
      var o := ImportResource(env, t, es[0]);
      ResourcesReturn(env, s, o.server, from + 1);
    }
  }

  // ----- policies -----

  /** Names and ids of every possible association target are the same. */
  ghost predicate SameTargets(s: Server, t: Server) {
    forall kind :: TargetIds(t, kind) == TargetIds(s, kind) && TargetNames(t, kind) == TargetNames(s, kind)
  }

  lemma {:induction false} TargetsReturn(s: Server, t: Server, kind: Kind, ids: seq<string>)
    requires Unique(s) && SameTargets(s, t) && TargetNamesOf(s, kind, ids).Some?
    ensures ResolveTargets(t, kind, TargetNamesOf(s, kind, ids).value) == Some(ids)
  {
    if ids != [] {
      TargetsReturn(s, t, kind, ids[1..]);
      var i := Find(TargetIds(s, kind), ids[0]);
      assert NoRepeats(TargetNames(s, kind));
      FindUnique(TargetNames(s, kind), i);
      var names := TargetNamesOf(s, kind, ids).value;
      assert names == [TargetNames(s, kind)[i]] + TargetNamesOf(s, kind, ids[1..]).value;
      hide Unique;
      assert TargetId(t, kind, names[0]) == Some(ids[0]);
      assert names[1..] == TargetNamesOf(s, kind, ids[1..]).value;
      assert [ids[0]] + ids[1..] == ids;
    }
  }

  lemma {:induction false} AddNothing(p: Policy, kind: Kind, ids: seq<string>)
    requires forall x | x in ids :: x in AssociationSet(p, kind)
    ensures AddAll(p, kind, ids) == p
  {
    if ids != [] {
      assert ids[0] in ids;
      AddNothing(p, kind, ids[1..]);
    }
  }

  /** An exported association entry: the names of the whole set. */
  ghost predicate IsAssociation(s: Server, p: Policy, e: (string, Value)) {
    match KindOfKey(e.0)
    case None => false
    case Some(kind) =>
      var names := TargetNamesOf(s, kind, AssociationSet(p, kind));
      names.Some? && e.1 == OfNames(names.value)
  }

  /** `e` is what the export makes of the stored entry `c`. */
  predicate ExportOf(realm: Realm, kind: string, c: (string, Value), e: (string, Value)) {
    e == (c.0, ExportValue(realm, kind, c.0, c.1))
  }

  /** The stored entries in place, each as it was or as exported - as exported when
      its key is in `done` - followed by association entries. */
  ghost predicate Merged(realm: Realm, s: Server, p: Policy, m: Config, done: set<string>) {
    && |p.config| <= |m|
    && (forall i | 0 <= i < |p.config| :: Half(realm, p.kind, p.config[i], m[i], done))
    && (forall i | |p.config| <= i < |m| :: IsAssociation(s, p, m[i]))
  }

  predicate Half(realm: Realm, kind: string, c: (string, Value), m: (string, Value), done: set<string>) {
    ExportOf(realm, kind, c, m) || (m == c && c.0 !in done)
  }

  ghost predicate ExportedEntry(realm: Realm, s: Server, p: Policy, e: (string, Value)) {
    IsAssociation(s, p, e) || exists i :: 0 <= i < |p.config| && ExportOf(realm, p.kind, p.config[i], e)
  }

  lemma FindPrefix(a: seq<string>, b: seq<string>, x: string)
    requires a <= b
    ensures x in a ==> Find(b, x) == Find(a, x)
    ensures x !in a && x in b ==> Find(b, x) >= |a|
  {
    if x in a {
      var i, j := Find(a, x), Find(b, x);
      assert b[i] == x;
      assert forall q | 0 <= q < j :: b[q] == b[..j][q];
      assert forall q | 0 <= q < i :: a[q] == a[..i][q];
    }
  }

  lemma MergeAssociation(realm: Realm, s: Server, p: Policy, m: Config, done: set<string>, e: (string, Value))
    requires TidyPolicy(p) && Merged(realm, s, p, m, done) && IsAssociation(s, p, e)
    ensures Merged(realm, s, p, SetConfig(m, e.0, e.1), done + {e.0})
  {
    var c := p.config;
    forall i | 0 <= i < |c| ensures Keys(c)[i] != e.0 && Keys(m)[i] == Keys(c)[i] {
      assert c[i] in c;
      assert Half(realm, p.kind, c[i], m[i], done);
    }
    FindPrefix(Keys(c), Keys(m), e.0);
    var n := SetConfig(m, e.0, e.1);
    hide TidyPolicy, IsAssociation, ExportOf;
    forall i | 0 <= i < |c| ensures Half(realm, p.kind, c[i], n[i], done + {e.0}) {
      assert Half(realm, p.kind, c[i], m[i], done) && Keys(c)[i] == c[i].0;
    }
  }

  lemma MergeEntry(realm: Realm, s: Server, p: Policy, m: Config, done: set<string>, e: (string, Value), k: nat)
    requires TidyPolicy(p) && Merged(realm, s, p, m, done) && k < |p.config| && ExportOf(realm, p.kind, p.config[k], e)
    ensures Merged(realm, s, p, SetConfig(m, e.0, e.1), done + {e.0})
  {
    var c := p.config;
    forall i | 0 <= i < |c| ensures Keys(m)[i] == Keys(c)[i] {
      assert Half(realm, p.kind, c[i], m[i], done);
    }
    FindUnique(Keys(c), k);
    FindPrefix(Keys(c), Keys(m), e.0);
    var n := SetConfig(m, e.0, e.1);
    hide TidyPolicy, IsAssociation;
    forall i | 0 <= i < |c| ensures Half(realm, p.kind, c[i], n[i], done + {e.0}) {
      assert Half(realm, p.kind, c[i], m[i], done) && Keys(c)[i] == c[i].0;
    }
  }

  lemma MergeOne(realm: Realm, s: Server, p: Policy, m: Config, done: set<string>, e: (string, Value))
    requires TidyPolicy(p) && Merged(realm, s, p, m, done) && ExportedEntry(realm, s, p, e)
    ensures Merged(realm, s, p, SetConfig(m, e.0, e.1), done + {e.0})
  {
    hide TidyPolicy, Merged, IsAssociation, ExportOf, SetConfig;
    if IsAssociation(s, p, e) {
      MergeAssociation(realm, s, p, m, done, e);
    } else {
      var k :| 0 <= k < |p.config| && ExportOf(realm, p.kind, p.config[k], e);
      MergeEntry(realm, s, p, m, done, e, k);
    }
  }

  lemma {:induction false} MergeAll(realm: Realm, s: Server, p: Policy, m: Config, done: set<string>, entries: Config)
    requires TidyPolicy(p) && Merged(realm, s, p, m, done) && forall e | e in entries :: ExportedEntry(realm, s, p, e)
    ensures Merged(realm, s, p, SetAll(m, entries), done + set x | x in Keys(entries))
    decreases |entries|
  {
    hide TidyPolicy, Merged, ExportedEntry, SetConfig;
    if entries == [] {
      assert done + (set x | x in Keys(entries)) == done;
    } else {
      var e := entries[0];
      assert e in entries;
      MergeOne(realm, s, p, m, done, e);
      MergeAll(realm, s, p, SetConfig(m, e.0, e.1), done + {e.0}, entries[1..]);
      assert Keys(entries) == [e.0] + Keys(entries[1..]);
      assert done + {e.0} + (set x | x in Keys(entries[1..])) == done + set x | x in Keys(entries);
    }
  }

  // ----- what the export holds -----

  lemma {:induction false} KeptHolds(realm: Realm, kind: string, c: Config, e: (string, Value))
    ensures e in KeptConfig(realm, kind, c) <==>
      exists i :: 0 <= i < |c| && ExportKeeps(kind, c[i].0) && ExportOf(realm, kind, c[i], e)
  {
    if c != [] {
      KeptHolds(realm, kind, c[1..], e);
      assert ExportOf(realm, kind, c[0], e) <==> e == (c[0].0, ExportValue(realm, kind, c[0].0, c[0].1));
      hide ExportKeeps, ExportValue, ExportOf;
      if i :| 0 <= i < |c| && ExportKeeps(kind, c[i].0) && ExportOf(realm, kind, c[i], e) {
        if i > 0 { assert c[1..][i - 1] == c[i]; }
      }
    }
  }

  lemma {:induction false} AssociationsHold(s: Server, p: Policy, kinds: seq<Kind>, e: (string, Value))
    requires AssociationConfig(s, p, kinds).Some?
    ensures e in AssociationConfig(s, p, kinds).value ==> IsAssociation(s, p, e)
  {
    hide IsAssociation, TargetNamesOf;
    if kinds != [] {
      AssociationsHold(s, p, kinds[1..], e);
      var names := TargetNamesOf(s, kinds[0], AssociationSet(p, kinds[0])).value;
      AssociationEntry(s, p, kinds[0], names);
      var head := if names == [] then [] else [(AssociationKey(kinds[0]), OfNames(names))];
      assert e in AssociationConfig(s, p, kinds).value ==> e in head || e in AssociationConfig(s, p, kinds[1..]).value;
    }
  }

  lemma AssociationEntry(s: Server, p: Policy, kind: Kind, names: seq<string>)
    requires TargetNamesOf(s, kind, AssociationSet(p, kind)) == Some(names)
    ensures IsAssociation(s, p, (AssociationKey(kind), OfNames(names)))
  {
    hide TargetNamesOf;
    assert KindOfKey(AssociationKey(kind)) == Some(kind);
  }

  lemma {:induction false} ReorderedHolds(c: Config, keys: seq<string>)
    ensures forall e | e in Reordered(c, keys) :: e in c
    ensures forall k | k in keys && k in Keys(c) :: k in Keys(Reordered(c, keys))
  {
    if keys != [] {
      ReorderedHolds(c, keys[1..]);
      var head := match ConfigValue(c, keys[0]) case None => [] case Some(v) => [(keys[0], v)];
      assert head != [] ==> head[0] in c;
      assert Reordered(c, keys) == head + Reordered(c, keys[1..]);
      assert Keys(Reordered(c, keys)) == Keys(head) + Keys(Reordered(c, keys[1..]));
      assert keys[0] in Keys(c) ==> Keys(head) == [keys[0]];
    }
  }

  /** Every exported entry is a stored one or an association, and the provider's
      own key is among them. */
  lemma ExportHolds(env: Env, realm: Realm, s: Server, p: Policy)
    requires ValidEnv(env) && TidyPolicy(p) && ExportConfig(env, realm, s, p).Some?
    ensures forall e | e in ExportConfig(env, realm, s, p).value :: ExportedEntry(realm, s, p, e)
    ensures DefaultKey(p.kind).Some? ==> DefaultKey(p.kind).value in Keys(ExportConfig(env, realm, s, p).value)
  {
    var kept := KeptConfig(realm, p.kind, p.config);
    var associations := AssociationConfig(s, p, ALL_KINDS).value;
    var c := kept + associations;
    ReorderedHolds(c, env.keyOrder(Keys(c)));
    OrderKeeps(env, Keys(c));
    forall e | e in c ensures ExportedEntry(realm, s, p, e) {
      KeptHolds(realm, p.kind, p.config, e);
      AssociationsHold(s, p, ALL_KINDS, e);
    }
    if DefaultKey(p.kind).Some? {
      OwnKeyKept(realm, p);
      var key := DefaultKey(p.kind).value;
      var i := Find(Keys(kept), key);
      assert Keys(c)[i] == key;
    }
  }

  lemma OwnKeyKept(realm: Realm, p: Policy)
    requires TidyPolicy(p) && DefaultKey(p.kind).Some?
    ensures DefaultKey(p.kind).value in Keys(KeptConfig(realm, p.kind, p.config))
  {
    var key := DefaultKey(p.kind).value;
    var i := Find(Keys(p.config), key);
    var e := (key, ExportValue(realm, p.kind, key, p.config[i].1));
    KeptHolds(realm, p.kind, p.config, e);
    assert ExportKeeps(p.kind, key) && ExportOf(realm, p.kind, p.config[i], e);
    var kept := KeptConfig(realm, p.kind, p.config);
    var j :| 0 <= j < |kept| && kept[j] == e;
    assert Keys(kept)[j] == key;
  }

  // ----- normalising the merged config -----

  /** The association entries at the end are consumed without adding anything. */
  lemma {:induction false} ConsumeTail(s: Server, t: Server, p: Policy, q: Policy, rest: Config, kept: Config)
    requires Unique(s) && SameTargets(s, t) && (forall kind :: AssociationSet(q, kind) == AssociationSet(p, kind))
    requires forall e | e in rest :: IsAssociation(s, p, e)
    ensures Consume(t, q, rest, kept) == Done(q.(config := kept))
    decreases |rest|
  {
    if rest != [] {
      assert rest[0] in rest && IsAssociation(s, p, rest[0]);
      var kind := KindOfKey(rest[0].0).value;
      var ids := AssociationSet(p, kind);
      var names := TargetNamesOf(s, kind, ids).value;
      assert ParseNames(rest[0].1) == Some(names);
      TargetsReturn(s, t, kind, ids);
      AddNothing(q, kind, ids);
      hide Unique, SameTargets, IsAssociation, TargetNamesOf, ResolveTargets, AssociationSet, OfNames;
      ConsumeTail(s, t, p, q, rest[1..], kept);
    }
  }

  lemma {:induction false} ConsumeHead(s: Server, q: Policy, m: Config, n: nat, kept: Config)
    requires n <= |m| && forall i | 0 <= i < n :: KindOfKey(m[i].0) == None
    ensures Consume(s, q, m, kept) == Consume(s, q, m[n..], kept + m[..n])
    decreases n
  {
    if n == 0 {
      assert m[0..] == m && kept + m[..0] == kept;
    } else {
      assert m[1..][n - 1..] == m[n..] && kept + [m[0]] + m[1..][..n - 1] == kept + m[..n];
      ConsumeHead(s, q, m[1..], n - 1, kept + [m[0]]);
    }
  }

  lemma ConsumeReturns(realm: Realm, s: Server, t: Server, p: Policy, q: Policy, m: Config, done: set<string>)
    requires Unique(s) && SameTargets(s, t) && TidyPolicy(p) && Merged(realm, s, p, m, done)
    requires forall kind :: AssociationSet(q, kind) == AssociationSet(p, kind)
    ensures Consume(t, q, m, []) == Done(q.(config := m[..|p.config|]))
  {
    var n := |p.config|;
    forall i | 0 <= i < n ensures KindOfKey(m[i].0) == None {
      assert Half(realm, p.kind, p.config[i], m[i], done) && p.config[i] in p.config;
    }
    hide KindOfKey, Unique, SameTargets, AssociationSet, IsAssociation;
    ConsumeHead(t, q, m, n, []);
    assert [] + m[..n] == m[..n];
    ConsumeTail(s, t, p, q, m[n..], m[..n]);
  }

  /** A merged config whose own key was exported normalises back to the stored one. */
  lemma OwnKeyReturns(realm: Realm, s: Server, p: Policy, q: Policy, m: Config, done: set<string>)
    requires TidyRealm(realm) && TidyPolicy(p) && LivePolicy(realm, p) && Merged(realm, s, p, m, done)
      && q.kind == p.kind
    requires DefaultKey(p.kind).Some? ==> DefaultKey(p.kind).value in done
    ensures ResolveOwnKey(realm, q.(config := m[..|p.config|])) == Done(q.(config := p.config))
  {
    var c, k := p.config, m[..|p.config|];
    forall i | 0 <= i < |c| ensures k[i].0 == c[i].0 && (DefaultKey(p.kind) != Some(c[i].0) ==> k[i] == c[i]) {
      assert Half(realm, p.kind, c[i], m[i], done);
    }
    assert Keys(k) == Keys(c);
    if DefaultKey(p.kind) == None {
      assert k == c;
    } else {
      var key := DefaultKey(p.kind).value;
      var i := Find(Keys(c), key);
      assert Half(realm, p.kind, c[i], m[i], done) && c[i] in c;
      ValueReturns(realm, p.kind, key, c[i].1);
      hide TidyRealm, LivePolicy, ImportValue, ExportValue, LiveValue, Merged;
      forall j | 0 <= j < |c| && j != i ensures c[j].0 != key { assert Keys(c)[j] == c[j].0 && Keys(c)[i] == key; }
      assert SetConfig(k, key, c[i].1) == c;
    }
  }

  // ----- one policy, then all of them -----

  /** What the import has reached: the resources refilled, the policies at some
      positions without their owner, everything else as it was. */
  ghost predicate Reached(s: Server, t: Server, at: set<nat>) {
    && t == s.(resources := t.resources, policies := t.policies)
    && SameResources(s.resources, t.resources) && Disowned(s.policies, t.policies, at)
  }

  lemma ReachedTargets(s: Server, t: Server, at: set<nat>)
    requires Reached(s, t, at)
    ensures SameTargets(s, t) && PolicyNames(t.policies) == PolicyNames(s.policies)
  {
    forall i | 0 <= i < |s.resources|
      ensures t.resources[i].name == s.resources[i].name && t.resources[i].id == s.resources[i].id
    {
      assert SameResource(s.resources[i], t.resources[i]);
    }
    assert ResourceNames(t.resources) == ResourceNames(s.resources)
      && ResourceIds(t.resources) == ResourceIds(s.resources);
    assert PolicyNames(t.policies) == PolicyNames(s.policies) && PolicyIds(t.policies) == PolicyIds(s.policies);
  }

  lemma NormaliseIs(realm: Realm, t: Server, q: Policy, m: Config)
    requires Consume(t, q, q.config, []) == Done(q.(config := m))
    ensures Normalise(realm, t, q) == ResolveOwnKey(realm, q.(config := m))
  {
    hide Consume, ResolveOwnKey;
  }

  lemma MergedAtStart(realm: Realm, s: Server, p: Policy, q: Policy)
    requires q == p.(owner := q.owner, config := q.config)
    ensures Merged(realm, s, p, p.config, {}) && forall kind :: AssociationSet(q, kind) == AssociationSet(p, kind)
  {
    hide ExportOf, IsAssociation;
  }

  lemma NormalisesBack(env: Env, realm: Realm, s: Server, t: Server, p: Policy, q: Policy, entries: Config)
    requires ValidEnv(env) && TidyRealm(realm) && Unique(s) && SameTargets(s, t) && TidyPolicy(p)
      && LivePolicy(realm, p)
    requires ExportConfig(env, realm, s, p) == Some(entries)
      && q == p.(owner := "", config := SetAll(p.config, entries))
    ensures Normalise(realm, t, q) == Done(p.(owner := ""))
  {
    MergedAtStart(realm, s, p, q);
    hide *;
    ExportHolds(env, realm, s, p);
    MergeAll(realm, s, p, p.config, {}, entries);
    var done := {} + set x | x in Keys(entries);
    ConsumeReturns(realm, s, t, p, q, q.config, done);
    OwnKeyReturns(realm, s, p, q, q.config, done);
    NormaliseIs(realm, t, q, q.config[..|p.config|]);
  }

  lemma OwnerlessStorable(p: Policy)
    requires TidyPolicy(p)
    ensures Storable(p.(owner := ""))
  {
    hide KindOfKey, DefaultKey;
  }

  lemma PolicyReturns(env: Env, realm: Realm, s: Server, t: Server, at: set<nat>, k: nat, e: PolicyEntry)
    requires ValidEnv(env) && TidyRealm(realm) && Exportable(realm, s) && Reached(s, t, at) && k < |s.policies|
    requires ExportPolicy(env, realm, s, s.policies[k]) == Some(e)
    ensures
      var o := ImportPolicy(env, realm, t, e);
      o.Ok? && Reached(s, o.server, at + {k})
  {
    hide ValidEnv, TidyRealm, TidyPolicy, LivePolicy, SameTargets, Normalise, SameResources, SetAll, ExportConfig,
      TidyResource;
    var p := s.policies[k];
    assert p in s.policies && TidyPolicy(p) && LivePolicy(realm, p);
    ReachedTargets(s, t, at);
    assert PolicyNames(s.policies)[k] == p.name && p.name != "";
    FindUnique(PolicyNames(s.policies), k);
    var entries := ExportConfig(env, realm, s, p).value;
    var q := p.(owner := "", config := SetAll(p.config, entries));
    NormalisesBack(env, realm, s, t, p, q, entries);
    OwnerlessStorable(p);
    hide Storable, Exportable, Unique, Named, PolicyNames;
    assert ImportPolicy(env, realm, t, e) == Ok(t.(policies := t.policies[k := p.(owner := "")]), ());
  }

  lemma {:induction false} PoliciesReturn(env: Env, realm: Realm, s: Server, t: Server, done: set<nat>, at: seq<nat>)
    requires ValidEnv(env) && TidyRealm(realm) && Exportable(realm, s) && Reached(s, t, done)
    requires (forall i | i in at :: i < |s.policies|) && ExportPolicies(env, realm, s, at).Some?
    ensures
      var o := ImportPolicies(env, realm, t, ExportPolicies(env, realm, s, at).value);
      o.Ok? && Reached(s, o.server, done + set i | i in at)
    decreases |at|
  {
    hide ValidEnv, TidyRealm, Exportable, Reached, ExportPolicy, ImportPolicy;
    if at == [] {
      assert done + (set i | i in at) == done;
    } else {
      assert at[0] in at && forall i | i in at[1..] :: i in at;
      var es := ExportPolicies(env, realm, s, at).value;
      assert es[0] == ExportPolicy(env, realm, s, s.policies[at[0]]).value
        && es[1..] == ExportPolicies(env, realm, s, at[1..]).value;
      PolicyReturns(env, realm, s, t, done, at[0], es[0]);
      PoliciesReturn(env, realm, s, ImportPolicy(env, realm, t, es[0]).server, done + {at[0]}, at[1..]);
      assert done + {at[0]} + (set i | i in at[1..]) == done + set i | i in at;
    }
  }

  // ----- the theorem -----

  /** The three settings, the scopes and the policies - associations and config
      included, the owner aside - are equal; resources are equal with uris and
      scopes as sets. */
  ghost predicate SameServer(s: Server, t: Server) {
    && t.settings == s.settings && t.scopes == s.scopes && SameResources(s.resources, t.resources)
    && |t.policies| == |s.policies|
    && forall i | 0 <= i < |s.policies| :: t.policies[i] == s.policies[i].(owner := "")
  }

  lemma ExportedParts(env: Env, realm: Realm, s: Server)
    requires Export(env, realm, s).Some? && s.settings.mode != ""
    ensures
      var b := Export(env, realm, s).value;
      && b.scopes == ExportScopes(s.scopes)[0..] && b.resources == ExportResources(env, s, s.resources)[0..]
      && ExportPolicies(env, realm, s, ExportOrder(s)) == Some(b.policies) && s.(settings := ImportedSettings(b)) == s
  {
    hide ExportPolicies, ExportResources, ExportScopes, ExportOrder;
  }

  lemma TidyRefilled(s: Server)
    requires Unique(s)
    ensures Refilled(s, s)
  {
    forall i | 0 <= i < |s.resources| ensures SameResource(s.resources[i], s.resources[i]) {
      assert TidyResource(s.scopes, s.resources[i]);
    }
  }

  lemma ReachedAll(s: Server, t: Server, at: set<nat>)
    requires Reached(s, t, at) && forall i: nat | i < |s.policies| :: i in at
    ensures SameServer(s, t)
  {
  }

  lemma RefilledReached(s: Server, t: Server)
    requires Refilled(s, t)
    ensures Reached(s, t, {})
  {
    hide SameResources;
  }

  lemma ImportIs(env: Env, realm: Realm, s: Server, b: Body, t: Server, u: Server)
    requires var o := ImportScopes(env, s.(settings := ImportedSettings(b)), b.scopes); o.Ok? && o.server == t
    requires var o := ImportResources(env, t, b.resources); o.Ok? && o.server == u
    ensures Import(env, realm, s, b) == ImportPolicies(env, realm, u, b.policies)
  {
    hide ImportScopes, ImportResources, ImportPolicies, ImportedSettings;
  }

  lemma ExportableFacts(realm: Realm, s: Server)
    requires Exportable(realm, s)
    ensures Unique(s) && Named(s) && s.settings.mode != ""
  {
    hide Unique, TidyPolicy, LivePolicy;
  }

  lemma ImportOfExport(env: Env, realm: Realm, s: Server)
    requires ValidEnv(env) && TidyRealm(realm) && Exportable(realm, s) && Export(env, realm, s).Some?
    ensures
      var o := Import(env, realm, s, Export(env, realm, s).value);
      o.Ok? && SameServer(s, o.server)
  {
    hide *;
    ExportableFacts(realm, s);
    var b := Export(env, realm, s).value;
    ExportedParts(env, realm, s);
    ScopesReturn(env, s, 0);
    TidyRefilled(s);
    ResourcesReturn(env, s, s, 0);
    var u := ImportResources(env, s, b.resources).server;
    RefilledReached(s, u);
    PoliciesReturn(env, realm, s, u, {}, ExportOrder(s));
    var o := ImportPolicies(env, realm, u, b.policies);
    ExportOrderIs(s);
    ReachedAll(s, o.server, {} + set i | i in ExportOrder(s));
    ImportIs(env, realm, s, b, s, u);
  }

  // ----- when the export succeeds -----

  ghost predicate NoDangling(s: Server, p: Policy) {
    forall kind, x | x in AssociationSet(p, kind) :: x in TargetIds(s, kind)
  }

  lemma {:induction false} NamesFound(s: Server, kind: Kind, ids: seq<string>)
    ensures TargetNamesOf(s, kind, ids).Some? <==> forall x | x in ids :: x in TargetIds(s, kind)
  {
    if ids != [] { NamesFound(s, kind, ids[1..]); }
  }

  lemma AssociationFirst(s: Server, p: Policy, kinds: seq<Kind>)
    requires kinds != []
    ensures AssociationConfig(s, p, kinds).Some? <==>
      TargetNamesOf(s, kinds[0], AssociationSet(p, kinds[0])).Some? && AssociationConfig(s, p, kinds[1..]).Some?
    ensures AssociationConfig(s, p, []).Some?
  {
    hide TargetNamesOf, OfNames, AssociationKey;
  }

  /** The three kinds one after the other. */
  lemma AssociationsExport(s: Server, p: Policy)
    ensures AssociationConfig(s, p, ALL_KINDS).Some? <==>
      TargetNamesOf(s, OfPolicy, p.policies).Some? && TargetNamesOf(s, OfResource, p.resources).Some?
        && TargetNamesOf(s, OfScope, p.scopes).Some?
  {
    hide TargetNamesOf, OfNames, AssociationKey;
    AssociationFirst(s, p, ALL_KINDS);
    AssociationFirst(s, p, [OfResource, OfScope]);
    AssociationFirst(s, p, [OfScope]);
    assert ALL_KINDS[1..] == [OfResource, OfScope] && [OfResource, OfScope][1..] == [OfScope] && [OfScope][1..] == [];
  }

  lemma PolicyExports(env: Env, realm: Realm, s: Server, p: Policy)
    ensures ExportPolicy(env, realm, s, p).Some? <==> NoDangling(s, p)
  {
    hide AssociationConfig, TargetNamesOf, TargetIds, KeptConfig, Reordered, Keys;
    NamesFound(s, OfPolicy, p.policies);
    NamesFound(s, OfResource, p.resources);
    NamesFound(s, OfScope, p.scopes);
    AssociationsExport(s, p);
    if NoDangling(s, p) {
      assert forall x | x in AssociationSet(p, OfPolicy) :: x in TargetIds(s, OfPolicy);
      assert forall x | x in AssociationSet(p, OfResource) :: x in TargetIds(s, OfResource);
      assert forall x | x in AssociationSet(p, OfScope) :: x in TargetIds(s, OfScope);
    } else {
      var kind, x :| x in AssociationSet(p, kind) && x !in TargetIds(s, kind);
    }
  }

  lemma {:induction false} PoliciesExport(env: Env, realm: Realm, s: Server, at: seq<nat>)
    requires forall i | i in at :: i < |s.policies|
    ensures ExportPolicies(env, realm, s, at).Some? <==> forall i | i in at :: NoDangling(s, s.policies[i])
  {
    if at != [] {
      assert at[0] in at && forall i | i in at[1..] :: i in at;
      PolicyExports(env, realm, s, s.policies[at[0]]);
      PoliciesExport(env, realm, s, at[1..]);
      hide NoDangling, ExportPolicy;
      assert forall i | i in at :: i == at[0] || i in at[1..];
    }
  }

  /** The export is refused exactly when some policy names a target that is gone. */
  lemma ExportSucceeds(env: Env, realm: Realm, s: Server)
    ensures Export(env, realm, s).Some? <==> forall p | p in s.policies :: NoDangling(s, p)
  {
    PoliciesExport(env, realm, s, ExportOrder(s));
    ExportOrderIs(s);
    hide NoDangling, ExportPolicies, ExportOrder;
    assert forall i: nat | i < |s.policies| :: s.policies[i] in s.policies;
  }
}
