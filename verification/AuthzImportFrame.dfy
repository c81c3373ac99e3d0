/** What a whole import leaves: what it names as its last entry of that name says, and
    everything else as it was (internal/admin/authzimport.go:601-660). */
module AuthzImportFrame {
  import opened Basics
  import opened AuthzModel
  import opened AuthzConfig
  import opened AuthzImport
  import opened AuthzEffects
  import opened AuthzImportEffects
  import opened AuthzPolicies
  import opened AuthzPolicyEffects
  import W = AuthzWrites

  // ----- tables that only grow -----

  /** Every row keeps its place, its id and its name; a row whose name is not in `named` is
      the row it was; and a new row's name is in `added`. */
  ghost predicate RowsKept<R>(a: seq<R>, aIds: seq<string>, aNames: seq<string>, b: seq<R>, bIds: seq<string>,
                              bNames: seq<string>, named: set<string>, added: set<string>)
  {
    && |aIds| == |aNames| == |a| && |bIds| == |bNames| == |b| && aIds <= bIds && aNames <= bNames
    && (forall i | 0 <= i < |a| && aNames[i] !in named :: b[i] == a[i])
    && (forall k | |a| <= k < |b| :: bNames[k] in added)
  }

  lemma KeptTwice<R>(a: seq<R>, aIds: seq<string>, aNames: seq<string>, b: seq<R>, bIds: seq<string>,
                     bNames: seq<string>, c: seq<R>, cIds: seq<string>, cNames: seq<string>,
                     named: set<string>, added: set<string>)
    requires RowsKept(a, aIds, aNames, b, bIds, bNames, named, added)
    requires RowsKept(b, bIds, bNames, c, cIds, cNames, named, added)
    ensures RowsKept(a, aIds, aNames, c, cIds, cNames, named, added)
  {
  }

  ghost predicate ScopesKept(s: Server, t: Server, named: set<string>, added: set<string>) {
    RowsKept(s.scopes, ScopeIds(s.scopes), ScopeNames(s.scopes), t.scopes, ScopeIds(t.scopes), ScopeNames(t.scopes),
             named, added)
  }

  ghost predicate ResourcesKept(s: Server, t: Server, named: set<string>) {
    RowsKept(s.resources, ResourceIds(s.resources), ResourceNames(s.resources), t.resources, ResourceIds(t.resources),
             ResourceNames(t.resources), named, named)
  }

  ghost predicate PoliciesKept(s: Server, t: Server, named: set<string>) {
    && RowsKept(s.policies, PolicyIds(s.policies), PolicyNames(s.policies), t.policies, PolicyIds(t.policies),
                PolicyNames(t.policies), named, named)
    && forall i | 0 <= i < |s.policies| :: Grown(s.policies[i], t.policies[i])
  }

  /** A policy written over keeps its type, logic and strategy and loses no association. */
  predicate Grown(was: Policy, now: Policy) {
    && now.kind == was.kind && now.logic == was.logic && now.strategy == was.strategy
    && was.policies <= now.policies && was.resources <= now.resources && was.scopes <= now.scopes
  }

  // ----- one entry -----

  /** Row `k` is what the entry says. */
  predicate ShowsScope(t: Server, k: nat, e: ScopeEntry) {
    k < |t.scopes| && t.scopes[k] == Scope(t.scopes[k].id, e.name, e.iconUri, e.displayName)
  }

  lemma NothingWritten(s: Server, named: set<string>, added: set<string>)
    ensures ScopesKept(s, s, named, added) && ResourcesKept(s, s, named) && PoliciesKept(s, s, named)
  {
  }

  lemma ScopeWritten(s: Server, t: Server, i: Option<nat>, e: ScopeEntry, x: Scope)
    requires ScopeStored(s, t, i, x) && x == Scope(x.id, e.name, e.iconUri, e.displayName)
    requires i.Some? ==> ScopeHeld(s, e.name, i.value)
    ensures t == s.(scopes := t.scopes) && ScopesKept(s, t, {e.name}, {e.name})
    ensures exists k: nat :: ShowsScope(t, k, e)
  {
    assert ShowsScope(t, match i case None => |s.scopes| case Some(i) => i, e);
  }

  lemma ScopeEntryKeeps(env: Env, s: Server, e: ScopeEntry)
    requires ValidEnv(env) && Stored(s)
    ensures
      var o := ImportScope(env, s, e);
      && o.server == s.(scopes := o.server.scopes) && ScopesKept(s, o.server, {e.name}, {e.name})
      && (o.Ok? && e.name != "" ==> exists k: nat :: ShowsScope(o.server, k, e))
  {
    ImportScopeEffect(env, s, e);
    NothingWritten(s, {e.name}, {e.name});
    hide ImportScope, ValidEnv, Stored, UsedIds, ScopeStored, ScopesKept;
    var o := ImportScope(env, s, e);
    if e.name != "" {
      if i: nat :| ScopeHeld(s, e.name, i) {
        ScopeWritten(s, o.server, Some(i), e, Scope(s.scopes[i].id, e.name, e.iconUri, e.displayName));
      } else if o.Ok? {
        var id :| ScopeImported(env, s, o.server, e, id);
        ScopeWritten(s, o.server, None, e, Scope(id, e.name, e.iconUri, e.displayName));
      }
    }
  }

  /** Row `k` is what the entry says. */
  ghost predicate ShowsResource(t: Server, k: nat, e: ResourceEntry) {
    k < |t.resources| && CarriesEntry(t, t.resources[k], e)
  }

  function WantedNames(refs: seq<ScopeRef>): set<string> {
    set ref | ref in refs && ref.id == "" :: ref.name
  }

  lemma WantedIn(refs: seq<ScopeRef>, name: string)
    requires W.Wanted(refs, name)
    ensures name in WantedNames(refs)
  {
    var i :| 0 <= i < |refs| && refs[i].id == "" && refs[i].name == name;
    assert refs[i] in refs;
  }

  lemma AddedIn(env: Env, s: Server, t: Server, refs: seq<ScopeRef>)
    requires ScopesAdded(env, s, t, refs)
    ensures ScopesKept(s, t, {}, WantedNames(refs))
  {
    forall k | |s.scopes| <= k < |t.scopes| ensures t.scopes[k].name in WantedNames(refs) {
      assert W.Wanted(refs, t.scopes[k].name);
      WantedIn(refs, t.scopes[k].name);
    }
    hide W.Wanted, WantedNames;
  }

  lemma ResourceWritten(env: Env, s: Server, t: Server, e: ResourceEntry, x: Resource)
    requires Stored(s) && ResourceImported(env, s, t, e, x)
    ensures ResourcesKept(s, t, {e.name}) && exists k: nat :: ShowsResource(t, k, e)
  {
    hide Stored, UsedIds, Selected, WantedHeld, NoRepeats;
    if i: nat :| ResourceNamed(s, e.name, i) {
      assert ShowsResource(t, i, e);
    } else {
      assert ShowsResource(t, |s.resources|, e);
    }
  }

  lemma ResourceEntryKeeps(env: Env, s: Server, e: ResourceEntry)
    requires ValidEnv(env) && Stored(s)
    ensures
      var o := ImportResource(env, s, e);
      && o.server == s.(scopes := o.server.scopes, resources := o.server.resources)
      && ScopesKept(s, o.server, {}, WantedNames(RefsOf(e))) && ResourcesKept(s, o.server, {e.name})
      && (o.Ok? && e.name != "" ==> exists k: nat :: ShowsResource(o.server, k, e))
  {
    hide *;
    StoredUnique(s);
    ImportResourceEffect(env, s, e);
    var o := ImportResource(env, s, e);
    if e.name == "" {
      NothingWritten(s, {}, WantedNames(RefsOf(e)));
      NothingWritten(s, {e.name}, {});
    } else {
      AddedIn(env, s, o.server, RefsOf(e));
      if o.Ok? {
        var x :| ResourceImported(env, s, o.server, e, x);
        ResourceWritten(env, s, o.server, e, x);
      } else {
        SameResources(s, o.server, {e.name});
      }
    }
  }

  lemma StoredUnique(s: Server)
    requires Stored(s)
    ensures Unique(s)
  {
  }

  lemma SameResources(s: Server, t: Server, named: set<string>)
    requires s.resources == t.resources
    ensures ResourcesKept(s, t, named)
  {
  }

  /** Row `k` has the entry's description and owner, and reads each plain key as last sent. */
  ghost predicate ShowsPolicy(t: Server, k: nat, e: PolicyEntry) {
    && k < |t.policies|
    && var p := t.policies[k];
    && p.name == e.name && p.description == e.description && p.owner == e.owner
    && forall key, v | LastSent(EntriesOf(e), key, v) && KindOfKey(key) == None && DefaultKey(p.kind) != Some(key) ::
         ConfigValue(p.config, key) == Some(v)
  }

  lemma PolicyMergedKeeps(realm: Realm, s: Server, t: Server, i: nat, e: PolicyEntry, q: Policy)
    requires Stored(s) && PolicyNamed(s, e.name, i)
    requires PolicyMerged(realm, s, t, i, e, SetAll(s.policies[i].config, EntriesOf(e)), q)
    ensures t == s.(policies := t.policies) && PoliciesKept(s, t, {e.name}) && ShowsPolicy(t, i, e)
  {
    MergedReads(realm, s, t, i, e, q);
    hide Stored, KindOfKey, DefaultKey, ConfigValue, LastSent, EntriesOf, SetAll, NormalisedTo, Keys;
    var was := s.policies[i];
    assert AssociationSet(was, OfPolicy) <= AssociationSet(q, OfPolicy)
      && AssociationSet(was, OfResource) <= AssociationSet(q, OfResource)
      && AssociationSet(was, OfScope) <= AssociationSet(q, OfScope);
    assert t.policies == s.policies[i := q];
  }

  lemma PolicyImportedKeeps(env: Env, realm: Realm, s: Server, t: Server, e: PolicyEntry, q: Policy)
    requires PolicyImported(env, realm, s, t, e, SetAll([], EntriesOf(e)), q)
    ensures t == s.(policies := t.policies) && PoliciesKept(s, t, {e.name}) && ShowsPolicy(t, |s.policies|, e)
  {
    hide KindOfKey, DefaultKey, ConfigValue, LastSent, EntriesOf, SetAll, NormalisedTo, Keys, UsedIds;
    var d := SetAll([], EntriesOf(e));
    SentOverIs([], EntriesOf(e));
    ReadsAsSent(realm, s, [], EntriesOf(e), q.(config := d, policies := [], resources := [], scopes := []), q);
    assert t.policies[|s.policies|] == q;
  }

  lemma PolicyEntryKeeps(env: Env, realm: Realm, s: Server, e: PolicyEntry)
    requires ValidEnv(env) && Stored(s)
    ensures
      var o := ImportPolicy(env, realm, s, e);
      && o.server == s.(policies := o.server.policies) && PoliciesKept(s, o.server, {e.name})
      && (o.Ok? && e.name != "" ==> exists k: nat :: ShowsPolicy(o.server, k, e))
  {
    hide *;
    ImportPolicyEffect(env, realm, s, e);
    NothingWritten(s, {e.name}, {});
    var o := ImportPolicy(env, realm, s, e);
    if o.Ok? && e.name != "" {
      if i: nat :| PolicyNamed(s, e.name, i) {
        NamedInRange(s, e.name, i);
        var d := SetAll(s.policies[i].config, EntriesOf(e));
        var q :| PolicyMerged(realm, s, o.server, i, e, d, q);
        PolicyMergedKeeps(realm, s, o.server, i, e, q);
      } else {
        var q :| PolicyImported(env, realm, s, o.server, e, SetAll([], EntriesOf(e)), q);
        PolicyImportedKeeps(env, realm, s, o.server, e, q);
      }
    }
  }

  lemma NamedInRange(s: Server, name: string, i: nat)
    requires PolicyNamed(s, name, i)
    ensures i < |s.policies|
  {
  }

  // ----- lists of entries -----

  /** Entry `i` is the last of its name, and has one. */
  predicate IsLast(names: seq<string>, i: nat) {
    i < |names| && names[i] != "" && forall j | i < j < |names| :: names[j] != names[i]
  }

  lemma LastOfRest(names: seq<string>, i: nat)
    requires names != [] && IsLast(names, i)
    ensures i > 0 ==> IsLast(names[1..], i - 1)
    ensures i == 0 ==> names[0] !in names[1..]
  {
  }

  function SetOf(names: seq<string>): set<string> {
    set x | x in names
  }

  function ScopeEntryNames(es: seq<ScopeEntry>): (r: seq<string>)
    ensures |r| == |es| && forall i | 0 <= i < |es| :: r[i] == es[i].name
  {
    seq(|es|, i requires 0 <= i < |es| => es[i].name)
  }

  function ResourceEntryNames(es: seq<ResourceEntry>): (r: seq<string>)
    ensures |r| == |es| && forall i | 0 <= i < |es| :: r[i] == es[i].name
  {
    seq(|es|, i requires 0 <= i < |es| => es[i].name)
  }

  function PolicyEntryNames(es: seq<PolicyEntry>): (r: seq<string>)
    ensures |r| == |es| && forall i | 0 <= i < |es| :: r[i] == es[i].name
  {
    seq(|es|, i requires 0 <= i < |es| => es[i].name)
  }

  ghost predicate ScopeShown(t: Server, e: ScopeEntry) {
    exists k: nat :: ShowsScope(t, k, e)
  }

  ghost predicate ScopesShown(t: Server, es: seq<ScopeEntry>) {
    forall i: nat | i < |es| && IsLast(ScopeEntryNames(es), i) :: ScopeShown(t, es[i])
  }

  lemma ScopeStays(s: Server, t: Server, named: set<string>, added: set<string>, e: ScopeEntry)
    requires ScopesKept(s, t, named, added) && ScopeShown(s, e) && e.name !in named
    ensures ScopeShown(t, e)
  {
    var k: nat :| ShowsScope(s, k, e);
    assert ScopeNames(s.scopes)[k] == e.name;
    assert ShowsScope(t, k, e);
  }

  lemma {:induction false} ScopesLeave(env: Env, s: Server, es: seq<ScopeEntry>)
    requires ValidEnv(env) && Stored(s)
    ensures
      var o := ImportScopes(env, s, es);
      var names := SetOf(ScopeEntryNames(es));
      && o.server == s.(scopes := o.server.scopes) && ScopesKept(s, o.server, names, names)
      && (o.Ok? ==> ScopesShown(o.server, es))
    decreases |es|
  {
    hide ValidEnv, Stored, ImportScope, ScopesKept, ScopeShown, IsLast;
    var o := ImportScopes(env, s, es);
    var names := SetOf(ScopeEntryNames(es));
    if es == [] {
      NothingWritten(s, names, names);
    } else {
      var one := ImportScope(env, s, es[0]);
      ImportScopeKeeps(env, s, es[0]);
      ScopeEntryKeeps(env, s, es[0]);
      ScopesWider(s, one.server, {es[0].name}, {es[0].name}, names, names);
      assert ScopeEntryNames(es)[1..] == ScopeEntryNames(es[1..]);
      if one.Ok? {
        ScopesLeave(env, one.server, es[1..]);
        var rest := SetOf(ScopeEntryNames(es[1..]));
        ScopesWider(one.server, o.server, rest, rest, names, names);
        ScopesTwice(s, one.server, o.server, names, names);
        if o.Ok? {
          forall i: nat | i < |es| && IsLast(ScopeEntryNames(es), i) ensures ScopeShown(o.server, es[i]) {
            LastOfRest(ScopeEntryNames(es), i);
            if i == 0 {
              NamedLast(ScopeEntryNames(es), 0);
              assert ScopeShown(one.server, es[0]) by { ShownBy(one.server, es[0]); }
              ScopeStays(one.server, o.server, rest, rest, es[0]);
            } else {
              assert ScopeShown(o.server, es[1..][i - 1]);
            }
          }
        }
      }
    }
  }

  lemma NamedLast(names: seq<string>, i: nat)
    requires IsLast(names, i)
    ensures i < |names| && names[i] != ""
  {
  }

  lemma ShownBy(t: Server, e: ScopeEntry)
    requires exists k: nat :: ShowsScope(t, k, e)
    ensures ScopeShown(t, e)
  {
  }

  lemma ScopesWider(s: Server, t: Server, named: set<string>, added: set<string>, named': set<string>,
                    added': set<string>)
    requires ScopesKept(s, t, named, added) && named <= named' && added <= added'
    ensures ScopesKept(s, t, named', added')
  {
  }

  lemma ScopesTwice(s: Server, t: Server, u: Server, named: set<string>, added: set<string>)
    requires ScopesKept(s, t, named, added) && ScopesKept(t, u, named, added)
    ensures ScopesKept(s, u, named, added)
  {
    KeptTwice(s.scopes, ScopeIds(s.scopes), ScopeNames(s.scopes), t.scopes, ScopeIds(t.scopes), ScopeNames(t.scopes),
              u.scopes, ScopeIds(u.scopes), ScopeNames(u.scopes), named, added);
  }

  ghost predicate ResourceShown(t: Server, e: ResourceEntry) {
    exists k: nat :: ShowsResource(t, k, e)
  }

  ghost predicate ResourcesShown(t: Server, es: seq<ResourceEntry>) {
    forall i: nat | i < |es| && IsLast(ResourceEntryNames(es), i) :: ResourceShown(t, es[i])
  }

  /** What the resources ask for by name. */
  function AllWanted(es: seq<ResourceEntry>): set<string> {
    if es == [] then {} else WantedNames(RefsOf(es[0])) + AllWanted(es[1..])
  }

  /** Scopes added later change no selection whose names are all held. */
  lemma SelectionStays(s: Server, t: Server, refs: seq<ScopeRef>)
    requires Unique(t) && s.scopes <= t.scopes && WantedHeld(s, refs)
    ensures WantedHeld(t, refs) && forall y :: Selected(s, refs, y) <==> Selected(t, refs, y)
  {
    forall i, y | 0 <= i < |refs| ensures Selects(s, refs[i], y) <==> Selects(t, refs[i], y) {
      OneStays(s, t, refs, i, y);
    }
    forall name | W.Wanted(refs, name) ensures name in ScopeNames(t.scopes) {
      var k :| 0 <= k < |s.scopes| && ScopeNames(s.scopes)[k] == name;
      assert ScopeNames(t.scopes)[k] == name;
    }
    hide Selects, Unique, W.Wanted;
  }

  lemma OneStays(s: Server, t: Server, refs: seq<ScopeRef>, i: nat, y: string)
    requires Unique(t) && s.scopes <= t.scopes && WantedHeld(s, refs) && i < |refs|
    ensures Selects(s, refs[i], y) <==> Selects(t, refs[i], y)
  {
    var ref := refs[i];
    ScopeRows(t);
    hide Unique;
    if ref.id == "" && ref.name != "" {
      assert W.Wanted(refs, ref.name);
      var k :| 0 <= k < |s.scopes| && ScopeNames(s.scopes)[k] == ref.name;
      assert ScopeHeld(s, ref.name, k) && ScopeHeld(t, ref.name, k);
    }
  }

  lemma ResourceStays(s: Server, t: Server, named: set<string>, e: ResourceEntry)
    requires ResourcesKept(s, t, named) && ResourceShown(s, e) && e.name !in named && Unique(t) && s.scopes <= t.scopes
    ensures ResourceShown(t, e)
  {
    hide Unique;
    var k: nat :| ShowsResource(s, k, e);
    SelectionStays(s, t, RefsOf(e));
    hide Selected, WantedHeld;
    assert ResourceNames(s.resources)[k] == e.name;
    assert ShowsResource(t, k, e);
  }

  lemma {:induction false} ResourcesLeave(env: Env, s: Server, es: seq<ResourceEntry>)
    requires ValidEnv(env) && Stored(s)
    ensures
      var o := ImportResources(env, s, es);
      var names := SetOf(ResourceEntryNames(es));
      && o.server == s.(scopes := o.server.scopes, resources := o.server.resources) && s.scopes <= o.server.scopes
      && ScopesKept(s, o.server, {}, AllWanted(es)) && ResourcesKept(s, o.server, names)
      && (o.Ok? ==> ResourcesShown(o.server, es))
    decreases |es|
  {
    hide ValidEnv, Stored, ImportResource, ScopesKept, ResourcesKept, ResourceShown, IsLast, RefsOf, WantedNames;
    var o := ImportResources(env, s, es);
    var names := SetOf(ResourceEntryNames(es));
    if es == [] {
      NothingWritten(s, {}, {});
      NothingWritten(s, names, {});
    } else {
      var one := ImportResource(env, s, es[0]);
      ImportResourceKeeps(env, s, es[0]);
      ResourceEntryKeeps(env, s, es[0]);
      ScopesOnlyAdded(s, one.server, WantedNames(RefsOf(es[0])));
      ScopesWider(s, one.server, {}, WantedNames(RefsOf(es[0])), {}, AllWanted(es));
      ResourcesWider(s, one.server, {es[0].name}, names);
      assert ResourceEntryNames(es)[1..] == ResourceEntryNames(es[1..]);
      if one.Ok? {
        ResourcesLeave(env, one.server, es[1..]);
        var rest := SetOf(ResourceEntryNames(es[1..]));
        ScopesWider(one.server, o.server, {}, AllWanted(es[1..]), {}, AllWanted(es));
        ScopesTwice(s, one.server, o.server, {}, AllWanted(es));
        ResourcesWider(one.server, o.server, rest, names);
        ResourcesTwice(s, one.server, o.server, names);
        if o.Ok? {
          ImportResourcesKeep(env, one.server, es[1..]);
          StoredUnique(o.server);
          forall i: nat | i < |es| && IsLast(ResourceEntryNames(es), i) ensures ResourceShown(o.server, es[i]) {
            LastOfRest(ResourceEntryNames(es), i);
            if i == 0 {
              NamedLast(ResourceEntryNames(es), 0);
              assert ResourceShown(one.server, es[0]) by { ResourceShownBy(one.server, es[0]); }
              ResourceStays(one.server, o.server, rest, es[0]);
            } else {
              assert ResourceShown(o.server, es[1..][i - 1]);
            }
          }
        }
      }
    }
  }

  lemma ResourceShownBy(t: Server, e: ResourceEntry)
    requires exists k: nat :: ShowsResource(t, k, e)
    ensures ResourceShown(t, e)
  {
  }

  lemma ScopesOnlyAdded(s: Server, t: Server, added: set<string>)
    requires ScopesKept(s, t, {}, added)
    ensures s.scopes <= t.scopes
  {
  }

  lemma ResourcesWider(s: Server, t: Server, named: set<string>, named': set<string>)
    requires ResourcesKept(s, t, named) && named <= named'
    ensures ResourcesKept(s, t, named')
  {
  }

  lemma ResourcesTwice(s: Server, t: Server, u: Server, named: set<string>)
    requires ResourcesKept(s, t, named) && ResourcesKept(t, u, named)
    ensures ResourcesKept(s, u, named)
  {
    KeptTwice(s.resources, ResourceIds(s.resources), ResourceNames(s.resources),
              t.resources, ResourceIds(t.resources), ResourceNames(t.resources),
              u.resources, ResourceIds(u.resources), ResourceNames(u.resources), named, named);
  }

  ghost predicate PolicyShown(t: Server, e: PolicyEntry) {
    exists k: nat :: ShowsPolicy(t, k, e)
  }

  ghost predicate PoliciesShown(t: Server, es: seq<PolicyEntry>) {
    forall i: nat | i < |es| && IsLast(PolicyEntryNames(es), i) :: PolicyShown(t, es[i])
  }

  lemma PolicyStays(s: Server, t: Server, named: set<string>, e: PolicyEntry)
    requires PoliciesKept(s, t, named) && PolicyShown(s, e) && e.name !in named
    ensures PolicyShown(t, e)
  {
    hide KindOfKey, DefaultKey, ConfigValue, LastSent, Grown;
    var k: nat :| ShowsPolicy(s, k, e);
    assert PolicyNames(s.policies)[k] == e.name;
    assert ShowsPolicy(t, k, e);
  }

  lemma {:induction false} PoliciesLeave(env: Env, realm: Realm, s: Server, es: seq<PolicyEntry>)
    requires ValidEnv(env) && Stored(s)
    ensures
      var o := ImportPolicies(env, realm, s, es);
      var names := SetOf(PolicyEntryNames(es));
      && o.server == s.(policies := o.server.policies) && PoliciesKept(s, o.server, names)
      && (o.Ok? ==> PoliciesShown(o.server, es))
    decreases |es|
  {
    hide ValidEnv, Stored, ImportPolicy, PoliciesKept, PolicyShown, IsLast;
    var o := ImportPolicies(env, realm, s, es);
    var names := SetOf(PolicyEntryNames(es));
    if es == [] {
      NothingWritten(s, names, {});
    } else {
      var one := ImportPolicy(env, realm, s, es[0]);
      ImportPolicyKeeps(env, realm, s, es[0]);
      PolicyEntryKeeps(env, realm, s, es[0]);
      PoliciesWider(s, one.server, {es[0].name}, names);
      assert PolicyEntryNames(es)[1..] == PolicyEntryNames(es[1..]);
      if one.Ok? {
        PoliciesLeave(env, realm, one.server, es[1..]);
        var rest := SetOf(PolicyEntryNames(es[1..]));
        PoliciesWider(one.server, o.server, rest, names);
        PoliciesTwice(s, one.server, o.server, names);
        if o.Ok? {
          forall i: nat | i < |es| && IsLast(PolicyEntryNames(es), i) ensures PolicyShown(o.server, es[i]) {
            LastOfRest(PolicyEntryNames(es), i);
            if i == 0 {
              NamedLast(PolicyEntryNames(es), 0);
              assert PolicyShown(one.server, es[0]) by { PolicyShownBy(one.server, es[0]); }
              PolicyStays(one.server, o.server, rest, es[0]);
            } else {
              assert PolicyShown(o.server, es[1..][i - 1]);
            }
          }
        }
      }
    }
  }

  lemma PolicyShownBy(t: Server, e: PolicyEntry)
    requires exists k: nat :: ShowsPolicy(t, k, e)
    ensures PolicyShown(t, e)
  {
  }

  lemma PoliciesWider(s: Server, t: Server, named: set<string>, named': set<string>)
    requires PoliciesKept(s, t, named) && named <= named'
    ensures PoliciesKept(s, t, named')
  {
  }

  lemma PoliciesTwice(s: Server, t: Server, u: Server, named: set<string>)
    requires PoliciesKept(s, t, named) && PoliciesKept(t, u, named)
    ensures PoliciesKept(s, u, named)
  {
    KeptTwice(s.policies, PolicyIds(s.policies), PolicyNames(s.policies), t.policies, PolicyIds(t.policies),
              PolicyNames(t.policies), u.policies, PolicyIds(u.policies), PolicyNames(u.policies), named, named);
    forall i | 0 <= i < |s.policies| ensures Grown(s.policies[i], u.policies[i]) {
      assert Grown(s.policies[i], t.policies[i]) && Grown(t.policies[i], u.policies[i]);
    }
  }

  // ----- where an import stops -----

  /** Entry `i` is where the list stops. */
  ghost predicate ScopesAt(env: Env, s: Server, es: seq<ScopeEntry>, i: nat, o: Outcome<()>) {
    && i < |es| && ImportScopes(env, s, es[..i]).Ok?
    && o == ImportScope(env, ImportScopes(env, s, es[..i]).server, es[i])
  }

  lemma {:induction false} ScopesStop(env: Env, s: Server, es: seq<ScopeEntry>)
    requires ImportScopes(env, s, es).Err?
    ensures exists i: nat :: ScopesAt(env, s, es, i, ImportScopes(env, s, es))
    decreases |es|
  {
    hide ImportScope;
    if es != [] {
      var o := ImportScopes(env, s, es);
      var first := ImportScope(env, s, es[0]);
      if first.Err? {
        assert ScopesAt(env, s, es, 0, o);
      } else {
        ScopesStop(env, first.server, es[1..]);
        var i: nat :| ScopesAt(env, first.server, es[1..], i, o);
        assert es[..i + 1][1..] == es[1..][..i] && es[..i + 1][0] == es[0];
        assert ScopesAt(env, s, es, i + 1, o);
      }
    }
  }

  /** Entry `i` is where the list stops. */
  ghost predicate ResourcesAt(env: Env, s: Server, es: seq<ResourceEntry>, i: nat, o: Outcome<()>) {
    && i < |es| && ImportResources(env, s, es[..i]).Ok?
    && o == ImportResource(env, ImportResources(env, s, es[..i]).server, es[i])
  }

  lemma {:induction false} ResourcesStop(env: Env, s: Server, es: seq<ResourceEntry>)
    requires ImportResources(env, s, es).Err?
    ensures exists i: nat :: ResourcesAt(env, s, es, i, ImportResources(env, s, es))
    decreases |es|
  {
    hide ImportResource;
    if es != [] {
      var o := ImportResources(env, s, es);
      var first := ImportResource(env, s, es[0]);
      if first.Err? {
        assert ResourcesAt(env, s, es, 0, o);
      } else {
        ResourcesStop(env, first.server, es[1..]);
        var i: nat :| ResourcesAt(env, first.server, es[1..], i, o);
        assert es[..i + 1][1..] == es[1..][..i] && es[..i + 1][0] == es[0];
        assert ResourcesAt(env, s, es, i + 1, o);
      }
    }
  }

  /** Entry `i` is where the list stops. */
  ghost predicate PoliciesAt(env: Env, realm: Realm, s: Server, es: seq<PolicyEntry>, i: nat, o: Outcome<()>) {
    && i < |es| && ImportPolicies(env, realm, s, es[..i]).Ok?
    && o == ImportPolicy(env, realm, ImportPolicies(env, realm, s, es[..i]).server, es[i])
  }

  lemma {:induction false} PoliciesStop(env: Env, realm: Realm, s: Server, es: seq<PolicyEntry>)
    requires ImportPolicies(env, realm, s, es).Err?
    ensures exists i: nat :: PoliciesAt(env, realm, s, es, i, ImportPolicies(env, realm, s, es))
    decreases |es|
  {
    hide ImportPolicy;
    if es != [] {
      var o := ImportPolicies(env, realm, s, es);
      var first := ImportPolicy(env, realm, s, es[0]);
      if first.Err? {
        assert PoliciesAt(env, realm, s, es, 0, o);
      } else {
        PoliciesStop(env, realm, first.server, es[1..]);
        var i: nat :| PoliciesAt(env, realm, first.server, es[1..], i, o);
        assert es[..i + 1][1..] == es[1..][..i] && es[..i + 1][0] == es[0];
        assert PoliciesAt(env, realm, s, es, i + 1, o);
      }
    }
  }

  // ----- the whole import -----

  /** Every row keeps its place, id and name; only rows the body names change; and only what
      it names, or its resources ask for, is added. */
  ghost predicate Left(s: Server, t: Server, b: Body) {
    && ScopesKept(s, t, SetOf(ScopeEntryNames(b.scopes)), SetOf(ScopeEntryNames(b.scopes)) + AllWanted(b.resources))
    && ResourcesKept(s, t, SetOf(ResourceEntryNames(b.resources)))
    && PoliciesKept(s, t, SetOf(PolicyEntryNames(b.policies)))
  }

  /** The settings are those sent, a field that was not sent at its default; the rest is
      left as `Left` says, refused or not; and an import that is not refused leaves, for
      each name, what the body's last entry of that name says. */
  lemma ImportLeaves(env: Env, realm: Realm, s: Server, b: Body)
    requires ValidEnv(env) && Stored(s)
    ensures
      var o := Import(env, realm, s, b);
      && SettingsStored(s, s.(settings := o.server.settings), b.allowRemote, b.mode, b.strategy) && Left(s, o.server, b)
      && (o.Ok? ==> ScopesShown(o.server, b.scopes) && ResourcesShown(o.server, b.resources)
                    && PoliciesShown(o.server, b.policies))
  {
    hide *;
    SettingsAre(s, b);
    var r := s.(settings := ImportedSettings(b));
    Stages(env, realm, s, b);
    var one := ImportScopes(env, r, b.scopes);
    ScopesLeave(env, r, b.scopes);
    LeftByScopes(r, one.server, b);
    if one.Ok? {
      ImportScopesKeep(env, r, b.scopes);
      var two := ImportResources(env, one.server, b.resources);
      ResourcesLeave(env, one.server, b.resources);
      LeftByResources(one.server, two.server, b);
      LeftTwice(r, one.server, two.server, b);
      if two.Ok? {
        ImportResourcesKeep(env, one.server, b.resources);
        var three := ImportPolicies(env, realm, two.server, b.policies);
        PoliciesLeave(env, realm, two.server, b.policies);
        LeftByPolicies(two.server, three.server, b);
        LeftTwice(r, two.server, three.server, b);
        LeftBySettings(s, r, three.server, b);
        ScopesShownStay(one.server, three.server, b.scopes);
        ResourcesShownStay(two.server, three.server, b.resources);
      } else {
        LeftBySettings(s, r, two.server, b);
      }
    } else {
      LeftBySettings(s, r, one.server, b);
    }
  }

  /** The import runs its stages in order and stops at the first refusal. */
  lemma Stages(env: Env, realm: Realm, s: Server, b: Body)
    ensures
      var one := ImportScopes(env, s.(settings := ImportedSettings(b)), b.scopes);
      var two := ImportResources(env, one.server, b.resources);
      var three := ImportPolicies(env, realm, two.server, b.policies);
      Import(env, realm, s, b) == if one.Err? then one else if two.Err? then two else three
  {
    hide ImportScopes, ImportResources, ImportPolicies, ImportedSettings;
  }

  lemma SettingsAre(s: Server, b: Body)
    requires Stored(s)
    ensures
      var r := s.(settings := ImportedSettings(b));
      && Stored(r) && SettingsStored(s, r, b.allowRemote, b.mode, b.strategy)
  {
    SettingsReplaced(s, ImportedSettings(b));
    hide Stored;
  }

  lemma LeftByScopes(s: Server, t: Server, b: Body)
    requires t == s.(scopes := t.scopes)
    requires ScopesKept(s, t, SetOf(ScopeEntryNames(b.scopes)), SetOf(ScopeEntryNames(b.scopes)))
    ensures Left(s, t, b)
  {
  }

  lemma LeftByResources(s: Server, t: Server, b: Body)
    requires t == s.(scopes := t.scopes, resources := t.resources)
    requires ScopesKept(s, t, {}, AllWanted(b.resources)) && ResourcesKept(s, t, SetOf(ResourceEntryNames(b.resources)))
    ensures Left(s, t, b)
  {
  }

  lemma LeftByPolicies(s: Server, t: Server, b: Body)
    requires t == s.(policies := t.policies) && PoliciesKept(s, t, SetOf(PolicyEntryNames(b.policies)))
    ensures Left(s, t, b)
  {
  }

  lemma LeftTwice(s: Server, t: Server, u: Server, b: Body)
    requires Left(s, t, b) && Left(t, u, b)
    ensures Left(s, u, b)
  {
    var scopes := SetOf(ScopeEntryNames(b.scopes));
    ScopesTwice(s, t, u, scopes, scopes + AllWanted(b.resources));
    ResourcesTwice(s, t, u, SetOf(ResourceEntryNames(b.resources)));
    PoliciesTwice(s, t, u, SetOf(PolicyEntryNames(b.policies)));
    hide ScopesKept, ResourcesKept, PoliciesKept, AllWanted;
  }

  lemma LeftBySettings(s: Server, r: Server, t: Server, b: Body)
    requires r == s.(settings := r.settings) && Left(r, t, b)
    ensures Left(s, t, b)
  {
    hide RowsKept, Grown, AllWanted;
  }

  lemma ScopesShownStay(s: Server, t: Server, es: seq<ScopeEntry>)
    requires ScopesShown(s, es) && s.scopes <= t.scopes
    ensures ScopesShown(t, es)
  {
    hide IsLast;
    forall i: nat | i < |es| && IsLast(ScopeEntryNames(es), i) ensures ScopeShown(t, es[i]) {
      assert ScopeShown(s, es[i]);
      var k: nat :| ShowsScope(s, k, es[i]);
      assert ShowsScope(t, k, es[i]);
    }
  }

  lemma ResourcesShownStay(s: Server, t: Server, es: seq<ResourceEntry>)
    requires ResourcesShown(s, es) && t == s.(policies := t.policies)
    ensures ResourcesShown(t, es)
  {
    hide IsLast, CarriesEntry;
    forall i: nat | i < |es| && IsLast(ResourceEntryNames(es), i) ensures ResourceShown(t, es[i]) {
      assert ResourceShown(s, es[i]);
      var k: nat :| ShowsResource(s, k, es[i]);
      EntrySame(s, t, s.resources[k], es[i]);
      assert ShowsResource(t, k, es[i]);
    }
  }
}
