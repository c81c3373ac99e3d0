/** What importing one policy, creating one and updating the settings answer and store,
    over what was sent and the tables before (internal/admin/authzimport.go:764-826,
    authzpolicy.go:782-896, authz.go:313-364). */
module AuthzPolicyEffects {
  import opened Basics
  import opened AuthzModel
  import opened AuthzConfig
  import opened AuthzImport
  import opened AuthzResolution
  import opened AuthzImportEffects
  import opened AuthzPolicies

  // ----- a config with entries written over it -----

  predicate Holds(c: Config, k: string, v: Value) {
    (k, v) in c
  }

  /** `d` is `c` with the entries written over it: one value a key, each key sent as last
      sent and every other as it was. */
  ghost predicate SentOver(c: Config, entries: Config, d: Config) {
    && NoRepeats(Keys(d))
    && forall k, v :: Holds(d, k, v) <==> LastSent(entries, k, v) || (k !in Keys(entries) && Holds(c, k, v))
  }

  lemma HeldReads(c: Config, k: string, v: Value)
    requires NoRepeats(Keys(c))
    ensures Holds(c, k, v) <==> ConfigValue(c, k) == Some(v)
  {
    if Holds(c, k, v) {
      var i :| 0 <= i < |c| && c[i] == (k, v);
      FindUnique(Keys(c), i);
    }
  }

  lemma {:induction false} SomeLast(entries: Config, k: string)
    requires k in Keys(entries)
    ensures exists v :: LastSent(entries, k, v)
  {
    var n := |entries| - 1;
    if entries[n].0 == k {
      assert entries[n] == (k, entries[n].1);
      assert LastSent(entries, k, entries[n].1);
    } else {
      assert Keys(entries[..n]) == Keys(entries)[..n];
      SomeLast(entries[..n], k);
      var v :| LastSent(entries[..n], k, v);
      var i :| 0 <= i < n && entries[..n][i] == (k, v) && forall j | i < j < n :: entries[..n][j].0 != k;
      assert entries[i] == (k, v);
      forall j | i < j < |entries| ensures entries[j].0 != k { if j < n { assert entries[..n][j].0 != k; } }
      assert LastSent(entries, k, v);
    }
  }

  /** Writing the entries one after another writes them over the config. */
  lemma SentOverIs(c: Config, entries: Config)
    requires NoRepeats(Keys(c))
    ensures SentOver(c, entries, SetAll(c, entries))
  {
    hide NoRepeats, Keys, ConfigValue, SetAll, LastSent, Holds;
    var d := SetAll(c, entries);
    WritesNoRepeats(c, entries);
    forall k, v ensures Holds(d, k, v) <==> LastSent(entries, k, v) || (k !in Keys(entries) && Holds(c, k, v)) {
      WritesRead(c, entries, k);
      HeldReads(d, k, v);
      HeldReads(c, k, v);
      if k in Keys(entries) {
        SomeLast(entries, k);
      } else {
        SentKey(entries, k, v);
      }
    }
  }

  lemma SentKey(entries: Config, k: string, v: Value)
    ensures LastSent(entries, k, v) ==> k in Keys(entries)
  {
    if LastSent(entries, k, v) {
      var i :| 0 <= i < |entries| && entries[i] == (k, v);
      assert Keys(entries)[i] == k;
    }
  }

  // ----- importing one policy -----

  predicate PolicyNamed(s: Server, name: string, i: nat) {
    i < |s.policies| && s.policies[i].name == name
  }

  predicate PolicyHeld(s: Server, id: string, i: nat) {
    i < |s.policies| && s.policies[i].id == id
  }

  lemma PolicyRows(s: Server)
    requires Unique(s)
    ensures forall x :: x in PolicyNames(s.policies) <==> exists i: nat :: PolicyNamed(s, x, i)
    ensures forall x :: x in PolicyIds(s.policies) <==> exists i: nat :: PolicyHeld(s, x, i)
    ensures forall x, i: nat, j: nat | PolicyNamed(s, x, i) && PolicyNamed(s, x, j) :: i == j
  {
    var names, ids := PolicyNames(s.policies), PolicyIds(s.policies);
    forall x, i: nat, j: nat | PolicyNamed(s, x, i) && PolicyNamed(s, x, j) ensures i == j {
      assert names[i] == names[j];
    }
    forall x ensures x in names <==> exists i: nat :: PolicyNamed(s, x, i) {
      if x in names {
        var k :| 0 <= k < |names| && names[k] == x;
        assert PolicyNamed(s, x, k);
      }
      if i: nat :| PolicyNamed(s, x, i) { assert names[i] == x; }
    }
    forall x ensures x in ids <==> exists i: nat :: PolicyHeld(s, x, i) {
      if x in ids {
        var k :| 0 <= k < |ids| && ids[k] == x;
        assert PolicyHeld(s, x, k);
      }
      if i: nat :| PolicyHeld(s, x, i) { assert ids[i] == x; }
    }
  }

  function EntriesOf(e: PolicyEntry): Config {
    match e.config case Some(c) => c case None => []
  }

  /** A config the write refuses: an association that names nothing, or the provider's own
      value when it cannot be taken. */
  ghost predicate Unusable(realm: Realm, s: Server, kind: string, c: Config) {
    FaultyIn(s, c) || OwnRefused(realm, kind, c)
  }

  /** An absent field takes the default, a null one is stored empty. */
  predicate EnumIs(field: EnumField, default: string, v: string) {
    && (field == Absent ==> v == default)
    && (field == Null ==> v == "")
    && (field.Given? ==> v == field.value)
  }

  /** Row `i` is merged into: description and owner are those sent, the config is `d`
      normalised, and the rest stays. */
  ghost predicate PolicyMerged(realm: Realm, s: Server, t: Server, i: nat, e: PolicyEntry, d: Config, q: Policy) {
    && i < |s.policies| && t == s.(policies := s.policies[i := q])
    && NormalisedTo(realm, s, s.policies[i].(description := e.description, owner := e.owner, config := d), q)
  }

  /** One policy is added, as sent. */
  ghost predicate PolicyImported(env: Env, realm: Realm, s: Server, t: Server, e: PolicyEntry, d: Config, q: Policy) {
    && t == s.(policies := s.policies + [q])
    && (if e.id != "" then q.id == e.id else q.id != "" && q.id !in UsedIds(s, env))
    && q.name == e.name && q.description == e.description && q.kind == e.kind && q.owner == e.owner
    && EnumIs(e.logic, "POSITIVE", q.logic) && EnumIs(e.strategy, "UNANIMOUS", q.strategy)
    && NormalisedTo(realm, s, q.(config := d, policies := [], resources := [], scopes := []), q)
  }

  ghost predicate IdTaken(env: Env, s: Server, id: string) {
    id in env.foreign || exists i: nat :: PolicyHeld(s, id, i)
  }

  /** An entry without a name is skipped. Over a held name its description, owner and
      config are merged in; a new name is added. It is refused exactly for a config that
      cannot be used, a type that is none of the nine, or an id in use. */
  lemma ImportPolicyEffect(env: Env, realm: Realm, s: Server, e: PolicyEntry)
    requires ValidEnv(env) && Stored(s)
    ensures
      var o := ImportPolicy(env, realm, s, e);
      && (o.Err? ==> o.server == s)
      && (e.name == "" ==> o == Ok(s, ()))
      && (forall i: nat | e.name != "" && PolicyNamed(s, e.name, i) ::
            var d := SetAll(s.policies[i].config, EntriesOf(e));
            && SentOver(s.policies[i].config, EntriesOf(e), d)
            && (o.Err? <==> Unusable(realm, s, s.policies[i].kind, d))
            && (o.Err? ==> FailsAs(s, s.policies[i].kind, d, o.failure))
            && (o.Ok? ==> exists q :: PolicyMerged(realm, s, o.server, i, e, d, q)))
      && (e.name != "" && (forall i: nat :: !PolicyNamed(s, e.name, i)) ==>
            if !PolicyType(e.kind) then o == Err(s, ServerError)
            else
              var d := SetAll([], EntriesOf(e));
              && SentOver([], EntriesOf(e), d)
              && (o.Err? <==> Unusable(realm, s, e.kind, d) || (e.id != "" && IdTaken(env, s, e.id)))
              && (o.Err? ==> if Unusable(realm, s, e.kind, d) then FailsAs(s, e.kind, d, o.failure)
                             else o.failure == ServerError)
              && (o.Ok? ==> exists q :: PolicyImported(env, realm, s, o.server, e, d, q)))
  {
    hide *;
    if e.name == "" {
      UnnamedPolicy(env, realm, s, e);
    } else {
      NamedRows(s, e.name);
      if i: nat :| PolicyNamed(s, e.name, i) {
        forall j: nat | PolicyNamed(s, e.name, j) ensures j == i { OneNamed(s, e.name, i, j); }
        MergesInto(env, realm, s, e, i);
      } else {
        AddsPolicy(env, realm, s, e);
      }
    }
  }

  lemma UnnamedPolicy(env: Env, realm: Realm, s: Server, e: PolicyEntry)
    requires e.name == ""
    ensures ImportPolicy(env, realm, s, e) == Ok(s, ())
  {
  }

  lemma NamedRows(s: Server, name: string)
    requires Stored(s)
    ensures name in PolicyNames(s.policies) <==> exists i: nat :: PolicyNamed(s, name, i)
  {
    PolicyRows(s);
    hide Unique;
  }

  lemma OneNamed(s: Server, name: string, i: nat, j: nat)
    requires Stored(s) && PolicyNamed(s, name, i) && PolicyNamed(s, name, j)
    ensures i == j
  {
    PolicyRows(s);
    hide Unique;
  }

  lemma MergesInto(env: Env, realm: Realm, s: Server, e: PolicyEntry, i: nat)
    requires Stored(s) && e.name != "" && PolicyNamed(s, e.name, i)
    ensures
      var o := ImportPolicy(env, realm, s, e);
      var d := SetAll(s.policies[i].config, EntriesOf(e));
      && (o.Err? ==> o.server == s)
      && SentOver(s.policies[i].config, EntriesOf(e), d)
      && (o.Err? <==> Unusable(realm, s, s.policies[i].kind, d))
      && (o.Err? ==> FailsAs(s, s.policies[i].kind, d, o.failure))
      && (o.Ok? ==> exists q :: PolicyMerged(realm, s, o.server, i, e, d, q))
  {
    var was := s.policies[i];
    FindUnique(PolicyNames(s.policies), i);
    StoredRow(s, i);
    hide Stored, Normalise, NormalisedTo, FaultyIn, OwnRefused, FailsAs, SentOver, Storable, SetAll;
    SentOverStorable(was, EntriesOf(e), e.description, e.owner);
    var d := SetAll(was.config, EntriesOf(e));
    var p := was.(description := e.description, owner := e.owner, config := d);
    NormaliseExactly(realm, s, p);
    var n := Normalise(realm, s, p);
    if n.Done? {
      NormaliseStorable(realm, s, p);
      assert PolicyMerged(realm, s, ImportPolicy(env, realm, s, e).server, i, e, d, n.policy);
    }
  }

  lemma StoredRow(s: Server, i: nat)
    requires Stored(s) && i < |s.policies|
    ensures Storable(s.policies[i]) && NoRepeats(PolicyNames(s.policies))
  {
    assert s.policies[i] in s.policies;
    hide NoRepeats, Keys, KindOfKey, TidyResource;
  }

  lemma SentOverStorable(was: Policy, entries: Config, description: string, owner: string)
    requires Storable(was)
    ensures SentOver(was.config, entries, SetAll(was.config, entries))
    ensures Storable(was.(description := description, owner := owner, config := SetAll(was.config, entries)))
  {
    SentOverIs(was.config, entries);
  }

  lemma AddsPolicy(env: Env, realm: Realm, s: Server, e: PolicyEntry)
    requires ValidEnv(env) && Stored(s) && e.name != "" && e.name !in PolicyNames(s.policies)
    ensures
      var o := ImportPolicy(env, realm, s, e);
      && (o.Err? ==> o.server == s)
      && if !PolicyType(e.kind) then o == Err(s, ServerError)
         else
           var d := SetAll([], EntriesOf(e));
           && SentOver([], EntriesOf(e), d)
           && (o.Err? <==> Unusable(realm, s, e.kind, d) || (e.id != "" && IdTaken(env, s, e.id)))
           && (o.Err? ==> if Unusable(realm, s, e.kind, d) then FailsAs(s, e.kind, d, o.failure)
                          else o.failure == ServerError)
           && (o.Ok? ==> exists q :: PolicyImported(env, realm, s, o.server, e, d, q))
  {
    IdsHeld(s);
    hide Stored, Normalise, NormalisedTo, FaultyIn, OwnRefused, FailsAs, SentOver, Storable, SetAll, UsedIds,
         PolicyHeld, PolicyType;
    var d := SetAll([], EntriesOf(e));
    var p := Entry(env, s, e, d);
    NewId(env, s);
    EmptyStorable(p, EntriesOf(e));
    NormaliseExactly(realm, s, p);
    var n := Normalise(realm, s, p);
    if PolicyType(e.kind) && n.Done? {
      NormaliseStorable(realm, s, p);
      NormalisedRow(realm, s, p, n.policy);
      if ImportPolicy(env, realm, s, e).Ok? {
        assert PolicyImported(env, realm, s, ImportPolicy(env, realm, s, e).server, e, d, n.policy);
      }
    }
  }

  function Entry(env: Env, s: Server, e: PolicyEntry, d: Config): Policy {
    Policy(if e.id != "" then e.id else env.newId(UsedIds(s, env)), e.name, e.description, e.kind,
           EnumOr(e.logic, "POSITIVE"), EnumOr(e.strategy, "UNANIMOUS"), e.owner, d, [], [], [])
  }

  lemma IdsHeld(s: Server)
    requires Stored(s)
    ensures forall x :: x in PolicyIds(s.policies) <==> exists i: nat :: PolicyHeld(s, x, i)
  {
    PolicyRows(s);
    hide Unique, PolicyNamed;
  }

  lemma NewId(env: Env, s: Server)
    requires ValidEnv(env)
    ensures
      var id := env.newId(UsedIds(s, env));
      id != "" && id !in UsedIds(s, env) && id !in env.foreign && id !in PolicyIds(s.policies)
  {
  }

  lemma EmptyStorable(p: Policy, entries: Config)
    requires p.config == SetAll([], entries) && p.policies == p.resources == p.scopes == []
    ensures SentOver([], entries, p.config) && Storable(p)
  {
    SentOverIs([], entries);
  }

  /** Normalisation leaves the row's own fields alone. */
  lemma NormalisedRow(realm: Realm, s: Server, p: Policy, q: Policy)
    requires NormalisedTo(realm, s, p, q)
    ensures q == p.(config := q.config, policies := q.policies, resources := q.resources, scopes := q.scopes)
    ensures p == q.(config := p.config, policies := p.policies, resources := p.resources, scopes := p.scopes)
  {
    hide Gained, Keeps, Reads;
  }

  /** How a policy written from `d` reads: each plain key sent as last sent and every other
      as before, its own key resolved, and no association key. */
  lemma ReadsAsSent(realm: Realm, s: Server, c: Config, entries: Config, p: Policy, q: Policy)
    requires NoRepeats(Keys(c)) && SentOver(c, entries, p.config) && NormalisedTo(realm, s, p, q)
    ensures forall k, v | KindOfKey(k) == None && DefaultKey(p.kind) != Some(k) && LastSent(entries, k, v) ::
              ConfigValue(q.config, k) == Some(v)
    ensures forall k | KindOfKey(k) == None && DefaultKey(p.kind) != Some(k) && k !in Keys(entries) ::
              ConfigValue(q.config, k) == ConfigValue(c, k)
    ensures forall k | KindOfKey(k).Some? :: ConfigValue(q.config, k) == None
  {
    hide KindOfKey, DefaultKey, ConfigValue, Keys, NoRepeats, LastSent, ImportValue, Gained, Keeps, Holds;
    var d := p.config;
    forall k ensures ConfigValue(q.config, k) == Reads(realm, p.kind, d, k) {}
    forall k, v | LastSent(entries, k, v) ensures ConfigValue(d, k) == Some(v) {
      HeldReads(d, k, v);
    }
    forall k | k !in Keys(entries) ensures ConfigValue(d, k) == ConfigValue(c, k) {
      SameReads(c, entries, d, k);
    }
  }

  lemma SameReads(c: Config, entries: Config, d: Config, k: string)
    requires NoRepeats(Keys(c)) && SentOver(c, entries, d) && k !in Keys(entries)
    ensures ConfigValue(d, k) == ConfigValue(c, k)
  {
    hide ConfigValue, Keys, NoRepeats, LastSent, Holds;
    if ConfigValue(c, k).Some? {
      HeldReads(c, k, ConfigValue(c, k).value);
      HeldReads(d, k, ConfigValue(c, k).value);
    } else if ConfigValue(d, k).Some? {
      var v := ConfigValue(d, k).value;
      HeldReads(d, k, v);
      SentKey(entries, k, v);
      HeldReads(c, k, v);
    }
  }

  /** Over a held name: id, type, logic and strategy stay, the description and the owner
      are those sent, no association is lost, and the config reads as sent over what it
      held. */
  lemma MergedReads(realm: Realm, s: Server, t: Server, i: nat, e: PolicyEntry, q: Policy)
    requires Stored(s) && i < |s.policies|
    requires PolicyMerged(realm, s, t, i, e, SetAll(s.policies[i].config, EntriesOf(e)), q)
    ensures
      var was := s.policies[i];
      && q.id == was.id && q.name == was.name
      && q.kind == was.kind && q.logic == was.logic && q.strategy == was.strategy
      && q.description == e.description && q.owner == e.owner
      && (forall kind :: AssociationSet(was, kind) <= AssociationSet(q, kind))
      && (forall k, v | KindOfKey(k) == None && DefaultKey(was.kind) != Some(k) && LastSent(EntriesOf(e), k, v) ::
            ConfigValue(q.config, k) == Some(v))
      && (forall k | KindOfKey(k) == None && DefaultKey(was.kind) != Some(k) && k !in Keys(EntriesOf(e)) ::
            ConfigValue(q.config, k) == ConfigValue(was.config, k))
  {
    var was := s.policies[i];
    StoredRow(s, i);
    hide Stored, KindOfKey, DefaultKey, ConfigValue, LastSent, EntriesOf, Keys, SetAll, NoRepeats, Gained, Reads,
         SentOver;
    var d := SetAll(was.config, EntriesOf(e));
    SentOverIs(was.config, EntriesOf(e));
    var p := was.(description := e.description, owner := e.owner, config := d);
    ReadsAsSent(realm, s, was.config, EntriesOf(e), p, q);
    forall kind ensures AssociationSet(was, kind) <= AssociationSet(q, kind) {
      assert Keeps(p, q, kind) && AssociationSet(p, kind) == AssociationSet(was, kind);
    }
  }

  // ----- creating a policy -----

  /** A row of that kind has the reference for its id or its name. */
  predicate Refers(s: Server, kind: Kind, ref: string, k: nat) {
    k < |TargetIds(s, kind)| && (TargetIds(s, kind)[k] == ref || TargetNames(s, kind)[k] == ref)
  }

  /** `id` is the first row's that the reference names. */
  ghost predicate FirstReferred(s: Server, kind: Kind, ref: string, id: string) {
    exists k: nat :: FirstRefers(s, kind, ref, k) && TargetIds(s, kind)[k] == id
  }

  ghost predicate FirstRefers(s: Server, kind: Kind, ref: string, k: nat) {
    Refers(s, kind, ref, k) && forall j: nat | j < k :: !Refers(s, kind, ref, j)
  }

  lemma {:induction false} FirstNamedIs(ids: seq<string>, names: seq<string>, ref: string)
    requires |ids| == |names|
    ensures forall j | 0 <= j < FirstNamed(ids, names, ref) :: ids[j] != ref && names[j] != ref
  {
    if ids != [] && ids[0] != ref && names[0] != ref {
      FirstNamedIs(ids[1..], names[1..], ref);
      forall j | 0 <= j < FirstNamed(ids, names, ref) ensures ids[j] != ref && names[j] != ref {
        if j > 0 { assert ids[j] == ids[1..][j - 1] && names[j] == names[1..][j - 1]; }
      }
    }
  }

  /** No row has the reference for its id or its name, or the first that does has the
      empty id. */
  ghost predicate Unreferred(s: Server, kind: Kind, ref: string) {
    (forall k: nat :: !Refers(s, kind, ref, k)) || FirstReferred(s, kind, ref, "")
  }

  lemma OneRefers(s: Server, kind: Kind, ref: string)
    ensures
      var i := FirstNamed(TargetIds(s, kind), TargetNames(s, kind), ref);
      && (i < 0 || TargetIds(s, kind)[i] == "" <==> Unreferred(s, kind, ref))
      && (i >= 0 ==> FirstReferred(s, kind, ref, TargetIds(s, kind)[i]))
  {
    var ids, names := TargetIds(s, kind), TargetNames(s, kind);
    FirstNamedIs(ids, names, ref);
    var i := FirstNamed(ids, names, ref);
    hide TargetIds, TargetNames;
    if i >= 0 {
      assert FirstRefers(s, kind, ref, i);
      forall k: nat | FirstRefers(s, kind, ref, k) ensures k == i {}
    } else {
      forall k: nat ensures !Refers(s, kind, ref, k) { if k < |ids| { assert ids[k] in ids && names[k] in names; } }
    }
  }

  /** A list of references names its rows one for one, and is refused exactly when one of
      them names none. */
  lemma {:induction false} RefsByEntry(s: Server, kind: Kind, refs: seq<string>)
    ensures ResolveRefs(s, kind, refs) == None <==> exists i :: 0 <= i < |refs| && Unreferred(s, kind, refs[i])
    ensures ResolveRefs(s, kind, refs).Some? ==>
      var ids := ResolveRefs(s, kind, refs).value;
      |ids| == |refs| && forall i | 0 <= i < |refs| :: FirstReferred(s, kind, refs[i], ids[i])
  {
    hide FirstReferred, FirstNamed, TargetIds, TargetNames, Refers;
    if refs != [] {
      OneRefers(s, kind, refs[0]);
      RefsByEntry(s, kind, refs[1..]);
      if i :| 0 <= i < |refs| && Unreferred(s, kind, refs[i]) { if i > 0 { assert refs[1..][i - 1] == refs[i]; } }
      if i :| 0 <= i < |refs[1..]| && Unreferred(s, kind, refs[1..][i]) { assert refs[i + 1] == refs[1..][i]; }
    }
  }

  /** The body asks for an association no row answers to. */
  ghost predicate Unanswered(s: Server, kind: Kind, refs: Option<seq<string>>) {
    refs.Some? && exists i :: 0 <= i < |refs.value| && Unreferred(s, kind, refs.value[i])
  }

  /** The ids a body's list names; an absent list names none. */
  ghost predicate Answered(s: Server, kind: Kind, refs: Option<seq<string>>, ids: seq<string>) {
    match refs
    case None => ids == []
    case Some(refs) => |ids| == |refs| && forall i | 0 <= i < |refs| :: FirstReferred(s, kind, refs[i], ids[i])
  }

  lemma FieldIs(s: Server, kind: Kind, refs: Option<seq<string>>)
    ensures
      var f := ResolveField(s, kind, refs);
      && (f == None <==> Unanswered(s, kind, refs))
      && (f.Some? ==> Answered(s, kind, refs, f.value))
  {
    if refs.Some? { RefsByEntry(s, kind, refs.value); }
    hide ResolveRefs, Unreferred, FirstReferred;
  }

  /** A row is stored unless its config sends a plain key twice or names a target twice. */
  lemma StorableExactly(realm: Realm, s: Server, p: Policy)
    requires Normalise(realm, s, p).Done?
    ensures
      Storable(Normalise(realm, s, p).policy) <==> NoRepeats(Keys(PlainPart(p.config))) && SetsNoRepeats(p)
  {
    hide Consume, NoRepeats, Keys, KindOfKey, ImportValue, ConfigValue, SetConfig, DefaultKey, PlainPart, ConsumedTo;
    ConsumeIs(s, p, p.config, []);
    var m := Consume(s, p, p.config, []).policy;
    ConsumedKind(s, p, m);
    ConsumedSets(s, p, m);
    if SetsNoRepeats(p) { ConsumeNoRepeats(s, p, p.config, []); }
    if DefaultKey(m.kind).Some? {
      var key := DefaultKey(m.kind).value;
      var c := if ConfigValue(m.config, key).Some? then m.config else SetConfig(m.config, key, EmptyArray);
      WriteRepeats(m.config, key, EmptyArray);
      if ConfigValue(c, key).Some? && ImportValue(realm, m.kind, ConfigValue(c, key).value).Some? {
        WriteRepeats(c, key, ImportValue(realm, m.kind, ConfigValue(c, key).value).value);
      }
    }
  }

  lemma ConsumedSets(s: Server, p: Policy, m: Policy)
    requires ConsumedTo(s, p, p.config, [], m)
    ensures SetsNoRepeats(m) ==> SetsNoRepeats(p)
  {
    hide AskedIn, Gained, PlainPart;
    assert Keeps(p, m, OfPolicy) && Keeps(p, m, OfResource) && Keeps(p, m, OfScope);
    PrefixNoRepeats(p.policies, m.policies);
    PrefixNoRepeats(p.resources, m.resources);
    PrefixNoRepeats(p.scopes, m.scopes);
  }

  lemma PrefixNoRepeats(a: seq<string>, b: seq<string>)
    requires a <= b
    ensures NoRepeats(b) ==> NoRepeats(a)
  {
  }

  lemma WriteRepeats(c: Config, key: string, v: Value)
    ensures NoRepeats(Keys(SetConfig(c, key, v))) <==> NoRepeats(Keys(c))
  {
    if NoRepeats(Keys(c)) { WriteNoRepeats(c, key, v); }
    var i := Find(Keys(c), key);
    if i < 0 {
      assert Keys(SetConfig(c, key, v)) == Keys(c) + [key];
      PrefixNoRepeats(Keys(c), Keys(SetConfig(c, key, v)));
    } else {
      assert Keys(SetConfig(c, key, v)) == Keys(c);
    }
  }

  function BodyConfig(b: PolicyBody): Config {
    match b.config case Some(c) => c case None => []
  }

  /** One policy is added, as sent, its associations those its three lists name and those
      its config asks for. */
  ghost predicate PolicyCreated(env: Env, realm: Realm, s: Server, t: Server, b: PolicyBody, q: Policy,
                                policies: seq<string>, resources: seq<string>, scopes: seq<string>)
  {
    && t == s.(policies := s.policies + [q])
    && (if b.id.Some? then q.id == b.id.value else q.id != "" && q.id !in UsedIds(s, env))
    && Some(q.name) == b.name && q.description == b.description && Some(q.kind) == b.kind && q.owner == b.owner
    && EnumIs(b.logic, "POSITIVE", q.logic) && EnumIs(b.strategy, "UNANIMOUS", q.strategy)
    && NormalisedTo(realm, s,
                    q.(config := BodyConfig(b), policies := policies, resources := resources, scopes := scopes), q)
  }

  /** Some list names a row twice, or a plain config key is sent twice. */
  predicate Repeating(b: PolicyBody, policies: seq<string>, resources: seq<string>, scopes: seq<string>) {
    !NoRepeats(Keys(PlainPart(BodyConfig(b)))) || !NoRepeats(policies) || !NoRepeats(resources) || !NoRepeats(scopes)
  }

  /** The create's refusals in order, and the policy it stores when there is none. */
  lemma CreatePolicyEffect(env: Env, realm: Realm, s: Server, b: PolicyBody)
    requires ValidEnv(env) && Stored(s)
    ensures
      var o := DoCreatePolicy(env, realm, s, b);
      && (o.Err? ==> o.server == s)
      && if b.name.Some? && exists i: nat :: PolicyNamed(s, b.name.value, i) then o == Err(s, NameTaken)
         else if Unanswered(s, OfPolicy, b.policies) || Unanswered(s, OfResource, b.resources) then
           o == Err(s, ServerError)
         else if Unanswered(s, OfScope, b.scopes) then o == Err(s, BadRequest)
         else if b.name == None || b.kind == None then o == Err(s, Conflict)
         else if !PolicyType(b.kind.value) then o == Err(s, ServerError)
         else exists policies, resources, scopes ::
           PolicyDecided(env, realm, s, b, o, policies, resources, scopes)
  {
    hide *;
    FieldIs(s, OfPolicy, b.policies);
    FieldIs(s, OfResource, b.resources);
    FieldIs(s, OfScope, b.scopes);
    if b.name.Some? { NamedRows(s, b.name.value); }
    CreateRefuses(env, realm, s, b);
    if b.name.Some? && b.kind.Some? && b.name.value !in PolicyNames(s.policies) && PolicyType(b.kind.value)
      && ResolveField(s, OfPolicy, b.policies).Some? && ResolveField(s, OfResource, b.resources).Some?
      && ResolveField(s, OfScope, b.scopes).Some?
    {
      CreateDecides(env, realm, s, b);
    }
  }

  /** What is left when nothing in the body's lists, name or type refuses it. */
  ghost predicate PolicyDecided(env: Env, realm: Realm, s: Server, b: PolicyBody, o: Outcome<()>,
                                policies: seq<string>, resources: seq<string>, scopes: seq<string>)
  {
    && Answered(s, OfPolicy, b.policies, policies) && Answered(s, OfResource, b.resources, resources)
    && Answered(s, OfScope, b.scopes, scopes) && b.kind.Some?
    && (o.Err? <==> Unusable(realm, s, b.kind.value, BodyConfig(b)) || Repeating(b, policies, resources, scopes)
                    || (b.id.Some? && IdTaken(env, s, b.id.value)))
    && (o.Err? ==>
          if Unusable(realm, s, b.kind.value, BodyConfig(b)) then FailsAs(s, b.kind.value, BodyConfig(b), o.failure)
          else o.failure == Conflict)
    && (o.Ok? ==> exists q :: PolicyCreated(env, realm, s, o.server, b, q, policies, resources, scopes))
  }

  lemma CreateRefuses(env: Env, realm: Realm, s: Server, b: PolicyBody)
    ensures
      var o := DoCreatePolicy(env, realm, s, b);
      && (o.Err? ==> o.server == s)
      && if b.name.Some? && b.name.value in PolicyNames(s.policies) then o == Err(s, NameTaken)
         else if ResolveField(s, OfPolicy, b.policies) == None || ResolveField(s, OfResource, b.resources) == None then
           o == Err(s, ServerError)
         else if ResolveField(s, OfScope, b.scopes) == None then o == Err(s, BadRequest)
         else if b.name == None || b.kind == None then o == Err(s, Conflict)
         else if !PolicyType(b.kind.value) then o == Err(s, ServerError)
         else true
  {
    hide ResolveField, Normalise, AddPolicy, UsedIds, PolicyType, EnumOr;
  }

  function CreateRow(env: Env, s: Server, b: PolicyBody, policies: seq<string>, resources: seq<string>,
    scopes: seq<string>): Policy
    requires b.name.Some? && b.kind.Some?
  {
    var id := match b.id case Some(id) => id case None => env.newId(UsedIds(s, env));
    Policy(id, b.name.value, b.description, b.kind.value, EnumOr(b.logic, "POSITIVE"), EnumOr(b.strategy, "UNANIMOUS"),
           b.owner, BodyConfig(b), policies, resources, scopes)
  }

  /** Normalising a row and adding it. */
  function Adding(env: Env, realm: Realm, s: Server, p: Policy): Outcome<()> {
    match Normalise(realm, s, p)
    case Bad(f) => Err(s, f)
    case Done(q) => match AddPolicy(env, s, q) case None => Err(s, Conflict) case Some(t) => Ok(t, ())
  }

  lemma CreateAdds(env: Env, realm: Realm, s: Server, b: PolicyBody)
    requires b.name.Some? && b.kind.Some? && b.name.value !in PolicyNames(s.policies) && PolicyType(b.kind.value)
    requires ResolveField(s, OfPolicy, b.policies).Some? && ResolveField(s, OfResource, b.resources).Some?
    requires ResolveField(s, OfScope, b.scopes).Some?
    ensures DoCreatePolicy(env, realm, s, b)
         == Adding(env, realm, s, CreateRow(env, s, b, ResolveField(s, OfPolicy, b.policies).value,
                                            ResolveField(s, OfResource, b.resources).value,
                                            ResolveField(s, OfScope, b.scopes).value))
  {
    hide ResolveField, Normalise, AddPolicy, UsedIds, PolicyType, EnumOr;
  }

  lemma AddingIs(env: Env, realm: Realm, s: Server, p: Policy)
    requires Stored(s) && p.name !in PolicyNames(s.policies)
    ensures
      var o := Adding(env, realm, s, p);
      && (o.Err? <==> Unusable(realm, s, p.kind, p.config) || !NoRepeats(Keys(PlainPart(p.config))) || !SetsNoRepeats(p)
                      || IdTaken(env, s, p.id))
      && (o.Err? ==> if Unusable(realm, s, p.kind, p.config) then FailsAs(s, p.kind, p.config, o.failure)
                     else o.failure == Conflict)
      && (o.Ok? ==> exists q :: NormalisedTo(realm, s, p, q) && o.server == s.(policies := s.policies + [q]))
  {
    IdsHeld(s);
    hide Stored, Normalise, NormalisedTo, FaultyIn, OwnRefused, FailsAs, Storable, PolicyHeld, NoRepeats, PlainPart,
         Keys;
    NormaliseExactly(realm, s, p);
    var n := Normalise(realm, s, p);
    if n.Done? {
      StorableExactly(realm, s, p);
      NormalisedRow(realm, s, p, n.policy);
    }
  }

  lemma CreateDecides(env: Env, realm: Realm, s: Server, b: PolicyBody)
    requires ValidEnv(env) && Stored(s)
    requires b.name.Some? && b.kind.Some? && b.name.value !in PolicyNames(s.policies) && PolicyType(b.kind.value)
    requires ResolveField(s, OfPolicy, b.policies).Some? && ResolveField(s, OfResource, b.resources).Some?
    requires ResolveField(s, OfScope, b.scopes).Some?
    ensures PolicyDecided(env, realm, s, b, DoCreatePolicy(env, realm, s, b),
                          ResolveField(s, OfPolicy, b.policies).value,
                          ResolveField(s, OfResource, b.resources).value, ResolveField(s, OfScope, b.scopes).value)
  {
    hide *;
    var policies, resources, scopes := ResolveField(s, OfPolicy, b.policies).value,
      ResolveField(s, OfResource, b.resources).value, ResolveField(s, OfScope, b.scopes).value;
    FieldIs(s, OfPolicy, b.policies);
    FieldIs(s, OfResource, b.resources);
    FieldIs(s, OfScope, b.scopes);
    var p := CreateRow(env, s, b, policies, resources, scopes);
    CreateAdds(env, realm, s, b);
    RowKeepsName(env, s, b, policies, resources, scopes);
    AddingIs(env, realm, s, p);
    Decided(env, realm, s, b, DoCreatePolicy(env, realm, s, b), policies, resources, scopes);
  }

  lemma RowKeepsName(env: Env, s: Server, b: PolicyBody, policies: seq<string>, resources: seq<string>,
                     scopes: seq<string>)
    requires b.name.Some? && b.kind.Some?
    ensures CreateRow(env, s, b, policies, resources, scopes).name == b.name.value
  {
  }

  lemma Decided(env: Env, realm: Realm, s: Server, b: PolicyBody, o: Outcome<()>, policies: seq<string>,
                resources: seq<string>, scopes: seq<string>)
    requires ValidEnv(env) && Stored(s) && b.name.Some? && b.kind.Some?
    requires Answered(s, OfPolicy, b.policies, policies) && Answered(s, OfResource, b.resources, resources)
    requires Answered(s, OfScope, b.scopes, scopes)
    requires
      var p := CreateRow(env, s, b, policies, resources, scopes);
      && (o.Err? <==> Unusable(realm, s, p.kind, p.config) || !NoRepeats(Keys(PlainPart(p.config))) || !SetsNoRepeats(p)
                      || IdTaken(env, s, p.id))
      && (o.Err? ==> if Unusable(realm, s, p.kind, p.config) then FailsAs(s, p.kind, p.config, o.failure)
                     else o.failure == Conflict)
      && (o.Ok? ==> exists q :: NormalisedTo(realm, s, p, q) && o.server == s.(policies := s.policies + [q]))
    ensures PolicyDecided(env, realm, s, b, o, policies, resources, scopes)
  {
    IdsHeld(s);
    NewId(env, s);
    hide Stored, Unusable, FailsAs, UsedIds, PolicyHeld, Answered, NoRepeats, PlainPart, Keys, NormalisedTo, BodyConfig;
    var p := CreateRow(env, s, b, policies, resources, scopes);
    if o.Ok? {
      var q :| NormalisedTo(realm, s, p, q) && o.server == s.(policies := s.policies + [q]);
      NormalisedRow(realm, s, p, q);
      assert PolicyCreated(env, realm, s, o.server, b, q, policies, resources, scopes);
    }
  }

  // ----- the settings -----

  /** The strategy decides first; an accepted update stores the strategy sent, the mode
      sent or ENFORCING, and the switch sent or true, and touches nothing else. */
  lemma PutSettingsEffect(s: Server, allowRemote: Option<bool>, mode: string, strategy: Option<string>)
    ensures
      var o := DoPutSettings(s, allowRemote, mode, strategy);
      && (o.Ok? <==> strategy in {Some("AFFIRMATIVE"), Some("UNANIMOUS")}
                     && mode in {"", "ENFORCING", "PERMISSIVE", "DISABLED"})
      && (o.Err? ==> o.server == s)
      && (o == Err(s, Conflict) <==> strategy == None)
      && (o == Err(s, ServerError) <==> strategy == Some("CONSENSUS"))
      && (o.Ok? ==> SettingsStored(s, o.server, allowRemote, mode, strategy))
  {
  }

  predicate SettingsStored(s: Server, t: Server, allowRemote: Option<bool>, mode: string, strategy: Option<string>) {
    && t == s.(settings := t.settings)
    && (allowRemote == None ==> t.settings.allowRemote)
    && (allowRemote.Some? ==> t.settings.allowRemote == allowRemote.value)
    && (mode == "" ==> t.settings.mode == "ENFORCING") && (mode != "" ==> t.settings.mode == mode)
    && (strategy == None ==> t.settings.strategy == "UNANIMOUS")
    && (strategy.Some? ==> t.settings.strategy == strategy.value)
  }
}
