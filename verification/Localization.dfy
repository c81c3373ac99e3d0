/** A realm's localization documents: ordered key/value pairs per locale, with a
    state in which a locale is listed but has no document
    (internal/admin/localization.go). */
module Localization {
  import opened Basics
  import Ordering

  datatype Text = Text(key: string, value: string)
  type Doc = seq<Text>

  /** What a row holds: no document at all, or one. */
  datatype Stored = Absent | Present(doc: Doc)
  type Store = map<string, Stored>

  /** The rebucketing of the Java map: some permutation of the keys. */
  type Rebucket = seq<string> -> seq<string>

  ghost predicate Permutes(order: Rebucket) {
    forall keys :: multiset(order(keys)) == multiset(keys)
  }

  datatype Body = Nothing | Malformed | Texts(doc: Doc)

  datatype Op =
    | Post(locale: string, body: Body)
    | Put(locale: string, key: string, value: string)
    | DeleteKey(locale: string, key: string)
    | DeleteLocale(locale: string)

  datatype Answer = NoContent | NotFound | BadRequest | ServerError

  // ----- documents -----

  function Keys(doc: Doc): (r: seq<string>)
    ensures |r| == |doc| && forall i | 0 <= i < |doc| :: r[i] == doc[i].key
  {
    seq(|doc|, i requires 0 <= i < |doc| => doc[i].key)
  }

  /** Keys are distinct. */
  predicate Distinct(doc: Doc) {
    NoRepeats(Keys(doc))
  }

  /** The map a document stands for; a later pair wins. */
  function AsMap(doc: Doc): map<string, string> {
    if doc == [] then map[] else AsMap(doc[..|doc| - 1])[doc[|doc| - 1].key := doc[|doc| - 1].value]
  }

  lemma {:induction false} MapKeys(doc: Doc)
    ensures AsMap(doc).Keys == set k | k in Keys(doc)
  {
    if doc == [] {
      assert Keys(doc) == [];
    } else {
      var n := |doc| - 1;
      MapKeys(doc[..n]);
      assert Keys(doc) == Keys(doc[..n]) + [doc[n].key];
    }
  }

  /** One pair written over: in place, or at the end. */
  function PutOne(base: Doc, e: Text): Doc {
    var i := Find(Keys(base), e.key);
    if i < 0 then base + [e] else base[i := e]
  }

  function Merge(base: Doc, over: Doc): Doc
    decreases |over|
  {
    if over == [] then base else Merge(PutOne(base, over[0]), over[1..])
  }

  /** sameLocalizationTexts: equal lengths, and every pair of `b` is in `a`. */
  predicate Same(a: Doc, b: Doc) {
    |a| == |b| && forall e | e in b :: Has(AsMap(a), e)
  }

  predicate Has(m: map<string, string>, e: Text) {
    e.key in m && m[e.key] == e.value
  }

  /** The pairs of a map in the order of some keys. */
  function InOrder(m: map<string, string>, keys: seq<string>): (r: Doc)
    requires forall k | k in keys :: k in m
    ensures |r| == |keys| && forall i | 0 <= i < |keys| :: r[i] == Text(keys[i], m[keys[i]])
  {
    seq(|keys|, i requires 0 <= i < |keys| => assert keys[i] in keys; Text(keys[i], m[keys[i]]))
  }

  lemma PermutedKeys(order: Rebucket, keys: seq<string>)
    requires Permutes(order)
    ensures forall k :: k in order(keys) <==> k in keys
  {
    forall k ensures k in order(keys) <==> k in keys {
      assert multiset(order(keys)) == multiset(keys);
      assert k in multiset(order(keys)) <==> k in multiset(keys);
    }
  }

  /** orderLocalizationMerge. */
  function Reorder(order: Rebucket, doc: Doc): Doc
    requires Permutes(order)
  {
    PermutedKeys(order, Keys(doc));
    MapKeys(doc);
    InOrder(AsMap(doc), order(Keys(doc)))
  }

  /** The pairs with another key, in their order. */
  function WithoutKey(doc: Doc, key: string): Doc {
    if doc == [] then [] else (if doc[0].key == key then [] else [doc[0]]) + WithoutKey(doc[1..], key)
  }

  // ----- the writes -----

  function DoPost(order: Rebucket, s: Store, locale: string, body: Body): (Store, Answer)
    requires Permutes(order)
  {
    if locale in s && s[locale] == Absent then (s, ServerError)
    else
      match body
      case Nothing => (s[locale := Absent], NoContent)
      case Malformed => (s, BadRequest)
      case Texts(incoming) =>
        if locale !in s then (s[locale := Present(incoming)], NoContent)
        else
          var merged := Merge(s[locale].doc, incoming);
          if Same(s[locale].doc, merged) then (s, NoContent)
          else (s[locale := Present(Reorder(order, merged))], NoContent)
  }

  function DoPut(s: Store, locale: string, key: string, value: string): (Store, Answer) {
    if locale in s && s[locale] == Absent then (s, ServerError)
    else
      var doc := if locale in s then s[locale].doc else [];
      (s[locale := Present(Merge(doc, [Text(key, value)]))], NoContent)
  }

  function DoDeleteKey(s: Store, locale: string, key: string): (Store, Answer) {
    if locale !in s || s[locale] == Absent then (s, NotFound)
    else
      var kept := WithoutKey(s[locale].doc, key);
      if |kept| == |s[locale].doc| then (s, NotFound) else (s[locale := Present(kept)], NoContent)
  }

  function DoDeleteLocale(s: Store, locale: string): (Store, Answer) {
    if locale in s then (s - {locale}, NoContent) else (s, NotFound)
  }

  function Step(order: Rebucket, s: Store, op: Op): (Store, Answer)
    requires Permutes(order)
  {
    match op
    case Post(locale, body) => DoPost(order, s, locale, body)
    case Put(locale, key, value) => DoPut(s, locale, key, value)
    case DeleteKey(locale, key) => DoDeleteKey(s, locale, key)
    case DeleteLocale(locale) => DoDeleteLocale(s, locale)
  }

  /** Where a run ends and what it answered. */
  function Run(order: Rebucket, s: Store, ops: seq<Op>): (Store, seq<Answer>)
    requires Permutes(order)
    decreases |ops|
  {
    if ops == [] then (s, [])
    else
      var (t, a) := Step(order, s, ops[0]);
      var (u, rest) := Run(order, t, ops[1..]);
      (u, [a] + rest)
  }

  // ----- the plain map it refines -----

  /** The same writes on plain maps; None is the absent document. */
  type Plain = map<string, Option<map<string, string>>>

  function PlainStep(s: Plain, op: Op): (Plain, Answer) {
    match op
    case Post(locale, body) =>
      if locale in s && s[locale] == None then (s, ServerError)
      else
        (match body
         case Nothing => (s[locale := None], NoContent)
         case Malformed => (s, BadRequest)
         case Texts(doc) => (s[locale := Some((if locale in s then s[locale].value else map[]) + AsMap(doc))],
           NoContent))
    case Put(locale, key, value) =>
      if locale in s && s[locale] == None then (s, ServerError)
      else (s[locale := Some((if locale in s then s[locale].value else map[])[key := value])], NoContent)
    case DeleteKey(locale, key) =>
      if locale !in s || s[locale] == None || key !in s[locale].value then (s, NotFound)
      else (s[locale := Some(s[locale].value - {key})], NoContent)
    case DeleteLocale(locale) => if locale in s then (s - {locale}, NoContent) else (s, NotFound)
  }

  function PlainRun(s: Plain, ops: seq<Op>): (Plain, seq<Answer>)
    decreases |ops|
  {
    if ops == [] then (s, [])
    else
      var (t, a) := PlainStep(s, ops[0]);
      var (u, rest) := PlainRun(t, ops[1..]);
      (u, [a] + rest)
  }

  function PlainOf(x: Stored): Option<map<string, string>> {
    match x case Absent => None case Present(doc) => Some(AsMap(doc))
  }

  function Abstract(s: Store): Plain {
    map l | l in s :: PlainOf(s[l])
  }

  predicate AllDistinct(s: Store) {
    forall l | l in s :: s[l] == Absent || Distinct(s[l].doc)
  }

  /** A body whose keys do not repeat. */
  predicate RepeatFree(op: Op) {
    op.Post? && op.body.Texts? ==> Distinct(op.body.doc)
  }

  // ----- merging -----

  lemma {:induction false} ReadsAsMap(doc: Doc, i: nat)
    requires Distinct(doc) && i < |doc|
    ensures doc[i].key in AsMap(doc) && AsMap(doc)[doc[i].key] == doc[i].value
  {
    var n := |doc| - 1;
    assert Keys(doc)[i] == doc[i].key && Keys(doc)[n] == doc[n].key;
    if i < n {
      assert Distinct(doc[..n]) by {
        assert Keys(doc[..n]) == Keys(doc)[..n];
      }
      ReadsAsMap(doc[..n], i);
    }
  }

  /** A document is determined by its map and the order of its keys. */
  lemma MapAndOrder(doc: Doc)
    requires Distinct(doc)
    ensures AsMap(doc).Keys == (set k | k in Keys(doc)) && doc == InOrder(AsMap(doc), Keys(doc))
  {
    MapKeys(doc);
    forall i | 0 <= i < |doc| { ReadsAsMap(doc, i); }
  }

  lemma {:induction false} InOrderMap(m: map<string, string>, keys: seq<string>)
    requires (forall k | k in keys :: k in m) && NoRepeats(keys)
    ensures Keys(InOrder(m, keys)) == keys
    ensures forall k | k in keys :: k in AsMap(InOrder(m, keys)) && AsMap(InOrder(m, keys))[k] == m[k]
  {
    var doc := InOrder(m, keys);
    assert Keys(doc) == keys;
    hide AsMap;
    forall k | k in keys ensures k in AsMap(doc) && AsMap(doc)[k] == m[k] {
      var i := Find(keys, k);
      ReadsAsMap(doc, i);
    }
  }

  lemma Appended(base: Doc, e: Text)
    requires Distinct(base) && e.key !in Keys(base)
    ensures Distinct(base + [e]) && AsMap(base + [e]) == AsMap(base)[e.key := e.value]
      && Keys(base + [e]) == Keys(base) + [e.key]
  {
    assert Keys(base + [e]) == Keys(base) + [e.key] && (base + [e])[..|base|] == base;
  }

  lemma {:induction false} Replaced(base: Doc, i: nat, e: Text)
    requires Distinct(base) && i < |base| && base[i].key == e.key
    ensures Distinct(base[i := e]) && Keys(base[i := e]) == Keys(base)
    ensures AsMap(base[i := e]) == AsMap(base)[e.key := e.value]
  {
    var doc, n := base[i := e], |base| - 1;
    assert Keys(doc) == Keys(base);
    if i == n {
      assert doc[..n] == base[..n];
    } else {
      assert Keys(base[..n]) == Keys(base)[..n];
      DifferentKeys(base, i, n);
      Replaced(base[..n], i, e);
      assert doc[..n] == base[..n][i := e];
    }
  }

  lemma DifferentKeys(doc: Doc, i: nat, j: nat)
    requires Distinct(doc) && i < |doc| && j < |doc|
    ensures doc[i].key == doc[j].key <==> i == j
  {
    assert Keys(doc)[i] == doc[i].key && Keys(doc)[j] == doc[j].key;
  }

  lemma PutOneMeans(base: Doc, e: Text)
    requires Distinct(base)
    ensures Distinct(PutOne(base, e)) && AsMap(PutOne(base, e)) == AsMap(base)[e.key := e.value]
    ensures Keys(PutOne(base, e)) == if e.key in Keys(base) then Keys(base) else Keys(base) + [e.key]
    ensures Has(AsMap(base), e) ==> PutOne(base, e) == base
  {
    hide AsMap, Distinct;
    var i := Find(Keys(base), e.key);
    MapKeys(base);
    if i < 0 {
      Appended(base, e);
    } else {
      Replaced(base, i, e);
      ReadsAsMap(base, i);
      assert base[i := base[i]] == base;
    }
  }

  lemma {:induction false} MergeMeans(base: Doc, over: Doc)
    requires Distinct(base)
    ensures Distinct(Merge(base, over)) && AsMap(Merge(base, over)) == AsMap(base) + AsMap(over)
    ensures Keys(base) <= Keys(Merge(base, over))
    decreases |over|
  {
    hide Distinct, PutOne, AsMap, Keys;
    if over == [] {
      NoPairs();
    } else {
      var next := PutOne(base, over[0]);
      PutOneMeans(base, over[0]);
      MergeMeans(next, over[1..]);
      FirstPair(over);
      OverrideTwice(AsMap(base), over[0].key, over[0].value, AsMap(over[1..]));
    }
  }

  lemma OverrideTwice(a: map<string, string>, k: string, v: string, b: map<string, string>)
    ensures a[k := v] + b == a + (map[k := v] + b)
  {
  }

  lemma NoPairs()
    ensures AsMap([]) == map[] && Distinct([]) && Keys([]) == []
  {
  }

  /** The map of a document from its first pair on. */
  lemma {:induction false} FirstPair(doc: Doc)
    requires doc != []
    ensures AsMap(doc) == map[doc[0].key := doc[0].value] + AsMap(doc[1..])
  {
    var n := |doc| - 1;
    if n > 0 {
      FirstPair(doc[..n]);
      assert doc[..n][1..] == doc[1..][..n - 1] && doc[1..][n - 1] == doc[n];
    }
  }

  lemma {:induction false} MergeNothingNew(base: Doc, over: Doc)
    requires Distinct(base) && forall e | e in over :: Has(AsMap(base), e)
    ensures Merge(base, over) == base
    decreases |over|
  {
    if over != [] {
      assert over[0] in over;
      PutOneMeans(base, over[0]);
      MergeNothingNew(base, over[1..]);
    }
  }

  // ----- the comparison -----

  lemma KeysAsSet(doc: Doc)
    requires Distinct(doc)
    ensures |AsMap(doc).Keys| == |doc|
  {
    CountDistinct(Keys(doc));
    MapKeys(doc);
  }

  lemma {:induction false} CountDistinct(keys: seq<string>)
    requires NoRepeats(keys)
    ensures |set k | k in keys| == |keys|
  {
    if keys != [] {
      CountDistinct(keys[1..]);
      assert (set k | k in keys) == {keys[0]} + set k | k in keys[1..];
    }
  }

  lemma SubsetOfSameSize(a: set<string>, b: set<string>)
    requires b <= a && |a| == |b|
    ensures a == b
  {
    assert a == b + (a - b) && |a| == |b| + |a - b|;
  }

  /** The one-sided check with equal lengths decides equality of the maps. */
  lemma SameDecides(a: Doc, b: Doc)
    requires Distinct(a) && Distinct(b)
    ensures Same(a, b) <==> AsMap(a) == AsMap(b)
  {
    KeysAsSet(a);
    KeysAsSet(b);
    MapKeys(b);
    hide Distinct, AsMap;
    forall i | 0 <= i < |b| ensures b[i].key in AsMap(b) && AsMap(b)[b[i].key] == b[i].value { ReadsAsMap(b, i); }
    if Same(a, b) {
      forall k | k in AsMap(b) ensures k in AsMap(a) && AsMap(a)[k] == AsMap(b)[k] {
        var i := Find(Keys(b), k);
        assert b[i] in b && Has(AsMap(a), b[i]);
      }
      SubsetOfSameSize(AsMap(a).Keys, AsMap(b).Keys);
    }
  }

  lemma ReorderMeans(order: Rebucket, doc: Doc)
    requires Permutes(order) && Distinct(doc)
    ensures Distinct(Reorder(order, doc)) && AsMap(Reorder(order, doc)) == AsMap(doc)
    ensures Keys(Reorder(order, doc)) == order(Keys(doc))
  {
    var keys, next := order(Keys(doc)), Reorder(order, doc);
    PermutedKeys(order, Keys(doc));
    PermutedDistinct(Keys(doc), keys);
    MapKeys(doc);
    hide AsMap, NoRepeats;
    InOrderMap(AsMap(doc), keys);
    MapKeys(next);
  }

  lemma PermutedDistinct(a: seq<string>, b: seq<string>)
    requires NoRepeats(a) && multiset(a) == multiset(b)
    ensures NoRepeats(b)
  {
    Ordering.BagNoRepeats(a, b);
  }

  // ----- refinement -----

  lemma Subtract(k: string, v: string, m: map<string, string>, key: string)
    ensures (map[k := v] + m) - {key} == if k == key then m - {key} else map[k := v] + (m - {key})
  {
  }

  lemma {:induction false} WithoutKeyMeans(doc: Doc, key: string)
    requires Distinct(doc)
    ensures Distinct(WithoutKey(doc, key)) && AsMap(WithoutKey(doc, key)) == AsMap(doc) - {key}
    ensures |WithoutKey(doc, key)| <= |doc| && (|WithoutKey(doc, key)| == |doc| <==> key !in AsMap(doc))
    ensures forall k :: k in Keys(WithoutKey(doc, key)) <==> k in Keys(doc) && k != key
  {
    hide AsMap, Distinct, NoRepeats, Keys;
    if doc == [] {
      NoPairs();
    } else {
      var rest := WithoutKey(doc[1..], key);
      FirstKey(doc);
      WithoutKeyMeans(doc[1..], key);
      FirstPair(doc);
      MapKeys(doc[1..]);
      if doc[0].key == key {
        assert [] + rest == rest;
        Subtract(key, doc[0].value, AsMap(doc[1..]), key);
      } else {
        PrependKey(doc[0], rest);
        assert ([doc[0]] + rest)[1..] == rest;
        FirstPair([doc[0]] + rest);
        Subtract(doc[0].key, doc[0].value, AsMap(doc[1..]), key);
      }
    }
  }

  lemma FirstKey(doc: Doc)
    requires Distinct(doc) && doc != []
    ensures doc[0].key !in Keys(doc[1..]) && Distinct(doc[1..]) && Keys(doc) == [doc[0].key] + Keys(doc[1..])
  {
    forall i | 0 <= i < |doc[1..]| ensures Keys(doc[1..])[i] != doc[0].key {
      assert Keys(doc)[i + 1] == Keys(doc[1..])[i] && Keys(doc)[0] == doc[0].key;
    }
    assert Keys(doc[1..]) == Keys(doc)[1..];
  }

  lemma PrependKey(e: Text, doc: Doc)
    requires Distinct(doc) && e.key !in Keys(doc)
    ensures Distinct([e] + doc) && Keys([e] + doc) == [e.key] + Keys(doc)
  {
    assert Keys([e] + doc) == [e.key] + Keys(doc);
  }

  /** A write leaves distinct keys distinct exactly when it is not a body with a
      repeated key posted onto a locale that has no row. */
  lemma StepDistinct(order: Rebucket, s: Store, op: Op)
    requires Permutes(order) && AllDistinct(s)
    ensures AllDistinct(Step(order, s, op).0) <==>
      !(op.Post? && op.body.Texts? && op.locale !in s && !Distinct(op.body.doc))
  {
    hide Merge, Reorder, WithoutKey, Distinct, AsMap;
    var t := Step(order, s, op).0;
    assert op.locale in t ==> (AllDistinct(t) ==> t[op.locale] == Absent || Distinct(t[op.locale].doc));
    match op
    case Post(l, body) =>
      if body.Texts? && l in s && s[l] != Absent {
        var merged := Merge(s[l].doc, body.doc);
        MergeMeans(s[l].doc, body.doc);
        ReorderMeans(order, merged);
      }
    case Put(l, key, value) =>
      NoPairs();
      if !(l in s && s[l] == Absent) { MergeMeans(if l in s then s[l].doc else [], [Text(key, value)]); }
    case DeleteKey(l, key) =>
      if l in s && s[l] != Absent { WithoutKeyMeans(s[l].doc, key); }
    case DeleteLocale(l) =>
  }

  lemma AbstractPut(s: Store, l: string, x: Stored)
    ensures Abstract(s[l := x]) == Abstract(s)[l := PlainOf(x)]
  {
    hide AsMap;
  }

  lemma PostRefines(order: Rebucket, s: Store, l: string, body: Body)
    requires Permutes(order) && AllDistinct(s) && RepeatFree(Post(l, body))
    ensures (Abstract(DoPost(order, s, l, body).0), DoPost(order, s, l, body).1) == PlainStep(Abstract(s),
      Post(l, body))
  {
    hide Merge, Reorder, Distinct, AsMap, Same, Permutes;
    AbstractPut(s, l, Absent);
    if body.Texts? && l !in s {
      AbstractPut(s, l, Present(body.doc));
      assert map[] + AsMap(body.doc) == AsMap(body.doc);
    } else if body.Texts? && s[l] != Absent {
      var was := s[l].doc;
      var merged := Merge(was, body.doc);
      MergeMeans(was, body.doc);
      SameDecides(was, merged);
      ReorderMeans(order, merged);
      AbstractPut(s, l, Present(Reorder(order, merged)));
      AbstractPut(s, l, s[l]);
      assert s[l := s[l]] == s;
    }
  }

  lemma StepRefines(order: Rebucket, s: Store, op: Op)
    requires Permutes(order) && AllDistinct(s) && RepeatFree(op)
    ensures (Abstract(Step(order, s, op).0), Step(order, s, op).1) == PlainStep(Abstract(s), op)
  {
    hide Merge, DoPost, WithoutKey, Distinct, AsMap, Permutes;
    var l := op.locale;
    match op
    case Post(_, body) => PostRefines(order, s, l, body);
    case Put(_, key, value) =>
      NoPairs();
      if !(l in s && s[l] == Absent) {
        var doc := if l in s then s[l].doc else [];
        MergeMeans(doc, [Text(key, value)]);
        OnePair(Text(key, value));
        AbstractPut(s, l, Present(Merge(doc, [Text(key, value)])));
        assert AsMap(doc) + map[key := value] == AsMap(doc)[key := value];
      }
    case DeleteKey(_, key) =>
      if l in s && s[l] != Absent {
        WithoutKeyMeans(s[l].doc, key);
        AbstractPut(s, l, Present(WithoutKey(s[l].doc, key)));
      }
    case DeleteLocale(_) =>
      assert Abstract(s - {l}) == Abstract(s) - {l};
  }

  lemma OnePair(e: Text)
    ensures AsMap([e]) == map[e.key := e.value]
  {
    NoPairs();
    assert [e][..0] == [];
  }

  /** Over every run with repeat-free bodies the documents are the plain maps, the
      answers are those of the plain maps, and keys stay distinct. */
  lemma {:induction false} RunRefines(order: Rebucket, s: Store, ops: seq<Op>)
    requires Permutes(order) && AllDistinct(s) && forall op | op in ops :: RepeatFree(op)
    ensures
      var (t, answers) := Run(order, s, ops);
      AllDistinct(t) && (Abstract(t), answers) == PlainRun(Abstract(s), ops)
    decreases |ops|
  {
    if ops != [] {
      assert ops[0] in ops && forall op | op in ops[1..] :: op in ops;
      StepDistinct(order, s, ops[0]);
      StepRefines(order, s, ops[0]);
      hide Step, PlainStep, AllDistinct, Abstract, Permutes;
      RunRefines(order, Step(order, s, ops[0]).0, ops[1..]);
    }
  }

  // ----- order -----

  /** What a write does to the order of one locale's keys: a PUT keeps it and may add
      one at the end, a DELETE takes its key out, a POST that adds nothing new keeps
      the very bytes, and any other POST serves the permutation of the merged keys. */
  lemma StepOrders(order: Rebucket, s: Store, op: Op)
    requires Permutes(order) && AllDistinct(s) && op.locale in s && s[op.locale] != Absent && !op.DeleteLocale?
    ensures
      var t := Step(order, s, op).0;
      && op.locale in t && (t[op.locale].Present? ==>
           var was, now := s[op.locale].doc, t[op.locale].doc;
           match op
           case Put(_, key, _) => Keys(now) == if key in Keys(was) then Keys(was) else Keys(was) + [key]
           case DeleteKey(_, key) => now == WithoutKey(was, key)
           case Post(_, Texts(doc)) =>
             if AsMap(was) + AsMap(doc) == AsMap(was) then now == was else Keys(now) == order(Keys(Merge(was, doc)))
           case _ => now == was)
  {
    hide Reorder, Distinct, AsMap, Same, Permutes;
    var was := s[op.locale].doc;
    match op
    case Post(_, body) =>
      if body.Texts? {
        var merged := Merge(was, body.doc);
        MergeMeans(was, body.doc);
        SameDecides(was, merged);
        ReorderMeans(order, merged);
      }
    case Put(_, key, value) =>
      PutOneMeans(was, Text(key, value));
      assert Merge(was, [Text(key, value)]) == PutOne(was, Text(key, value));
    case DeleteKey(_, key) => WithoutKeyMeans(was, key); KeptWhole(was, key);
  }

  lemma {:induction false} KeptWhole(doc: Doc, key: string)
    ensures |WithoutKey(doc, key)| <= |doc| && (|WithoutKey(doc, key)| == |doc| ==> WithoutKey(doc, key) == doc)
  {
    if doc != [] { KeptWhole(doc[1..], key); }
  }

  // ----- the absent document -----

  /** A locale has no document after a write exactly when it had none before and the
      write did not delete it, or the write is an empty body posted onto it. */
  lemma AbsentStep(order: Rebucket, s: Store, op: Op, l: string)
    requires Permutes(order)
    ensures
      var t := Step(order, s, op).0;
      l in t && t[l] == Absent <==>
        (l in s && s[l] == Absent && op != DeleteLocale(l)) || op == Post(l, Nothing)
  {
    hide Merge, Reorder, WithoutKey, Same;
  }

  /** So it stays that way over every run that does not delete the locale. */
  lemma {:induction false} AbsentAbsorbs(order: Rebucket, s: Store, ops: seq<Op>, l: string)
    requires Permutes(order) && l in s && s[l] == Absent && DeleteLocale(l) !in ops
    ensures l in Run(order, s, ops).0 && Run(order, s, ops).0[l] == Absent
    decreases |ops|
  {
    if ops != [] {
      assert ops[0] in ops && DeleteLocale(l) !in ops[1..];
      AbsentStep(order, s, ops[0], l);
      hide Step;
      AbsentAbsorbs(order, Step(order, s, ops[0]).0, ops[1..], l);
    }
  }

  // ----- posting twice -----

  /** A repeat-free body posted twice is the body posted once, order included, for
      every permutation. */
  lemma PostTwice(order: Rebucket, s: Store, l: string, doc: Doc)
    requires Permutes(order) && AllDistinct(s) && Distinct(doc)
    ensures
      var once := Step(order, s, Post(l, Texts(doc))).0;
      Step(order, once, Post(l, Texts(doc))).0 == once
  {
    var op := Post(l, Texts(doc));
    StepDistinct(order, s, op);
    StepRefines(order, s, op);
    var once := Step(order, s, op).0;
    if !(l in s && s[l] == Absent) {
      PostedHolds(order, s, l, doc);
      hide Reorder, Distinct, Permutes, Merge, AsMap;
      var d := once[l].doc;
      MergeNothingNew(d, doc);
      SameDecides(d, d);
    }
  }

  lemma PostedHolds(order: Rebucket, s: Store, l: string, doc: Doc)
    requires Permutes(order) && AllDistinct(s) && Distinct(doc) && !(l in s && s[l] == Absent)
    ensures
      var once := Step(order, s, Post(l, Texts(doc))).0;
      l in once && once[l].Present? && forall e | e in doc :: Has(AsMap(once[l].doc), e)
  {
    var op := Post(l, Texts(doc));
    StepRefines(order, s, op);
    var once := Step(order, s, op).0;
    AbsentStep(order, s, op, l);
    assert Abstract(once) == PlainStep(Abstract(s), op).0;
    MapKeys(doc);
    hide Step, Permutes, Distinct, AsMap;
    assert l in Abstract(once) && l in once;
    var all := AsMap(once[l].doc);
    assert all == (if l in s then AsMap(s[l].doc) else map[]) + AsMap(doc);
    forall e | e in doc ensures Has(all, e) {
      var i :| 0 <= i < |doc| && doc[i] == e;
      ReadsAsMap(doc, i);
    }
  }

  // ----- the fallback read -----

  /** The default locale's bundle under this one, re-bucketed. */
  function WithFallback(order: Rebucket, fallback: Doc, own: Doc): Doc
    requires Permutes(order)
  {
    Reorder(order, Merge(fallback, own))
  }

  lemma FallbackOverrides(order: Rebucket, fallback: Doc, own: Doc)
    requires Permutes(order) && Distinct(fallback)
    ensures Distinct(WithFallback(order, fallback, own))
    ensures AsMap(WithFallback(order, fallback, own)) == AsMap(fallback) + AsMap(own)
  {
    hide Merge, Reorder, Distinct, AsMap;
    MergeMeans(fallback, own);
    ReorderMeans(order, Merge(fallback, own));
  }

  // ----- a body with a repeated key -----

  /** Posted onto a locale without a row, it is stored as it came. */
  lemma RepeatedKeyIsStored(order: Rebucket)
    requires Permutes(order)
    ensures
      var doc := [Text("k", "1"), Text("k", "2")];
      var (t, answers) := Run(order, map[], [Post("de", Texts(doc))]);
      t == map["de" := Present(doc)] && answers == [NoContent] && !AllDistinct(t)
  {
    var doc := [Text("k", "1"), Text("k", "2")];
    assert Keys(doc)[0] == Keys(doc)[1];
    var op := Post("de", Texts(doc));
    assert [op][1..] == [];
    assert Step(order, map[], op) == (map["de" := Present(doc)], NoContent);
    hide Step;
    assert Run(order, map["de" := Present(doc)], []) == (map["de" := Present(doc)], []);
  }
}
