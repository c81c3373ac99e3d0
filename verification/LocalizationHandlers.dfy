/** The localization handlers with their loops, over the stored documents. */
module LocalizationHandlers {
  import opened Basics
  import opened Localization

  /** mergeLocalizationTexts: the nested loops over a copied slice. */
  method MergeTexts(base: Doc, over: Doc) returns (out: Doc)
    ensures out == Merge(base, over)
  {
    out := base;
    assert over[0..] == over;
    for k := 0 to |over|
      invariant Merge(out, over[k..]) == Merge(base, over)
    {
      assert over[k..][0] == over[k] && over[k..][1..] == over[k + 1..];
      out := WriteOne(out, over[k]);
    }
  }

  method WriteOne(doc: Doc, e: Text) returns (out: Doc)
    ensures out == PutOne(doc, e)
  {
    out := doc;
    var replaced := false;
    for i := 0 to |doc|
      invariant !replaced && out == doc && e.key !in Keys(doc)[..i]
    {
      if out[i].key == e.key {
        FirstAt(Keys(doc), e.key, i);
        out := out[i := out[i].(value := e.value)];
        replaced := true;
        break;
      }
    }
    if !replaced {
      assert Keys(doc)[..|doc|] == Keys(doc);
      out := out + [e];
    }
  }

  lemma FirstAt(keys: seq<string>, key: string, i: nat)
    requires i < |keys| && keys[i] == key && key !in keys[..i]
    ensures Find(keys, key) == i
  {
    var j := Find(keys, key);
    assert forall k | 0 <= k < i :: keys[..i][k] == keys[k];
    assert forall k | 0 <= k < j :: keys[..j][k] == keys[k];
  }

  /** The map built by a loop of assignments, a later pair winning. */
  method BuildMap(doc: Doc) returns (byKey: map<string, string>)
    ensures byKey == AsMap(doc)
  {
    byKey := map[];
    for i := 0 to |doc|
      invariant byKey == AsMap(doc[..i])
    {
      assert doc[..i + 1][..i] == doc[..i];
      byKey := byKey[doc[i].key := doc[i].value];
    }
    assert doc[..|doc|] == doc;
  }

  /** sameLocalizationTexts. */
  method SameTexts(a: Doc, b: Doc) returns (same: bool)
    ensures same == Same(a, b)
  {
    if |a| != |b| { return false; }
    var byKey := BuildMap(a);
    for i := 0 to |b|
      invariant forall e | e in b[..i] :: Has(byKey, e)
    {
      assert b[..i + 1] == b[..i] + [b[i]];
      if b[i].key !in byKey || byKey[b[i].key] != b[i].value {
        assert b[i] in b && !Has(byKey, b[i]);
        return false;
      }
    }
    assert b[..|b|] == b;
    return true;
  }

  /** orderLocalizationMerge. */
  method OrderMerge(order: Rebucket, doc: Doc) returns (out: Doc)
    requires Permutes(order)
    ensures out == Reorder(order, doc)
  {
    var keys: seq<string> := [];
    for i := 0 to |doc|
      invariant keys == Keys(doc)[..i]
    {
      keys := keys + [doc[i].key];
    }
    assert keys == Keys(doc);
    var byKey := BuildMap(doc);
    PermutedKeys(order, keys);
    MapKeys(doc);
    var served := order(keys);
    hide Permutes, AsMap;
    out := [];
    for i := 0 to |served|
      invariant out == InOrder(byKey, served)[..i]
    {
      assert served[i] in served;
      out := out + [Text(served[i], byKey[served[i]])];
    }
  }

  lemma {:induction false} KeepOne(doc: Doc, e: Text, key: string)
    ensures WithoutKey(doc + [e], key) == WithoutKey(doc, key) + if e.key == key then [] else [e]
  {
    if doc != [] {
      KeepOne(doc[1..], e, key);
      assert (doc + [e])[1..] == doc[1..] + [e];
    }
  }

  /** A realm's rows, one per locale. */
  class Localizations {
    var rows: Store
    const order: Rebucket

    constructor (order: Rebucket)
      ensures rows == map[] && this.order == order
    {
      rows := map[];
      this.order := order;
    }

    /** importLocalizationTexts. */
    method ImportTexts(locale: string, body: Body) returns (a: Answer)
      requires Permutes(order)
      modifies this`rows
      ensures (rows, a) == DoPost(order, old(rows), locale, body)
    {
      var existing: Option<Stored> := if locale in rows then Some(rows[locale]) else None;
      if existing == Some(Absent) { return ServerError; }
      match body
      case Nothing =>
        rows := rows[locale := Absent];
        return NoContent;
      case Malformed =>
        return BadRequest;
      case Texts(incoming) =>
        hide Merge, Same, Reorder, Permutes;
        var next := incoming;
        if existing.Some? {
          var merged := MergeTexts(existing.value.doc, incoming);
          var same := SameTexts(existing.value.doc, merged);
          if same { return NoContent; }
          next := OrderMerge(order, merged);
        }
        rows := rows[locale := Present(next)];
        return NoContent;
    }

    /** setLocalizationText. */
    method SetText(locale: string, key: string, value: string) returns (a: Answer)
      modifies this`rows
      ensures (rows, a) == DoPut(old(rows), locale, key, value)
    {
      var doc: Doc := [];
      if locale in rows {
        if rows[locale] == Absent { return ServerError; }
        doc := rows[locale].doc;
      }
      var next := MergeTexts(doc, [Text(key, value)]);
      rows := rows[locale := Present(next)];
      return NoContent;
    }

    /** deleteLocalizationText: an absent document has nothing to delete. */
    method DeleteText(locale: string, key: string) returns (a: Answer)
      modifies this`rows
      ensures (rows, a) == DoDeleteKey(old(rows), locale, key)
    {
      if locale !in rows { return NotFound; }
      var texts: Doc := if rows[locale] == Absent then [] else rows[locale].doc;
      var kept: Doc := [];
      for i := 0 to |texts|
        invariant rows == old(rows) && kept == WithoutKey(texts[..i], key)
      {
        KeepOne(texts[..i], texts[i], key);
        assert texts[..i + 1] == texts[..i] + [texts[i]];
        if texts[i].key != key { kept := kept + [texts[i]]; }
      }
      assert texts[..|texts|] == texts;
      if |kept| == |texts| { return NotFound; }
      rows := rows[locale := Present(kept)];
      return NoContent;
    }

    method DeleteAll(locale: string) returns (a: Answer)
      modifies this`rows
      ensures (rows, a) == DoDeleteLocale(old(rows), locale)
    {
      if locale !in rows { return NotFound; }
      rows := rows - {locale};
      return NoContent;
    }

    /** readLocalizationTexts: a locale with no row reads as empty, one with no document
        fails, and a fallback that is missing or absent adds nothing. */
    method ReadTexts(locale: string, fallback: Option<string>) returns (doc: Option<Doc>)
      requires Permutes(order)
      ensures
        var own := if locale in rows then rows[locale] else Present([]);
        doc == if own == Absent then None
               else if fallback.Some? && fallback.value in rows && rows[fallback.value].Present?
               then Some(WithFallback(order, rows[fallback.value].doc, own.doc))
               else Some(own.doc)
    {
      var texts: Doc := [];
      if locale in rows {
        if rows[locale] == Absent { return None; }
        texts := rows[locale].doc;
      }
      if fallback.Some? && fallback.value in rows && rows[fallback.value].Present? {
        hide Merge, Reorder, Permutes;
        var merged := MergeTexts(rows[fallback.value].doc, texts);
        texts := OrderMerge(order, merged);
      }
      return Some(texts);
    }
  }
}
