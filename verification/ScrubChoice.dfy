/** When the order in which clean tries the candidate types of an entry matters: exactly where the types disagree on an object. */
module ScrubChoice {
  import opened Prelude
  import opened Json
  import opened Schema
  import opened Scrubbing

  /** Clean leaves one payload, whichever candidate type is tried first at each object. */
  ghost predicate OneLeft(payload: Object, path: seq<string>, types: map<string, seq<string>>) {
    forall x, y :: MayClean(payload, path, types, x) && MayClean(payload, path, types, y) ==> x == y
  }

  /** The choice of type at the end of a path makes no difference if and only if the candidates agree on every object there. */
  lemma {:induction false} ChoiceExact(payload: Object, path: seq<string>, types: map<string, seq<string>>)
    ensures Settled(payload, path, types) <==> OneLeft(payload, path, types)
  {
    if Settled(payload, path, types) {
      forall x, y | MayClean(payload, path, types, x) && MayClean(payload, path, types, y)
        ensures x == y
      {
        SettledOnce(payload, path, types, x);
        SettledOnce(payload, path, types, y);
      }
    } else {
      var x, y := TwoLeft(payload, path, types);
    }
  }

  /** An untyped object that two candidate types disagree on. */
  lemma TwoErased(payload: Object, types: map<string, seq<string>>) returns (x: Object, y: Object)
    requires !Agreed(payload, types)
    ensures MayErase(payload, types, x) && MayErase(payload, types, y) && x != y
  {
    var s, t :| s in types && t in types && ToSet(types[s]) * payload.Keys != ToSet(types[t]) * payload.Keys;
    assert Fits(payload, s) && Fits(payload, t);
    x, y := payload - ToSet(types[s]), payload - ToSet(types[t]);
    ErasedTells(payload, ToSet(types[s]), ToSet(types[t]));
  }

  lemma ErasedTells(payload: Object, a: set<string>, b: set<string>)
    ensures payload - a == payload - b <==> a * payload.Keys == b * payload.Keys
  {
    forall k
      ensures k in payload - a <==> k in payload && k !in a * payload.Keys
      ensures k in payload - b <==> k in payload && k !in b * payload.Keys
    {
    }
    if payload - a == payload - b {
      forall k
        ensures k in a * payload.Keys <==> k in b * payload.Keys
      {
        assert k in payload - a <==> k in payload - b;
      }
    }
  }

  /** Where some object is not agreed on, clean may leave two payloads. */
  lemma {:induction false} TwoLeft(payload: Object, path: seq<string>,
                                   types: map<string, seq<string>>) returns (x: Object, y: Object)
    requires !Settled(payload, path, types)
    ensures MayClean(payload, path, types, x) && MayClean(payload, path, types, y) && x != y
    decreases |path|, 1
  {
    if path == [] {
      x, y := TwoErased(payload, types);
    } else {
      var v, w := TwoValues(payload[path[0]], path, types);
      x, y := Kept(payload, path, v), Kept(payload, path, w);
      KeptTells(payload, path, types, v, w);
    }
  }

  lemma {:induction false} TwoValues(v: Json, path: seq<string>, types: map<string, seq<string>>) returns (a: Json, b: Json)
    requires path != [] && !SettledValue(v, path, types)
    ensures MayCleanValue(v, path, types, a) && MayCleanValue(v, path, types, b) && a != b
    decreases |path|, 0
  {
    match v
    case JObj(m) =>
      var x, y := TwoLeft(m, path[1..], types);
      a, b := JObj(x), JObj(y);
    case JList(items) =>
      var i :| 0 <= i < |items| && items[i].JObj? && !Settled(items[i].fields, path[1..], types);
      var x, y := TwoLeft(items[i].fields, path[1..], types);
      SomeValue(v, path, types);
      var some := CleanValue(v, path, types).0.items;
      OneItem(items, path, types, some, i, x);
      OneItem(items, path, types, some, i, y);
      a, b := JList(some[i := JObj(x)]), JList(some[i := JObj(y)]);
      assert a.items[i] != b.items[i];
  }

  lemma {:induction false} OneItem(items: seq<Json>, path: seq<string>, types: map<string, seq<string>>, some: seq<Json>,
                                   i: nat, x: Object)
    requires path != [] && MayCleanValue(JList(items), path, types, JList(some)) && i < |items| && items[i].JObj?
    requires MayClean(items[i].fields, path[1..], types, x)
    ensures MayCleanValue(JList(items), path, types, JList(some[i := JObj(x)]))
  {
  }

  /** There is always something that clean leaves. */
  lemma {:induction false} SomeLeft(payload: Object, path: seq<string>, types: map<string, seq<string>>)
    ensures MayClean(payload, path, types, CleanAt(payload, path, types).payload)
    ensures CleanAt(payload, path, types).empty == Emptied(payload, path, CleanAt(payload, path, types).payload)
    decreases |path|, 1
  {
    if path == [] {
      SomeErased(payload, types);
    } else if path[0] in payload {
      SomeValue(payload[path[0]], path, types);
      var w := CleanValue(payload[path[0]], path, types).0;
      assert CleanAt(payload, path, types).payload == Kept(payload, path, w);
    }
  }

  lemma SomeErased(payload: Object, types: map<string, seq<string>>)
    ensures MayErase(payload, types, payload - Doomed(payload, types))
  {
    if TYPENAME in payload {
      if payload[TYPENAME].JScalar? && payload[TYPENAME].text in types {
        assert Fits(payload, payload[TYPENAME].text);
      } else {
        assert payload - {} == payload;
      }
    } else if types == map[] {
      assert payload - {} == payload;
    } else {
      var t :| t in types && Doomed(payload, types) == ToSet(types[t]);
      assert Fits(payload, t);
    }
  }

  lemma {:induction false} SomeValue(v: Json, path: seq<string>, types: map<string, seq<string>>)
    requires path != []
    ensures MayCleanValue(v, path, types, CleanValue(v, path, types).0)
    ensures CleanValue(v, path, types).1 == Removes(v, path, CleanValue(v, path, types).0)
    decreases |path|, 0
  {
    match v
    case JObj(m) => SomeLeft(m, path[1..], types);
    case JList(items) =>
      var some := seq(|items|, j requires 0 <= j < |items| => CleanItem(items[j], path, types));
      assert CleanValue(v, path, types).0 == JList(some);
      forall j | 0 <= j < |items| && items[j].JObj?
        ensures MayClean(items[j].fields, path[1..], types, some[j].fields)
        ensures CleanAt(items[j].fields, path[1..], types).empty == Emptied(items[j].fields, path[1..], some[j].fields)
      {
        SomeLeft(items[j].fields, path[1..], types);
      }
    case JScalar(_) =>
    case JNull =>
  }

  /** The object with what is left under a key tells what that was. */
  lemma {:induction false} KeptTells(payload: Object, path: seq<string>, types: map<string, seq<string>>, a: Json, b: Json)
    requires path != [] && path[0] in payload
    requires MayCleanValue(payload[path[0]], path, types, a) && MayCleanValue(payload[path[0]], path, types, b)
    ensures Kept(payload, path, a) == Kept(payload, path, b) <==> a == b
  {
    var v, k := payload[path[0]], path[0];
    if Removes(v, path, a) && Removes(v, path, b) {
      if v.JList? {
        forall i | 0 <= i < |v.items|
          ensures a.items[i] == b.items[i]
        {
        }
        assert a.items == b.items;
      }
    } else {
      assert payload[k := a][k] == a && payload[k := b][k] == b;
      assert k !in payload - {k};
    }
  }
}
