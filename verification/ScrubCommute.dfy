/** Erasing two entries: when the order in which Clean visits them does not matter, exactly. */
module ScrubCommute {
  import opened Prelude
  import opened Text
  import opened Json
  import opened Schema
  import opened Scrubbing
  import opened ScrubChoice

  /** Type names are names, at every depth. */
  ghost predicate NamesTypes(v: Json)
    decreases v
  {
    match v
    case JNull => true
    case JScalar(_) => true
    case JList(items) => forall i :: 0 <= i < |items| ==> NamesTypes(items[i])
    case JObj(m) => (TYPENAME in m ==> m[TYPENAME].JScalar?) && forall k :: k in m ==> NamesTypes(m[k])
  }

  /** What two erasures leave of an object, or nothing when its parent removes it. */
  ghost function Both(payload: Object, p: seq<string>, f: map<string, seq<string>>, q: seq<string>,
                      g: map<string, seq<string>>): Option<Object> {
    var first := CleanAt(payload, p, f);
    if first.empty then None
    else
      var second := CleanAt(first.payload, q, g);
      if second.empty then None else Some(second.payload)
  }

  lemma {:induction false} EmptyIsEmpty(payload: Object, p: seq<string>, f: map<string, seq<string>>)
    ensures CleanAt(payload, p, f).empty ==> CleanAt(payload, p, f).payload == map[]
    ensures CleanAt(map[], p, f).payload == map[]
  {
  }

  /** Erasing at an object and below one of its keys. */
  lemma HereAndBelow(payload: Object, f: map<string, seq<string>>, q: seq<string>, g: map<string, seq<string>>)
    requires NamesTypes(JObj(payload)) && q != []
    ensures Both(payload, [], f, q, g) == Both(payload, q, g, [], f)
  {
    var k, doomed := q[0], Doomed(payload, f);
    var rest := payload - doomed;
    if k in payload {
      var (v, remove) := CleanValue(payload[k], q, g);
      var below := if remove then payload - {k} else payload[k := v];
      assert k == TYPENAME ==> payload[k].JScalar? && !remove && v == payload[k];
      assert Doomed(below, f) == doomed || below == map[];
      assert below - doomed == if k in doomed then rest else if remove then rest - {k} else rest[k := v];
      assert rest == map[] ==> below - doomed == map[];
      assert below == map[] && k !in doomed ==> rest - {k} == map[];
    }
  }

  /** Erasing below two different keys. */
  lemma DifferentKeys(payload: Object, p: seq<string>, f: map<string, seq<string>>, q: seq<string>, g: map<string, seq<string>>)
    requires p != [] && q != [] && p[0] != q[0]
    ensures Both(payload, p, f, q, g) == Both(payload, q, g, p, f)
  {
    var k, l := p[0], q[0];
    if k in payload && l in payload {
      var (v, removeV) := CleanValue(payload[k], p, f);
      var (w, removeW) := CleanValue(payload[l], q, g);
      var afterV := if removeV then payload - {k} else payload[k := v];
      var afterW := if removeW then payload - {l} else payload[l := w];
      assert l in afterV && afterV[l] == payload[l];
      assert k in afterW && afterW[k] == payload[k];
      assert (if removeW then afterV - {l} else afterV[l := w]) == (if removeV then afterW - {k} else afterW[k := v]);
    }
  }

  /** Erasing below one key, in terms of the object there. */
  lemma SameKey(payload: Object, m: Object, p: seq<string>, f: map<string, seq<string>>, q: seq<string>,
                g: map<string, seq<string>>)
    requires p != [] && q != [] && p[0] == q[0] && p[0] in payload && payload[p[0]] == JObj(m)
    ensures Both(payload, p, f, q, g) ==
            match Both(m, p[1..], f, q[1..], g)
            case None => if payload - {p[0]} == map[] then None else Some(payload - {p[0]})
            case Some(rest) => Some(payload[p[0] := JObj(rest)])
  {
    var k := p[0];
    var first := CleanAt(m, p[1..], f);
    assert CleanValue(payload[k], p, f) == (JObj(first.payload), first.empty);
    if !first.empty {
      var between := payload[k := JObj(first.payload)];
      assert k in between;
      var second := CleanAt(first.payload, q[1..], g);
      assert CleanValue(between[k], q, g) == (JObj(second.payload), second.empty);
      assert between - {k} == payload - {k};
      assert between[k := JObj(second.payload)] == payload[k := JObj(second.payload)];
      assert k in payload[k := JObj(second.payload)];
    }
  }

  /** Nothing but others would be left of an object without the fields of a candidate type that fits it. */
  ghost predicate Erasable(payload: Object, types: map<string, seq<string>>, others: set<string>) {
    payload.Keys <= others || exists t :: t in types && Fits(payload, t) && payload.Keys <= ToSet(types[t]) + others
  }

  /**
   * An object that one erasure empties: at the end of the path it holds nothing but fields to erase, before that one key,
   * whose value goes.
   */
  ghost predicate Dissolves(payload: Object, p: seq<string>, f: map<string, seq<string>>)
    decreases |p|, 1
  {
    if p == [] then Erasable(payload, f, {}) else payload.Keys == {p[0]} && ValueGoes(payload[p[0]], p, f)
  }

  ghost predicate ValueGoes(v: Json, p: seq<string>, f: map<string, seq<string>>)
    requires p != []
    decreases |p|, 0
  {
    match v
    case JObj(m) => Dissolves(m, p[1..], f)
    case JList(items) => items != [] && forall i :: 0 <= i < |items| && items[i].JObj? ==> Dissolves(items[i].fields, p[1..], f)
    case JScalar(_) => false
    case JNull => false
  }

  /** The key of an object that an erasure below it takes. */
  ghost function KeyTaken(payload: Object, p: seq<string>, f: map<string, seq<string>>): set<string> {
    if p != [] && p[0] in payload && ValueGoes(payload[p[0]], p, f) then {p[0]} else {}
  }

  /** An object that two erasures, the first and then the second, empty together. */
  ghost predicate Together(payload: Object, p: seq<string>, f: map<string, seq<string>>, q: seq<string>,
                           g: map<string, seq<string>>)
    decreases |p|, 2
  {
    if p == [] then Erasable(payload, f, KeyTaken(payload, q, g))
    else if q == [] then Erasable(payload, g, KeyTaken(payload, p, f))
    else if p[0] != q[0] then payload != map[] && payload.Keys <= KeyTaken(payload, p, f) + KeyTaken(payload, q, g)
    else payload.Keys == {p[0]} && GoesTogether(payload[p[0]], p, f, q, g)
  }

  ghost predicate GoesTogether(v: Json, p: seq<string>, f: map<string, seq<string>>, q: seq<string>, g: map<string, seq<string>>)
    requires p != [] && q != []
    decreases |p|, 1
  {
    match v
    case JObj(m) => Together(m, p[1..], f, q[1..], g)
    case JList(items) => ListGoes(items, p, f, q, g)
    case JScalar(_) => false
    case JNull => false
  }

  ghost predicate AllTogether(items: seq<Json>, p: seq<string>, f: map<string, seq<string>>, q: seq<string>,
                              g: map<string, seq<string>>)
    requires p != [] && q != []
    decreases |p|, 0, 0
  {
    forall i :: 0 <= i < |items| && items[i].JObj? ==> Together(items[i].fields, p[1..], f, q[1..], g)
  }

  /**
   * The second erasure ends at the objects of a list, or the first empties all of them or none: an object that the first
   * has emptied has no key left by which the second could find and report it.
   */
  ghost predicate Evenly(items: seq<Json>, p: seq<string>, f: map<string, seq<string>>, q: seq<string>)
    requires p != [] && q != []
  {
    || q[1..] == []
    || (forall i :: 0 <= i < |items| && items[i].JObj? ==> Dissolves(items[i].fields, p[1..], f))
    || (forall i :: 0 <= i < |items| && items[i].JObj? ==> !Dissolves(items[i].fields, p[1..], f))
  }

  /** A list that goes when the first erasure is done before the second. */
  ghost predicate ListGoes(items: seq<Json>, p: seq<string>, f: map<string, seq<string>>, q: seq<string>,
                           g: map<string, seq<string>>)
    requires p != [] && q != []
    decreases |p|, 0, 1
  {
    items != [] && AllTogether(items, p, f, q, g) && Evenly(items, p, f, q)
  }

  /**
   * When two erasures may be done in either order. A list that both go through, in each of whose objects they may, is
   * harmed only if together they empty every object of it and one of the orders does so unevenly. A list with an object
   * in which they may not has to go in either order.
   */
  ghost predicate Harmless(payload: Object, p: seq<string>, f: map<string, seq<string>>, q: seq<string>,
                           g: map<string, seq<string>>)
    decreases |p|, 1
  {
    p != [] && q != [] && p[0] == q[0] && p[0] in payload ==>
      match payload[p[0]]
      case JObj(m) => Harmless(m, p[1..], f, q[1..], g)
      case JList(items) =>
        if AllHarmless(items, p, f, q, g) then
          items != [] && AllTogether(items, p, f, q, g) ==> (Evenly(items, p, f, q) <==> Evenly(items, q, g, p))
        else ListGoes(items, p, f, q, g) && ListGoes(items, q, g, p, f)
      case JScalar(_) => true
      case JNull => true
  }

  ghost predicate AllHarmless(items: seq<Json>, p: seq<string>, f: map<string, seq<string>>, q: seq<string>,
                              g: map<string, seq<string>>)
    requires p != [] && q != []
    decreases |p|, 0
  {
    forall i :: 0 <= i < |items| && items[i].JObj? ==> Harmless(items[i].fields, p[1..], f, q[1..], g)
  }

  lemma ErasableIs(payload: Object, types: map<string, seq<string>>, others: set<string>)
    requires Agreed(payload, types)
    ensures Erasable(payload, types, others) <==> payload.Keys - Doomed(payload, types) <= others
  {
    if TYPENAME !in payload {
      forall t | t in types
        ensures Fits(payload, t) && payload.Keys - ToSet(types[t]) == payload.Keys - Doomed(payload, types)
      {
        SameErased(payload, types, t);
        assert (payload - ToSet(types[t])).Keys == payload.Keys - ToSet(types[t]);
      }
      assert types == map[] || exists t :: t in types;
    }
  }

  lemma OnlyKey(payload: Object, k: string)
    requires k in payload
    ensures payload - {k} == map[] <==> payload.Keys == {k}
  {
    var rest := payload - {k};
    assert rest.Keys == payload.Keys - {k};
    assert rest == map[] <==> rest.Keys == {};
    assert payload.Keys - {k} == {} <==> payload.Keys == {k};
  }

  /** An erasure reports an object emptied exactly when the object dissolves. */
  lemma {:induction false} EmptyExact(payload: Object, p: seq<string>, f: map<string, seq<string>>)
    requires Settled(payload, p, f)
    ensures CleanAt(payload, p, f).empty <==> Dissolves(payload, p, f)
    decreases |p|, 1
  {
    if p == [] {
      ErasableIs(payload, f, {});
      assert (payload - Doomed(payload, f)).Keys == payload.Keys - Doomed(payload, f);
    } else if p[0] in payload {
      var v := payload[p[0]];
      ValueExact(v, p, f);
      OnlyKey(payload, p[0]);
    }
  }

  lemma {:induction false} ValueExact(v: Json, p: seq<string>, f: map<string, seq<string>>)
    requires p != [] && SettledValue(v, p, f)
    ensures CleanValue(v, p, f).1 <==> ValueGoes(v, p, f)
    decreases |p|, 0
  {
    match v
    case JObj(m) => EmptyExact(m, p[1..], f);
    case JList(items) =>
      forall i | 0 <= i < |items| && items[i].JObj?
        ensures CleanAt(items[i].fields, p[1..], f).empty <==> Dissolves(items[i].fields, p[1..], f)
      {
        EmptyExact(items[i].fields, p[1..], f);
      }
    case JScalar(_) =>
    case JNull =>
  }

  /** The same for every run of clean. */
  lemma {:induction false} EmptiedExact(payload: Object, p: seq<string>, f: map<string, seq<string>>, rest: Object)
    requires Settled(payload, p, f) && MayClean(payload, p, f, rest)
    ensures Emptied(payload, p, rest) <==> Dissolves(payload, p, f)
  {
    SettledOnce(payload, p, f, rest);
    EmptyExact(payload, p, f);
  }

  /** Two erasures empty an object exactly when it dissolves together. */
  lemma {:induction false} BothEmpty(payload: Object, p: seq<string>, f: map<string, seq<string>>, q: seq<string>,
                                     g: map<string, seq<string>>)
    requires NamesTypes(JObj(payload)) && p != q && Settled(payload, p, f) && Settled(payload, q, g)
    ensures Both(payload, p, f, q, g).None? <==> Together(payload, p, f, q, g)
    decreases |p|, 1
  {
    if p == [] {
      HereEmpty(payload, f, q, g);
    } else if q == [] {
      HereEmpty(payload, g, p, f);
      HereAndBelow(payload, g, p, f);
    } else if p[0] != q[0] {
      ApartEmpty(payload, p, f, q, g);
    } else if p[0] in payload {
      assert p[1..] != q[1..] by {
        assert p == [p[0]] + p[1..] && q == [q[0]] + q[1..];
      }
      assert NamesTypes(payload[p[0]]);
      OnlyKey(payload, p[0]);
      match payload[p[0]]
      case JObj(m) =>
        BothEmpty(m, p[1..], f, q[1..], g);
        SameKey(payload, m, p, f, q, g);
      case JList(items) =>
        SameList(payload, items, p, f, q, g);
        GoneExact(items, p, f, q, g);
      case JScalar(_) => Untouched(payload, p, f);
        Untouched(payload, q, g);
      case JNull => Untouched(payload, p, f);
        Untouched(payload, q, g);
    }
  }

  lemma {:induction false} HereEmpty(payload: Object, f: map<string, seq<string>>, q: seq<string>, g: map<string, seq<string>>)
    requires q != [] && Settled(payload, [], f) && Settled(payload, q, g)
    ensures Both(payload, [], f, q, g).None? <==> Together(payload, [], f, q, g)
  {
    ErasableIs(payload, f, KeyTaken(payload, q, g));
    var rest := payload - Doomed(payload, f);
    assert rest.Keys == payload.Keys - Doomed(payload, f);
    if rest != map[] && q[0] in rest {
      ValueExact(payload[q[0]], q, g);
      OnlyKey(rest, q[0]);
    }
  }

  lemma {:induction false} ApartEmpty(payload: Object, p: seq<string>, f: map<string, seq<string>>, q: seq<string>,
                                      g: map<string, seq<string>>)
    requires p != [] && q != [] && p[0] != q[0] && Settled(payload, p, f) && Settled(payload, q, g)
    ensures Both(payload, p, f, q, g).None? <==> Together(payload, p, f, q, g)
  {
    if p[0] in payload {
      ValueExact(payload[p[0]], p, f);
    }
    if q[0] in payload {
      ValueExact(payload[q[0]], q, g);
    }
    var first := CleanAt(payload, p, f).payload;
    assert first.Keys == payload.Keys - KeyTaken(payload, p, f);
    assert q[0] in payload ==> q[0] in first && first[q[0]] == payload[q[0]];
    var second := CleanAt(first, q, g).payload;
    assert second.Keys == first.Keys - KeyTaken(payload, q, g);
    assert payload == map[] <==> payload.Keys == {};
    assert first == map[] <==> first.Keys == {};
    assert second == map[] <==> second.Keys == {};
  }

  /** A list is gone after both erasures exactly when it goes. */
  lemma {:induction false} GoneExact(items: seq<Json>, p: seq<string>, f: map<string, seq<string>>, q: seq<string>,
                                     g: map<string, seq<string>>)
    requires NamesTypes(JList(items)) && p != [] && q != [] && p[1..] != q[1..]
    requires SettledValue(JList(items), p, f) && SettledValue(JList(items), q, g)
    ensures Gone(items, p, f, q, g) <==> ListGoes(items, p, f, q, g)
    decreases |p|, 0
  {
    forall i | 0 <= i < |items| && items[i].JObj?
      ensures var m := items[i].fields; var first := CleanAt(m, p[1..], f);
              && (first.empty <==> Dissolves(m, p[1..], f))
              && (first.empty || CleanAt(first.payload, q[1..], g).empty <==> Together(m, p[1..], f, q[1..], g))
              && (first.empty ==> (CleanAt(first.payload, q[1..], g).empty <==> q[1..] == []))
    {
      var m := items[i].fields;
      assert NamesTypes(items[i]);
      EmptyExact(m, p[1..], f);
      BothEmpty(m, p[1..], f, q[1..], g);
      EmptyIsEmpty(m, p[1..], f);
      EmptyStays(q[1..], g);
    }
  }

  /** What is left of a list whose two erasures are done one after the other, or nothing when it goes. */
  ghost predicate Gone(items: seq<Json>, p: seq<string>, f: map<string, seq<string>>, q: seq<string>, g: map<string, seq<string>>)
    requires p != [] && q != []
  {
    && items != []
    && (NoneLeft(items, |items|, p, f)
        || forall i :: 0 <= i < |items| && items[i].JObj? ==> CleanAt(CleanAt(items[i].fields, p[1..], f).payload, q[1..], g).empty)
  }

  /** Two erasures at different paths, lists or not: they commute exactly when they are harmless to each other. */
  lemma {:induction false} BothExact(payload: Object, p: seq<string>, f: map<string, seq<string>>, q: seq<string>,
                                     g: map<string, seq<string>>)
    requires NamesTypes(JObj(payload)) && p != q && Settled(payload, p, f) && Settled(payload, q, g)
    ensures Both(payload, p, f, q, g) == Both(payload, q, g, p, f) <==> Harmless(payload, p, f, q, g)
    decreases |p|, 1
  {
    if p == [] {
      HereAndBelow(payload, f, q, g);
    } else if q == [] {
      HereAndBelow(payload, g, p, f);
    } else if p[0] != q[0] {
      DifferentKeys(payload, p, f, q, g);
    } else if p[0] in payload {
      assert p[1..] != q[1..] by {
        assert p == [p[0]] + p[1..] && q == [q[0]] + q[1..];
      }
      assert NamesTypes(payload[p[0]]);
      match payload[p[0]]
      case JObj(m) =>
        BothExact(m, p[1..], f, q[1..], g);
        SameKey(payload, m, p, f, q, g);
        SameKey(payload, m, q, g, p, f);
        KeyTells(payload, p[0], Both(m, p[1..], f, q[1..], g), Both(m, q[1..], g, p[1..], f));
      case JList(items) => ListExact(payload, items, p, f, q, g);
      case JScalar(_) => Untouched(payload, p, f);
        Untouched(payload, q, g);
      case JNull => Untouched(payload, p, f);
        Untouched(payload, q, g);
    }
  }

  /** The object with what is left under a key tells what that was. */
  lemma KeyTells(payload: Object, k: string, x: Option<Object>, y: Option<Object>)
    requires k in payload
    ensures var a := match x case None => (if payload - {k} == map[] then None else Some(payload - {k})) case Some(rest) => Some(payload[k := JObj(rest)]);
            var b := match y case None => (if payload - {k} == map[] then None else Some(payload - {k})) case Some(rest) => Some(payload[k := JObj(rest)]);
            a == b <==> x == y
  {
    assert x.Some? ==> payload[k := JObj(x.value)][k] == JObj(x.value);
    assert y.Some? ==> payload[k := JObj(y.value)][k] == JObj(y.value);
    assert k !in payload - {k};
  }

  lemma {:induction false} Untouched(payload: Object, p: seq<string>, f: map<string, seq<string>>)
    requires p != [] && p[0] in payload && (payload[p[0]].JScalar? || payload[p[0]].JNull?)
    ensures CleanAt(payload, p, f) == Cleaned(payload, false)
  {
    assert payload[p[0] := payload[p[0]]] == payload;
  }

  ghost function CleanItems(items: seq<Json>, p: seq<string>, f: map<string, seq<string>>): seq<Json>
    requires p != []
  {
    seq(|items|, i requires 0 <= i < |items| => CleanItem(items[i], p, f))
  }

  /** Erasing below one key that holds a list. */
  lemma {:induction false} SameList(payload: Object, items: seq<Json>, p: seq<string>, f: map<string, seq<string>>,
                                    q: seq<string>, g: map<string, seq<string>>)
    requires p != [] && q != [] && p[0] == q[0] && p[0] in payload && payload[p[0]] == JList(items)
    ensures Both(payload, p, f, q, g) ==
            if Gone(items, p, f, q, g) then (if payload - {p[0]} == map[] then None else Some(payload - {p[0]}))
            else Some(payload[p[0] := JList(CleanItems(CleanItems(items, p, f), q, g))])
  {
    var k := p[0];
    var first := CleanItems(items, p, f);
    assert CleanValue(payload[k], p, f) == (JList(first), items != [] && NoneLeft(items, |items|, p, f));
    if items == [] || !NoneLeft(items, |items|, p, f) {
      var between := payload[k := JList(first)];
      assert k in between && between != map[];
      assert forall i :: 0 <= i < |items| ==> first[i].JObj? == items[i].JObj?;
      assert NoneLeft(first, |first|, q, g) <==>
             forall i :: 0 <= i < |items| && items[i].JObj? ==> CleanAt(CleanAt(items[i].fields, p[1..], f).payload, q[1..], g).empty by {
        forall i | 0 <= i < |items| && items[i].JObj?
          ensures first[i].fields == CleanAt(items[i].fields, p[1..], f).payload
        {
        }
      }
      var second := CleanItems(first, q, g);
      assert CleanValue(between[k], q, g) == (JList(second), first != [] && NoneLeft(first, |first|, q, g));
      assert between - {k} == payload - {k};
      assert between[k := JList(second)] == payload[k := JList(second)];
      assert k in payload[k := JList(second)];
    }
  }

  /** The object with what is left of a list under a key tells what that was. */
  lemma ListTells(payload: Object, k: string, noX: bool, x: seq<Json>, noY: bool, y: seq<Json>)
    requires k in payload
    ensures var none := if payload - {k} == map[] then None else Some(payload - {k});
            var a := if noX then none else Some(payload[k := JList(x)]);
            var b := if noY then none else Some(payload[k := JList(y)]);
            a == b <==> noX == noY && (!noX ==> x == y)
  {
    assert payload[k := JList(x)][k] == JList(x) && payload[k := JList(y)][k] == JList(y) && k !in payload - {k};
  }

  lemma {:induction false} ListExact(payload: Object, items: seq<Json>, p: seq<string>, f: map<string, seq<string>>,
                                     q: seq<string>, g: map<string, seq<string>>)
    requires NamesTypes(JObj(payload)) && p != q && Settled(payload, p, f) && Settled(payload, q, g)
    requires p != [] && q != [] && p[0] == q[0] && p[0] in payload && payload[p[0]] == JList(items) && p[1..] != q[1..]
    ensures Both(payload, p, f, q, g) == Both(payload, q, g, p, f) <==> Harmless(payload, p, f, q, g)
    decreases |p|, 0, 1
  {
    SameList(payload, items, p, f, q, g);
    SameList(payload, items, q, g, p, f);
    ListTells(payload, p[0], Gone(items, p, f, q, g), CleanItems(CleanItems(items, p, f), q, g), Gone(items, q, g, p, f), CleanItems(CleanItems(items, q, g), p, f));
    assert NamesTypes(payload[p[0]]);
    ItemsExact(items, p, f, q, g);
    GoneExact(items, p, f, q, g);
    GoneExact(items, q, g, p, f);
  }

  /** The objects of a list after both erasures, and whether together they empty them. */
  lemma {:induction false} ItemsExact(items: seq<Json>, p: seq<string>, f: map<string, seq<string>>, q: seq<string>,
                                      g: map<string, seq<string>>)
    requires NamesTypes(JList(items)) && p != [] && q != [] && p[1..] != q[1..]
    requires SettledValue(JList(items), p, f) && SettledValue(JList(items), q, g)
    ensures CleanItems(CleanItems(items, p, f), q, g) == CleanItems(CleanItems(items, q, g), p, f) <==> AllHarmless(items, p, f, q, g)
    ensures AllHarmless(items, p, f, q, g) ==> (AllTogether(items, p, f, q, g) <==> AllTogether(items, q, g, p, f))
    decreases |p|, 0, 0
  {
    var x, y := CleanItems(CleanItems(items, p, f), q, g), CleanItems(CleanItems(items, q, g), p, f);
    forall i | 0 <= i < |items|
      ensures x[i] == y[i] <==> (items[i].JObj? ==> Harmless(items[i].fields, p[1..], f, q[1..], g))
      ensures items[i].JObj? && Harmless(items[i].fields, p[1..], f, q[1..], g) ==>
                (Together(items[i].fields, p[1..], f, q[1..], g) <==> Together(items[i].fields, q[1..], g, p[1..], f))
    {
      if items[i].JObj? {
        assert NamesTypes(items[i]);
        BothExact(items[i].fields, p[1..], f, q[1..], g);
        PayloadsTell(items[i].fields, p[1..], f, q[1..], g);
        BothEmpty(items[i].fields, p[1..], f, q[1..], g);
        BothEmpty(items[i].fields, q[1..], g, p[1..], f);
      }
    }
    assert x == y <==> forall i :: 0 <= i < |items| ==> x[i] == y[i];
  }

  /** What is left of an object after both erasures tells whether either of them reported it emptied. */
  lemma {:induction false} PayloadsTell(payload: Object, p: seq<string>, f: map<string, seq<string>>, q: seq<string>,
                                        g: map<string, seq<string>>)
    requires p != q
    ensures Both(payload, p, f, q, g) == Both(payload, q, g, p, f)
            <==> CleanAt(CleanAt(payload, p, f).payload, q, g).payload == CleanAt(CleanAt(payload, q, g).payload, p, f).payload
  {
    AfterBoth(payload, p, f, q, g);
    AfterBoth(payload, q, g, p, f);
    if payload == map[] {
      EmptyStays(p, f);
      EmptyStays(q, g);
    } else {
      SomethingLeft(payload, p, f, q, g);
      SomethingLeft(payload, q, g, p, f);
    }
  }

  lemma {:induction false} EmptyStays(p: seq<string>, f: map<string, seq<string>>)
    ensures CleanAt(map[], p, f) == Cleaned(map[], p == [])
  {
    if p == [] {
      var none: Object := map[];
      assert none - Doomed(none, f) == none;
    }
  }

  /** Nothing is left of a non-empty object only where that is reported. */
  lemma SomethingLeft(payload: Object, p: seq<string>, f: map<string, seq<string>>, q: seq<string>, g: map<string, seq<string>>)
    requires payload != map[]
    ensures Both(payload, p, f, q, g).Some? ==> Both(payload, p, f, q, g).value != map[]
  {
  }

  lemma {:induction false} AfterBoth(payload: Object, p: seq<string>, f: map<string, seq<string>>, q: seq<string>,
                                     g: map<string, seq<string>>)
    ensures CleanAt(CleanAt(payload, p, f).payload, q, g).payload
            == match Both(payload, p, f, q, g) case None => map[] case Some(rest) => rest
  {
    EmptyIsEmpty(payload, p, f);
    EmptyIsEmpty(CleanAt(payload, p, f).payload, q, g);
    EmptyIsEmpty(map[], q, g);
  }

  /** Candidate types that agree on an object agree on what is left of it. */
  lemma AgreedStays(payload: Object, rest: Object, types: map<string, seq<string>>)
    requires Agreed(payload, types) && rest.Keys <= payload.Keys && (TYPENAME in payload ==> TYPENAME in rest)
    ensures Agreed(rest, types)
  {
    if TYPENAME !in rest {
      forall s, t | s in types && t in types
        ensures ToSet(types[s]) * rest.Keys == ToSet(types[t]) * rest.Keys
      {
        forall k
          ensures k in ToSet(types[s]) * rest.Keys <==> k in ToSet(types[t]) * rest.Keys
        {
          assert k in ToSet(types[s]) * payload.Keys <==> k in ToSet(types[t]) * payload.Keys;
        }
      }
    }
  }

  /** Erasing elsewhere leaves candidate types agreed. */
  lemma {:induction false} SettledStays(payload: Object, p: seq<string>, f: map<string, seq<string>>, q: seq<string>,
                                        g: map<string, seq<string>>)
    requires NamesTypes(JObj(payload)) && p != q && Settled(payload, q, g)
    ensures Settled(CleanAt(payload, p, f).payload, q, g)
    decreases |q|
  {
    if p != [] && p[0] in payload {
      assert NamesTypes(payload[p[0]]);
      if q == [] {
        if p[0] == TYPENAME {
          Untouched(payload, p, f);
        }
        AgreedStays(payload, CleanAt(payload, p, f).payload, g);
      } else if p[0] == q[0] {
        assert p[1..] != q[1..] by {
          assert p == [p[0]] + p[1..] && q == [q[0]] + q[1..];
        }
        match payload[p[0]]
        case JObj(m) => SettledStays(m, p[1..], f, q[1..], g);
        case JList(items) =>
          var after := CleanItems(items, p, f);
          assert CleanValue(payload[p[0]], p, f).0 == JList(after);
          forall i | 0 <= i < |items| && after[i].JObj?
            ensures Settled(after[i].fields, q[1..], g)
          {
            assert after[i] == CleanItem(items[i], p, f);
            assert NamesTypes(items[i]);
            SettledStays(items[i].fields, p[1..], f, q[1..], g);
          }
          assert SettledValue(JList(after), q, g);
        case JScalar(_) =>
        case JNull =>
      }
    }
  }

  /** What two erasures one after the other may leave, whichever candidate types are tried first. */
  ghost predicate MayCleanBoth(payload: Object, p: seq<string>, f: map<string, seq<string>>, q: seq<string>,
                               g: map<string, seq<string>>, rest: Object) {
    exists between {:trigger MayClean(payload, p, f, between)} :: MayClean(payload, p, f, between) && MayClean(between, q, g, rest)
  }

  lemma {:induction false} BothOnce(payload: Object, p: seq<string>, f: map<string, seq<string>>, q: seq<string>,
                                    g: map<string, seq<string>>, rest: Object)
    requires NamesTypes(JObj(payload)) && p != q && Settled(payload, p, f) && Settled(payload, q, g)
    requires MayCleanBoth(payload, p, f, q, g, rest)
    ensures rest == CleanAt(CleanAt(payload, p, f).payload, q, g).payload
  {
    var between :| MayClean(payload, p, f, between) && MayClean(between, q, g, rest);
    SettledOnce(payload, p, f, between);
    SettledStays(payload, p, f, q, g);
    SettledOnce(between, q, g, rest);
  }

  lemma {:induction false} SomeBoth(payload: Object, p: seq<string>, f: map<string, seq<string>>, q: seq<string>,
                                    g: map<string, seq<string>>)
    ensures MayCleanBoth(payload, p, f, q, g, CleanAt(CleanAt(payload, p, f).payload, q, g).payload)
  {
    SomeLeft(payload, p, f);
    SomeLeft(CleanAt(payload, p, f).payload, q, g);
  }

  /**
   * Two entries at different paths, cascaded removal of parents included: whatever runs of clean leave in the two orders
   * is the same if and only if the entries are harmless to each other, a condition on the payload before either.
   */
  lemma {:induction false} CommuteExact(payload: Object, p: seq<string>, f: map<string, seq<string>>, q: seq<string>,
                                        g: map<string, seq<string>>, x: Object, y: Object)
    requires NamesTypes(JObj(payload)) && p != q && Settled(payload, p, f) && Settled(payload, q, g)
    requires MayCleanBoth(payload, p, f, q, g, x) && MayCleanBoth(payload, q, g, p, f, y)
    ensures x == y <==> Harmless(payload, p, f, q, g)
  {
    BothOnce(payload, p, f, q, g, x);
    BothOnce(payload, q, g, p, f, y);
    BothExact(payload, p, f, q, g);
    PayloadsTell(payload, p, f, q, g);
  }

  lemma {:induction false} OnlyIDGoes(payload: Object, types: map<string, seq<string>>)
    requires TYPENAME !in payload && types == map["T" := [ID]]
    ensures CleanAt(payload, [], types) == Cleaned(payload - {ID}, payload - {ID} == map[])
  {
    assert "T" in types && types != map[];
    assert ToSet([ID]) == {ID};
    assert Doomed(payload, types) == {ID};
  }

  /** With lists the order can matter: `{a: [{id}, {id, b: {id}}]}` keeps its list or loses it. */
  lemma {:induction false} ListsDoNotCommute(id: Json, x: Object, y: Object)
    requires id.JScalar?
    requires var types, payload := map["T" := [ID]], map["a" := JList([JObj(map[ID := id]), JObj(map[ID := id, "b" := JObj(map[ID := id])])])];
             MayCleanBoth(payload, ["a"], types, ["a", "b"], types, x) && MayCleanBoth(payload, ["a", "b"], types, ["a"], types, y)
    ensures "a" in x && "a" !in y
  {
    var types := map["T" := [ID]];
    var u: Object, v: Object := map[ID := id], map[ID := id, "b" := JObj(map[ID := id])];
    var items := [JObj(u), JObj(v)];
    var payload := map["a" := JList(items)];
    HereFirst(payload, u, v, types);
    BelowFirst(payload, u, v, types);
    OneType(payload, ["a"], ["a", "b"], types, x);
    OneType(payload, ["a", "b"], ["a"], types, y);
  }

  lemma {:induction false} OneType(payload: Object, p: seq<string>, q: seq<string>, types: map<string, seq<string>>, x: Object)
    requires types == map["T" := [ID]] && MayCleanBoth(payload, p, types, q, types, x)
    ensures x == CleanAt(CleanAt(payload, p, types).payload, q, types).payload
  {
    var between :| MayClean(payload, p, types, between) && MayClean(between, q, types, x);
    SameSettles(payload, p, types);
    SettledOnce(payload, p, types, between);
    SameSettles(between, q, types);
    SettledOnce(between, q, types, x);
  }

  lemma {:induction false} TwoItems(payload: Object, k: string, x: Object, y: Object, p: seq<string>, f: map<string, seq<string>>)
    requires p != [] && p[0] == k && payload == map[k := JList([JObj(x), JObj(y)])]
    ensures var a, b := CleanAt(x, p[1..], f), CleanAt(y, p[1..], f);
            CleanAt(payload, p, f).payload == if a.empty && b.empty then map[] else map[k := JList([JObj(a.payload), JObj(b.payload)])]
  {
    var items := [JObj(x), JObj(y)];
    var a, b := CleanAt(items[0].fields, p[1..], f), CleanAt(items[1].fields, p[1..], f);
    assert NoneLeft(items, 2, p, f) <==> a.empty && b.empty;
    assert CleanItems(items, p, f) == [JObj(a.payload), JObj(b.payload)];
    assert payload - {k} == map[];
  }

  lemma {:induction false} HereFirst(payload: Object, x: Object, y: Object, types: map<string, seq<string>>)
    requires types == map["T" := [ID]] && x.Keys == {ID} && y.Keys == {ID, "b"} && y["b"] == JObj(x)
    requires payload == map["a" := JList([JObj(x), JObj(y)])]
    ensures "a" in CleanAt(CleanAt(payload, ["a"], types).payload, ["a", "b"], types).payload
  {
    OnlyIDGoes(x, types);
    OnlyIDGoes(y, types);
    var z := y - {ID};
    assert x - {ID} == map[] && "b" in z;
    TwoItems(payload, "a", x, y, ["a"], types);
    TwoItems(map["a" := JList([JObj(map[]), JObj(z)])], "a", map[], z, ["a", "b"], types);
    EmptyStays(["b"], types);
    assert ["a", "b"][1..] == ["b"];
  }

  lemma {:induction false} BelowFirst(payload: Object, x: Object, y: Object, types: map<string, seq<string>>)
    requires types == map["T" := [ID]] && x.Keys == {ID} && y.Keys == {ID, "b"} && y["b"] == JObj(x)
    requires payload == map["a" := JList([JObj(x), JObj(y)])]
    ensures "a" !in CleanAt(CleanAt(payload, ["a", "b"], types).payload, ["a"], types).payload
  {
    var z := y - {"b"};
    OnlyIDGoes(x, types);
    OnlyIDGoes(z, types);
    assert x - {ID} == map[] && z - {ID} == map[];
    LosesB(x, y, types);
    TwoItems(payload, "a", x, y, ["a", "b"], types);
    TwoItems(map["a" := JList([JObj(x), JObj(z)])], "a", x, z, ["a"], types);
    assert ["a", "b"][1..] == ["b"];
  }

  lemma {:induction false} LosesB(x: Object, y: Object, types: map<string, seq<string>>)
    requires types == map["T" := [ID]] && x.Keys == {ID} && y.Keys == {ID, "b"} && y["b"] == JObj(x)
    ensures CleanAt(x, ["b"], types) == Cleaned(x, false)
    ensures CleanAt(y, ["b"], types) == Cleaned(y - {"b"}, false)
  {
    OnlyIDGoes(x, types);
    assert x - {ID} == map[];
    assert ["b"][0] == "b" && ["b"][1..] == [];
    assert CleanValue(y["b"], ["b"], types).1;
    assert ID in y - {"b"};
  }
}

