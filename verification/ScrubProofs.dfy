/**
 * Erasing undoes injecting: a response to the sanitized query becomes the response the client asked for.
 * Between two erasures the response is one without the ids at the paths visited so far.
 */
module ScrubProofs {
  import opened Prelude
  import opened Json
  import opened Schema
  import opened Selection
  import opened Scrubbing
  import opened Sanitizing
  import opened SanitizeProofs

  /** A response of the shape of a selection: its keys, and nested objects and lists of objects below. */
  ghost predicate Shaped(typename: string, sels: seq<Sel>, obj: Object)
    decreases sels, 0
  {
    && obj.Keys == Keys(sels)
    && (TYPENAME in obj ==> obj[TYPENAME] == JScalar(typename))
    && forall k :: k in Keys(sels) ==> ShapedValue(At(sels, k).typ.name, At(sels, k).sub, obj[k])
  }

  ghost predicate ShapedValue(typename: string, sub: seq<Sel>, v: Json)
    decreases sub, 1
  {
    sub == [] ||
    match v
    case JNull => true
    case JScalar(_) => false
    case JObj(m) => Shaped(typename, sub, m)
    case JList(items) => forall i :: 0 <= i < |items| ==> items[i].JNull? || (items[i].JObj? && Shaped(typename, sub, items[i].fields))
  }

  /** An empty list, or one that holds some object. */
  predicate NotOnlyNulls(items: seq<Json>) {
    items != [] ==> exists i :: 0 <= i < |items| && items[i].JObj?
  }

  /** Every list on a path is empty or holds some object. */
  ghost predicate Held(payload: Object, p: seq<string>)
    decreases |p|, 1
  {
    p != [] && p[0] in payload ==> HeldValue(payload[p[0]], p)
  }

  ghost predicate HeldValue(v: Json, p: seq<string>)
    requires p != []
    decreases |p|, 0
  {
    match v
    case JObj(m) => Held(m, p[1..])
    case JList(items) => NotOnlyNulls(items) && forall i :: 0 <= i < |items| && items[i].JObj? ==> Held(items[i].fields, p[1..])
    case JScalar(_) => true
    case JNull => true
  }

  ghost predicate AllHeld(payload: Object, paths: set<seq<string>>) {
    forall p :: p in paths ==> Held(payload, p)
  }

  /** A response restricted to the keys asked for, at every depth. */
  function Restrict(sels: seq<Sel>, obj: Object): Object
    decreases sels, 0
  {
    map k | k in Keys(sels) && k in obj :: RestrictValue(At(sels, k).sub, obj[k])
  }

  function RestrictValue(sub: seq<Sel>, v: Json): Json
    decreases sub, 1
  {
    if sub == [] then v
    else match v
      case JObj(m) => JObj(Restrict(sub, m))
      case JList(items) =>
        JList(seq(|items|, i requires 0 <= i < |items| => if items[i].JObj? then JObj(Restrict(sub, items[i].fields)) else items[i]))
      case JScalar(_) => v
      case JNull => v
  }

  /** The paths that go on below a key. */
  function PathsBelow(paths: set<seq<string>>, key: string): set<seq<string>> {
    set p | p in paths && p != [] && p[0] == key :: p[1..]
  }

  lemma InPathsBelow(paths: set<seq<string>>, key: string, p: seq<string>)
    ensures p in PathsBelow(paths, key) <==> [key] + p in paths
  {
    assert ([key] + p)[1..] == p;
    if p in PathsBelow(paths, key) {
      var q :| q in paths && q != [] && q[0] == key && q[1..] == p;
      assert [key] + p == q;
    }
  }

  lemma PathsBelowAdd(paths: set<seq<string>>, key: string, p: seq<string>)
    requires p != []
    ensures PathsBelow(paths + {p}, key) == if p[0] == key then PathsBelow(paths, key) + {p[1..]} else PathsBelow(paths, key)
  {
    forall q: seq<string>
      ensures q in PathsBelow(paths + {p}, key) <==> q in if p[0] == key then PathsBelow(paths, key) + {p[1..]} else PathsBelow(paths, key)
    {
      InPathsBelow(paths + {p}, key, q);
      InPathsBelow(paths, key, q);
      assert ([key] + q)[1..] == q && ([key] + q)[0] == key;
      assert p[0] == key ==> p == [key] + p[1..];
    }
  }

  /** A response without the ids at some paths: the state between two erasures. */
  function Strip(sels: seq<Sel>, obj: Object, paths: set<seq<string>>): Object
    decreases sels, 0
  {
    map k | k in obj && !([] in paths && k == ID) ::
      if k in Keys(sels) then StripValue(At(sels, k).sub, obj[k], PathsBelow(paths, k)) else obj[k]
  }

  function StripValue(sub: seq<Sel>, v: Json, paths: set<seq<string>>): Json
    decreases sub, 1
  {
    if sub == [] then v
    else match v
      case JObj(m) => JObj(Strip(sub, m, paths))
      case JList(items) =>
        JList(seq(|items|, i requires 0 <= i < |items| => if items[i].JObj? then JObj(Strip(sub, items[i].fields, paths)) else items[i]))
      case JScalar(_) => v
      case JNull => v
  }

  /** A response with at least the keys asked for. */
  ghost predicate Roomy(typename: string, sels: seq<Sel>, obj: Object)
    decreases sels, 0
  {
    && Keys(sels) <= obj.Keys
    && (TYPENAME in obj ==> obj[TYPENAME] == JScalar(typename))
    && forall k :: k in Keys(sels) ==> RoomyValue(At(sels, k).typ.name, At(sels, k).sub, obj[k])
  }

  ghost predicate RoomyValue(typename: string, sub: seq<Sel>, v: Json)
    decreases sub, 1
  {
    sub == [] ||
    match v
    case JNull => true
    case JScalar(_) => true
    case JObj(m) => Roomy(typename, sub, m)
    case JList(items) => forall i :: 0 <= i < |items| && items[i].JObj? ==> Roomy(typename, sub, items[i].fields)
  }

  /** The key `id` is nobody's but the id's: not a composite field's, and absent where an id is to be added. */
  ghost predicate PlainIDs(tum: TypeURLMap, sels: seq<Sel>)
    decreases sels
  {
    forall i :: 0 <= i < |sels| && sels[i].Field? && sels[i].sub != [] ==>
      && Key(sels[i]) != ID
      && (LacksID(tum, sels[i]) ==> ID !in Keys(sels[i].sub))
      && PlainIDs(tum, sels[i].sub)
  }

  /** The field a path to an injected id goes through first. */
  lemma FirstField(tum: TypeURLMap, sels: seq<Sel>, p: seq<string>) returns (f: Sel)
    requires Parsed(sels) && DeeplyUnique(sels) && PlainIDs(tum, sels) && p in Injected(tum, sels)
    ensures p != [] && p[0] in Keys(sels) && f == At(sels, p[0]) && f.sub != [] && p[0] != ID
    ensures Parsed(f.sub) && DeeplyUnique(f.sub) && PlainIDs(tum, f.sub)
    ensures TypeAt("", sels, p) == TypeAt(f.typ.name, f.sub, p[1..])
    ensures (p[1..] == [] && LacksID(tum, f) && ID !in Keys(f.sub)) || p[1..] in Injected(tum, f.sub)
  {
    InjectedStarts(tum, sels, p);
    var i :| 0 <= i < |sels| && sels[i].alias == p[0] && sels[i].sub != [] && p in InjectedField(tum, sels[i]);
    f := sels[i];
    AtUnique(sels, f);
    if !(LacksID(tum, f) && p == [f.alias]) {
      var q :| q in Injected(tum, f.sub) && p == [f.alias] + q;
      assert p[1..] == q;
    }
  }

  /** Erasing one more id, and nothing else. */
  lemma {:induction false} StripOneMore(tum: TypeURLMap, typename: string, sels: seq<Sel>, obj: Object,
                                        paths: set<seq<string>>, p: seq<string>)
    requires Parsed(sels) && DeeplyUnique(sels) && PlainIDs(tum, sels) && Roomy(typename, sels, obj)
    requires p in Injected(tum, sels) && Held(obj, p)
    ensures CleanAt(Strip(sels, obj, paths), p, map[TypeAt("", sels, p) := [ID]]) == Cleaned(Strip(sels, obj, paths + {p}), false)
    decreases |p|, 1
  {
    var f := FirstField(tum, sels, p);
    var key, types := p[0], map[TypeAt("", sels, p) := [ID]];
    StripElsewhere(sels, obj, paths, p);
    assert RoomyValue(f.typ.name, f.sub, obj[key]);
    StripValueOneMore(tum, f, obj[key], PathsBelow(paths, key), p, types);
    CleanedKey(Strip(sels, obj, paths), p, types, StripValue(f.sub, obj[key], PathsBelow(paths, key) + {p[1..]}));
  }

  lemma {:induction false} StripElsewhere(sels: seq<Sel>, obj: Object, paths: set<seq<string>>, p: seq<string>)
    requires p != [] && p[0] in Keys(sels) && p[0] in obj && p[0] != ID
    ensures p[0] in Strip(sels, obj, paths)
    ensures Strip(sels, obj, paths)[p[0]] == StripValue(At(sels, p[0]).sub, obj[p[0]], PathsBelow(paths, p[0]))
    ensures Strip(sels, obj, paths + {p})
            == Strip(sels, obj, paths)[p[0] := StripValue(At(sels, p[0]).sub, obj[p[0]], PathsBelow(paths, p[0]) + {p[1..]})]
  {
    forall k
      ensures PathsBelow(paths + {p}, k) == if k == p[0] then PathsBelow(paths, k) + {p[1..]} else PathsBelow(paths, k)
    {
      PathsBelowAdd(paths, k, p);
    }
  }

  lemma {:induction false} CleanedKey(payload: Object, p: seq<string>, types: map<string, seq<string>>, v: Json)
    requires p != [] && p[0] in payload && CleanValue(payload[p[0]], p, types) == (v, false)
    ensures CleanAt(payload, p, types) == Cleaned(payload[p[0] := v], false)
  {
    assert p[0] in payload[p[0] := v];
  }

  lemma {:induction false} StripValueOneMore(tum: TypeURLMap, f: Sel, v: Json, paths: set<seq<string>>, p: seq<string>,
                                        types: map<string, seq<string>>)
    requires f.Field? && f.sub != [] && p != [] && types == map[TypeAt(f.typ.name, f.sub, p[1..]) := [ID]]
    requires Parsed(f.sub) && DeeplyUnique(f.sub) && PlainIDs(tum, f.sub) && RoomyValue(f.typ.name, f.sub, v) && HeldValue(v, p)
    requires (p[1..] == [] && LacksID(tum, f) && ID !in Keys(f.sub)) || p[1..] in Injected(tum, f.sub)
    ensures CleanValue(StripValue(f.sub, v, paths), p, types) == (StripValue(f.sub, v, paths + {p[1..]}), false)
    decreases |p|, 0
  {
    match v
    case JObj(m) => StripObjectOneMore(tum, f, m, paths, p[1..]);
    case JList(items) =>
      forall i | 0 <= i < |items| && items[i].JObj?
        ensures CleanAt(Strip(f.sub, items[i].fields, paths), p[1..], types) == Cleaned(Strip(f.sub, items[i].fields, paths + {p[1..]}), false)
      {
        StripObjectOneMore(tum, f, items[i].fields, paths, p[1..]);
      }
      StripItems(f.sub, items, paths, p, types);
    case JScalar(_) =>
    case JNull =>
  }

  /** A list goes exactly when it is not empty and holds no object: then its nulls are taken for emptied entries. */
  lemma {:induction false} StripItems(sub: seq<Sel>, items: seq<Json>, paths: set<seq<string>>, p: seq<string>,
                                      types: map<string, seq<string>>)
    requires sub != [] && p != []
    requires forall i :: 0 <= i < |items| && items[i].JObj? ==>
               CleanAt(Strip(sub, items[i].fields, paths), p[1..], types) == Cleaned(Strip(sub, items[i].fields, paths + {p[1..]}), false)
    ensures CleanValue(StripValue(sub, JList(items), paths), p, types)
            == (StripValue(sub, JList(items), paths + {p[1..]}), !NotOnlyNulls(items))
  {
    var before, after := StripValue(sub, JList(items), paths).items, StripValue(sub, JList(items), paths + {p[1..]}).items;
    forall i | 0 <= i < |items|
      ensures CleanItem(before[i], p, types) == after[i]
      ensures before[i].JObj? == items[i].JObj?
      ensures before[i].JObj? ==> !CleanAt(before[i].fields, p[1..], types).empty
    {
      assert before[i] == if items[i].JObj? then JObj(Strip(sub, items[i].fields, paths)) else items[i];
    }
    assert seq(|before|, i requires 0 <= i < |before| => CleanItem(before[i], p, types)) == after;
    assert NoneLeft(before, |before|, p, types) <==> forall i :: 0 <= i < |items| ==> !items[i].JObj?;
  }

  lemma {:induction false} StripObjectOneMore(tum: TypeURLMap, f: Sel, m: Object, paths: set<seq<string>>, q: seq<string>)
    requires f.Field? && f.sub != []
    requires Parsed(f.sub) && DeeplyUnique(f.sub) && PlainIDs(tum, f.sub) && Roomy(f.typ.name, f.sub, m) && Held(m, q)
    requires (q == [] && LacksID(tum, f) && ID !in Keys(f.sub)) || q in Injected(tum, f.sub)
    ensures CleanAt(Strip(f.sub, m, paths), q, map[TypeAt(f.typ.name, f.sub, q) := [ID]]) == Cleaned(Strip(f.sub, m, paths + {q}), false)
    decreases |q|, 2
  {
    if q == [] && LacksID(tum, f) && ID !in Keys(f.sub) {
      StripHere(f.typ.name, f.sub, m, paths);
    } else {
      InjectedStarts(tum, f.sub, q);
      assert TypeAt(f.typ.name, f.sub, q) == TypeAt("", f.sub, q);
      StripOneMore(tum, f.typ.name, f.sub, m, paths, q);
    }
  }

  /** The id erased at the end of the path; what the client asked for stays. */
  lemma {:induction false} StripHere(typename: string, sub: seq<Sel>, m: Object, paths: set<seq<string>>)
    requires sub != [] && AllFields(sub) && Roomy(typename, sub, m) && ID !in Keys(sub)
    ensures CleanAt(Strip(sub, m, paths), [], map[typename := [ID]]) == Cleaned(Strip(sub, m, paths + {[]}), false)
  {
    var payload, types := Strip(sub, m, paths), map[typename := [ID]];
    AllKeys(sub, 0);
    var k := Key(sub[0]);
    assert k in m && k != ID;
    if TYPENAME in payload {
      TypenameStays(typename, sub, m, paths);
    }
    DoomedID(payload, typename);
    forall l
      ensures PathsBelow(paths + {[]}, l) == PathsBelow(paths, l)
    {
    }
    assert payload - {ID} == Strip(sub, m, paths + {[]});
    assert k in Strip(sub, m, paths + {[]});
  }

  lemma DoomedID(payload: Object, typename: string)
    requires TYPENAME in payload ==> payload[TYPENAME] == JScalar(typename)
    ensures Doomed(payload, map[typename := [ID]]) == {ID}
  {
    var types := map[typename := [ID]];
    assert ToSet([ID]) == {ID};
    assert typename in types && types[typename] == [ID];
    assert types != map[];
  }

  lemma {:induction false} TypenameStays(typename: string, sub: seq<Sel>, m: Object, paths: set<seq<string>>)
    requires Roomy(typename, sub, m) && TYPENAME in Strip(sub, m, paths)
    ensures Strip(sub, m, paths)[TYPENAME] == JScalar(typename)
  {
  }

  lemma {:induction false} StripNothing(typename: string, sels: seq<Sel>, obj: Object)
    ensures Strip(sels, obj, {}) == obj
    decreases sels, 0
  {
    forall k | k in obj && k in Keys(sels)
      ensures StripValue(At(sels, k).sub, obj[k], PathsBelow({}, k)) == obj[k]
    {
      var sub := At(sels, k).sub;
      assert PathsBelow({}, k) == {};
      match obj[k]
      case JObj(m) => StripNothing(typename, sub, m);
      case JList(items) =>
        forall i | 0 <= i < |items| && items[i].JObj?
          ensures Strip(sub, items[i].fields, {}) == items[i].fields
        {
          StripNothing(typename, sub, items[i].fields);
        }
        assert sub != [] ==> StripValue(sub, obj[k], {}).items == items;
      case JScalar(_) =>
      case JNull =>
    }
  }

  /** The paths of some entries. */
  function PathsOf(keys: seq<string>): set<seq<string>> {
    set i | 0 <= i < |keys| :: Unhash(keys[i])
  }

  /** The path and the content of an entry. */
  lemma {:induction false} EntryIs(tum: TypeURLMap, sels: seq<Sel>, entries: Entries, key: string)
    requires Parsed(sels) && Records(tum, sels, [], entries) && key in entries
    ensures Unhash(key) in Injected(tum, sels)
    ensures entries[key] == map[TypeAt("", sels, Unhash(key)) := [ID]]
  {
    var p :| p in Injected(tum, sels) && key == Hash([] + p);
    InjectedStarts(tum, sels, p);
    HashInjective([], p, p);
    assert [] + p == p;
    assert EntryAt([] + p, TypeAt("", sels, p), entries);
  }

  /** Each entry has one candidate type, so nothing depends on the order in which types are tried. */
  lemma {:induction false} OneTypeEach(tum: TypeURLMap, sels: seq<Sel>, payload: Object, entries: Entries, keys: seq<string>)
    requires Parsed(sels) && Records(tum, sels, [], entries) && forall i :: 0 <= i < |keys| ==> keys[i] in entries
    ensures SettledAll(payload, keys, entries)
  {
    if keys != [] {
      var front, last := keys[..|keys| - 1], keys[|keys| - 1];
      OneTypeEach(tum, sels, payload, entries, front);
      EntryIs(tum, sels, entries, last);
      SameSettles(CleanAll(payload, front, entries), Unhash(last), entries[last]);
    }
  }

  /** Erasing some of the entries, in any order. */
  lemma {:induction false} SomeErased(tum: TypeURLMap, typename: string, sels: seq<Sel>, obj: Object, entries: Entries,
                                      keys: seq<string>)
    requires Parsed(sels) && DeeplyUnique(sels) && PlainIDs(tum, sels) && Roomy(typename, sels, obj)
    requires Records(tum, sels, [], entries) && AllHeld(obj, PathsOf(keys)) && forall i :: 0 <= i < |keys| ==> keys[i] in entries
    ensures CleanAll(obj, keys, entries) == Strip(sels, obj, PathsOf(keys))
  {
    if keys == [] {
      StripNothing(typename, sels, obj);
      assert PathsOf(keys) == {};
    } else {
      var front, last := keys[..|keys| - 1], keys[|keys| - 1];
      SomeErased(tum, typename, sels, obj, entries, front);
      PathsOfSnoc(keys);
      OneErased(tum, typename, sels, obj, PathsOf(front), entries, last);
    }
  }

  lemma PathsOfSnoc(keys: seq<string>)
    requires keys != []
    ensures PathsOf(keys) == PathsOf(keys[..|keys| - 1]) + {Unhash(keys[|keys| - 1])}
  {
  }

  lemma {:induction false} OneErased(tum: TypeURLMap, typename: string, sels: seq<Sel>, obj: Object,
                                     paths: set<seq<string>>, entries: Entries, key: string)
    requires Parsed(sels) && DeeplyUnique(sels) && PlainIDs(tum, sels) && Roomy(typename, sels, obj)
    requires Records(tum, sels, [], entries) && key in entries && Held(obj, Unhash(key))
    ensures CleanAt(Strip(sels, obj, paths), Unhash(key), entries[key]).payload == Strip(sels, obj, paths + {Unhash(key)})
  {
    EntryIs(tum, sels, entries, key);
    StripOneMore(tum, typename, sels, obj, paths, Unhash(key));
  }

  lemma {:induction false} AllPaths(tum: TypeURLMap, sels: seq<Sel>, entries: Entries, keys: seq<string>)
    requires Parsed(sels) && Records(tum, sels, [], entries) && OrderOf(keys, entries)
    ensures PathsOf(keys) == Injected(tum, sels)
  {
    forall p
      ensures p in PathsOf(keys) <==> p in Injected(tum, sels)
    {
      if p in PathsOf(keys) {
        var i :| 0 <= i < |keys| && p == Unhash(keys[i]);
        EntryIs(tum, sels, entries, keys[i]);
      }
      if p in Injected(tum, sels) {
        InjectedStarts(tum, sels, p);
        HashInjective([], p, p);
        assert [] + p == p;
        assert EntryAt([] + p, TypeAt("", sels, p), entries);
        var i :| 0 <= i < |keys| && keys[i] == Hash(p);
      }
    }
  }

  /** The sanitized selection of a set: an added id, if any, in front. */
  function Answering(tum: TypeURLMap, sels: seq<Sel>, added: bool): seq<Sel> {
    if added then [ID_FIELD] + WithIDs(tum, sels) else WithIDs(tum, sels)
  }

  lemma {:induction false} PrependAt(x: Sel, w: seq<Sel>, k: string)
    requires AllFields(w) && x.Field? && Key(x) != k && k in Keys(w)
    ensures k in Keys([x] + w) && At([x] + w, k) == At(w, k)
  {
    var all := [x] + w;
    var i :| 0 <= i < |w| && Key(w[i]) == k;
    assert all[1..] == w && all[i + 1] == w[i];
    AllKeys(all, i + 1);
  }

  lemma PrependKeys(x: Sel, w: seq<Sel>)
    requires AllFields(w) && x.Field?
    ensures Keys([x] + w) == Keys(w) + {Key(x)}
  {
    var all := [x] + w;
    forall k | k in Keys(all)
      ensures k in Keys(w) || k == Key(x)
    {
      var i :| 0 <= i < |all| && all[i].Field? && Key(all[i]) == k;
      if i > 0 {
        AllKeys(w, i - 1);
      }
    }
    AllKeys(all, 0);
    forall k | k in Keys(w)
      ensures k in Keys(all)
    {
      var i :| 0 <= i < |w| && Key(w[i]) == k;
      assert all[i + 1] == w[i];
      AllKeys(all, i + 1);
    }
  }

  lemma {:induction false} WithIDsKeys(tum: TypeURLMap, sels: seq<Sel>)
    requires AllFields(sels)
    ensures Keys(WithIDs(tum, sels)) == Keys(sels)
  {
    var w := WithIDs(tum, sels);
    forall k | k in Keys(w)
      ensures k in Keys(sels)
    {
      var i :| 0 <= i < |w| && w[i].Field? && Key(w[i]) == k;
      AllKeys(sels, i);
    }
    forall k | k in Keys(sels)
      ensures k in Keys(w)
    {
      var i :| 0 <= i < |sels| && sels[i].Field? && Key(sels[i]) == k;
      AllKeys(w, i);
    }
  }

  lemma {:induction false} WithIDsAtKey(tum: TypeURLMap, sels: seq<Sel>, k: string)
    requires UniqueKeys(sels) && k in Keys(sels)
    ensures k in Keys(WithIDs(tum, sels)) && At(WithIDs(tum, sels), k) == WithID(tum, At(sels, k))
  {
    var w := WithIDs(tum, sels);
    var i :| 0 <= i < |sels| && sels[i] == At(sels, k);
    WithIDsAt(tum, sels, i);
    AtUnique(w, w[i]);
  }

  lemma {:induction false} AnsweringAt(tum: TypeURLMap, sels: seq<Sel>, added: bool, k: string)
    requires UniqueKeys(sels) && k in Keys(sels) && (added ==> k != ID)
    ensures k in Keys(Answering(tum, sels, added))
    ensures At(Answering(tum, sels, added), k) == WithID(tum, At(sels, k))
  {
    WithIDsAtKey(tum, sels, k);
    if added {
      PrependAt(ID_FIELD, WithIDs(tum, sels), k);
    }
  }

  lemma AnsweringKeys(tum: TypeURLMap, sels: seq<Sel>, added: bool)
    requires UniqueKeys(sels)
    ensures Keys(Answering(tum, sels, added)) == Keys(sels) + if added then {ID} else {}
  {
    WithIDsKeys(tum, sels);
    if added {
      PrependKeys(ID_FIELD, WithIDs(tum, sels));
    }
  }

  /** What the sanitized selection of a field looks like below. */
  lemma {:induction false} WithIDSub(tum: TypeURLMap, f: Sel)
    requires f.Field?
    ensures WithID(tum, f).typ == f.typ
    ensures f.sub == [] ==> WithID(tum, f).sub == []
    ensures f.sub != [] ==> WithID(tum, f).sub == Answering(tum, f.sub, LacksID(tum, f)) && WithID(tum, f).sub != []
  {
  }

  lemma {:induction false} FieldParts(tum: TypeURLMap, sels: seq<Sel>, k: string)
    requires Parsed(sels) && DeeplyUnique(sels) && PlainIDs(tum, sels) && k in Keys(sels)
    ensures var f := At(sels, k);
            && Parsed(f.sub) && DeeplyUnique(f.sub)
            && (f.sub != [] ==> k != ID && PlainIDs(tum, f.sub) && (LacksID(tum, f) ==> ID !in Keys(f.sub)))
            && f.alias == k
  {
    var f := At(sels, k);
    var i :| 0 <= i < |sels| && sels[i] == f;
  }

  lemma {:induction false} ShapedIsRoomy(tum: TypeURLMap, typename: string, sels: seq<Sel>, added: bool, obj: Object)
    requires Parsed(sels) && DeeplyUnique(sels) && PlainIDs(tum, sels) && (added ==> ID !in Keys(sels))
    requires Shaped(typename, Answering(tum, sels, added), obj)
    ensures Roomy(typename, sels, obj)
    decreases sels, 1
  {
    AnsweringKeys(tum, sels, added);
    forall k | k in Keys(sels)
      ensures RoomyValue(At(sels, k).typ.name, At(sels, k).sub, obj[k])
    {
      AnsweringAt(tum, sels, added, k);
      if At(sels, k).sub != [] {
        FieldParts(tum, sels, k);
        WithIDSub(tum, At(sels, k));
        ShapedValueIsRoomy(tum, At(sels, k), obj[k]);
      }
    }
  }

  lemma {:induction false} ShapedValueIsRoomy(tum: TypeURLMap, f: Sel, v: Json)
    requires f.Field? && f.sub != []
    requires Parsed(f.sub) && DeeplyUnique(f.sub) && PlainIDs(tum, f.sub) && (LacksID(tum, f) ==> ID !in Keys(f.sub))
    requires ShapedValue(f.typ.name, Answering(tum, f.sub, LacksID(tum, f)), v)
    ensures RoomyValue(f.typ.name, f.sub, v)
    decreases f, 0
  {
    assert Answering(tum, f.sub, LacksID(tum, f)) != [];
    match v
    case JObj(m) => ShapedIsRoomy(tum, f.typ.name, f.sub, LacksID(tum, f), m);
    case JList(items) =>
      forall i | 0 <= i < |items| && items[i].JObj?
        ensures Roomy(f.typ.name, f.sub, items[i].fields)
      {
        ShapedIsRoomy(tum, f.typ.name, f.sub, LacksID(tum, f), items[i].fields);
      }
    case JScalar(_) =>
    case JNull =>
  }

  /** Every path below an object, and the object's own when an id was added to it. */
  function AllOf(tum: TypeURLMap, sels: seq<Sel>, added: bool): set<seq<string>> {
    Injected(tum, sels) + if added then {[]} else {}
  }

  lemma {:induction false} PathDown(tum: TypeURLMap, sels: seq<Sel>, k: string, p: seq<string>)
    requires Parsed(sels) && DeeplyUnique(sels) && PlainIDs(tum, sels) && k in Keys(sels)
    requires [k] + p in Injected(tum, sels)
    ensures At(sels, k).sub != [] && p in AllOf(tum, At(sels, k).sub, LacksID(tum, At(sels, k)))
  {
    var f := FirstField(tum, sels, [k] + p);
    assert ([k] + p)[1..] == p;
  }

  lemma {:induction false} PathUp(tum: TypeURLMap, sels: seq<Sel>, k: string, p: seq<string>)
    requires Parsed(sels) && DeeplyUnique(sels) && PlainIDs(tum, sels) && k in Keys(sels)
    requires At(sels, k).sub != [] && p in AllOf(tum, At(sels, k).sub, LacksID(tum, At(sels, k)))
    ensures [k] + p in Injected(tum, sels)
  {
    var f := At(sels, k);
    FieldParts(tum, sels, k);
    assert [k] + p in InjectedField(tum, f) by {
      assert p == [] ==> [k] + p == [f.alias];
    }
    InInjected(tum, sels, [k] + p);
    var i :| 0 <= i < |sels| && sels[i] == f;
  }

  lemma {:induction false} AllBelow(tum: TypeURLMap, sels: seq<Sel>, added: bool, k: string)
    requires Parsed(sels) && DeeplyUnique(sels) && PlainIDs(tum, sels) && k in Keys(sels)
    ensures var f := At(sels, k);
            PathsBelow(AllOf(tum, sels, added), k) == if f.sub == [] then {} else AllOf(tum, f.sub, LacksID(tum, f))
  {
    var f := At(sels, k);
    var below := if f.sub == [] then {} else AllOf(tum, f.sub, LacksID(tum, f));
    forall p
      ensures p in PathsBelow(AllOf(tum, sels, added), k) <==> p in below
    {
      InPathsBelow(AllOf(tum, sels, added), k, p);
      if [k] + p in Injected(tum, sels) {
        PathDown(tum, sels, k, p);
      }
      if p in below {
        PathUp(tum, sels, k, p);
      }
    }
  }

  /** With every id erased that was added, what is left is what the client asked for. */
  lemma {:induction false} AllStripped(tum: TypeURLMap, typename: string, sels: seq<Sel>, added: bool, obj: Object)
    requires Parsed(sels) && DeeplyUnique(sels) && PlainIDs(tum, sels) && (added ==> ID !in Keys(sels))
    requires Shaped(typename, Answering(tum, sels, added), obj)
    ensures Strip(sels, obj, AllOf(tum, sels, added)) == Restrict(sels, obj)
    decreases sels, 1
  {
    var paths := AllOf(tum, sels, added);
    forall k | k in Keys(sels)
      ensures SameAt(sels, obj, paths, k)
    {
      KeyStripped(tum, typename, sels, added, obj, k);
    }
    assert [] in paths <==> added by {
      NoEmptyPath(tum, sels);
    }
    AnsweringKeys(tum, sels, added);
    StripIsRestrict(sels, obj, paths);
  }

  /** What is left under a key is what was asked for. */
  predicate SameAt(sels: seq<Sel>, obj: Object, paths: set<seq<string>>, k: string)
    requires k in Keys(sels)
  {
    k in obj && StripValue(At(sels, k).sub, obj[k], PathsBelow(paths, k)) == RestrictValue(At(sels, k).sub, obj[k])
  }

  lemma {:induction false} StripIsRestrict(sels: seq<Sel>, obj: Object, paths: set<seq<string>>)
    requires obj.Keys == Keys(sels) + (if [] in paths then {ID} else {}) && ([] in paths ==> ID !in Keys(sels))
    requires forall k :: k in Keys(sels) ==> SameAt(sels, obj, paths, k)
    ensures Strip(sels, obj, paths) == Restrict(sels, obj)
  {
  }

  lemma {:induction false} KeyStripped(tum: TypeURLMap, typename: string, sels: seq<Sel>, added: bool, obj: Object, k: string)
    requires Parsed(sels) && DeeplyUnique(sels) && PlainIDs(tum, sels) && (added ==> ID !in Keys(sels))
    requires Shaped(typename, Answering(tum, sels, added), obj) && k in Keys(sels)
    ensures SameAt(sels, obj, AllOf(tum, sels, added), k)
    decreases sels, 0
  {
    AnsweringAt(tum, sels, added, k);
    if At(sels, k).sub != [] {
      AllBelow(tum, sels, added, k);
      FieldParts(tum, sels, k);
      WithIDSub(tum, At(sels, k));
      ValueStripped(tum, At(sels, k), obj[k]);
    }
  }

  lemma {:induction false} ValueStripped(tum: TypeURLMap, f: Sel, v: Json)
    requires f.Field? && f.sub != []
    requires Parsed(f.sub) && DeeplyUnique(f.sub) && PlainIDs(tum, f.sub) && (LacksID(tum, f) ==> ID !in Keys(f.sub))
    requires ShapedValue(f.typ.name, Answering(tum, f.sub, LacksID(tum, f)), v)
    ensures StripValue(f.sub, v, AllOf(tum, f.sub, LacksID(tum, f))) == RestrictValue(f.sub, v)
    decreases f, 0
  {
    var paths := AllOf(tum, f.sub, LacksID(tum, f));
    assert Answering(tum, f.sub, LacksID(tum, f)) != [];
    match v
    case JObj(m) => AllStripped(tum, f.typ.name, f.sub, LacksID(tum, f), m);
    case JList(items) =>
      forall i | 0 <= i < |items| && items[i].JObj?
        ensures Strip(f.sub, items[i].fields, paths) == Restrict(f.sub, items[i].fields)
      {
        AllStripped(tum, f.typ.name, f.sub, LacksID(tum, f), items[i].fields);
      }
      assert StripValue(f.sub, v, paths).items == RestrictValue(f.sub, v).items;
    case JScalar(_) =>
    case JNull =>
  }

  lemma {:induction false} NoEmptyPath(tum: TypeURLMap, sels: seq<Sel>)
    requires Parsed(sels)
    ensures [] !in Injected(tum, sels)
  {
    if [] in Injected(tum, sels) {
      InjectedStarts(tum, sels, []);
    }
  }

  /** What an erasure may leave of a value: keys go, nothing else changes. */
  ghost predicate Shrunk(a: Object, b: Object)
    decreases JObj(a), 0
  {
    b.Keys <= a.Keys && forall k :: k in b ==> ShrunkValue(a[k], b[k])
  }

  ghost predicate ShrunkValue(v: Json, w: Json)
    decreases v, 1
  {
    match v
    case JObj(m) => w.JObj? && Shrunk(m, w.fields)
    case JList(items) => w.JList? && |w.items| == |items| && forall i :: 0 <= i < |items| ==> ShrunkValue(items[i], w.items[i])
    case JScalar(_) => w == v
    case JNull => w == v
  }

  lemma {:induction false} ShrunkSame(v: Json)
    ensures ShrunkValue(v, v)
    decreases v
  {
    match v
    case JObj(m) =>
      forall k | k in m
        ensures ShrunkValue(m[k], m[k])
      {
        ShrunkSame(m[k]);
      }
    case JList(items) =>
      forall i | 0 <= i < |items|
        ensures ShrunkValue(items[i], items[i])
      {
        ShrunkSame(items[i]);
      }
    case JScalar(_) =>
    case JNull =>
  }

  lemma {:induction false} ShrunkMore(u: Json, v: Json, w: Json)
    requires ShrunkValue(u, v) && ShrunkValue(v, w)
    ensures ShrunkValue(u, w)
    decreases u
  {
    match u
    case JObj(m) =>
      forall k | k in w.fields
        ensures ShrunkValue(m[k], w.fields[k])
      {
        ShrunkMore(m[k], v.fields[k], w.fields[k]);
      }
    case JList(items) =>
      forall i | 0 <= i < |items|
        ensures ShrunkValue(items[i], w.items[i])
      {
        ShrunkMore(items[i], v.items[i], w.items[i]);
      }
    case JScalar(_) =>
    case JNull =>
  }

  lemma {:induction false} CleanShrinks(payload: Object, p: seq<string>, types: map<string, seq<string>>)
    ensures Shrunk(payload, CleanAt(payload, p, types).payload)
    decreases |p|, 1
  {
    forall k | k in payload
      ensures ShrunkValue(payload[k], payload[k])
    {
      ShrunkSame(payload[k]);
    }
    if p != [] && p[0] in payload {
      ValueShrinks(payload[p[0]], p, types);
    }
  }

  lemma {:induction false} ValueShrinks(v: Json, p: seq<string>, types: map<string, seq<string>>)
    requires p != []
    ensures ShrunkValue(v, CleanValue(v, p, types).0)
    decreases |p|, 0
  {
    match v
    case JObj(m) => CleanShrinks(m, p[1..], types);
    case JList(items) =>
      forall i | 0 <= i < |items|
        ensures ShrunkValue(items[i], CleanItem(items[i], p, types))
      {
        if items[i].JObj? {
          CleanShrinks(items[i].fields, p[1..], types);
        } else {
          ShrunkSame(items[i]);
        }
      }
    case JScalar(_) =>
    case JNull =>
  }

  /** Something that a path goes through is missing from b. */
  ghost predicate Lost(a: Object, b: Object, p: seq<string>)
    decreases |p|, 1
  {
    p != [] && p[0] in a && (p[0] in b ==> LostValue(a[p[0]], b[p[0]], p))
  }

  ghost predicate LostValue(v: Json, w: Json, p: seq<string>)
    requires p != []
    decreases |p|, 0
  {
    match v
    case JObj(m) => w.JObj? && Lost(m, w.fields, p[1..])
    case JList(items) =>
      w.JList? && |w.items| == |items| && exists i :: 0 <= i < |items| && items[i].JObj? && w.items[i].JObj? && Lost(items[i].fields, w.items[i].fields, p[1..])
    case JScalar(_) => false
    case JNull => false
  }

  /** What is lost stays lost. */
  lemma {:induction false} LostStays(a: Object, b: Object, c: Object, p: seq<string>)
    requires Shrunk(b, c) && Lost(a, b, p)
    ensures Lost(a, c, p)
    decreases |p|
  {
    if p[0] in c {
      var w, x := b[p[0]], c[p[0]];
      assert ShrunkValue(w, x);
      match a[p[0]]
      case JObj(m) => LostStays(m, w.fields, x.fields, p[1..]);
      case JList(items) =>
        var i :| 0 <= i < |items| && items[i].JObj? && w.items[i].JObj? && Lost(items[i].fields, w.items[i].fields, p[1..]);
        assert ShrunkValue(w.items[i], x.items[i]);
        LostStays(items[i].fields, w.items[i].fields, x.items[i].fields, p[1..]);
    }
  }

  lemma {:induction false} EmptiedList(payload: Object, p: seq<string>, types: map<string, seq<string>>)
    requires p != [] && p[0] in payload && payload[p[0]].JList? && !NotOnlyNulls(payload[p[0]].items)
    ensures p[0] !in CleanAt(payload, p, types).payload
  {
    var items := payload[p[0]].items;
    assert NoneLeft(items, |items|, p, types);
  }

  /** A list of nulls only on the path of an entry goes when the entry is erased, if it is still there. */
  lemma {:induction false} ErasingLoses(a: Object, b: Object, p: seq<string>, types: map<string, seq<string>>)
    requires Shrunk(a, b) && !Held(a, p)
    ensures Lost(a, CleanAt(b, p, types).payload, p)
    decreases |p|
  {
    if p[0] in b && p[0] in CleanAt(b, p, types).payload {
      var v, w := a[p[0]], b[p[0]];
      assert ShrunkValue(v, w);
      match v
      case JObj(m) => ErasingLoses(m, w.fields, p[1..], types);
      case JList(items) =>
        forall i | 0 <= i < |items|
          ensures items[i].JObj? == w.items[i].JObj?
        {
          assert ShrunkValue(items[i], w.items[i]);
        }
        if !NotOnlyNulls(items) {
          EmptiedList(b, p, types);
          assert false;
        }
        var i :| 0 <= i < |items| && items[i].JObj? && !Held(items[i].fields, p[1..]);
        assert ShrunkValue(items[i], w.items[i]);
        ErasingLoses(items[i].fields, w.items[i].fields, p[1..], types);
        var after := CleanValue(w, p, types).0;
        assert after.items[i] == CleanItem(w.items[i], p, types);
        assert LostValue(v, after, p);
    }
  }

  /** A path through composite fields. */
  ghost predicate Through(sels: seq<Sel>, p: seq<string>)
    decreases |p|
  {
    p != [] ==> p[0] in Keys(sels) && At(sels, p[0]).sub != [] && Through(At(sels, p[0]).sub, p[1..])
  }

  lemma {:induction false} InjectedThrough(tum: TypeURLMap, sels: seq<Sel>, p: seq<string>)
    requires Parsed(sels) && DeeplyUnique(sels) && PlainIDs(tum, sels) && p in Injected(tum, sels)
    ensures Through(sels, p)
    decreases |p|
  {
    var f := FirstField(tum, sels, p);
    if p[1..] in Injected(tum, f.sub) {
      InjectedThrough(tum, f.sub, p[1..]);
    }
  }

  lemma {:induction false} AnsweringThrough(tum: TypeURLMap, sels: seq<Sel>, added: bool, p: seq<string>)
    requires Parsed(sels) && DeeplyUnique(sels) && PlainIDs(tum, sels) && (added ==> ID !in Keys(sels)) && Through(sels, p)
    ensures Through(Answering(tum, sels, added), p)
    decreases |p|
  {
    if p != [] {
      var f := At(sels, p[0]);
      FieldParts(tum, sels, p[0]);
      AnsweringAt(tum, sels, added, p[0]);
      WithIDSub(tum, f);
      AnsweringThrough(tum, f.sub, LacksID(tum, f), p[1..]);
    }
  }

  /** What was asked for has lost nothing on such a path. */
  lemma {:induction false} NothingLost(sels: seq<Sel>, obj: Object, p: seq<string>)
    requires Through(sels, p)
    ensures !Lost(obj, Restrict(sels, obj), p)
    decreases |p|
  {
    if p != [] && p[0] in obj {
      var f := At(sels, p[0]);
      var v, w := obj[p[0]], RestrictValue(f.sub, obj[p[0]]);
      assert Restrict(sels, obj)[p[0]] == w;
      match v
      case JObj(m) => NothingLost(f.sub, m, p[1..]);
      case JList(items) =>
        forall i | 0 <= i < |items| && items[i].JObj?
          ensures !Lost(items[i].fields, w.items[i].fields, p[1..])
        {
          NothingLost(f.sub, items[i].fields, p[1..]);
        }
      case JScalar(_) =>
      case JNull =>
    }
  }

  /** Erasing an entry whose path meets a list of nulls only loses that list for good. */
  lemma {:induction false} LostAtEnd(payload: Object, keys: seq<string>, entries: Entries)
    requires forall i :: 0 <= i < |keys| ==> keys[i] in entries
    ensures Shrunk(payload, CleanAll(payload, keys, entries))
    ensures forall key :: key in keys && !Held(payload, Unhash(key)) ==> Lost(payload, CleanAll(payload, keys, entries), Unhash(key))
  {
    if keys == [] {
      ShrunkSame(JObj(payload));
    } else {
      var front, last := keys[..|keys| - 1], keys[|keys| - 1];
      LostAtEnd(payload, front, entries);
      var before, after := CleanAll(payload, front, entries), CleanAll(payload, keys, entries);
      CleanShrinks(before, Unhash(last), entries[last]);
      ShrunkMore(JObj(payload), JObj(before), JObj(after));
      InSnoc(keys);
      forall key | key in keys && !Held(payload, Unhash(key))
        ensures Lost(payload, after, Unhash(key))
      {
        if key in front {
          LostStays(payload, before, after, Unhash(key));
        } else {
          ErasingLoses(payload, before, Unhash(key), entries[key]);
        }
      }
    }
  }

  /**
   * Injection and scrubbing undo each other: of a response that has the shape of the sanitized query, whatever the
   * order the entries are visited in, Clean leaves exactly what the client asked for, at every depth, if and only if
   * every list on the path of an injected id is empty or holds some object.
   */
  lemma {:induction false} CleanRestricts(tum: TypeURLMap, typename: string, sels: seq<Sel>, obj: Object, order: seq<string>)
    requires Parsed(sels) && DeeplyUnique(sels) && Unshadowing(sels) && PlainIDs(tum, sels)
    requires Shaped(typename, Sanitize(tum, sels, []).sels, obj)
    requires OrderOf(order, Sanitize(tum, sels, []).scrub)
    ensures SettledAll(obj, order, Sanitize(tum, sels, []).scrub)
    ensures CleanAll(obj, order, Sanitize(tum, sels, []).scrub) == Restrict(sels, obj) <==> AllHeld(obj, Injected(tum, sels))
  {
    var entries := Sanitize(tum, sels, []).scrub;
    SanitizeExact(tum, sels, []);
    SanitizeRecords(tum, sels, []);
    assert Answering(tum, sels, false) == WithIDs(tum, sels);
    RecordedExact(tum, typename, sels, obj, entries, order);
  }

  lemma {:induction false} RecordedExact(tum: TypeURLMap, typename: string, sels: seq<Sel>, obj: Object,
                                        entries: Entries, order: seq<string>)
    requires Parsed(sels) && DeeplyUnique(sels) && PlainIDs(tum, sels)
    requires Shaped(typename, Answering(tum, sels, false), obj)
    requires Records(tum, sels, [], entries) && OrderOf(order, entries)
    ensures SettledAll(obj, order, entries)
    ensures CleanAll(obj, order, entries) == Restrict(sels, obj) <==> AllHeld(obj, Injected(tum, sels))
  {
    AllPaths(tum, sels, entries, order);
    OneTypeEach(tum, sels, obj, entries, order);
    if AllHeld(obj, PathsOf(order)) {
      RecordedErased(tum, typename, sels, obj, entries, order);
    } else {
      ErasedTooMuch(tum, sels, obj, entries, order);
    }
  }

  lemma {:induction false} ErasedTooMuch(tum: TypeURLMap, sels: seq<Sel>, obj: Object, entries: Entries, order: seq<string>)
    requires Parsed(sels) && DeeplyUnique(sels) && PlainIDs(tum, sels)
    requires PathsOf(order) == Injected(tum, sels) && !AllHeld(obj, PathsOf(order)) && forall j :: 0 <= j < |order| ==> order[j] in entries
    ensures CleanAll(obj, order, entries) != Restrict(sels, obj)
  {
    var p :| p in PathsOf(order) && !Held(obj, p);
    var i :| 0 <= i < |order| && Unhash(order[i]) == p;
    LostAtEnd(obj, order, entries);
    InjectedThrough(tum, sels, Unhash(order[i]));
    NothingLost(sels, obj, Unhash(order[i]));
  }

  lemma {:induction false} RecordedErased(tum: TypeURLMap, typename: string, sels: seq<Sel>, obj: Object,
                                        entries: Entries, order: seq<string>)
    requires Parsed(sels) && DeeplyUnique(sels) && PlainIDs(tum, sels)
    requires Shaped(typename, Answering(tum, sels, false), obj)
    requires Records(tum, sels, [], entries) && forall i :: 0 <= i < |order| ==> order[i] in entries
    requires PathsOf(order) == Injected(tum, sels) && AllHeld(obj, PathsOf(order))
    ensures CleanAll(obj, order, entries) == Restrict(sels, obj)
  {
    ShapedIsRoomy(tum, typename, sels, false, obj);
    SomeErased(tum, typename, sels, obj, entries, order);
    AllErased(tum, typename, sels, obj);
  }

  lemma {:induction false} AllErased(tum: TypeURLMap, typename: string, sels: seq<Sel>, obj: Object)
    requires Parsed(sels) && DeeplyUnique(sels) && PlainIDs(tum, sels)
    requires Shaped(typename, Answering(tum, sels, false), obj)
    ensures Strip(sels, obj, Injected(tum, sels)) == Restrict(sels, obj)
  {
    AllStripped(tum, typename, sels, false, obj);
    assert AllOf(tum, sels, false) == Injected(tum, sels);
  }
}
