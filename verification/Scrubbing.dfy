/** planner/scrub_fields.go: the record of injected fields, and erasing them from a response. */
module Scrubbing {
  import opened Prelude
  import opened Text
  import opened Json
  import opened Schema

  /** Path text to type name to the fields added there. */
  type Entries = map<string, map<string, seq<string>>>

  function Hash(path: seq<string>): string {
    Join(path, '.')
  }

  function Unhash(key: string): seq<string> {
    Split(key, '.')
  }

  function FieldsAt(entries: Entries, key: string, typename: string): seq<string> {
    if key in entries && typename in entries[key] then entries[key][typename] else []
  }

  function SetEntry(entries: Entries, key: string, typename: string, field: string): Entries {
    var fields := Uniq(FieldsAt(entries, key, typename) + [field]);
    entries[key := if key in entries then entries[key][typename := fields] else map[typename := fields]]
  }

  function MergeTypes(a: map<string, seq<string>>, b: map<string, seq<string>>): map<string, seq<string>> {
    map t | t in a.Keys + b.Keys ::
      if t !in b then a[t] else Uniq((if t in a then a[t] else []) + b[t])
  }

  function MergeEntries(a: Entries, b: Entries): Entries {
    map key | key in a.Keys + b.Keys :: MergedTypes(a, b, key)
  }

  function MergedTypes(a: Entries, b: Entries, key: string): map<string, seq<string>>
    requires key in a || key in b
  {
    if key !in b then a[key] else MergeTypes(TypesAt(a, key), b[key])
  }

  function TypesAt(entries: Entries, key: string): map<string, seq<string>> {
    if key in entries then entries[key] else map[]
  }

  /** Recording adds one field under one path and type and leaves everything else as it was. */
  lemma SetAdds(entries: Entries, key: string, typename: string, field: string, k: string, t: string)
    ensures ToSet(FieldsAt(SetEntry(entries, key, typename, field), k, t))
            == ToSet(FieldsAt(entries, k, t)) + if k == key && t == typename then {field} else {}
    ensures Distinct(FieldsAt(entries, k, t)) ==> Distinct(FieldsAt(SetEntry(entries, key, typename, field), k, t))
  {
    var own := FieldsAt(entries, key, typename);
    assert ToSet(Uniq(own + [field])) == ToSet(own) + {field};
  }

  /** Merging unites two records: under each path and type the fields of both. */
  lemma MergeUnites(a: Entries, b: Entries, key: string, t: string)
    ensures ToSet(FieldsAt(MergeEntries(a, b), key, t)) == ToSet(FieldsAt(a, key, t)) + ToSet(FieldsAt(b, key, t))
    ensures key in MergeEntries(a, b) <==> key in a || key in b
  {
    if key in b && t in b[key] {
      var own := if key in a && t in a[key] then a[key][t] else [];
      assert ToSet(Uniq(own + b[key][t])) == ToSet(own) + ToSet(b[key][t]);
      assert FieldsAt(MergeEntries(a, b), key, t) == Uniq(own + b[key][t]);
    }
  }

  /** Some of the entries. */
  function Only(entries: Entries, keys: set<string>): Entries {
    map key | key in keys && key in entries :: entries[key]
  }

  /** Records with the same paths and the same types at each are the same. */
  lemma SameEntries(a: Entries, b: Entries)
    requires a.Keys == b.Keys && forall k :: k in a ==> a[k] == b[k]
    ensures a == b
  {
  }

  lemma MergeKeys(a: Entries, b: Entries)
    ensures MergeEntries(a, b).Keys == a.Keys + b.Keys
  {
  }

  /** Merging into a record with one more path. */
  lemma MergePut(a: Entries, b: Entries, key: string, types: map<string, seq<string>>)
    requires key !in b
    ensures MergeEntries(a, b[key := types]) == MergeEntries(a, b)[key := MergeTypes(TypesAt(a, key), types)]
  {
    var put, merged := b[key := types], MergeTypes(TypesAt(a, key), types);
    MergeKeys(a, put);
    MergeKeys(a, b);
    forall k | k in MergeEntries(a, put)
      ensures MergeEntries(a, put)[k] == MergeEntries(a, b)[key := merged][k]
    {
      MergeElsewhere(a, b, key, types, k);
    }
    SameEntries(MergeEntries(a, put), MergeEntries(a, b)[key := merged]);
  }

  lemma MergeElsewhere(a: Entries, b: Entries, key: string, types: map<string, seq<string>>, k: string)
    requires key !in b && (k in a || k in b || k == key)
    ensures MergedTypes(a, b[key := types], k) == if k == key then MergeTypes(TypesAt(a, key), types) else MergedTypes(a, b, k)
  {
  }

  /** Merging one more entry. */
  lemma MergeOneMore(a: Entries, b: Entries, seen: set<string>, key: string)
    requires key in b && key !in seen
    ensures var before := MergeEntries(a, Only(b, seen));
            MergeEntries(a, Only(b, seen + {key})) == before[key := MergeTypes(TypesAt(before, key), b[key])]
  {
    var some := Only(b, seen);
    OnlyOneMore(b, seen, key);
    MergePut(a, some, key, b[key]);
    assert TypesAt(MergeEntries(a, some), key) == TypesAt(a, key);
  }

  lemma OnlyOneMore(b: Entries, seen: set<string>, key: string)
    requires key in b && key !in seen
    ensures Only(b, seen + {key}) == Only(b, seen)[key := b[key]]
  {
  }

  /** What is left of an object, and whether nothing is. */
  datatype Cleaned = Cleaned(payload: Object, empty: bool)

  /** An object says which type it has, or all candidate types have the same of its fields erased. */
  ghost predicate Agreed(payload: Object, types: map<string, seq<string>>) {
    TYPENAME in payload || forall s, t :: s in types && t in types ==> ToSet(types[s]) * payload.Keys == ToSet(types[t]) * payload.Keys
  }

  /** The fields to erase from an object. */
  ghost function Doomed(payload: Object, types: map<string, seq<string>>): set<string> {
    if TYPENAME in payload then
      if payload[TYPENAME].JScalar? && payload[TYPENAME].text in types then ToSet(types[payload[TYPENAME].text]) else {}
    else if types == map[] then {}
    else
      var t :| t in types;
      ToSet(types[t])
  }

  /** clean: the fields of one entry erased at the end of its path, and emptied parents removed on the way back. */
  ghost function CleanAt(payload: Object, path: seq<string>, types: map<string, seq<string>>): Cleaned
    decreases |path|, 2
  {
    if path == [] then
      var rest := payload - Doomed(payload, types);
      Cleaned(rest, rest == map[])
    else if path[0] !in payload then Cleaned(payload, false)
    else
      var (v, remove) := CleanValue(payload[path[0]], path, types);
      var rest := if remove then payload - {path[0]} else payload[path[0] := v];
      Cleaned(rest, rest == map[])
  }

  ghost function CleanValue(v: Json, path: seq<string>, types: map<string, seq<string>>): (Json, bool)
    requires path != []
    decreases |path|, 1
  {
    match v
    case JObj(m) =>
      var below := CleanAt(m, path[1..], types);
      (JObj(below.payload), below.empty)
    case JList(items) =>
      (JList(seq(|items|, i requires 0 <= i < |items| => CleanItem(items[i], path, types))),
       items != [] && NoneLeft(items, |items|, path, types))
    case JScalar(_) => (v, false)
    case JNull => (v, false)
  }

  /** Every object among the first n entries is left empty. */
  ghost predicate NoneLeft(items: seq<Json>, n: nat, path: seq<string>, types: map<string, seq<string>>)
    requires path != [] && n <= |items|
    decreases |path|, 0
  {
    forall i :: 0 <= i < n && items[i].JObj? ==> CleanAt(items[i].fields, path[1..], types).empty
  }

  ghost function CleanItem(item: Json, path: seq<string>, types: map<string, seq<string>>): Json
    requires path != []
    decreases |path|, 0
  {
    if item.JObj? then JObj(CleanAt(item.fields, path[1..], types).payload) else item
  }

  /** The candidate types agree on every object at the end of the path. */
  ghost predicate Settled(payload: Object, path: seq<string>, types: map<string, seq<string>>)
    decreases |path|, 2
  {
    if path == [] then Agreed(payload, types)
    else path[0] in payload ==> SettledValue(payload[path[0]], path, types)
  }

  ghost predicate SettledValue(v: Json, path: seq<string>, types: map<string, seq<string>>)
    requires path != []
    decreases |path|, 1
  {
    match v
    case JObj(m) => Settled(m, path[1..], types)
    case JList(items) => forall i :: 0 <= i < |items| && items[i].JObj? ==> Settled(items[i].fields, path[1..], types)
    case JScalar(_) => true
    case JNull => true
  }

  /** An object that a candidate type fits: of that type, or untyped. */
  predicate Fits(payload: Object, t: string) {
    TYPENAME in payload ==> payload[TYPENAME] == JScalar(t)
  }

  /** What erasing at an object may leave: the fields of the first candidate type that fits are gone, whichever is tried first. */
  ghost predicate MayErase(payload: Object, types: map<string, seq<string>>, rest: Object) {
    || (exists t :: t in types && Fits(payload, t) && rest == payload - ToSet(types[t]))
    || (rest == payload && forall t :: t in types ==> !Fits(payload, t))
  }

  /** What clean may leave of a payload, for every order in which candidate types are tried. */
  ghost predicate MayClean(payload: Object, path: seq<string>, types: map<string, seq<string>>, rest: Object)
    decreases |path|, 1
  {
    if path == [] then MayErase(payload, types, rest)
    else if path[0] !in payload then rest == payload
    else exists w :: MayCleanValue(payload[path[0]], path, types, w) && rest == Kept(payload, path, w)
  }

  ghost predicate MayCleanValue(v: Json, path: seq<string>, types: map<string, seq<string>>, w: Json)
    requires path != []
    decreases |path|, 0
  {
    match v
    case JObj(m) => w.JObj? && MayClean(m, path[1..], types, w.fields)
    case JList(items) =>
      w.JList? && |w.items| == |items|
      && forall i :: 0 <= i < |items| ==>
           if items[i].JObj? then w.items[i].JObj? && MayClean(items[i].fields, path[1..], types, w.items[i].fields) else w.items[i] == items[i]
    case JScalar(_) => w == v
    case JNull => w == v
  }

  /** A payload with a new value under the first key of a path, or without the key when the value has been emptied. */
  function Kept(payload: Object, path: seq<string>, w: Json): Object
    requires path != [] && path[0] in payload
  {
    if Removes(payload[path[0]], path, w) then payload - {path[0]} else payload[path[0] := w]
  }

  /** Whether clean reports that nothing is left: not when it found nothing to go through. */
  predicate Emptied(payload: Object, path: seq<string>, rest: Object) {
    rest == map[] && (path == [] || path[0] in payload)
  }

  /** Whether the parent of a value goes: an emptied object, or a non-empty list whose objects are all emptied. */
  predicate Removes(v: Json, path: seq<string>, w: Json)
    requires path != []
  {
    match (v, w)
    case (JObj(m), JObj(n)) => Emptied(m, path[1..], n)
    case (JList(items), JList(rest)) =>
      items != [] && |rest| == |items| && forall i :: 0 <= i < |items| && items[i].JObj? ==> rest[i].JObj? && Emptied(items[i].fields, path[1..], rest[i].fields)
    case _ => false
  }

  /** clean, with the candidate types tried in any order. */
  method CleanPath(payload: Object, path: seq<string>, types: map<string, seq<string>>) returns (rest: Object, empty: bool)
    ensures MayClean(payload, path, types, rest)
    ensures empty == Emptied(payload, path, rest)
    decreases |path|, 1
  {
    if |path| == 0 {
      rest := CleanHere(payload, types);
      return rest, rest == map[];
    }
    var p := path[0];
    if p !in payload {
      return payload, false;
    }
    var value, removeParent := CleanBelow(payload[p], path, types);
    rest := if removeParent then payload - {p} else payload[p := value];
    empty := rest == map[];
  }

  method CleanBelow(v: Json, path: seq<string>, types: map<string, seq<string>>) returns (value: Json, removeParent: bool)
    requires path != []
    ensures MayCleanValue(v, path, types, value)
    ensures removeParent == Removes(v, path, value)
    decreases |path|, 0, 1
  {
    match v
    case JObj(m) =>
      var below, empty := CleanPath(m, path[1..], types);
      return JObj(below), empty;
    case JList(items) =>
      var cleaned, allEmpty := CleanList(items, path, types);
      return JList(cleaned), allEmpty;
    case JScalar(_) => return v, false;
    case JNull => return v, false;
  }

  /** The list case: the parent goes when there are entries and every object among them is left empty. */
  method CleanList(items: seq<Json>, path: seq<string>, types: map<string, seq<string>>) returns (cleaned: seq<Json>,
                   removeParent: bool)
    requires path != []
    ensures MayCleanValue(JList(items), path, types, JList(cleaned))
    ensures removeParent == Removes(JList(items), path, JList(cleaned))
    decreases |path|, 0, 0
  {
    removeParent := true;
    cleaned := [];
    for i := 0 to |items|
      invariant |cleaned| == i
      invariant forall j :: 0 <= j < i ==>
                  if items[j].JObj? then cleaned[j].JObj? && MayClean(items[j].fields, path[1..], types, cleaned[j].fields) else cleaned[j] == items[j]
      invariant removeParent <==> forall j :: 0 <= j < i && items[j].JObj? ==> Emptied(items[j].fields, path[1..], cleaned[j].fields)
    {
      if items[i].JObj? {
        var below, toCleanParent := CleanPath(items[i].fields, path[1..], types);
        removeParent := removeParent && toCleanParent;
        cleaned := cleaned + [JObj(below)];
      } else {
        cleaned := cleaned + [items[i]];
      }
    }
    if |items| == 0 {
      removeParent := false;
    }
  }

  method CleanHere(payload: Object, types: map<string, seq<string>>) returns (rest: Object)
    ensures MayErase(payload, types, rest)
  {
    var left := types.Keys;
    while left != {}
      invariant left <= types.Keys
      invariant forall t :: t in types && t !in left ==> !Fits(payload, t)
      decreases left
    {
      var typename :| typename in left;
      left := left - {typename};
      if TYPENAME in payload && payload[TYPENAME] != JScalar(typename) {
        continue;
      }
      assert Fits(payload, typename);
      rest := payload - ToSet(types[typename]);
      return;
    }
    return payload;
  }

  /** Where the candidate types agree on every object at the end of the path, clean leaves one payload. */
  lemma {:induction false} SettledOnce(payload: Object, path: seq<string>, types: map<string, seq<string>>, rest: Object)
    requires Settled(payload, path, types) && MayClean(payload, path, types, rest)
    ensures Cleaned(rest, Emptied(payload, path, rest)) == CleanAt(payload, path, types)
    decreases |path|, 1
  {
    if path == [] {
      ErasedOnce(payload, types, rest);
    } else if path[0] in payload {
      var v := payload[path[0]];
      var w :| MayCleanValue(v, path, types, w) && rest == Kept(payload, path, w);
      ValueOnce(v, path, types, w);
    }
  }

  lemma {:induction false} ValueOnce(v: Json, path: seq<string>, types: map<string, seq<string>>, w: Json)
    requires path != [] && SettledValue(v, path, types) && MayCleanValue(v, path, types, w)
    ensures (w, Removes(v, path, w)) == CleanValue(v, path, types)
    decreases |path|, 0
  {
    match v
    case JObj(m) => SettledOnce(m, path[1..], types, w.fields);
    case JList(items) =>
      forall i | 0 <= i < |items|
        ensures w.items[i] == CleanItem(items[i], path, types)
        ensures items[i].JObj? ==> Emptied(items[i].fields, path[1..], w.items[i].fields) == CleanAt(items[i].fields, path[1..], types).empty
      {
        if items[i].JObj? {
          SettledOnce(items[i].fields, path[1..], types, w.items[i].fields);
        }
      }
      assert w.items == seq(|items|, i requires 0 <= i < |items| => CleanItem(items[i], path, types));
    case JScalar(_) =>
    case JNull =>
  }

  lemma ErasedOnce(payload: Object, types: map<string, seq<string>>, rest: Object)
    requires Agreed(payload, types) && MayErase(payload, types, rest)
    ensures rest == payload - Doomed(payload, types)
  {
    if TYPENAME !in payload {
      forall t | t in types
        ensures Fits(payload, t) && payload - ToSet(types[t]) == payload - Doomed(payload, types)
      {
        SameErased(payload, types, t);
      }
    }
  }

  lemma SameErased(payload: Object, types: map<string, seq<string>>, t: string)
    requires Agreed(payload, types) && TYPENAME !in payload && t in types
    ensures ToSet(types[t]) * payload.Keys == Doomed(payload, types) * payload.Keys
    ensures payload - ToSet(types[t]) == payload - Doomed(payload, types)
  {
    var doomed := Doomed(payload, types);
    forall k | k in payload
      ensures k in ToSet(types[t]) <==> k in doomed
    {
      assert k in ToSet(types[t]) * payload.Keys <==> k in doomed * payload.Keys;
    }
  }

  /** Candidate types for which the same fields are recorded agree on every object. */
  lemma {:induction false} SameSettles(payload: Object, path: seq<string>, types: map<string, seq<string>>)
    requires forall s, t :: s in types && t in types ==> ToSet(types[s]) == ToSet(types[t])
    ensures Settled(payload, path, types)
    decreases |path|
  {
    if path != [] && path[0] in payload {
      match payload[path[0]]
      case JObj(m) => SameSettles(m, path[1..], types);
      case JList(items) =>
        forall i | 0 <= i < |items| && items[i].JObj?
          ensures Settled(items[i].fields, path[1..], types)
        {
          SameSettles(items[i].fields, path[1..], types);
        }
      case JScalar(_) =>
      case JNull =>
    }
  }

  /** The entries of keys erased one after the other. */
  ghost function CleanAll(payload: Object, keys: seq<string>, entries: Entries): Object
    requires forall i :: 0 <= i < |keys| ==> keys[i] in entries
  {
    if keys == [] then payload
    else
      var last := keys[|keys| - 1];
      CleanAt(CleanAll(payload, keys[..|keys| - 1], entries), Unhash(last), entries[last]).payload
  }

  ghost predicate SettledAll(payload: Object, keys: seq<string>, entries: Entries)
    requires forall i :: 0 <= i < |keys| ==> keys[i] in entries
  {
    keys == [] ||
    var front, last := keys[..|keys| - 1], keys[|keys| - 1];
    SettledAll(payload, front, entries) && Settled(CleanAll(payload, front, entries), Unhash(last), entries[last])
  }

  /** What erasing the entries of keys one after the other may leave. */
  ghost predicate MayCleanAll(payload: Object, keys: seq<string>, entries: Entries, rest: Object)
    requires forall i :: 0 <= i < |keys| ==> keys[i] in entries
  {
    if keys == [] then rest == payload
    else
      var front, last := keys[..|keys| - 1], keys[|keys| - 1];
      exists before {:trigger MayCleanAll(payload, front, entries, before)} ::
        MayCleanAll(payload, front, entries, before) && MayClean(before, Unhash(last), entries[last], rest)
  }

  lemma {:induction false} OneMoreCleaned(payload: Object, keys: seq<string>, entries: Entries, before: Object,
                                        key: string, rest: Object)
    requires (forall i :: 0 <= i < |keys| ==> keys[i] in entries) && key in entries
    requires MayCleanAll(payload, keys, entries, before) && MayClean(before, Unhash(key), entries[key], rest)
    ensures MayCleanAll(payload, keys + [key], entries, rest)
  {
    assert (keys + [key])[..|keys|] == keys;
  }

  lemma {:induction false} SettledAllOnce(payload: Object, keys: seq<string>, entries: Entries, rest: Object)
    requires forall i :: 0 <= i < |keys| ==> keys[i] in entries
    requires SettledAll(payload, keys, entries) && MayCleanAll(payload, keys, entries, rest)
    ensures rest == CleanAll(payload, keys, entries)
  {
    if keys != [] {
      var front, last := keys[..|keys| - 1], keys[|keys| - 1];
      var before :| MayCleanAll(payload, front, entries, before) && MayClean(before, Unhash(last), entries[last], rest);
      SettledAllOnce(payload, front, entries, before);
      SettledOnce(before, Unhash(last), entries[last], rest);
    }
  }

  ghost predicate OrderOf(keys: seq<string>, entries: Entries) {
    Distinct(keys) && forall key :: key in keys <==> key in entries
  }

  /** The same for all entries in some order. */
  lemma {:induction false} SettledOrderOnce(payload: Object, order: seq<string>, entries: Entries, rest: Object, only: Object)
    requires OrderOf(order, entries) && SettledAll(payload, order, entries)
    requires MayCleanAll(payload, order, entries, rest) && CleanAll(payload, order, entries) == only
    ensures rest == only
  {
    SettledAllOnce(payload, order, entries, rest);
  }

  class ScrubFields {
    var entries: Entries

    constructor ()
      ensures entries == map[]
    {
      entries := map[];
    }

    method Set(path: seq<string>, typename: string, field: string)
      modifies this
      ensures entries == SetEntry(old(entries), Hash(path), typename, field)
    {
      var key := Hash(path);
      var types := if key in entries then entries[key] else map[];
      entries := entries[key := types[typename := Uniq((if typename in types then types[typename] else []) + [field])]];
    }

    method Get(path: seq<string>, typename: string) returns (fields: seq<string>)
      ensures fields == FieldsAt(entries, Hash(path), typename)
    {
      var key := Hash(path);
      if key !in entries || typename !in entries[key] {
        return [];
      }
      return entries[key][typename];
    }

    method Merge(other: ScrubFields)
      requires other != this
      modifies this
      ensures entries == MergeEntries(old(entries), other.entries)
    {
      var left := other.entries.Keys;
      ghost var seen: set<string> := {};
      while left != {}
        invariant seen + left == other.entries.Keys && seen !! left
        invariant entries == MergeEntries(old(entries), Only(other.entries, seen))
        decreases left
      {
        var key :| key in left;
        MergeOneMore(old(entries), other.entries, seen, key);
        entries := entries[key := MergeTypes(TypesAt(entries, key), other.entries[key])];
        seen := seen + {key};
        left := left - {key};
      }
      assert Only(other.entries, seen) == other.entries;
    }

    /** Clean visits the entries in any order, and tries the candidate types of each in any order. */
    method Clean(payload: Object) returns (rest: Object, ghost order: seq<string>)
      ensures OrderOf(order, entries)
      ensures MayCleanAll(payload, order, entries, rest)
    {
      rest := payload;
      order := [];
      var left := entries.Keys;
      while left != {}
        invariant left <= entries.Keys && Distinct(order)
        invariant forall key :: key in order <==> key in entries.Keys - left
        invariant forall i :: 0 <= i < |order| ==> order[i] in entries
        invariant MayCleanAll(payload, order, entries, rest)
        decreases left
      {
        var key :| key in left;
        DistinctSnoc(order, key);
        var cleaned, empty := CleanPath(rest, Unhash(key), entries[key]);
        OneMoreCleaned(payload, order, entries, rest, key, cleaned);
        rest := cleaned;
        order := order + [key];
        left := left - {key};
      }
    }
  }
}
