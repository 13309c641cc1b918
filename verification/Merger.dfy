/** merger/extend_merger.go and merger/type_url_map.go: merging schemas, and which service owns which field. */
module Merger {
  import opened Prelude
  import opened Schema

  datatype Kind = Scalar | Object | Interface | Union | Enum | InputObject

  /** A type as declared: a name or a list, at each level with or without null. */
  datatype Type = Of(name: string, nonNull: bool) | ListOf(elem: Type, nonNull: bool)

  /** The name at the core of a type. */
  function TypeName(t: Type): string {
    match t
    case Of(name, _) => name
    case ListOf(elem, _) => TypeName(elem)
  }

  datatype ArgDef = ArgDef(name: string, typ: Type)

  datatype FieldDef = FieldDef(name: string, args: seq<ArgDef>, typ: Type)

  datatype Definition = Definition(kind: Kind, name: string, fields: seq<FieldDef>, interfaces: seq<string>, members: seq<string>)

  type Types = map<string, Definition>

  /** The names of the object types of each interface and union, as the parser lists them. */
  type Possible = map<string, seq<string>>

  datatype MergeInput = MergeInput(types: Types, url: string, possible: Possible)

  predicate IsIDField(f: FieldDef) {
    f.name == ID && f.args == [] && TypeName(f.typ) == "ID" && f.typ.nonNull
  }

  /** isNodeField: a field shaped like `node(id: ID!): Node`, whatever its name. */
  predicate IsNodeField(f: FieldDef) {
    && f.name != NODE_INTERFACE
    && |f.args| == 1
    && f.args[0].name == ID && TypeName(f.args[0].typ) == "ID" && f.args[0].typ.nonNull
    && TypeName(f.typ) == NODE_INTERFACE && !f.typ.nonNull
  }

  predicate IsNode(d: Definition) {
    NODE_INTERFACE in d.interfaces
  }

  predicate HasName(fields: seq<FieldDef>, name: string) {
    exists i :: 0 <= i < |fields| && fields[i].name == name
  }

  /** The fields of b that a root object takes over; nothing when one of them is already there. */
  function AddRootFields(fields: seq<FieldDef>, more: seq<FieldDef>): Result<seq<FieldDef>> {
    if more == [] then Ok(fields)
    else
      var before :- AddRootFields(fields, more[..|more| - 1]);
      var f := more[|more| - 1];
      if IsBuiltin(f.name) || IsNodeField(f) then Ok(before)
      else if HasName(before, f.name) then Err("overlapping root types fields")
      else Ok(before + [f])
  }

  function MergeRootObjects(a: Definition, b: Definition): Result<Definition> {
    var fields :- AddRootFields(a.fields, b.fields);
    Ok(Definition(Object, a.name, fields, Uniq(a.interfaces + b.interfaces), []))
  }

  /** The fields of a type that are merged into another: all but builtin ones and the id. */
  predicate Merges(f: FieldDef) {
    !IsBuiltin(f.name) && !IsIDField(f)
  }

  function Merging(fields: seq<FieldDef>): seq<FieldDef> {
    if fields == [] then []
    else Merging(fields[..|fields| - 1]) + if Merges(fields[|fields| - 1]) then [fields[|fields| - 1]] else []
  }

  function Kept(a: Definition): seq<FieldDef> {
    if a.name == QUERY then WithoutNodeFields(a.fields) else a.fields
  }

  function WithoutNodeFields(fields: seq<FieldDef>): seq<FieldDef> {
    if fields == [] then []
    else WithoutNodeFields(fields[..|fields| - 1]) + if IsNodeField(fields[|fields| - 1]) then [] else [fields[|fields| - 1]]
  }

  /** Whether the i-th merging field meets a field of a, or an earlier merging field, of its name. */
  predicate Overlaps(own: seq<FieldDef>, more: seq<FieldDef>, i: nat)
    requires i < |more|
  {
    HasName(own + more[..i], more[i].name)
  }

  function MergeCustomObjectFields(a: Definition, b: Definition): Result<seq<FieldDef>> {
    var own, more := Kept(a), Merging(b.fields);
    var some := exists i :: 0 <= i < |more| && Overlaps(own, more, i);
    var all := forall i :: 0 <= i < |more| ==> Overlaps(own, more, i);
    if IsNode(a) && some then Err("overlapping fields")
    else if some && !all then Err("overlapping fields, not complete copy")
    else if all then Ok(own)
    else Ok(own + more)
  }

  function MergeCustomObjects(a: Definition, b: Definition): Result<Definition> {
    var fields :- MergeCustomObjectFields(a, b);
    var other :- MergeCustomObjectFields(b, a);
    Ok(Definition(a.kind, a.name, fields, Uniq(a.interfaces + b.interfaces), Uniq(a.members + b.members)))
  }

  predicate SameMembers(a: seq<string>, b: seq<string>) {
    (forall x :: x in a ==> x in b) && forall x :: x in b ==> x in a
  }

  function PossibleTypes(possible: Possible, name: string): seq<string> {
    if name in possible then possible[name] else []
  }

  /** What becomes of one name: va is what was merged so far, vb what the new schema says, possible the one before's. */
  function MergeDefinition(possible: Possible, name: string, va: Definition, vb: Definition): Result<Definition> {
    if vb.name == NODE_INTERFACE then Ok(va)
    else if vb.kind != va.kind then Err("name collision")
    else if vb.kind == Scalar then Ok(vb)
    else if vb.kind == Union then if SameMembers(va.members, vb.members) then Ok(va) else Err("union collision")
    else if vb.kind == Interface && !SameMembers(PossibleTypes(possible, va.name), PossibleTypes(possible, vb.name)) then Err("interface collision")
    else if IsNode(vb) != IsNode(va) then Err("node interface collision")
    else if IsRoot(name) then MergeRootObjects(vb, va)
    else MergeCustomObjects(vb, va)
  }

  function MergeName(possible: Possible, a: Types, b: Types, name: string): Result<Definition>
    requires name in a || name in b
  {
    if name !in b then Ok(a[name])
    else if name !in a then Ok(b[name])
    else if IsBuiltin(name) then Ok(a[name])
    else MergeDefinition(possible, name, a[name], b[name])
  }

  /** The names of a merge: builtin names are never taken over. */
  function MergedNames(a: Types, b: Types): (names: set<string>)
    ensures forall name :: name in names ==> name in a || name in b
  {
    a.Keys + set name | name in b && !IsBuiltin(name)
  }

  /** mergeTypes: every name on its own; one collision fails the merge. */
  ghost predicate IsMerge(possible: Possible, a: Types, b: Types, r: Result<Types>) {
    if forall name :: name in MergedNames(a, b) ==> MergeName(possible, a, b, name).Ok?
    then r == Ok(map name | name in MergedNames(a, b) :: MergeName(possible, a, b, name).value)
    else r.Err?
  }

  method MergeTypes(possible: Possible, a: Types, b: Types) returns (r: Result<Types>)
    ensures IsMerge(possible, a, b, r)
  {
    var result := a;
    var left := b.Keys;
    while left != {}
      invariant left <= b.Keys
      invariant forall name :: name in MergedNames(a, b) && name !in left ==>
                  MergeName(possible, a, b, name).Ok? && name in result && result[name] == MergeName(possible, a, b, name).value
      invariant forall name :: name in left && name in a ==> name in result && result[name] == a[name]
      invariant forall name :: name in result ==> name in MergedNames(a, b)
      invariant forall name :: name in left && name !in a ==> name !in result
      decreases left
    {
      var name :| name in left;
      left := left - {name};
      if IsBuiltin(name) {
        continue;
      }
      if name !in result {
        result := result[name := b[name]];
        continue;
      }
      var merged := MergeDefinition(possible, name, result[name], b[name]);
      if merged.Err? {
        assert name in MergedNames(a, b);
        return Err(merged.reason);
      }
      result := result[name := merged.value];
    }
    assert result == map name | name in MergedNames(a, b) :: MergeName(possible, a, b, name).value;
    return Ok(result);
  }

  /** A field whose service is recorded. */
  predicate Locatable(f: FieldDef) {
    !IsBuiltin(f.name) && !IsNodeField(f) && f.name != ID
  }

  function LocatableNames(fields: seq<FieldDef>): set<string> {
    set i | 0 <= i < |fields| && Locatable(fields[i]) :: fields[i].name
  }

  function PropsOf(tum: TypeURLMap, typename: string): TypeProps {
    if typename in tum then tum[typename] else TypeProps(map[], false)
  }

  /** An object type recorded for a service. */
  function RecordType(props: TypeProps, d: Definition, url: string): TypeProps {
    TypeProps(map f | f in props.fields.Keys + LocatableNames(d.fields) ::
                if f in LocatableNames(d.fields) then url else props.fields[f],
              props.implementsNode || IsNode(d))
  }

  predicate Records(name: string, d: Definition) {
    d.kind == Object && !IsBuiltin(name) && (IsNode(d) || LocatableNames(d.fields) != {})
  }

  function FromSchema(tum: TypeURLMap, types: Types, url: string): TypeURLMap {
    map t | t in tum.Keys + (set name | name in types && Records(name, types[name])) ::
      if t in types && Records(t, types[t]) then RecordType(PropsOf(tum, t), types[t], url) else tum[t]
  }

  /** Set: the id of a type has no service of its own. */
  function WithField(tum: TypeURLMap, typename: string, field: string, url: string): TypeURLMap {
    if field == ID then tum
    else tum[typename := PropsOf(tum, typename).(fields := PropsOf(tum, typename).fields[field := url])]
  }

  function WithFields(tum: TypeURLMap, name: string, fields: seq<FieldDef>, url: string): TypeURLMap {
    if LocatableNames(fields) == {} then tum
    else tum[name := RecordType(PropsOf(tum, name), Definition(Object, name, fields, [], []), url)]
  }

  class URLMap {
    var entries: TypeURLMap

    constructor ()
      ensures entries == map[]
    {
      entries := map[];
    }

    method Set(typename: string, field: string, url: string)
      modifies this
      ensures entries == WithField(old(entries), typename, field, url)
    {
      if field == ID {
        return;
      }
      var props := if typename in entries then entries[typename] else TypeProps(map[], false);
      entries := entries[typename := props.(fields := props.fields[field := url])];
    }

    method SetTypeIsImplementsNode(typename: string)
      modifies this
      ensures entries == old(entries)[typename := PropsOf(old(entries), typename).(implementsNode := true)]
    {
      var props := if typename in entries then entries[typename] else TypeProps(map[], false);
      entries := entries[typename := props.(implementsNode := true)];
    }

    /** The fields of one object type. */
    method SetFields(name: string, fields: seq<FieldDef>, url: string)
      modifies this
      ensures entries == WithFields(old(entries), name, fields, url)
    {
      ghost var before := entries;
      for i := 0 to |fields|
        invariant entries == WithFields(before, name, fields[..i], url)
      {
        WithOneMore(before, name, fields, i, url);
        if IsBuiltin(fields[i].name) || IsNodeField(fields[i]) {
          continue;
        }
        Set(name, fields[i].name, url);
      }
      assert fields[..|fields|] == fields;
    }

    method SetFromSchema(types: Types, url: string)
      modifies this
      ensures entries == FromSchema(old(entries), types, url)
    {
      ghost var before := entries;
      var left := types.Keys;
      ghost var seen: set<string> := {};
      while left != {}
        invariant seen + left == types.Keys && seen !! left
        invariant entries == FromSchema(before, Only(types, seen), url)
        decreases left
      {
        var name :| name in left;
        left := left - {name};
        ghost var sofar := entries;
        var d := types[name];
        if d.kind == Object && !IsBuiltin(name) {
          if IsNode(d) {
            SetTypeIsImplementsNode(name);
          }
          SetFields(name, d.fields, url);
          TwoSteps(PropsOf(sofar, name), d, url);
        }
        RecordedNext(before, types, seen, name, url, sofar, entries);
        seen := seen + {name};
      }
      assert Only(types, seen) == types;
    }
  }

  lemma RecordOne(props: TypeProps, name: string, fields: seq<FieldDef>, i: nat, url: string)
    requires i < |fields|
    ensures LocatableNames(fields[..i]) == {} ==> RecordType(props, Definition(Object, name, fields[..i], [], []), url) == props
    ensures Locatable(fields[i]) ==>
              var before := RecordType(props, Definition(Object, name, fields[..i], [], []), url);
              RecordType(props, Definition(Object, name, fields[..i + 1], [], []), url) == before.(fields := before.fields[fields[i].name := url])
  {
    OneMoreName(fields, i);
    assert LocatableNames(fields[..i]) == {} ==> RecordType(props, Definition(Object, name, fields[..i], [], []), url).fields == props.fields;
    if Locatable(fields[i]) {
      var before := RecordType(props, Definition(Object, name, fields[..i], [], []), url);
      assert RecordType(props, Definition(Object, name, fields[..i + 1], [], []), url).fields == before.fields[fields[i].name := url];
    }
  }

  lemma WithOneMore(tum: TypeURLMap, name: string, fields: seq<FieldDef>, i: nat, url: string)
    requires i < |fields|
    ensures WithFields(tum, name, fields[..i + 1], url)
            == if Locatable(fields[i]) then WithField(WithFields(tum, name, fields[..i], url), name, fields[i].name, url)
               else WithFields(tum, name, fields[..i], url)
  {
    OneMoreName(fields, i);
    if Locatable(fields[i]) {
      RecordOne(PropsOf(tum, name), name, fields, i, url);
      assert fields[i].name in LocatableNames(fields[..i + 1]);
      var sofar := RecordType(PropsOf(tum, name), Definition(Object, name, fields[..i], [], []), url);
      SetTwice(tum, name, sofar, sofar.(fields := sofar.fields[fields[i].name := url]));
    } else {
      assert LocatableNames(fields[..i + 1]) == LocatableNames(fields[..i]);
      SameRecord(PropsOf(tum, name), Definition(Object, name, fields[..i + 1], [], []), Definition(Object, name, fields[..i], [], []), url);
    }
  }

  lemma SetTwice(tum: TypeURLMap, name: string, props: TypeProps, other: TypeProps)
    ensures PropsOf(tum[name := props], name) == props
    ensures tum[name := props][name := other] == tum[name := other]
  {
  }

  /** Only the names of the fields matter, and whether the type is a Node. */
  lemma SameRecord(props: TypeProps, d: Definition, e: Definition, url: string)
    requires LocatableNames(d.fields) == LocatableNames(e.fields) && IsNode(d) == IsNode(e)
    ensures RecordType(props, d, url) == RecordType(props, e, url)
  {
  }

  /** Marking a type and recording its fields is recording the type. */
  lemma TwoSteps(props: TypeProps, d: Definition, url: string)
    ensures var marked := if IsNode(d) then props.(implementsNode := true) else props;
            && (LocatableNames(d.fields) == {} ==> RecordType(props, d, url) == marked)
            && RecordType(marked, Definition(Object, d.name, d.fields, [], []), url) == RecordType(props, d, url)
  {
    assert LocatableNames(d.fields) == {} ==> RecordType(props, d, url).fields == props.fields;
  }

  lemma OneMoreName(fields: seq<FieldDef>, i: nat)
    requires i < |fields|
    ensures LocatableNames(fields[..i + 1]) == LocatableNames(fields[..i]) + if Locatable(fields[i]) then {fields[i].name} else {}
  {
    var more := fields[..i + 1];
    assert forall j :: 0 <= j < i ==> more[j] == fields[..i][j];
    assert more[i] == fields[i];
  }

  lemma RecordedNext(before: TypeURLMap, types: Types, seen: set<string>, name: string, url: string, sofar: TypeURLMap,
                     after: TypeURLMap)
    requires seen <= types.Keys && name in types && name !in seen
    requires sofar == FromSchema(before, Only(types, seen), url)
    requires after == if Records(name, types[name]) then sofar[name := RecordType(PropsOf(sofar, name), types[name], url)] else sofar
    ensures after == FromSchema(before, Only(types, seen + {name}), url)
  {
    NotYetRecorded(before, types, seen, name, url);
    OnlyNext(types, seen, name);
    OneMoreRecorded(before, Only(types, seen), name, types[name], url);
  }

  lemma OnlyNext(types: Types, seen: set<string>, name: string)
    requires name in types
    ensures Only(types, seen + {name}) == Only(types, seen)[name := types[name]]
  {
  }

  lemma OneMoreRecorded(before: TypeURLMap, types: Types, name: string, d: Definition, url: string)
    requires name !in types
    ensures FromSchema(before, types[name := d], url)
            == if Records(name, d) then FromSchema(before, types, url)[name := RecordType(PropsOf(before, name), d, url)]
               else FromSchema(before, types, url)
  {
    var more, some := types[name := d], FromSchema(before, types, url);
    var after := if Records(name, d) then some[name := RecordType(PropsOf(before, name), d, url)] else some;
    forall t
      ensures t in FromSchema(before, more, url) <==> t in after
      ensures t in after ==> FromSchema(before, more, url)[t] == after[t]
    {
      assert t != name ==> (t in more <==> t in types);
    }
  }

  lemma NotYetRecorded(before: TypeURLMap, types: Types, seen: set<string>, name: string, url: string)
    requires name !in seen
    ensures PropsOf(FromSchema(before, Only(types, seen), url), name) == PropsOf(before, name)
  {
  }

  /** Some of the definitions. */
  function Only(types: Types, names: set<string>): Types {
    map n | n in names && n in types :: types[n]
  }

  ghost function MergedTypes(possible: Possible, a: Types, b: Types): Result<Types> {
    if forall name :: name in MergedNames(a, b) ==> MergeName(possible, a, b, name).Ok?
    then Ok(map name | name in MergedNames(a, b) :: MergeName(possible, a, b, name).value)
    else Err("types cannot be merged")
  }

  /** All schemas merged one after the other, and the services of their fields. */
  ghost function Merged(inputs: seq<MergeInput>): Result<(Types, TypeURLMap)> {
    if inputs == [] then Err("no source schemas")
    else
      var last := inputs[|inputs| - 1];
      if |inputs| == 1 then Ok((last.types, FromSchema(map[], last.types, last.url)))
      else
        var before :- Merged(inputs[..|inputs| - 1]);
        var types :- MergedTypes(inputs[|inputs| - 2].possible, before.0, last.types);
        Ok((types, FromSchema(before.1, last.types, last.url)))
  }

  lemma {:induction false} FirstMergeError(inputs: seq<MergeInput>, n: nat)
    requires 1 <= n <= |inputs| && Merged(inputs[..n]).Err?
    ensures Merged(inputs).Err?
    decreases |inputs| - n
  {
    if n == |inputs| {
      assert inputs[..n] == inputs;
    } else {
      assert inputs[..n + 1][..n] == inputs[..n];
      FirstMergeError(inputs, n + 1);
    }
  }

  lemma {:induction false} MergedNext(inputs: seq<MergeInput>, i: nat)
    requires 1 <= i < |inputs| && Merged(inputs[..i]).Ok?
    ensures var before, types := Merged(inputs[..i]).value, MergedTypes(inputs[i - 1].possible, Merged(inputs[..i]).value.0, inputs[i].types);
            Merged(inputs[..i + 1]) == if types.Err? then Err(types.reason) else Ok((types.value, FromSchema(before.1, inputs[i].types, inputs[i].url)))
  {
    assert inputs[..i + 1][..i] == inputs[..i];
  }

  /** ExtendMergerFunc.Merge, without the parts that do not decide who owns what. */
  method Merge(inputs: seq<MergeInput>) returns (r: Result<Types>, tum: URLMap)
    ensures fresh(tum)
    ensures r.Ok? <==> Merged(inputs).Ok?
    ensures r.Ok? ==> Merged(inputs) == Ok((r.value, tum.entries))
  {
    tum := new URLMap();
    if |inputs| < 1 {
      return Err("no source schemas"), tum;
    }
    var types := inputs[0].types;
    tum.SetFromSchema(types, inputs[0].url);
    assert inputs[..1] == [inputs[0]];
    for i := 1 to |inputs|
      invariant fresh(tum)
      invariant Merged(inputs[..i]) == Ok((types, tum.entries))
    {
      MergedNext(inputs, i);
      var merged := MergeTypes(inputs[i - 1].possible, types, inputs[i].types);
      if merged.Err? {
        FirstMergeError(inputs, i + 1);
        return Err(merged.reason), tum;
      }
      tum.SetFromSchema(inputs[i].types, inputs[i].url);
      types := merged.value;
    }
    assert inputs[..|inputs|] == inputs;
    return Ok(types), tum;
  }

  /** A schema as the parser gives it: definitions are stored under their names, and root types are object types. */
  ghost predicate WellFormed(types: Types) {
    forall name :: name in types ==> types[name].name == name && (IsRoot(name) ==> types[name].kind == Object)
  }

  /** An input that declares a located field of an object type. */
  predicate Declares(input: MergeInput, typename: string, field: string) {
    && typename in input.types
    && input.types[typename].kind == Object
    && field in LocatableNames(input.types[typename].fields)
  }

  /** A type whose fields are divided among services: a root or a Node type. */
  predicate Divided(typename: string, d: Definition) {
    d.kind == Object && (IsRoot(typename) || IsNode(d))
  }

  lemma {:induction false} RootFieldsAdded(fields: seq<FieldDef>, more: seq<FieldDef>)
    requires AddRootFields(fields, more).Ok?
    ensures LocatableNames(AddRootFields(fields, more).value) == LocatableNames(fields) + LocatableNames(more)
    ensures LocatableNames(fields) !! LocatableNames(more)
    ensures forall name :: HasName(fields, name) ==> HasName(AddRootFields(fields, more).value, name)
  {
    if more == [] {
    } else {
      var front, f := more[..|more| - 1], more[|more| - 1];
      RootFieldsAdded(fields, front);
      assert more == front + [f];
      NamesSnoc(front, f);
      var before := AddRootFields(fields, front).value;
      NamesSnoc(before, f);
      NameInNames(fields, f.name);
      assert forall name :: HasName(before, name) ==> HasName(before + [f], name) by {
        assert forall i :: 0 <= i < |before| ==> (before + [f])[i] == before[i];
      }
    }
  }

  lemma NamesSnoc(fields: seq<FieldDef>, f: FieldDef)
    ensures LocatableNames(fields + [f]) == LocatableNames(fields) + if Locatable(f) then {f.name} else {}
  {
    assert (fields + [f])[..|fields|] == fields && (fields + [f])[..|fields| + 1] == fields + [f];
    OneMoreName(fields + [f], |fields|);
  }

  lemma NameInNames(fields: seq<FieldDef>, name: string)
    ensures name in LocatableNames(fields) ==> HasName(fields, name)
  {
  }

  lemma {:induction false} NamesAppend(a: seq<FieldDef>, b: seq<FieldDef>)
    ensures LocatableNames(a + b) == LocatableNames(a) + LocatableNames(b)
  {
    if b == [] {
      assert a + b == a;
    } else {
      var front, last := b[..|b| - 1], b[|b| - 1];
      assert a + b == (a + front) + [last] && b == front + [last];
      NamesAppend(a, front);
      NamesSnoc(a + front, last);
      NamesSnoc(front, last);
    }
  }

  lemma {:induction false} MergingNames(fields: seq<FieldDef>)
    ensures LocatableNames(Merging(fields)) == LocatableNames(fields)
  {
    if fields != [] {
      var front, last := fields[..|fields| - 1], fields[|fields| - 1];
      assert fields == front + [last];
      MergingNames(front);
      NamesSnoc(front, last);
      NamesSnoc(Merging(front), last);
      assert Merging(fields) == if Merges(last) then Merging(front) + [last] else Merging(front);
    }
  }

  /** Fields of Node types never overlap. */
  lemma NodeFieldsMerged(a: Definition, b: Definition)
    requires IsNode(a) && a.name != QUERY && MergeCustomObjectFields(a, b).Ok?
    ensures LocatableNames(MergeCustomObjectFields(a, b).value) == LocatableNames(a.fields) + LocatableNames(b.fields)
    ensures LocatableNames(a.fields) !! LocatableNames(b.fields)
  {
    var own, more := a.fields, Merging(b.fields);
    MergingNames(b.fields);
    NamesAppend(own, more);
    forall i | 0 <= i < |more|
      ensures !HasName(own, more[i].name)
    {
      assert !Overlaps(own, more, i);
      assert forall j :: 0 <= j < |own| ==> (own + more[..i])[j] == own[j];
    }
    if more != [] {
      assert !Overlaps(own, more, 0);
    } else {
      assert own + more == own;
    }
    forall name | name in LocatableNames(more)
      ensures name !in LocatableNames(own)
    {
      var i :| 0 <= i < |more| && Locatable(more[i]) && more[i].name == name;
      NameInNames(own, name);
    }
  }

  /** Merging two declarations of a divided type: the fields are put together, and none is declared twice. */
  lemma DividedMerge(possible: Possible, name: string, va: Definition, vb: Definition)
    requires va.name == vb.name == name != NODE_INTERFACE && MergeDefinition(possible, name, va, vb).Ok?
    requires va.kind == Object || vb.kind == Object
    ensures var d := MergeDefinition(possible, name, va, vb).value;
            && va.kind == vb.kind == d.kind == Object
            && d.name == name
            && IsNode(d) == IsNode(va) == IsNode(vb)
            && (Divided(name, d) ==>
                  && LocatableNames(d.fields) == LocatableNames(va.fields) + LocatableNames(vb.fields)
                  && LocatableNames(va.fields) !! LocatableNames(vb.fields))
  {
    if IsRoot(name) {
      RootFieldsAdded(vb.fields, va.fields);
    } else if IsNode(vb) {
      NodeFieldsMerged(vb, va);
    }
  }

  /** What is known of one type after merging some inputs. */
  ghost predicate Owned(inputs: seq<MergeInput>, typename: string, types: Types, tum: TypeURLMap) {
    && (typename in types <==> exists i :: 0 <= i < |inputs| && typename in inputs[i].types)
    && (typename in types ==> types[typename].name == typename)
    && (typename in types && types[typename].kind == Object ==>
          && (forall i :: 0 <= i < |inputs| && typename in inputs[i].types ==>
                inputs[i].types[typename].kind == Object && IsNode(inputs[i].types[typename]) == IsNode(types[typename]))
          && (IsNode(types[typename]) ==> ImplementsNode(tum, typename)))
    && (typename in types && types[typename].kind != Object ==>
          forall i :: 0 <= i < |inputs| && typename in inputs[i].types ==> inputs[i].types[typename].kind != Object)
    && (typename in types && Divided(typename, types[typename]) ==> OwnedFields(inputs, typename, types[typename], tum))
  }

  /** Each located field: declared by exactly one input, part of the merged type, and recorded for that input. */
  ghost predicate OwnedFields(inputs: seq<MergeInput>, typename: string, d: Definition, tum: TypeURLMap) {
    && (forall f :: f in LocatableNames(d.fields) <==> exists i :: 0 <= i < |inputs| && Declares(inputs[i], typename, f))
    && (forall i, j, f :: 0 <= i < j < |inputs| && Declares(inputs[i], typename, f) ==> !Declares(inputs[j], typename, f))
    && (forall i, f :: 0 <= i < |inputs| && Declares(inputs[i], typename, f) ==> Get(tum, typename, f) == Some(inputs[i].url))
  }

  lemma FirstInput(input: MergeInput, typename: string)
    requires WellFormed(input.types) && !IsBuiltin(typename)
    ensures Owned([input], typename, input.types, FromSchema(map[], input.types, input.url))
  {
    var tum := FromSchema(map[], input.types, input.url);
    forall f | Declares(input, typename, f)
      ensures Get(tum, typename, f) == Some(input.url)
    {
      assert Records(typename, input.types[typename]);
    }
    forall i | 0 <= i < 1
      ensures [input][i] == input
    {
    }
    assert [input][0] == input;
  }

  /** How a further schema changes what is recorded of a type. */
  lemma RecordedAfter(tum: TypeURLMap, types: Types, url: string, typename: string)
    requires !IsBuiltin(typename)
    ensures var after := FromSchema(tum, types, url);
            && (ImplementsNode(tum, typename) ==> ImplementsNode(after, typename))
            && (typename in types && types[typename].kind == Object && IsNode(types[typename]) ==> ImplementsNode(after, typename))
            && forall f :: Get(after, typename, f) ==
                 if typename in types && types[typename].kind == Object && f in LocatableNames(types[typename].fields) then Some(url)
                 else Get(tum, typename, f)
  {
    var after := FromSchema(tum, types, url);
    if typename in types && types[typename].kind == Object && !Records(typename, types[typename]) {
      assert LocatableNames(types[typename].fields) == {};
    }
  }

  lemma LastDeclares(front: seq<MergeInput>, last: MergeInput, typename: string, f: string)
    ensures (exists i :: 0 <= i < |front + [last]| && Declares((front + [last])[i], typename, f))
            <==> (exists i :: 0 <= i < |front| && Declares(front[i], typename, f)) || Declares(last, typename, f)
  {
    var all := front + [last];
    if exists i :: 0 <= i < |front| && Declares(front[i], typename, f) {
      var i :| 0 <= i < |front| && Declares(front[i], typename, f);
      assert all[i] == front[i];
    }
    assert all[|front|] == last;
  }

  /** The fields of a divided type after one more input, given that they are put together without overlap. */
  lemma OwnedFieldsStep(front: seq<MergeInput>, last: MergeInput, typename: string, va: Definition, d: Definition,
                        tum: TypeURLMap)
    requires !IsBuiltin(typename) && OwnedFields(front, typename, va, tum)
    requires typename in last.types && last.types[typename].kind == Object
    requires LocatableNames(d.fields) == LocatableNames(va.fields) + LocatableNames(last.types[typename].fields)
    requires LocatableNames(va.fields) !! LocatableNames(last.types[typename].fields)
    ensures OwnedFields(front + [last], typename, d, FromSchema(tum, last.types, last.url))
  {
    var all, after := front + [last], FromSchema(tum, last.types, last.url);
    RecordedAfter(tum, last.types, last.url, typename);
    forall f
      ensures f in LocatableNames(d.fields) <==> exists i :: 0 <= i < |all| && Declares(all[i], typename, f)
    {
      LastDeclares(front, last, typename, f);
    }
    forall i, f | 0 <= i < |all| && Declares(all[i], typename, f)
      ensures Get(after, typename, f) == Some(all[i].url)
      ensures forall j :: i < j < |all| ==> !Declares(all[j], typename, f)
    {
      if i < |front| {
        assert all[i] == front[i] && f in LocatableNames(va.fields);
        forall j | i < j < |all|
          ensures !Declares(all[j], typename, f)
        {
          if j < |front| {
            assert all[j] == front[j];
          }
        }
      }
    }
  }

  lemma OwnedFieldsKept(front: seq<MergeInput>, last: MergeInput, typename: string, d: Definition, tum: TypeURLMap)
    requires !IsBuiltin(typename) && OwnedFields(front, typename, d, tum) && typename !in last.types
    ensures OwnedFields(front + [last], typename, d, FromSchema(tum, last.types, last.url))
  {
    var all, after := front + [last], FromSchema(tum, last.types, last.url);
    RecordedAfter(tum, last.types, last.url, typename);
    forall f
      ensures f in LocatableNames(d.fields) <==> exists i :: 0 <= i < |all| && Declares(all[i], typename, f)
    {
      LastDeclares(front, last, typename, f);
    }
    forall i | 0 <= i < |all|
      ensures all[i] == if i < |front| then front[i] else last
    {
    }
  }

  /** A type first declared by the last input. */
  lemma OwnedFieldsNew(front: seq<MergeInput>, last: MergeInput, typename: string, tum: TypeURLMap)
    requires !IsBuiltin(typename) && typename in last.types && last.types[typename].kind == Object
    requires forall i :: 0 <= i < |front| ==> typename !in front[i].types
    ensures OwnedFields(front + [last], typename, last.types[typename], FromSchema(tum, last.types, last.url))
  {
    var all, after := front + [last], FromSchema(tum, last.types, last.url);
    RecordedAfter(tum, last.types, last.url, typename);
    forall f
      ensures f in LocatableNames(last.types[typename].fields) <==> exists i :: 0 <= i < |all| && Declares(all[i], typename, f)
    {
      LastDeclares(front, last, typename, f);
    }
    forall i | 0 <= i < |all|
      ensures all[i] == if i < |front| then front[i] else last
    {
    }
  }

  lemma InAny(front: seq<MergeInput>, last: MergeInput, typename: string)
    ensures (exists i :: 0 <= i < |front + [last]| && typename in (front + [last])[i].types)
            <==> (exists i :: 0 <= i < |front| && typename in front[i].types) || typename in last.types
  {
    var all := front + [last];
    if exists i :: 0 <= i < |front| && typename in front[i].types {
      var i :| 0 <= i < |front| && typename in front[i].types;
      assert all[i] == front[i];
    }
    assert all[|front|] == last;
  }

  lemma EachOf(front: seq<MergeInput>, last: MergeInput)
    ensures forall i :: 0 <= i < |front + [last]| ==> (front + [last])[i] == if i < |front| then front[i] else last
  {
  }

  lemma OwnedStep(possible: Possible, front: seq<MergeInput>, last: MergeInput, typename: string, a: Types, tum: TypeURLMap)
    requires !IsBuiltin(typename) && typename != NODE_INTERFACE && WellFormed(last.types)
    requires Owned(front, typename, a, tum) && MergedTypes(possible, a, last.types).Ok?
    ensures Owned(front + [last], typename, MergedTypes(possible, a, last.types).value, FromSchema(tum, last.types, last.url))
  {
    var types := MergedTypes(possible, a, last.types).value;
    assert typename in types <==> typename in a || typename in last.types;
    assert typename in types ==> types[typename] == MergeName(possible, a, last.types, typename).value;
    InAny(front, last, typename);
    if typename in a && typename in last.types {
      assert typename in MergedNames(a, last.types);
      OwnedBoth(possible, front, last, typename, a, types, tum);
    } else if typename in a {
      OwnedBefore(front, last, typename, a, types, tum);
    } else if typename in last.types {
      OwnedAfter(front, last, typename, a, types, tum);
    }
  }

  lemma OwnedBoth(possible: Possible, front: seq<MergeInput>, last: MergeInput, typename: string, a: Types,
                  types: Types, tum: TypeURLMap)
    requires !IsBuiltin(typename) && typename != NODE_INTERFACE && WellFormed(last.types)
    requires Owned(front, typename, a, tum) && typename in a && typename in last.types && MergeName(possible, a, last.types, typename).Ok?
    requires typename in types && types[typename] == MergeName(possible, a, last.types, typename).value
    ensures Owned(front + [last], typename, types, FromSchema(tum, last.types, last.url))
  {
    RecordedAfter(tum, last.types, last.url, typename);
    EachOf(front, last);
    InAny(front, last, typename);
    BothDeclare(possible, front, last, typename, a, tum);
  }

  lemma OwnedBefore(front: seq<MergeInput>, last: MergeInput, typename: string, a: Types, types: Types, tum: TypeURLMap)
    requires !IsBuiltin(typename) && Owned(front, typename, a, tum) && typename in a && typename !in last.types
    requires typename in types && types[typename] == a[typename]
    ensures Owned(front + [last], typename, types, FromSchema(tum, last.types, last.url))
  {
    RecordedAfter(tum, last.types, last.url, typename);
    EachOf(front, last);
    InAny(front, last, typename);
    if Divided(typename, a[typename]) {
      OwnedFieldsKept(front, last, typename, a[typename], tum);
    }
  }

  lemma OwnedAfter(front: seq<MergeInput>, last: MergeInput, typename: string, a: Types, types: Types, tum: TypeURLMap)
    requires !IsBuiltin(typename) && WellFormed(last.types) && Owned(front, typename, a, tum) && typename !in a && typename in last.types
    requires typename in types && types[typename] == last.types[typename]
    ensures Owned(front + [last], typename, types, FromSchema(tum, last.types, last.url))
  {
    RecordedAfter(tum, last.types, last.url, typename);
    EachOf(front, last);
    InAny(front, last, typename);
    if last.types[typename].kind == Object {
      OwnedFieldsNew(front, last, typename, tum);
    }
  }

  lemma BothDeclare(possible: Possible, front: seq<MergeInput>, last: MergeInput, typename: string, a: Types, tum: TypeURLMap)
    requires !IsBuiltin(typename) && typename != NODE_INTERFACE && WellFormed(last.types)
    requires Owned(front, typename, a, tum) && typename in a && typename in last.types && MergeName(possible, a, last.types, typename).Ok?
    ensures var d := MergeName(possible, a, last.types, typename).value;
            && d.name == typename
            && (d.kind == Object <==> a[typename].kind == Object) && (d.kind == Object <==> last.types[typename].kind == Object)
            && (d.kind == Object ==> IsNode(d) == IsNode(a[typename]) == IsNode(last.types[typename]))
            && (Divided(typename, d) ==> OwnedFields(front + [last], typename, d, FromSchema(tum, last.types, last.url)))
  {
    var va, vb := a[typename], last.types[typename];
    if va.kind == Object || vb.kind == Object {
      DividedMerge(possible, typename, va, vb);
      var d := MergeName(possible, a, last.types, typename).value;
      if Divided(typename, d) {
        OwnedFieldsStep(front, last, typename, va, d, tum);
      }
    }
  }

  lemma {:induction false} AllOwned(inputs: seq<MergeInput>, typename: string)
    requires Merged(inputs).Ok? && forall i :: 0 <= i < |inputs| ==> WellFormed(inputs[i].types)
    requires !IsBuiltin(typename) && typename != NODE_INTERFACE
    ensures Owned(inputs, typename, Merged(inputs).value.0, Merged(inputs).value.1)
  {
    var front, last := inputs[..|inputs| - 1], inputs[|inputs| - 1];
    assert inputs == front + [last];
    if |inputs| == 1 {
      assert inputs == [last];
      FirstInput(last, typename);
    } else {
      AllOwned(front, typename);
      OwnedStep(inputs[|inputs| - 2].possible, front, last, typename, Merged(front).value.0, Merged(front).value.1);
    }
  }

  /**
   * Single ownership after merging any number of schemas: every located field of a root or Node type of the merged
   * schema is declared by exactly one input, and the planner sends it to that input's service whatever the fallback.
   */
  lemma SingleOwner(inputs: seq<MergeInput>, typename: string, field: string) returns (i: nat)
    requires Merged(inputs).Ok? && forall k :: 0 <= k < |inputs| ==> WellFormed(inputs[k].types)
    requires !IsBuiltin(typename) && typename != NODE_INTERFACE
    requires var types := Merged(inputs).value.0;
             typename in types && Divided(typename, types[typename]) && field in LocatableNames(types[typename].fields)
    ensures i < |inputs| && Declares(inputs[i], typename, field)
    ensures forall j :: 0 <= j < |inputs| && j != i ==> !Declares(inputs[j], typename, field)
    ensures forall fallback :: GetURL(Merged(inputs).value.1, typename, field, fallback) == Ok(inputs[i].url)
  {
    AllOwned(inputs, typename);
    i :| 0 <= i < |inputs| && Declares(inputs[i], typename, field);
    assert Get(Merged(inputs).value.1, typename, field) == Some(inputs[i].url);
  }

  /** ... a located field declared by any input of such a type is a field of the merged type, and no other declares it. */
  lemma {:induction false} NothingLost(inputs: seq<MergeInput>, typename: string, field: string, i: nat)
    requires forall k :: 0 <= k < |inputs| ==> WellFormed(inputs[k].types)
    requires !IsBuiltin(typename) && typename != NODE_INTERFACE && i < |inputs| && Declares(inputs[i], typename, field)
    requires IsRoot(typename) || IsNode(inputs[i].types[typename])
    ensures Merged(inputs).Ok? ==>
              && typename in Merged(inputs).value.0
              && field in LocatableNames(Merged(inputs).value.0[typename].fields)
              && forall j :: 0 <= j < |inputs| && j != i ==> !Declares(inputs[j], typename, field)
  {
    if Merged(inputs).Ok? {
      AllOwned(inputs, typename);
      var (types, tum) := Merged(inputs).value;
      OwnedDeclares(inputs, typename, types, tum, field, i);
    }
  }

  lemma OwnedDeclares(inputs: seq<MergeInput>, typename: string, types: Types, tum: TypeURLMap, field: string, i: nat)
    requires Owned(inputs, typename, types, tum) && i < |inputs| && Declares(inputs[i], typename, field)
    requires IsRoot(typename) || IsNode(inputs[i].types[typename])
    ensures typename in types && field in LocatableNames(types[typename].fields)
    ensures forall j :: 0 <= j < |inputs| && j != i ==> !Declares(inputs[j], typename, field)
  {
    assert typename in inputs[i].types;
    assert Divided(typename, types[typename]);
  }

  /**
   * Both lists of the interface check come from one schema. With definitions stored under their names it therefore never
   * fires: what the schemas say about possible types plays no part in any merge.
   */
  lemma PossibleTypesIgnored(p: Possible, q: Possible, a: Types, b: Types)
    requires (forall name :: name in a ==> a[name].name == name) && forall name :: name in b ==> b[name].name == name
    ensures forall name :: name in MergedNames(a, b) ==> MergeName(p, a, b, name) == MergeName(q, a, b, name)
    ensures MergedTypes(p, a, b) == MergedTypes(q, a, b)
  {
    forall name | name in MergedNames(a, b)
      ensures MergeName(p, a, b, name) == MergeName(q, a, b, name)
    {
      if name in a && name in b && !IsBuiltin(name) {
        SameEitherWay(p, q, name, a[name], b[name]);
      }
    }
    if MergedTypes(p, a, b).Ok? {
      assert MergedTypes(p, a, b).value == MergedTypes(q, a, b).value;
    }
  }

  lemma SameEitherWay(p: Possible, q: Possible, name: string, va: Definition, vb: Definition)
    requires va.name == vb.name
    ensures MergeDefinition(p, name, va, vb) == MergeDefinition(q, name, va, vb)
  {
  }

  /** Two schemas that disagree about an interface: what the check is there to refuse. */
  ghost predicate Conflict(first: MergeInput, second: MergeInput, name: string) {
    && name in first.types && name in second.types
    && first.types[name].kind == second.types[name].kind == Interface
    && !SameMembers(PossibleTypes(first.possible, name), PossibleTypes(second.possible, name))
  }

  /** Every pair of schemas that merge also merge when they are made to disagree about an interface. */
  lemma ConflictsMerge(first: MergeInput, second: MergeInput, name: string)
    requires WellFormed(first.types) && WellFormed(second.types)
    requires name in first.types && name in second.types && first.types[name].kind == second.types[name].kind == Interface
    requires Merged([first, second]).Ok?
    ensures exists p, q {:trigger first.(possible := p), second.(possible := q)} ::
              Conflict(first.(possible := p), second.(possible := q), name) && Merged([first.(possible := p), second.(possible := q)]) == Merged([first, second])
  {
    var p: Possible, q: Possible := map[name := ["A"]], map[name := ["B"]];
    var one, two := first.(possible := p), second.(possible := q);
    assert "A" in p[name] && "A" !in q[name];
    PossibleTypesIgnored(first.possible, p, first.types, second.types);
    MergedTwo(first, second);
    MergedTwo(one, two);
  }

  lemma {:induction false} MergedTwo(first: MergeInput, second: MergeInput)
    ensures Merged([first, second]) ==
            var types := MergedTypes(first.possible, first.types, second.types);
            if types.Err? then Err(types.reason)
            else Ok((types.value, FromSchema(FromSchema(map[], first.types, first.url), second.types, second.url)))
  {
    assert [first, second][..1] == [first];
  }
}
