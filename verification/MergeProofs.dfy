/** What merging schemas gives, definition by definition: when two declarations go together, and which fields come out. */
module MergeProofs {
  import opened Prelude
  import opened Schema
  import opened Merger

  /** Fields that no merge takes over: introspection, and the lookup of a node by its id. */
  predicate NodeShaped(f: FieldDef) {
    && f.name != "Node"
    && |f.args| == 1 && f.args[0].name == "id" && TypeName(f.args[0].typ) == "ID" && f.args[0].typ.nonNull
    && TypeName(f.typ) == "Node" && !f.typ.nonNull
  }

  predicate IDShaped(f: FieldDef) {
    f.name == "id" && f.args == [] && TypeName(f.typ) == "ID" && f.typ.nonNull
  }

  predicate Introspective(f: FieldDef) {
    |f.name| >= 2 && f.name[0] == f.name[1] == '_'
  }

  predicate Shared(root: bool, f: FieldDef) {
    Introspective(f) || if root then NodeShaped(f) else IDShaped(f)
  }

  lemma ShapesAre(f: FieldDef)
    ensures IsNodeField(f) <==> NodeShaped(f)
    ensures IsIDField(f) <==> IDShaped(f)
    ensures IsBuiltin(f.name) <==> Introspective(f)
  {
    assert ID == "id" && NODE_INTERFACE == "Node";
    if |f.name| >= 2 {
      assert f.name[..2] == [f.name[0], f.name[1]];
    }
  }

  /** How often a field of that very definition is there. */
  function Times(fields: seq<FieldDef>, f: FieldDef): nat {
    multiset(fields)[f]
  }

  lemma TimesSnoc(fields: seq<FieldDef>, last: FieldDef, f: FieldDef)
    ensures Times(fields + [last], f) == Times(fields, f) + if last == f then 1 else 0
  {
    assert multiset(fields + [last]) == multiset(fields) + multiset{last};
  }

  lemma TimesAppend(a: seq<FieldDef>, b: seq<FieldDef>, f: FieldDef)
    ensures Times(a + b, f) == Times(a, f) + Times(b, f)
  {
    assert multiset(a + b) == multiset(a) + multiset(b);
  }

  predicate Named(fields: seq<FieldDef>, name: string) {
    exists i :: 0 <= i < |fields| && fields[i].name == name
  }

  /** The i-th further field is taken over and has the name of a field that is there, or of an earlier one taken over. */
  predicate Clashes(root: bool, own: seq<FieldDef>, more: seq<FieldDef>, i: nat)
    requires i < |more|
  {
    !Shared(root, more[i]) && (Named(own, more[i].name) || TakenBefore(root, more, i, more[i].name))
  }

  predicate TakenBefore(root: bool, more: seq<FieldDef>, i: nat, name: string)
    requires i <= |more|
  {
    exists j :: 0 <= j < i && !Shared(root, more[j]) && more[j].name == name
  }

  ghost predicate SomeClash(root: bool, own: seq<FieldDef>, more: seq<FieldDef>) {
    exists i :: 0 <= i < |more| && Clashes(root, own, more, i)
  }

  /** All fields taken over clash: a complete copy. */
  ghost predicate AllClash(root: bool, own: seq<FieldDef>, more: seq<FieldDef>) {
    forall i :: 0 <= i < |more| ==> Shared(root, more[i]) || Clashes(root, own, more, i)
  }

  lemma SomeClashSnoc(root: bool, own: seq<FieldDef>, more: seq<FieldDef>)
    requires more != []
    ensures SomeClash(root, own, more) <==> SomeClash(root, own, more[..|more| - 1]) || Clashes(root, own, more, |more| - 1)
  {
    var front, n := more[..|more| - 1], |more| - 1;
    if SomeClash(root, own, more) {
      var i :| 0 <= i < |more| && Clashes(root, own, more, i);
      if i < n {
        ClashPrefix(root, own, more, n, i);
      }
    }
    if SomeClash(root, own, front) {
      var i :| 0 <= i < |front| && Clashes(root, own, front, i);
      ClashPrefix(root, own, more, n, i);
    }
  }

  lemma AllClashSnoc(root: bool, own: seq<FieldDef>, more: seq<FieldDef>)
    requires more != []
    ensures AllClash(root, own, more) <==>
            AllClash(root, own, more[..|more| - 1]) && (Shared(root, more[|more| - 1]) || Clashes(root, own, more, |more| - 1))
  {
    var front, n := more[..|more| - 1], |more| - 1;
    forall i | 0 <= i < n
      ensures Shared(root, front[i]) || Clashes(root, own, front, i) <==> Shared(root, more[i]) || Clashes(root, own, more, i)
    {
      ClashPrefix(root, own, more, n, i);
    }
  }

  lemma ClashPrefix(root: bool, own: seq<FieldDef>, more: seq<FieldDef>, n: nat, i: nat)
    requires i < n <= |more|
    ensures more[..n][i] == more[i] && (Clashes(root, own, more[..n], i) <==> Clashes(root, own, more, i))
  {
    TakenPrefix(root, more, n, i, more[i].name);
  }

  lemma TakenPrefix(root: bool, more: seq<FieldDef>, n: nat, i: nat, name: string)
    requires i <= n <= |more|
    ensures TakenBefore(root, more[..n], i, name) <==> TakenBefore(root, more, i, name)
  {
    assert forall j :: 0 <= j < i ==> more[..n][j] == more[j];
  }

  lemma NamedIsHasName(fields: seq<FieldDef>, name: string)
    ensures HasName(fields, name) <==> Named(fields, name)
  {
  }

  lemma NamedSnoc(fields: seq<FieldDef>, f: FieldDef, name: string)
    ensures Named(fields + [f], name) <==> Named(fields, name) || f.name == name
  {
    var all := fields + [f];
    assert all[|fields|] == f;
    assert forall i :: 0 <= i < |fields| ==> all[i] == fields[i];
  }

  lemma TakenSnoc(root: bool, more: seq<FieldDef>, name: string)
    requires more != []
    ensures TakenBefore(root, more, |more|, name)
            <==> TakenBefore(root, more[..|more| - 1], |more| - 1, name) || (!Shared(root, more[|more| - 1]) && more[|more| - 1].name == name)
  {
    TakenPrefix(root, more, |more| - 1, |more| - 1, name);
  }

  /**
   * Merging the fields of a root type: it succeeds if and only if no field that is taken over clashes, and then every field
   * that was there stays in front, and every field taken over is added as it was declared, and nothing else.
   */
  lemma {:induction false} RootFieldsExact(fields: seq<FieldDef>, more: seq<FieldDef>)
    ensures var r := AddRootFields(fields, more);
            && (r.Ok? <==> !SomeClash(true, fields, more))
            && (r.Ok? ==>
                  && fields <= r.value
                  && (forall f :: Times(r.value, f) == Times(fields, f) + if Shared(true, f) then 0 else Times(more, f))
                  && (forall name :: Named(r.value, name) <==> Named(fields, name) || TakenBefore(true, more, |more|, name)))
  {
    if more != [] {
      var front, last, n := more[..|more| - 1], more[|more| - 1], |more| - 1;
      assert more == front + [last];
      RootFieldsExact(fields, front);
      SomeClashSnoc(true, fields, more);
      ShapesAre(last);
      TakenPrefix(true, more, n, n, last.name);
      var before := AddRootFields(fields, front);
      if before.Ok? {
        NamedIsHasName(before.value, last.name);
        forall f
          ensures Times(more, f) == Times(front, f) + if last == f then 1 else 0
          ensures Times(before.value + [last], f) == Times(before.value, f) + if last == f then 1 else 0
        {
          TimesSnoc(front, last, f);
          TimesSnoc(before.value, last, f);
        }
        forall name
          ensures TakenBefore(true, more, |more|, name) <==> TakenBefore(true, front, n, name) || (!Shared(true, last) && last.name == name)
          ensures Named(before.value + [last], name) <==> Named(before.value, name) || last.name == name
        {
          TakenSnoc(true, more, name);
          NamedSnoc(before.value, last, name);
        }
      }
    }
  }

  lemma {:induction false} MergingExact(fields: seq<FieldDef>)
    ensures forall f :: Times(Merging(fields), f) == if Shared(false, f) then 0 else Times(fields, f)
    ensures forall name :: Named(Merging(fields), name) <==> TakenBefore(false, fields, |fields|, name)
  {
    if fields != [] {
      var front, last := fields[..|fields| - 1], fields[|fields| - 1];
      assert fields == front + [last];
      MergingExact(front);
      ShapesAre(last);
      forall f
        ensures Times(fields, f) == Times(front, f) + if last == f then 1 else 0
        ensures Times(Merging(front) + [last], f) == Times(Merging(front), f) + if last == f then 1 else 0
      {
        TimesSnoc(front, last, f);
        TimesSnoc(Merging(front), last, f);
      }
      forall name
        ensures TakenBefore(false, fields, |fields|, name) <==> TakenBefore(false, front, |front|, name) || (!Shared(false, last) && last.name == name)
        ensures Named(Merging(front) + [last], name) <==> Named(Merging(front), name) || last.name == name
      {
        TakenSnoc(false, fields, name);
        NamedSnoc(Merging(front), last, name);
      }
      assert Merging(fields) == Merging(front) + if Shared(false, last) then [] else [last];
      assert Merging(front) + [] == Merging(front);
    }
  }

  ghost predicate SomeOverlaps(own: seq<FieldDef>, more: seq<FieldDef>) {
    exists i :: 0 <= i < |more| && Overlaps(own, more, i)
  }

  ghost predicate AllOverlap(own: seq<FieldDef>, more: seq<FieldDef>) {
    forall i :: 0 <= i < |more| ==> Overlaps(own, more, i)
  }

  lemma OverlapSnoc(own: seq<FieldDef>, more: seq<FieldDef>, f: FieldDef)
    ensures SomeOverlaps(own, more + [f]) <==> SomeOverlaps(own, more) || HasName(own + more, f.name)
    ensures AllOverlap(own, more + [f]) <==> AllOverlap(own, more) && HasName(own + more, f.name)
  {
    var all := more + [f];
    forall i | 0 <= i < |more|
      ensures all[i] == more[i] && (Overlaps(own, all, i) <==> Overlaps(own, more, i))
    {
      assert all[..i] == more[..i];
    }
    assert all[|more|] == f && all[..|more|] == more;
    assert Overlaps(own, all, |more|) <==> HasName(own + more, f.name);
  }

  lemma NamedAppend(a: seq<FieldDef>, b: seq<FieldDef>, name: string)
    ensures Named(a + b, name) <==> Named(a, name) || Named(b, name)
  {
    var all := a + b;
    assert forall i :: 0 <= i < |a| ==> all[i] == a[i];
    assert forall i :: 0 <= i < |b| ==> all[|a| + i] == b[i];
  }

  lemma {:induction false} OverlapIsClash(own: seq<FieldDef>, fields: seq<FieldDef>)
    ensures SomeOverlaps(own, Merging(fields)) <==> SomeClash(false, own, fields)
    ensures AllOverlap(own, Merging(fields)) <==> AllClash(false, own, fields)
  {
    if fields != [] {
      var front, last, n := fields[..|fields| - 1], fields[|fields| - 1], |fields| - 1;
      OverlapIsClash(own, front);
      SomeClashSnoc(false, own, fields);
      AllClashSnoc(false, own, fields);
      ShapesAre(last);
      if !Shared(false, last) {
        OverlapSnoc(own, Merging(front), last);
        NamedIsHasName(own + Merging(front), last.name);
        NamedAppend(own, Merging(front), last.name);
        MergingExact(front);
        TakenPrefix(false, fields, n, n, last.name);
        assert Merging(fields) == Merging(front) + [last];
      } else {
        assert Merging(fields) == Merging(front) + [] == Merging(front);
      }
    }
  }

  /** Whether the fields of b may be merged into those of a: none clashes, or all do, which a Node type does not allow. */
  ghost predicate GoInto(a: Definition, b: Definition) {
    SomeClash(false, a.fields, b.fields) ==> AllClash(false, a.fields, b.fields) && "Node" !in a.interfaces
  }

  /**
   * Merging the fields of other types: a complete copy adds nothing, and otherwise every field taken over is added as it
   * was declared.
   */
  lemma {:induction false} CustomFieldsExact(a: Definition, b: Definition)
    requires a.name != QUERY
    ensures var r := MergeCustomObjectFields(a, b);
            && (r.Ok? <==> GoInto(a, b))
            && (r.Ok? ==>
                  && a.fields <= r.value
                  && (forall f :: Times(r.value, f) == Times(a.fields, f)
                                  + if Shared(false, f) || SomeClash(false, a.fields, b.fields) then 0 else Times(b.fields, f)))
  {
    var own, more := a.fields, Merging(b.fields);
    OverlapIsClash(own, b.fields);
    MergingExact(b.fields);
    CustomFieldsAre(a, b);
    forall f
      ensures Times(own + more, f) == Times(own, f) + Times(more, f)
    {
      TimesAppend(own, more, f);
    }
  }

  lemma CustomFieldsAre(a: Definition, b: Definition)
    requires a.name != QUERY
    ensures var own, more, r := a.fields, Merging(b.fields), MergeCustomObjectFields(a, b);
            && (r.Ok? <==> (SomeOverlaps(own, more) ==> AllOverlap(own, more) && "Node" !in a.interfaces))
            && (r.Ok? ==> r.value == if SomeOverlaps(own, more) then own else own + more)
  {
    var own, more := a.fields, Merging(b.fields);
    if more == [] {
      assert own + more == own;
    } else if AllOverlap(own, more) {
      assert Overlaps(own, more, 0);
    }
  }

  /** Two declarations of one name that can be merged. */
  ghost predicate Compatible(name: string, va: Definition, vb: Definition) {
    name == "Node" ||
    (va.kind == vb.kind &&
     match vb.kind
     case Scalar => true
     case Union => ToSet(va.members) == ToSet(vb.members)
     case _ =>
       && ("Node" in va.interfaces <==> "Node" in vb.interfaces)
       && if IsRoot(name) then !SomeClash(true, vb.fields, va.fields) else GoInto(va, vb) && GoInto(vb, va))
  }

  /** What they are merged to: the later declaration, and what the earlier one adds. */
  ghost predicate MergedTo(name: string, va: Definition, vb: Definition, d: Definition) {
    if name == "Node" then d == va
    else match vb.kind
      case Scalar => d == vb
      case Union => d == va
      case _ =>
        && d.kind == vb.kind && d.name == name && ToSet(d.interfaces) == ToSet(va.interfaces) + ToSet(vb.interfaces)
        && vb.fields <= d.fields
        && forall f :: Times(d.fields, f) == Times(vb.fields, f) + Adds(name, va, vb, f)
  }

  /** How often a field definition is added: never one that is not taken over, and nothing of a complete copy. */
  ghost function Adds(name: string, va: Definition, vb: Definition, f: FieldDef): nat {
    if Shared(IsRoot(name), f) || (!IsRoot(name) && SomeClash(false, vb.fields, va.fields)) then 0 else Times(va.fields, f)
  }

  /** Merging two declarations of one name, of any kind: when it succeeds, and with what. */
  lemma MergeExact(possible: Possible, name: string, va: Definition, vb: Definition)
    requires va.name == vb.name == name && (IsRoot(name) ==> va.kind == vb.kind == Object)
    ensures var r := MergeDefinition(possible, name, va, vb);
            && (r.Ok? <==> Compatible(name, va, vb))
            && (r.Ok? ==> MergedTo(name, va, vb, r.value))
  {
    MembersAre(va.members, vb.members);
    if name != NODE_INTERFACE && va.kind == vb.kind && vb.kind != Scalar && vb.kind != Union && IsNode(va) == IsNode(vb) {
      if IsRoot(name) {
        RootExact(va, vb);
      } else {
        CustomExact(va, vb);
      }
    }
  }

  lemma RootExact(va: Definition, vb: Definition)
    requires va.name == vb.name && IsRoot(vb.name) && vb.kind == Object
    ensures var r := MergeRootObjects(vb, va);
            && (r.Ok? <==> !SomeClash(true, vb.fields, va.fields))
            && (r.Ok? ==> MergedTo(vb.name, va, vb, r.value))
  {
    RootFieldsExact(vb.fields, va.fields);
  }

  lemma CustomExact(va: Definition, vb: Definition)
    requires va.name == vb.name && !IsRoot(vb.name) && vb.name != NODE_INTERFACE && vb.kind != Scalar && vb.kind != Union
    ensures var r := MergeCustomObjects(vb, va);
            && (r.Ok? <==> GoInto(va, vb) && GoInto(vb, va))
            && (r.Ok? ==> MergedTo(vb.name, va, vb, r.value))
  {
    CustomFieldsExact(vb, va);
    CustomFieldsExact(va, vb);
  }

  lemma MembersAre(a: seq<string>, b: seq<string>)
    ensures SameMembers(a, b) <==> ToSet(a) == ToSet(b)
  {
    if ToSet(a) == ToSet(b) {
      forall x
        ensures x in a <==> x in b
      {
        assert x in ToSet(a) <==> x in ToSet(b);
      }
    }
  }

  /** How often the inputs together declare a field with that very definition. */
  function TimesDeclared(inputs: seq<MergeInput>, typename: string, f: FieldDef): nat {
    if inputs == [] then 0
    else
      var last := inputs[|inputs| - 1];
      TimesDeclared(inputs[..|inputs| - 1], typename, f) + if typename in last.types then Times(last.types[typename].fields, f) else 0
  }

  lemma {:induction false} NeverDeclared(inputs: seq<MergeInput>, typename: string, f: FieldDef)
    requires forall i :: 0 <= i < |inputs| ==> typename !in inputs[i].types
    ensures TimesDeclared(inputs, typename, f) == 0
  {
    if inputs != [] {
      NeverDeclared(inputs[..|inputs| - 1], typename, f);
    }
  }

  /** What one more schema does to a type. */
  lemma {:induction false} MergedLast(inputs: seq<MergeInput>, typename: string)
    requires |inputs| > 1 && Merged(inputs).Ok? && !IsBuiltin(typename)
    ensures var front, last := inputs[..|inputs| - 1], inputs[|inputs| - 1];
            && Merged(front).Ok?
            && var before, after := Merged(front).value.0, Merged(inputs).value.0;
               && (typename in after <==> typename in before || typename in last.types)
               && (typename in before && typename !in last.types ==> after[typename] == before[typename])
               && (typename !in before && typename in last.types ==> after[typename] == last.types[typename])
               && (typename in before && typename in last.types ==>
                     MergeDefinition(inputs[|inputs| - 2].possible, typename, before[typename], last.types[typename]) == Ok(after[typename]))
  {
    var front, last := inputs[..|inputs| - 1], inputs[|inputs| - 1];
    var before := Merged(front).value.0;
    assert typename in before || typename in last.types ==> typename in MergedNames(before, last.types);
  }

  /** The fields of a type that is merged from two declarations, when it is a root or a Node type. */
  lemma DividedFields(possible: Possible, name: string, va: Definition, vb: Definition, f: FieldDef)
    requires va.name == vb.name == name != NODE_INTERFACE && MergeDefinition(possible, name, va, vb).Ok?
    requires Divided(name, MergeDefinition(possible, name, va, vb).value) && (IsRoot(name) ==> vb.kind == Object)
    ensures Divided(name, va) && Divided(name, vb)
    ensures var d := MergeDefinition(possible, name, va, vb).value;
            Times(d.fields, f) == Times(vb.fields, f) + if Shared(IsRoot(name), f) then 0 else Times(va.fields, f)
  {
    var d := MergeDefinition(possible, name, va, vb).value;
    SameKind(possible, name, va, vb);
    DividedMerge(possible, name, va, vb);
    MergeExact(possible, name, va, vb);
    assert Compatible(name, va, vb) && MergedTo(name, va, vb, d);
    if !IsRoot(name) {
      assert "Node" in vb.interfaces;
      assert !(SomeClash(false, vb.fields, va.fields));
    }
  }

  lemma SameKind(possible: Possible, name: string, va: Definition, vb: Definition)
    requires va.name == vb.name == name != NODE_INTERFACE && MergeDefinition(possible, name, va, vb).Ok?
    requires MergeDefinition(possible, name, va, vb).value.kind == Object
    ensures va.kind == vb.kind && (!IsRoot(name) ==> vb.kind == Object)
  {
  }

  /**
   * The fields of a merged root or Node type are those the inputs declare, with arguments and types, each exactly as often:
   * none is lost, added or changed. Only introspection, the node lookup of a root and the id of a Node type stay out of
   * the count.
   */
  lemma {:induction false} DeclaredExact(inputs: seq<MergeInput>, typename: string, f: FieldDef)
    requires Merged(inputs).Ok? && forall k :: 0 <= k < |inputs| ==> WellFormed(inputs[k].types)
    requires !IsBuiltin(typename) && typename != NODE_INTERFACE && !Shared(IsRoot(typename), f)
    requires var types := Merged(inputs).value.0; typename in types && Divided(typename, types[typename])
    ensures Times(Merged(inputs).value.0[typename].fields, f) == TimesDeclared(inputs, typename, f)
  {
    var front, last := inputs[..|inputs| - 1], inputs[|inputs| - 1];
    if |inputs| == 1 {
      NeverDeclared(front, typename, f);
    } else {
      MergedLast(inputs, typename);
      AllOwned(front, typename);
      var before := Merged(front).value.0;
      if typename !in before {
        NeverDeclared(front, typename, f);
      } else {
        if typename in last.types {
          DividedFields(inputs[|inputs| - 2].possible, typename, before[typename], last.types[typename], f);
        }
        DeclaredExact(front, typename, f);
      }
    }
  }

  /** A Node type has its id once, if every input that declares the type declares the id once. */
  lemma {:induction false} IDOnce(inputs: seq<MergeInput>, typename: string)
    requires Merged(inputs).Ok? && forall k :: 0 <= k < |inputs| ==> WellFormed(inputs[k].types)
    requires !IsBuiltin(typename) && typename != NODE_INTERFACE && !IsRoot(typename)
    requires var types := Merged(inputs).value.0; typename in types && Divided(typename, types[typename])
    requires forall k :: 0 <= k < |inputs| && typename in inputs[k].types ==>
               Times(inputs[k].types[typename].fields, FieldDef("id", [], Of("ID", true))) == 1
    ensures Times(Merged(inputs).value.0[typename].fields, FieldDef("id", [], Of("ID", true))) == 1
  {
    var front, last, id := inputs[..|inputs| - 1], inputs[|inputs| - 1], FieldDef("id", [], Of("ID", true));
    if |inputs| > 1 {
      MergedLast(inputs, typename);
      AllOwned(front, typename);
      var before := Merged(front).value.0;
      if typename in before && typename in last.types {
        DividedFields(inputs[|inputs| - 2].possible, typename, before[typename], last.types[typename], id);
      } else if typename in before {
        assert forall k :: 0 <= k < |front| ==> front[k] == inputs[k];
        IDOnce(front, typename);
      }
    }
  }

  /** A type is marked as a Node type exactly when some input declares it as one. */
  lemma {:induction false} MarkedExact(inputs: seq<MergeInput>, typename: string)
    requires Merged(inputs).Ok? && !IsBuiltin(typename)
    ensures ImplementsNode(Merged(inputs).value.1, typename)
            <==> exists i :: 0 <= i < |inputs| && typename in inputs[i].types && inputs[i].types[typename].kind == Object
                             && "Node" in inputs[i].types[typename].interfaces
  {
    var front, last := inputs[..|inputs| - 1], inputs[|inputs| - 1];
    assert forall i :: 0 <= i < |front| ==> front[i] == inputs[i];
    if |inputs| > 1 {
      MarkedExact(front, typename);
    }
  }

  /** The types of the merged schema: all of the first one, and those of the others that are not introspection's. */
  lemma {:induction false} TypesExact(inputs: seq<MergeInput>, name: string)
    requires Merged(inputs).Ok?
    ensures name in Merged(inputs).value.0 <==>
            name in inputs[0].types || (!IsBuiltin(name) && exists i :: 0 <= i < |inputs| && name in inputs[i].types)
    ensures IsBuiltin(name) && name in inputs[0].types ==> Merged(inputs).value.0[name] == inputs[0].types[name]
  {
    var front, last := inputs[..|inputs| - 1], inputs[|inputs| - 1];
    if |inputs| > 1 {
      TypesExact(front, name);
      assert forall i :: 0 <= i < |front| ==> front[i] == inputs[i];
      assert name in Merged(inputs).value.0 <==> name in MergedNames(Merged(front).value.0, last.types);
    }
  }
}
