/** Queries with inline fragments of object types: exactly which ids of a response survive scrubbing. */
module Fragments {
  import opened Prelude
  import opened Text
  import opened Json
  import opened Schema
  import opened Selection
  import opened Scrubbing
  import opened ScrubConfluence
  import opened Sanitizing
  import opened SanitizeProofs

  /** Fields and fragments as the parser gives them; `id` keeps its meaning as a response key. */
  ghost predicate Named(sels: seq<Sel>)
    decreases sels
  {
    forall i :: 0 <= i < |sels| ==>
      && Named(sels[i].sub)
      && (sels[i].Field? ==> NamedField(sels[i]))
  }

  predicate NamedField(f: Sel)
    requires f.Field?
  {
    f.alias != "" && '.' !in f.alias && f.name != "" && (f.alias == ID <==> f.name == ID) && (f.name == ID ==> f.sub == [])
  }

  /** A selection that asks for the id, itself or in a fragment on a Node type, which asks for it or gets it. */
  predicate Supplies(tum: TypeURLMap, sels: seq<Sel>)
    decreases sels
  {
    exists i :: 0 <= i < |sels| && if sels[i].Field? then sels[i].name == ID else ImplementsNode(tum, sels[i].cond) || Supplies(tum, sels[i].sub)
  }

  /** A selection on a Node type to which sanitizing adds the id. */
  predicate Bare(tum: TypeURLMap, typename: string, sels: seq<Sel>) {
    ImplementsNode(tum, typename) && !Supplies(tum, sels)
  }

  /** Some field or fragment on t, at the path, has no id among its selections. */
  ghost predicate Lacks(tum: TypeURLMap, sels: seq<Sel>, p: seq<string>, t: string)
    decreases sels, 0
  {
    exists i :: 0 <= i < |sels| && LacksOne(tum, sels[i], p, t)
  }

  ghost predicate LacksOne(tum: TypeURLMap, s: Sel, p: seq<string>, t: string)
    decreases s, 1
  {
    match s
    case Field(alias, _, _, typ, sub) =>
      sub != [] && p != [] && p[0] == alias && ((p[1..] == [] && typ.name == t && Bare(tum, t, sub)) || Lacks(tum, sub, p[1..], t))
    case Inline(cond, sub) => (p == [] && cond == t && Bare(tum, t, sub)) || Lacks(tum, sub, p, t)
  }

  /** The client asks for the id of the objects at the path. */
  ghost predicate Wants(sels: seq<Sel>, p: seq<string>)
    decreases sels
  {
    exists i :: 0 <= i < |sels| &&
      if sels[i].Inline? then Wants(sels[i].sub, p)
      else if p == [] then sels[i].name == ID
      else p[0] == sels[i].alias && Wants(sels[i].sub, p[1..])
  }

  lemma {:induction false} LacksSnoc(tum: TypeURLMap, sels: seq<Sel>, p: seq<string>, t: string)
    requires sels != []
    ensures Lacks(tum, sels, p, t) <==> Lacks(tum, sels[..|sels| - 1], p, t) || LacksOne(tum, sels[|sels| - 1], p, t)
  {
    var front := sels[..|sels| - 1];
    if Lacks(tum, front, p, t) {
      var i :| 0 <= i < |front| && LacksOne(tum, front[i], p, t);
      assert LacksOne(tum, sels[i], p, t);
    }
    if Lacks(tum, sels, p, t) && !LacksOne(tum, sels[|sels| - 1], p, t) {
      var i :| 0 <= i < |sels| && LacksOne(tum, sels[i], p, t);
      assert front[i] == sels[i];
    }
  }

  lemma {:induction false} SuppliesSnoc(tum: TypeURLMap, sels: seq<Sel>)
    requires sels != []
    ensures Supplies(tum, sels) <==>
            Supplies(tum, sels[..|sels| - 1])
            || var s := sels[|sels| - 1]; if s.Field? then s.name == ID else ImplementsNode(tum, s.cond) || Supplies(tum, s.sub)
  {
    var front := sels[..|sels| - 1];
    assert forall i :: 0 <= i < |front| ==> front[i] == sels[i];
  }

  lemma NamedSnoc(sels: seq<Sel>)
    requires Named(sels) && sels != []
    ensures Named(sels[..|sels| - 1]) && Named(sels[|sels| - 1].sub)
    ensures sels[|sels| - 1].Field? ==> NamedField(sels[|sels| - 1])
  {
    var front := sels[..|sels| - 1];
    assert forall i :: 0 <= i < |front| ==> front[i] == sels[i];
  }

  /** A path at which something lacks an id is one of names, none of them `id`. */
  lemma {:induction false} LacksPath(tum: TypeURLMap, sels: seq<Sel>, p: seq<string>, t: string)
    requires Named(sels) && Lacks(tum, sels, p, t)
    ensures NoDots(p) && forall i :: 0 <= i < |p| ==> p[i] != ID
    decreases sels
  {
    var i :| 0 <= i < |sels| && LacksOne(tum, sels[i], p, t);
    var s := sels[i];
    if s.Inline? {
      if Lacks(tum, s.sub, p, t) {
        LacksPath(tum, s.sub, p, t);
      }
    } else {
      assert NamedField(s);
      if Lacks(tum, s.sub, p[1..], t) {
        LacksPath(tum, s.sub, p[1..], t);
      }
      assert p == [p[0]] + p[1..];
    }
  }

  /** What sanitizing returns: fields, with the names it was given or the added id. */
  ghost predicate Flat(sels: seq<Sel>) {
    forall f :: f in sels ==> f.Field? && f.name != "" && (f.name == ID ==> f.alias == ID || f.alias == "")
  }

  lemma {:induction false} UnshadowedKeeps(result: seq<Sel>, more: seq<Sel>)
    requires Flat(result) && Flat(more)
    ensures Flat(Unshadowed(result, more))
    ensures HasFieldNamed(result, ID) || (HasFieldNamed(Unshadowed(result, more), ID) <==> HasFieldNamed(more, ID))
  {
    if more != [] {
      var front, last := more[..|more| - 1], more[|more| - 1];
      InSnoc(more);
      UnshadowedKeeps(result, front);
      assert last in more;
      NoBlankName(result);
      assert HasFieldNamed(result, last.alias) && last.name == ID ==> HasFieldNamed(result, ID);
      assert Unshadowed(result, more) == Unshadowed(result, front) + if HasFieldNamed(result, last.alias) then [] else [last];
      FlatSnoc(Unshadowed(result, front), last);
      assert more == front + [last];
      HasSnoc(front, last);
    }
  }

  lemma {:induction false} FlatSnoc(sels: seq<Sel>, s: Sel)
    requires Flat(sels) && Flat([s])
    ensures Flat(sels + [s]) && sels + [] == sels
    ensures HasFieldNamed(sels + [s], ID) <==> HasFieldNamed(sels, ID) || s.name == ID
  {
    assert s in [s];
    HasSnoc(sels, s);
  }

  lemma NoBlankName(sels: seq<Sel>)
    requires Flat(sels)
    ensures !HasFieldNamed(sels, "")
  {
  }

  lemma {:induction false} HasSnoc(sels: seq<Sel>, s: Sel)
    ensures HasFieldNamed(sels + [s], ID) <==> HasFieldNamed(sels, ID) || (s.Field? && s.name == ID)
  {
    HasAppend(sels, [s]);
    assert HasFieldNamed([s], ID) <==> [s][0].Field? && [s][0].name == ID;
  }

  lemma HasAppend(a: seq<Sel>, b: seq<Sel>)
    ensures HasFieldNamed(a + b, ID) <==> HasFieldNamed(a, ID) || HasFieldNamed(b, ID)
  {
    var c := a + b;
    if HasFieldNamed(a, ID) {
      var i :| 0 <= i < |a| && a[i].Field? && a[i].name == ID;
      assert c[i] == a[i];
    }
    if HasFieldNamed(b, ID) {
      var i :| 0 <= i < |b| && b[i].Field? && b[i].name == ID;
      assert c[|a| + i] == b[i];
    }
  }

  /** The sanitized selection has the id exactly when the query supplies it. */
  lemma {:induction false} SanitizedSupplies(tum: TypeURLMap, sels: seq<Sel>, ip: seq<string>)
    requires Named(sels)
    ensures var r := Sanitize(tum, sels, ip).sels; Flat(r) && (HasFieldNamed(r, ID) <==> Supplies(tum, sels))
    decreases sels
  {
    if sels != [] {
      NamedSnoc(sels);
      SuppliesSnoc(tum, sels);
      var front, s := sels[..|sels| - 1], sels[|sels| - 1];
      SanitizedSupplies(tum, front, ip);
      var acc := Sanitize(tum, front, ip).sels;
      var more := MoreOf(tum, s, ip);
      MoreSupplies(tum, s, ip);
      UnshadowedKeeps(acc, more);
      HasAppend(acc, Unshadowed(acc, more));
      assert Sanitize(tum, sels, ip).sels == acc + Unshadowed(acc, more);
    }
  }

  /** What one selection adds to the result. */
  function MoreOf(tum: TypeURLMap, s: Sel, ip: seq<string>): seq<Sel> {
    match s
    case Field(alias, _, _, typ, sub) =>
      if sub == [] then [s] else [WithSub(s, AddScrubFields(tum, typ.name, Sanitize(tum, sub, ip + [alias]).sels))]
    case Inline(cond, sub) => AddScrubFields(tum, cond, Sanitize(tum, sub, ip).sels)
  }

  lemma {:induction false} MoreSupplies(tum: TypeURLMap, s: Sel, ip: seq<string>)
    requires Named(s.sub) && (s.Field? ==> NamedField(s))
    ensures Flat(MoreOf(tum, s, ip))
    ensures HasFieldNamed(MoreOf(tum, s, ip), ID) <==> if s.Field? then s.name == ID else ImplementsNode(tum, s.cond) || Supplies(tum, s.sub)
    decreases s, 0
  {
    var more := MoreOf(tum, s, ip);
    if s.Inline? {
      SanitizedSupplies(tum, s.sub, ip);
      var child := Sanitize(tum, s.sub, ip).sels;
      FlatContains(child);
      if NeedsID(tum, s.cond, child) {
        HasAppend([ID_FIELD], child);
        assert [ID_FIELD][0].name == ID;
      }
    } else {
      assert more == [more[0]];
      HasSnoc([], more[0]);
      assert [] + [more[0]] == more;
    }
  }

  lemma {:induction false} FlatContains(sels: seq<Sel>)
    requires Flat(sels)
    ensures ContainsField(sels, ID) <==> HasFieldNamed(sels, ID)
  {
    assert forall i :: 0 <= i < |sels| ==> sels[i] in sels;
  }

  /** Whether a sanitized selection gets the id. */
  lemma {:induction false} NeedsIDIsBare(tum: TypeURLMap, t: string, sels: seq<Sel>, ip: seq<string>)
    requires Named(sels)
    ensures NeedsID(tum, t, Sanitize(tum, sels, ip).sels) <==> Bare(tum, t, sels)
  {
    SanitizedSupplies(tum, sels, ip);
    FlatContains(Sanitize(tum, sels, ip).sels);
  }

  predicate Recorded(entries: Entries, key: string, t: string) {
    key in entries && t in entries[key]
  }

  /** A record of ids only. */
  ghost predicate OnlyIDs(entries: Entries) {
    (forall key :: key in entries ==> entries[key] != map[]) && forall key, t :: Recorded(entries, key, t) ==> IDAt(entries, key, t)
  }

  ghost predicate IDAt(entries: Entries, key: string, t: string)
    requires Recorded(entries, key, t)
  {
    ToSet(entries[key][t]) == {ID}
  }

  lemma {:induction false} UniqOfBoth(a: seq<string>, b: seq<string>)
    ensures ToSet(Uniq(a + b)) == ToSet(a) + ToSet(b)
  {
  }

  lemma MergeRecord(a: Entries, b: Entries, key: string, t: string)
    requires OnlyIDs(a) && OnlyIDs(b)
    ensures Recorded(MergeEntries(a, b), key, t) <==> Recorded(a, key, t) || Recorded(b, key, t)
    ensures Recorded(MergeEntries(a, b), key, t) ==> IDAt(MergeEntries(a, b), key, t)
  {
    assert Recorded(a, key, t) ==> IDAt(a, key, t);
    assert Recorded(b, key, t) ==> IDAt(b, key, t);
    if Recorded(b, key, t) {
      UniqOfBoth(if Recorded(a, key, t) then a[key][t] else [], b[key][t]);
    }
  }

  lemma MergeNotEmpty(a: Entries, b: Entries, key: string)
    requires OnlyIDs(a) && OnlyIDs(b) && key in MergeEntries(a, b)
    ensures MergeEntries(a, b)[key] != map[]
  {
    if key in b {
      var t :| t in b[key];
      assert t in MergeEntries(a, b)[key];
    }
  }

  lemma MergeRecords(a: Entries, b: Entries)
    requires OnlyIDs(a) && OnlyIDs(b)
    ensures OnlyIDs(MergeEntries(a, b))
    ensures forall key, t :: Recorded(MergeEntries(a, b), key, t) <==> Recorded(a, key, t) || Recorded(b, key, t)
  {
    forall key, t
      ensures Recorded(MergeEntries(a, b), key, t) <==> Recorded(a, key, t) || Recorded(b, key, t)
      ensures Recorded(MergeEntries(a, b), key, t) ==> IDAt(MergeEntries(a, b), key, t)
    {
      MergeRecord(a, b, key, t);
    }
    forall key | key in MergeEntries(a, b)
      ensures MergeEntries(a, b)[key] != map[]
    {
      MergeNotEmpty(a, b, key);
    }
  }

  lemma SetRecord(entries: Entries, key: string, t: string, k: string, u: string)
    requires OnlyIDs(entries)
    ensures Recorded(SetEntry(entries, key, t, ID), k, u) <==> Recorded(entries, k, u) || (k == key && u == t)
    ensures Recorded(SetEntry(entries, key, t, ID), k, u) ==> IDAt(SetEntry(entries, key, t, ID), k, u)
  {
    var after, own := SetEntry(entries, key, t, ID), FieldsAt(entries, key, t);
    assert Recorded(entries, k, u) ==> IDAt(entries, k, u);
    if k == key && u == t {
      UniqOfBoth(own, [ID]);
      assert ToSet([ID]) == {ID} && (own == [] || ToSet(own) == {ID});
      assert after[k][u] == Uniq(own + [ID]);
    } else if Recorded(after, k, u) {
      assert after[k][u] == entries[k][u];
    }
  }

  lemma SetRecords(entries: Entries, key: string, t: string)
    requires OnlyIDs(entries)
    ensures OnlyIDs(SetEntry(entries, key, t, ID))
    ensures forall k, u :: Recorded(SetEntry(entries, key, t, ID), k, u) <==> Recorded(entries, k, u) || (k == key && u == t)
  {
    forall k, u
      ensures Recorded(SetEntry(entries, key, t, ID), k, u) <==> Recorded(entries, k, u) || (k == key && u == t)
      ensures Recorded(SetEntry(entries, key, t, ID), k, u) ==> IDAt(SetEntry(entries, key, t, ID), k, u)
    {
      SetRecord(entries, key, t, k, u);
    }
    assert t in SetEntry(entries, key, t, ID)[key];
  }

  /** A record is at the path of some field or fragment without an id. */
  ghost predicate PathTo(tum: TypeURLMap, sels: seq<Sel>, ip: seq<string>, key: string, t: string) {
    exists p :: Lacks(tum, sels, p, t) && key == Hash(ip + p)
  }

  ghost predicate PathToOne(tum: TypeURLMap, s: Sel, ip: seq<string>, key: string, t: string) {
    exists p :: LacksOne(tum, s, p, t) && key == Hash(ip + p)
  }

  lemma {:induction false} PathSnoc(tum: TypeURLMap, sels: seq<Sel>, ip: seq<string>, key: string, t: string)
    requires sels != []
    ensures PathTo(tum, sels, ip, key, t) <==> PathTo(tum, sels[..|sels| - 1], ip, key, t) || PathToOne(tum, sels[|sels| - 1], ip, key, t)
  {
    forall p
      ensures Lacks(tum, sels, p, t) <==> Lacks(tum, sels[..|sels| - 1], p, t) || LacksOne(tum, sels[|sels| - 1], p, t)
    {
      LacksSnoc(tum, sels, p, t);
    }
  }

  lemma {:induction false} PathOfField(tum: TypeURLMap, f: Sel, ip: seq<string>, key: string, t: string)
    requires f.Field? && f.sub != []
    ensures PathToOne(tum, f, ip, key, t) <==>
            PathTo(tum, f.sub, ip + [f.alias], key, t) || (key == Hash(ip + [f.alias]) && t == f.typ.name && Bare(tum, t, f.sub))
  {
    if PathToOne(tum, f, ip, key, t) {
      var p :| LacksOne(tum, f, p, t) && key == Hash(ip + p);
      assert p == [f.alias] + p[1..];
      Regroup(ip, [f.alias], p[1..]);
      assert p[1..] == [] ==> [f.alias] + p[1..] == [f.alias];
    }
    if PathTo(tum, f.sub, ip + [f.alias], key, t) {
      var p :| Lacks(tum, f.sub, p, t) && key == Hash(ip + [f.alias] + p);
      Regroup(ip, [f.alias], p);
      assert ([f.alias] + p)[1..] == p;
      assert LacksOne(tum, f, [f.alias] + p, t);
    }
    if key == Hash(ip + [f.alias]) && t == f.typ.name && Bare(tum, t, f.sub) {
      assert LacksOne(tum, f, [f.alias], t);
    }
  }

  lemma {:induction false} PathOfFragment(tum: TypeURLMap, s: Sel, ip: seq<string>, key: string, t: string)
    requires s.Inline?
    ensures PathToOne(tum, s, ip, key, t) <==> PathTo(tum, s.sub, ip, key, t) || (key == Hash(ip) && t == s.cond && Bare(tum, t, s.sub))
  {
    assert ip + [] == ip;
    if key == Hash(ip) && t == s.cond && Bare(tum, t, s.sub) {
      assert LacksOne(tum, s, [], t);
    }
    if PathTo(tum, s.sub, ip, key, t) {
      var p :| Lacks(tum, s.sub, p, t) && key == Hash(ip + p);
      assert LacksOne(tum, s, p, t);
    }
  }

  ghost predicate Exact(tum: TypeURLMap, sels: seq<Sel>, ip: seq<string>, entries: Entries) {
    OnlyIDs(entries) && forall key, t :: Recorded(entries, key, t) <==> PathTo(tum, sels, ip, key, t)
  }

  /** What a selection with selections of its own adds to the record. */
  lemma {:induction false} RecordBelow(tum: TypeURLMap, s: Sel, ip: seq<string>, path: seq<string>, cond: string,
                                       child: Entries, own: Entries)
    requires if s.Inline? then path == ip && cond == s.cond else s.sub != [] && path == ip + [s.alias] && cond == s.typ.name
    requires Exact(tum, s.sub, path, child)
    requires own == if Bare(tum, cond, s.sub) then SetEntry(child, Hash(path), cond, ID) else child
    ensures OnlyIDs(own) && forall key, t :: Recorded(own, key, t) <==> PathToOne(tum, s, ip, key, t)
  {
    SetRecords(child, Hash(path), cond);
    forall key, t
      ensures Recorded(own, key, t) <==> PathToOne(tum, s, ip, key, t)
    {
      if s.Inline? {
        PathOfFragment(tum, s, ip, key, t);
      } else {
        PathOfField(tum, s, ip, key, t);
      }
    }
  }

  lemma {:induction false} RecordBoth(tum: TypeURLMap, sels: seq<Sel>, ip: seq<string>, acc: Entries, own: Entries,
                                      entries: Entries)
    requires sels != [] && Exact(tum, sels[..|sels| - 1], ip, acc) && OnlyIDs(entries)
    requires forall key, t :: Recorded(own, key, t) <==> PathToOne(tum, sels[|sels| - 1], ip, key, t)
    requires forall key, t :: Recorded(entries, key, t) <==> Recorded(acc, key, t) || Recorded(own, key, t)
    ensures Exact(tum, sels, ip, entries)
  {
    forall key, t
      ensures Recorded(entries, key, t) <==> PathTo(tum, sels, ip, key, t)
    {
      PathSnoc(tum, sels, ip, key, t);
    }
  }

  /** Recording after merging is recording before. */
  lemma SetAfterMerge(acc: Entries, child: Entries, key: string, t: string)
    requires OnlyIDs(acc) && OnlyIDs(child)
    ensures OnlyIDs(SetEntry(MergeEntries(acc, child), key, t, ID))
    ensures forall k, u :: Recorded(SetEntry(MergeEntries(acc, child), key, t, ID), k, u) <==> Recorded(acc, k, u) || Recorded(SetEntry(child, key, t, ID), k, u)
  {
    MergeRecords(acc, child);
    SetRecords(MergeEntries(acc, child), key, t);
    SetRecords(child, key, t);
  }

  lemma {:induction false} NoRecord(tum: TypeURLMap, s: Sel, ip: seq<string>, key: string, t: string)
    requires s.Field? && s.sub == []
    ensures !PathToOne(tum, s, ip, key, t)
  {
  }

  /** The record after one more selection. */
  lemma {:induction false} ScrubNext(tum: TypeURLMap, sels: seq<Sel>, ip: seq<string>)
    requires sels != []
    ensures var s, acc, scrub := sels[|sels| - 1], Sanitize(tum, sels[..|sels| - 1], ip).scrub, Sanitize(tum, sels, ip).scrub;
            if s.Field? && s.sub == [] then scrub == acc
            else
              var path, cond := if s.Inline? then ip else ip + [s.alias], if s.Inline? then s.cond else s.typ.name;
              var child := Sanitize(tum, s.sub, path);
              scrub == if NeedsID(tum, cond, child.sels) then SetEntry(MergeEntries(acc, child.scrub), Hash(path), cond, ID) else MergeEntries(acc, child.scrub)
  {
    assert Sanitize(tum, sels, ip) == SanitizeNext(tum, sels, ip, Sanitize(tum, sels[..|sels| - 1], ip));
  }

  /** Sanitizing records the id of t at exactly the paths at which some field or fragment on t has none. */
  lemma {:induction false} RecordExact(tum: TypeURLMap, sels: seq<Sel>, ip: seq<string>)
    requires Named(sels)
    ensures Exact(tum, sels, ip, Sanitize(tum, sels, ip).scrub)
    decreases sels
  {
    var scrub := Sanitize(tum, sels, ip).scrub;
    if sels != [] {
      NamedSnoc(sels);
      var front, s := sels[..|sels| - 1], sels[|sels| - 1];
      var acc := Sanitize(tum, front, ip).scrub;
      RecordExact(tum, front, ip);
      ScrubNext(tum, sels, ip);
      if s.Field? && s.sub == [] {
        forall key, t
          ensures !PathToOne(tum, s, ip, key, t)
        {
          NoRecord(tum, s, ip, key, t);
        }
        RecordBoth(tum, sels, ip, acc, map[], scrub);
      } else {
        var path, cond := if s.Inline? then ip else ip + [s.alias], if s.Inline? then s.cond else s.typ.name;
        RecordExact(tum, s.sub, path);
        NeedsIDIsBare(tum, cond, s.sub, path);
        var child := Sanitize(tum, s.sub, path).scrub;
        var own := if Bare(tum, cond, s.sub) then SetEntry(child, Hash(path), cond, ID) else child;
        RecordBelow(tum, s, ip, path, cond, child, own);
        MergeRecords(acc, child);
        SetAfterMerge(acc, child, Hash(path), cond);
        assert scrub == if Bare(tum, cond, s.sub) then SetEntry(MergeEntries(acc, child), Hash(path), cond, ID) else MergeEntries(acc, child);
        RecordBoth(tum, sels, ip, acc, own, scrub);
      }
    }
  }

  ghost predicate HasIDAt(payload: Object, at: seq<Pt>) {
    Reach(payload, at).Some? && ID in Reach(payload, at).value
  }

  /** The object at an address still has its id and says the same about its type. */
  ghost predicate Holds(payload: Object, at: seq<Pt>, o: Object) {
    && HasIDAt(payload, at)
    && var m := Reach(payload, at).value;
       if TYPENAME in o then TYPENAME in m && m[TYPENAME] == o[TYPENAME] else TYPENAME !in m
  }

  ghost predicate OnlyTheID(types: map<string, seq<string>>) {
    forall t :: t in types ==> ToSet(types[t]) == {ID}
  }

  /** A candidate type that fits the object. */
  ghost predicate Meets(types: map<string, seq<string>>, o: Object) {
    exists t :: t in types && Fits(o, t)
  }

  /** Keys that are not the id's. */
  ghost predicate OtherKeys(p: seq<string>) {
    forall i :: 0 <= i < |p| ==> p[i] != ID
  }

  lemma {:induction false} KeysBelow(at: seq<Pt>)
    requires at != []
    ensures KeysOf(at)[1..] == KeysOf(at[1..]) && KeysOf(at) == [at[0].key] + KeysOf(at[1..])
  {
  }

  /** Erasing elsewhere, or where no candidate type fits, spares the id. */
  lemma {:induction false} Spared(payload: Object, q: seq<string>, types: map<string, seq<string>>, rest: Object,
                                  at: seq<Pt>, o: Object)
    requires MayClean(payload, q, types, rest) && OnlyTheID(types) && OtherKeys(q)
    requires Holds(payload, at, o) && OtherKeys(KeysOf(at)) && (TYPENAME in o ==> o[TYPENAME].JScalar?)
    requires KeysOf(at) == q ==> !Meets(types, o)
    ensures Holds(rest, at, o)
    decreases |at|
  {
    if at == [] {
      SparedHere(payload, q, types, rest, o);
    } else if q == [] {
      assert KeysOf(at)[0] == at[0].key;
      ErasedOnlyID(payload, types, rest);
    } else if q[0] in payload {
      KeysBelow(at);
      assert KeysOf(at)[0] == at[0].key;
      var v := payload[q[0]];
      var w :| MayCleanValue(v, q, types, w) && rest == Kept(payload, q, w);
      if q[0] == at[0].key {
        assert q == [q[0]] + q[1..];
        SparedBelow(payload, q, types, w, at, o);
      }
    }
  }

  lemma ErasedOnlyID(payload: Object, types: map<string, seq<string>>, rest: Object)
    requires MayErase(payload, types, rest) && OnlyTheID(types)
    ensures rest == payload || rest == payload - {ID}
  {
  }

  lemma {:induction false} SparedHere(payload: Object, q: seq<string>, types: map<string, seq<string>>, rest: Object, o: Object)
    requires MayClean(payload, q, types, rest) && OnlyTheID(types) && OtherKeys(q)
    requires Holds(payload, [], o) && (TYPENAME in o ==> o[TYPENAME].JScalar?)
    requires q == [] ==> !Meets(types, o)
    ensures Holds(rest, [], o)
  {
    if q == [] {
      assert forall t :: Fits(payload, t) <==> Fits(o, t);
    } else if q[0] in payload {
      var v := payload[q[0]];
      var w :| MayCleanValue(v, q, types, w) && rest == Kept(payload, q, w);
      assert q[0] != ID;
    }
  }

  lemma {:induction false} SparedBelow(payload: Object, q: seq<string>, types: map<string, seq<string>>, w: Json,
                                       at: seq<Pt>, o: Object)
    requires q != [] && at != [] && q[0] == at[0].key && q[0] in payload && MayCleanValue(payload[q[0]], q, types, w)
    requires OnlyTheID(types) && OtherKeys(q) && Holds(payload, at, o) && OtherKeys(KeysOf(at[1..])) && (TYPENAME in o ==> o[TYPENAME].JScalar?)
    requires KeysOf(at[1..]) == q[1..] ==> !Meets(types, o)
    ensures Holds(Kept(payload, q, w), at, o)
    decreases |at|, 0
  {
    var m := Child(payload, at[0]).value;
    match payload[q[0]]
    case JObj(_) =>
      Spared(m, q[1..], types, w.fields, at[1..], o);
      NotEmptied(m, q[1..], w.fields, at[1..]);
    case JList(items) =>
      var i := at[0].index.value;
      Spared(m, q[1..], types, w.items[i].fields, at[1..], o);
      NotEmptied(m, q[1..], w.items[i].fields, at[1..]);
  }

  lemma NotEmptied(m: Object, q: seq<string>, rest: Object, at: seq<Pt>)
    requires HasIDAt(rest, at)
    ensures !Emptied(m, q, rest)
  {
  }

  /** Erasing at the object's own path, where a candidate type fits, takes its id. */
  lemma {:induction false} Taken(payload: Object, types: map<string, seq<string>>, rest: Object, at: seq<Pt>, o: Object)
    requires MayClean(payload, KeysOf(at), types, rest) && OnlyTheID(types) && Holds(payload, at, o) && Meets(types, o)
    ensures !HasIDAt(rest, at)
    decreases |at|
  {
    var q := KeysOf(at);
    if at == [] {
      var t :| t in types && Fits(o, t);
      assert Fits(payload, t);
    } else {
      KeysBelow(at);
      var w :| MayCleanValue(payload[q[0]], q, types, w) && rest == Kept(payload, q, w);
      var m := Child(payload, at[0]).value;
      match payload[q[0]]
      case JObj(_) => Taken(m, types, w.fields, at[1..], o);
      case JList(items) => Taken(m, types, w.items[at[0].index.value].fields, at[1..], o);
    }
  }

  /** What is gone stays gone. */
  lemma {:induction false} StaysGone(payload: Object, q: seq<string>, types: map<string, seq<string>>, rest: Object, at: seq<Pt>)
    requires MayClean(payload, q, types, rest) && HasIDAt(rest, at)
    ensures HasIDAt(payload, at)
    decreases |at|
  {
    if q == [] {
      assert rest.Keys <= payload.Keys && forall k :: k in rest ==> rest[k] == payload[k];
    } else if q[0] in payload {
      var w :| MayCleanValue(payload[q[0]], q, types, w) && rest == Kept(payload, q, w);
      if at != [] && at[0].key == q[0] {
        match payload[q[0]]
        case JObj(m) => StaysGone(m, q[1..], types, w.fields, at[1..]);
        case JList(items) =>
          var i := at[0].index.value;
          assert items[i].JObj?;
          StaysGone(items[i].fields, q[1..], types, w.items[i].fields, at[1..]);
        case JScalar(_) =>
        case JNull =>
      }
    }
  }

  /** An object that may be of a type: it says so, or it does not say its type. */
  predicate OfType(o: Object, t: string) {
    "__typename" in o ==> o["__typename"] == JScalar(t)
  }

  lemma FitsIsOfType(o: Object)
    ensures forall t :: Fits(o, t) <==> OfType(o, t)
  {
    assert TYPENAME == "__typename";
  }

  /** Some entry visited takes the id of the object. */
  ghost predicate TakenBy(keys: seq<string>, entries: Entries, at: seq<Pt>, o: Object)
    requires forall i :: 0 <= i < |keys| ==> keys[i] in entries
  {
    exists i :: 0 <= i < |keys| && Unhash(keys[i]) == KeysOf(at) && Meets(entries[keys[i]], o)
  }

  ghost predicate IDsOnly(entries: Entries) {
    forall key :: key in entries ==> OnlyTheID(entries[key]) && OtherKeys(Unhash(key))
  }

  lemma {:induction false} AfterAll(payload: Object, keys: seq<string>, entries: Entries, rest: Object, at: seq<Pt>, o: Object)
    requires (forall i :: 0 <= i < |keys| ==> keys[i] in entries) && MayCleanAll(payload, keys, entries, rest)
    requires IDsOnly(entries) && Holds(payload, at, o) && OtherKeys(KeysOf(at)) && (TYPENAME in o ==> o[TYPENAME].JScalar?)
    ensures if TakenBy(keys, entries, at, o) then !HasIDAt(rest, at) else Holds(rest, at, o)
  {
    if keys != [] {
      var front, last := keys[..|keys| - 1], keys[|keys| - 1];
      var before :| MayCleanAll(payload, front, entries, before) && MayClean(before, Unhash(last), entries[last], rest);
      AfterAll(payload, front, entries, before, at, o);
      TakenSnoc(keys, entries, at, o);
      if TakenBy(front, entries, at, o) {
        if HasIDAt(rest, at) {
          StaysGone(before, Unhash(last), entries[last], rest, at);
        }
      } else if Unhash(last) == KeysOf(at) && Meets(entries[last], o) {
        Taken(before, entries[last], rest, at, o);
      } else {
        Spared(before, Unhash(last), entries[last], rest, at, o);
      }
    }
  }

  lemma TakenSnoc(keys: seq<string>, entries: Entries, at: seq<Pt>, o: Object)
    requires keys != [] && forall i :: 0 <= i < |keys| ==> keys[i] in entries
    ensures var front, last := keys[..|keys| - 1], keys[|keys| - 1];
            TakenBy(keys, entries, at, o) <==> TakenBy(front, entries, at, o) || (Unhash(last) == KeysOf(at) && Meets(entries[last], o))
  {
    var front := keys[..|keys| - 1];
    assert forall i :: 0 <= i < |front| ==> front[i] == keys[i];
  }

  lemma {:induction false} UnhashPath(p: seq<string>)
    requires NoDots(p)
    ensures Unhash(Hash([] + p)) == if p == [] then [""] else p
  {
    assert [] + p == p;
    if p == [] {
      SplitWhole("", '.');
    } else {
      SplitJoin(p, '.');
    }
  }

  /** What the record of a query means for the objects at an address. */
  lemma {:induction false} RecordMeans(tum: TypeURLMap, sels: seq<Sel>, entries: Entries, p: seq<string>, o: Object)
    requires Named(sels) && Exact(tum, sels, [], entries) && p != [] && p[0] != ""
    ensures (exists key :: key in entries && Unhash(key) == p && Meets(entries[key], o)) <==> exists t :: Lacks(tum, sels, p, t) && Fits(o, t)
  {
    if key: string :| key in entries && Unhash(key) == p && Meets(entries[key], o) {
      var t :| t in entries[key] && Fits(o, t);
      assert Recorded(entries, key, t);
      var q :| Lacks(tum, sels, q, t) && key == Hash([] + q);
      LacksPath(tum, sels, q, t);
      UnhashPath(q);
    }
    if t: string :| Lacks(tum, sels, p, t) && Fits(o, t) {
      LacksPath(tum, sels, p, t);
      UnhashPath(p);
      assert PathTo(tum, sels, [], Hash([] + p), t);
      assert Recorded(entries, Hash([] + p), t);
      assert Meets(entries[Hash([] + p)], o);
    }
  }

  lemma {:induction false} RecordIsClean(tum: TypeURLMap, sels: seq<Sel>, entries: Entries)
    requires Named(sels) && Exact(tum, sels, [], entries)
    ensures IDsOnly(entries)
  {
    forall key | key in entries
      ensures OnlyTheID(entries[key]) && OtherKeys(Unhash(key))
    {
      forall t | t in entries[key]
        ensures ToSet(entries[key][t]) == {ID}
      {
        assert Recorded(entries, key, t);
        assert IDAt(entries, key, t);
      }
      var t :| t in entries[key];
      assert Recorded(entries, key, t);
      var q :| Lacks(tum, sels, q, t) && key == Hash([] + q);
      LacksPath(tum, sels, q, t);
      UnhashPath(q);
    }
  }

  /** Candidate types recorded for ids only agree on every object, typed or not. */
  lemma {:induction false} IDsSettle(payload: Object, entries: Entries)
    requires IDsOnly(entries)
    ensures SettledEach(payload, entries)
  {
    forall key | key in entries
      ensures Settled(payload, Unhash(key), entries[key])
    {
      assert OnlyTheID(entries[key]);
      SameSettles(payload, Unhash(key), entries[key]);
    }
  }

  /**
   * The record that sanitizing keeps of a query, fragments included, never leaves Clean a choice: on an anchored payload
   * any two runs, whatever their orders of entries and of candidate types, leave the same.
   */
  lemma {:induction false} SanitizedConfluent(tum: TypeURLMap, sels: seq<Sel>, payload: Object, touched: set<string>,
                                        a: seq<string>, x: Object, b: seq<string>, y: Object)
    requires Named(sels) && Anchored(JObj(payload), touched) && AllWithin(Sanitize(tum, sels, []).scrub, touched)
    requires OrderOf(a, Sanitize(tum, sels, []).scrub) && MayCleanAll(payload, a, Sanitize(tum, sels, []).scrub, x)
    requires OrderOf(b, Sanitize(tum, sels, []).scrub) && MayCleanAll(payload, b, Sanitize(tum, sels, []).scrub, y)
    ensures x == y
  {
    var entries := Sanitize(tum, sels, []).scrub;
    RecordExact(tum, sels, []);
    RecordIsClean(tum, sels, entries);
    IDsSettle(payload, entries);
    CleanConfluent(payload, entries, touched, a, x, b, y);
  }

  /**
   * Which ids survive: in every order of entries and of candidate types, Clean leaves an object its id if and only if no
   * field or fragment at the object's path, on a type that fits the object, lacks an id among its selections. Whether
   * the client asked for the id elsewhere at that path plays no part.
   */
  lemma {:induction false} IDKeptExact(tum: TypeURLMap, sels: seq<Sel>, payload: Object, order: seq<string>,
                                       rest: Object, at: seq<Pt>)
    requires Named(sels)
    requires OrderOf(order, Sanitize(tum, sels, []).scrub) && MayCleanAll(payload, order, Sanitize(tum, sels, []).scrub, rest)
    requires at != [] && at[0].key != "" && OtherKeys(KeysOf(at)) && HasIDAt(payload, at)
    requires var o := Reach(payload, at).value; TYPENAME in o ==> o[TYPENAME].JScalar?
    ensures HasIDAt(rest, at) <==> !exists t :: Lacks(tum, sels, KeysOf(at), t) && OfType(Reach(payload, at).value, t)
  {
    var o, entries := Reach(payload, at).value, Sanitize(tum, sels, []).scrub;
    FitsIsOfType(o);
    RecordExact(tum, sels, []);
    RecordIsClean(tum, sels, entries);
    RecordMeans(tum, sels, entries, KeysOf(at), o);
    AfterAll(payload, order, entries, rest, at, o);
    assert TakenBy(order, entries, at, o) <==> exists key :: key in entries && Unhash(key) == KeysOf(at) && Meets(entries[key], o) by {
      TakenInAny(order, entries, at, o);
    }
  }

  lemma TakenInAny(order: seq<string>, entries: Entries, at: seq<Pt>, o: Object)
    requires OrderOf(order, entries) && forall i :: 0 <= i < |order| ==> order[i] in entries
    ensures TakenBy(order, entries, at, o) <==> exists key :: key in entries && Unhash(key) == KeysOf(at) && Meets(entries[key], o)
  {
    if key: string :| key in entries && Unhash(key) == KeysOf(at) && Meets(entries[key], o) {
      assert key in order;
      var i :| 0 <= i < |order| && order[i] == key;
    }
  }

  /** `{ user { id ... on User { name } } }`: the client asks for the id, the answer has it, and Clean takes it away. */
  lemma {:induction false} FragmentLosesID(tum: TypeURLMap, query: seq<Sel>, payload: Object, user: Object,
                                        order: seq<string>, rest: Object)
    requires ImplementsNode(tum, "User") && query == [UserWithFragment()]
    requires user.Keys == {ID, "name"} && payload == map["user" := JObj(user)]
    requires OrderOf(order, Sanitize(tum, query, []).scrub) && MayCleanAll(payload, order, Sanitize(tum, query, []).scrub, rest)
    ensures Wants(query, ["user"]) && !HasIDAt(rest, [Pt("user", None)])
  {
    UserIsNamed();
    UserLacks(tum);
    UserLoses(tum, query, payload, user, order, rest);
  }

  lemma {:induction false} UserLoses(tum: TypeURLMap, query: seq<Sel>, payload: Object, user: Object,
                                     order: seq<string>, rest: Object)
    requires Named(query) && Lacks(tum, query, ["user"], "User")
    requires user.Keys == {ID, "name"} && payload == map["user" := JObj(user)]
    requires OrderOf(order, Sanitize(tum, query, []).scrub) && MayCleanAll(payload, order, Sanitize(tum, query, []).scrub, rest)
    ensures !HasIDAt(rest, [Pt("user", None)])
  {
    var at := [Pt("user", None)];
    assert at[1..] == [] && Reach(payload, at) == Some(user);
    assert KeysOf(at) == ["user"];
    assert Fits(user, "User") && OfType(user, "User");
    IDKeptExact(tum, query, payload, order, rest, at);
  }

  lemma {:induction false} UserLacks(tum: TypeURLMap)
    requires ImplementsNode(tum, "User")
    ensures Wants([UserWithFragment()], ["user"]) && Lacks(tum, [UserWithFragment()], ["user"], "User")
  {
    var user := UserWithFragment();
    assert user.sub[0].name == ID;
    assert Wants(user.sub, []) && ["user"][1..] == [];
    assert !Supplies(tum, user.sub[1].sub);
    assert LacksOne(tum, user.sub[1], [], "User");
    assert Lacks(tum, user.sub, [], "User");
    assert LacksOne(tum, [user][0], ["user"], "User");
  }

  function UserWithFragment(): Sel {
    var leaf := TypeRef("String", false, false);
    Field("user", "user", [], TypeRef("User", false, false), [Field(ID, ID, [], leaf, []), Inline("User", [Field("name", "name", [], leaf, [])])])
  }

  lemma {:induction false} UserIsNamed()
    ensures Named([UserWithFragment()])
  {
    var user := UserWithFragment();
    assert Named(user.sub[1].sub) && Named(user.sub[0].sub);
    assert Named(user.sub);
  }
}
