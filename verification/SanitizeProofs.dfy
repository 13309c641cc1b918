/** What sanitizing does to a client's query over object types, and exactly when it loses nothing. */
module SanitizeProofs {
  import opened Prelude
  import opened Text
  import opened Schema
  import opened Selection
  import opened Scrubbing
  import opened Sanitizing

  /** Fields only, at every depth, each with the alias the parser gives it. */
  ghost predicate Parsed(sels: seq<Sel>)
    decreases sels
  {
    forall i :: 0 <= i < |sels| ==> sels[i].Field? && sels[i].alias != "" && '.' !in sels[i].alias && Parsed(sels[i].sub)
  }

  /** No alias is the name of an earlier sibling. */
  ghost predicate Unshadowing(sels: seq<Sel>)
    decreases sels
  {
    && (forall i, j :: 0 <= i < j < |sels| && sels[i].Field? && sels[j].Field? ==> sels[j].alias != sels[i].name)
    && (forall i :: 0 <= i < |sels| ==> Unshadowing(sels[i].sub))
  }

  /** A field whose objects get an id they were not asked for. */
  predicate LacksID(tum: TypeURLMap, f: Sel) {
    f.Field? && f.sub != [] && ImplementsNode(tum, f.typ.name) && !HasFieldNamed(f.sub, ID)
  }

  function WithID(tum: TypeURLMap, f: Sel): (g: Sel)
    requires f.Field?
    ensures g.Field? && Key(g) == Key(f) && g.name == f.name
    decreases f, 0
  {
    var below := WithIDs(tum, f.sub);
    WithSub(f, if LacksID(tum, f) then [ID_FIELD] + below else below)
  }

  /** The query with an id for every object of a Node type: what sanitizing is for. */
  function WithIDs(tum: TypeURLMap, sels: seq<Sel>): (r: seq<Sel>)
    ensures AllFields(sels) ==>
              |r| == |sels| && forall i :: 0 <= i < |r| ==> r[i].Field? && Key(r[i]) == Key(sels[i]) && r[i].name == sels[i].name
    decreases sels
  {
    if sels == [] then []
    else
      var last := sels[|sels| - 1];
      WithIDs(tum, sels[..|sels| - 1]) + [if last.Field? then WithID(tum, last) else last]
  }

  lemma {:induction false} WithIDsAt(tum: TypeURLMap, sels: seq<Sel>, i: nat)
    requires AllFields(sels) && i < |sels|
    ensures WithIDs(tum, sels)[i] == WithID(tum, sels[i])
  {
    if i < |sels| - 1 {
      WithIDsAt(tum, sels[..|sels| - 1], i);
    }
  }

  lemma ParsedPrefix(sels: seq<Sel>)
    requires Parsed(sels) && sels != []
    ensures Parsed(sels[..|sels| - 1]) && AllFields(sels)
    ensures sels[|sels| - 1].alias != "" && Parsed(sels[|sels| - 1].sub)
  {
    var front := sels[..|sels| - 1];
    assert forall i :: 0 <= i < |front| ==> front[i] == sels[i];
  }

  lemma {:induction false} ContainsIsHas(sels: seq<Sel>, name: string)
    requires AllFields(sels)
    ensures ContainsField(sels, name) <==> HasFieldNamed(sels, name)
  {
  }

  /** Sanitizing keeps at most the fields it was given, under names they had. */
  lemma {:induction false} SanitizedNames(tum: TypeURLMap, sels: seq<Sel>, ip: seq<string>)
    requires Parsed(sels)
    ensures var r := Sanitize(tum, sels, ip).sels;
            && |r| <= |sels| && AllFields(r)
            && forall name :: HasFieldNamed(r, name) ==> HasFieldNamed(sels, name)
  {
    if sels != [] {
      ParsedPrefix(sels);
      var front, f := sels[..|sels| - 1], sels[|sels| - 1];
      SanitizedNames(tum, front, ip);
      var acc, r := Sanitize(tum, front, ip).sels, Sanitize(tum, sels, ip).sels;
      var g := SanitizedField(tum, f, ip);
      AddOne(acc, g);
      assert r == if HasFieldNamed(acc, f.alias) then acc else acc + [g];
      forall name | HasFieldNamed(r, name)
        ensures HasFieldNamed(sels, name)
      {
        var i :| 0 <= i < |r| && r[i].Field? && r[i].name == name;
        if i < |acc| {
          assert HasFieldNamed(acc, name);
          var j :| 0 <= j < |front| && front[j].Field? && front[j].name == name;
          assert sels[j] == front[j];
        } else {
          assert sels[|sels| - 1].name == name;
        }
      }
    }
  }

  /** A field as sanitizing leaves it. */
  function SanitizedField(tum: TypeURLMap, f: Sel, ip: seq<string>): (g: Sel)
    requires f.Field?
    ensures g.Field? && g.alias == f.alias && g.name == f.name
  {
    if f.sub == [] then f
    else WithSub(f, AddScrubFields(tum, f.typ.name, Sanitize(tum, f.sub, ip + [f.alias]).sels))
  }

  lemma AddOne(acc: seq<Sel>, g: Sel)
    requires g.Field?
    ensures AddToResult(acc, [g]) == if HasFieldNamed(acc, g.alias) then acc else acc + [g]
  {
    assert [g][..0] == [];
    assert Unshadowed(acc, []) == [];
  }

  lemma UnshadowingPrefix(sels: seq<Sel>)
    requires sels != [] && AllFields(sels)
    ensures Unshadowing(sels) <==>
            && Unshadowing(sels[..|sels| - 1])
            && Unshadowing(sels[|sels| - 1].sub)
            && !HasFieldNamed(sels[..|sels| - 1], sels[|sels| - 1].alias)
  {
    var front, f := sels[..|sels| - 1], sels[|sels| - 1];
    assert forall i :: 0 <= i < |front| ==> front[i] == sels[i];
    if Unshadowing(front) && Unshadowing(f.sub) && !HasFieldNamed(front, f.alias) {
      forall i, j | 0 <= i < j < |sels|
        ensures sels[j].alias != sels[i].name
      {
        assert front[i] == sels[i];
      }
      assert forall i :: 0 <= i < |sels| ==> i == |front| || Unshadowing(front[i].sub);
    }
  }

  /**
   * Sanitizing does what it is for exactly when no alias is the name of an earlier sibling: otherwise some field is
   * dropped from the query.
   */
  lemma {:induction false} SanitizeExact(tum: TypeURLMap, sels: seq<Sel>, ip: seq<string>)
    requires Parsed(sels)
    ensures Sanitize(tum, sels, ip).sels == WithIDs(tum, sels) <==> Unshadowing(sels)
    decreases sels
  {
    if sels != [] {
      ParsedPrefix(sels);
      var front, f := sels[..|sels| - 1], sels[|sels| - 1];
      SanitizeExact(tum, front, ip);
      SanitizedNames(tum, front, ip);
      FieldExact(tum, f, ip);
      UnshadowingPrefix(sels);
      var acc := Sanitize(tum, front, ip).sels;
      var g := SanitizedField(tum, f, ip);
      AddOne(acc, g);
      SameNames(tum, front, f.alias);
      OneMoreExact(acc, g, WithIDs(tum, front), WithID(tum, f));
      assert WithIDs(tum, sels) == WithIDs(tum, front) + [WithID(tum, f)];
      assert Sanitize(tum, sels, ip).sels == AddToResult(acc, [g]);
    }
  }

  lemma OneMoreExact(acc: seq<Sel>, g: Sel, front: seq<Sel>, last: Sel)
    requires g.Field? && |acc| <= |front| && last.Field? && g.alias == last.alias
    requires AddToResult(acc, [g]) == if HasFieldNamed(acc, g.alias) then acc else acc + [g]
    ensures AddToResult(acc, [g]) == front + [last] <==> acc == front && g == last && !HasFieldNamed(front, last.alias)
  {
    var r := AddToResult(acc, [g]);
    if r == front + [last] {
      assert |acc| == |front|;
      assert acc == r[..|front|] == front;
      assert r[|front|] == last;
    }
  }

  lemma {:induction false} SameNames(tum: TypeURLMap, sels: seq<Sel>, name: string)
    requires AllFields(sels)
    ensures HasFieldNamed(WithIDs(tum, sels), name) <==> HasFieldNamed(sels, name)
  {
    var r := WithIDs(tum, sels);
    assert forall i :: 0 <= i < |r| ==> r[i].name == sels[i].name;
  }

  lemma {:induction false} FieldExact(tum: TypeURLMap, f: Sel, ip: seq<string>)
    requires f.Field? && f.alias != "" && Parsed(f.sub)
    ensures SanitizedField(tum, f, ip) == WithID(tum, f) <==> Unshadowing(f.sub)
    decreases f, 0
  {
    if f.sub == [] {
      assert WithID(tum, f) == f;
    } else {
      var path := ip + [f.alias];
      SanitizeExact(tum, f.sub, path);
      SanitizedNames(tum, f.sub, path);
      var child, below := Sanitize(tum, f.sub, path).sels, WithIDs(tum, f.sub);
      ContainsIsHas(child, ID);
      ContainsIsHas(f.sub, ID);
      SameNames(tum, f.sub, ID);
      assert below[0].alias == f.sub[0].alias != "" by {
        WithIDsAt(tum, f.sub, 0);
      }
      SameBehind(ID_FIELD, child, below);
    }
  }

  lemma SameBehind(first: Sel, a: seq<Sel>, b: seq<Sel>)
    ensures [first] + a == [first] + b <==> a == b
    ensures b != [] && b[0] != first ==> [first] + a != b
  {
    assert ([first] + a)[1..] == a && ([first] + b)[1..] == b;
    assert ([first] + a)[0] == first;
  }

  /** `{ a: name name }` loses its second field: the response has no `name`. */
  lemma {:induction false} DroppedField(tum: TypeURLMap)
    ensures var leaf := TypeRef("String", false, false);
            var query := [Field("a", "name", [], leaf, []), Field("name", "name", [], leaf, [])];
            Parsed(query) && UniqueKeys(query) && Sanitize(tum, query, []).sels == [query[0]]
  {
    var leaf := TypeRef("String", false, false);
    var first, second := Field("a", "name", [], leaf, []), Field("name", "name", [], leaf, []);
    var query := [first, second];
    assert query[..1] == [first] && query[..1][..0] == [];
    AddOne([], first);
    assert Sanitize(tum, [first], []).sels == [first];
    AddOne([first], second);
    assert [first][0].name == second.alias;
  }

  lemma OnlyID()
    ensures Uniq([] + [ID]) == [ID]
  {
    assert [] + [ID] == [ID];
    assert [ID][..0] == [];
  }

  lemma SetOnce(entries: Entries, key: string, typename: string)
    requires key !in entries
    ensures SetEntry(entries, key, typename, ID) == entries[key := map[typename := [ID]]]
  {
    OnlyID();
  }

  /** Merging entries whose keys are new copies them. */
  lemma MergeOnce(b: Entries, key: string, typename: string)
    requires key in b && b[key] == map[typename := [ID]]
    ensures MergeTypes(map[], b[key]) == b[key]
  {
    OnlyID();
  }

  /** Paths of aliases to the objects that get an id they were not asked for. */
  function Injected(tum: TypeURLMap, sels: seq<Sel>): set<seq<string>>
    decreases sels
  {
    if sels == [] then {}
    else Injected(tum, sels[..|sels| - 1]) + InjectedField(tum, sels[|sels| - 1])
  }

  function InjectedField(tum: TypeURLMap, f: Sel): set<seq<string>>
    decreases f, 0
  {
    if !f.Field? || f.sub == [] then {}
    else (if LacksID(tum, f) then {[f.alias]} else {}) + set p | p in Injected(tum, f.sub) :: [f.alias] + p
  }

  lemma {:induction false} InInjected(tum: TypeURLMap, sels: seq<Sel>, path: seq<string>)
    ensures path in Injected(tum, sels) <==> exists i :: 0 <= i < |sels| && path in InjectedField(tum, sels[i])
  {
    if sels != [] {
      var front, last := sels[..|sels| - 1], sels[|sels| - 1];
      InInjected(tum, front, path);
      if path in Injected(tum, front) {
        var i :| 0 <= i < |front| && path in InjectedField(tum, front[i]);
        assert sels[i] == front[i];
      }
      if path in InjectedField(tum, last) {
        assert sels[|sels| - 1] == last;
      }
      assert forall i :: 0 <= i < |front| ==> sels[i] == front[i];
    }
  }

  /** The type of the objects at the end of a path. */
  function TypeAt(typename: string, sels: seq<Sel>, path: seq<string>): string
    decreases |path|
  {
    if path == [] || path[0] !in Keys(sels) then typename
    else TypeAt(At(sels, path[0]).typ.name, At(sels, path[0]).sub, path[1..])
  }

  ghost predicate DeeplyUnique(sels: seq<Sel>)
    decreases sels
  {
    UniqueKeys(sels) && forall i :: 0 <= i < |sels| ==> DeeplyUnique(sels[i].sub)
  }

  lemma UniquePrefix(sels: seq<Sel>)
    requires DeeplyUnique(sels) && sels != []
    ensures DeeplyUnique(sels[..|sels| - 1]) && DeeplyUnique(sels[|sels| - 1].sub)
  {
    var front := sels[..|sels| - 1];
    assert forall i :: 0 <= i < |front| ==> front[i] == sels[i];
  }

  ghost predicate NoDots(path: seq<string>) {
    forall i :: 0 <= i < |path| ==> '.' !in path[i]
  }

  /** Paths of aliases are told apart by their text. */
  lemma HashInjective(ip: seq<string>, p: seq<string>, q: seq<string>)
    requires p != [] && q != [] && NoDots(ip) && NoDots(p) && NoDots(q)
    ensures Hash(ip + p) == Hash(ip + q) <==> p == q
    ensures Unhash(Hash(ip + p)) == ip + p
  {
    SplitJoin(ip + p, '.');
    SplitJoin(ip + q, '.');
    assert (ip + p)[|ip|..] == p && (ip + q)[|ip|..] == q;
  }

  /** A path to an injected id starts at a composite field of the set. */
  lemma {:induction false} InjectedStarts(tum: TypeURLMap, sels: seq<Sel>, path: seq<string>)
    requires Parsed(sels) && path in Injected(tum, sels)
    ensures path != [] && NoDots(path) && path[0] in Keys(sels)
    ensures exists i :: 0 <= i < |sels| && sels[i].alias == path[0] && sels[i].sub != [] && path in InjectedField(tum, sels[i])
    decreases sels
  {
    InInjected(tum, sels, path);
    var i :| 0 <= i < |sels| && path in InjectedField(tum, sels[i]);
    var f := sels[i];
    if path != [f.alias] {
      var p :| p in Injected(tum, f.sub) && path == [f.alias] + p;
      InjectedStarts(tum, f.sub, p);
    }
    assert Key(f) == f.alias;
    AllKeys(sels, i);
  }

  lemma AllKeys(sels: seq<Sel>, i: nat)
    requires i < |sels| && sels[i].Field?
    ensures Key(sels[i]) in Keys(sels)
  {
    assert Key(sels[i]) in set j | 0 <= j < |sels| && sels[j].Field? :: Key(sels[j]);
  }

  /** Nothing but the paths is recorded. */
  ghost predicate OnlyAt(paths: set<seq<string>>, ip: seq<string>, entries: Entries) {
    forall key :: key in entries ==> exists p :: p in paths && key == Hash(ip + p)
  }

  /** The entry of a path: the id of that type. */
  ghost predicate EntryAt(path: seq<string>, typename: string, entries: Entries) {
    Hash(path) in entries && entries[Hash(path)] == map[typename := [ID]]
  }

  /** The record has one entry for each object that got an id, with its type. */
  ghost predicate Records(tum: TypeURLMap, sels: seq<Sel>, ip: seq<string>, entries: Entries) {
    && OnlyAt(Injected(tum, sels), ip, entries)
    && (forall p :: p in Injected(tum, sels) ==> EntryAt(ip + p, TypeAt("", sels, p), entries))
  }

  /** The same for one field. */
  ghost predicate RecordsField(tum: TypeURLMap, f: Sel, ip: seq<string>, entries: Entries)
    requires f.Field?
  {
    && OnlyAt(InjectedField(tum, f), ip, entries)
    && (forall p :: p in InjectedField(tum, f) ==> p != [] && EntryAt(ip + p, TypeAt(f.typ.name, f.sub, p[1..]), entries))
  }

  lemma {:induction false} NeedsIDIsLacks(tum: TypeURLMap, f: Sel, path: seq<string>)
    requires f.Field? && f.sub != [] && Parsed(f.sub) && Unshadowing(f.sub)
    ensures NeedsID(tum, f.typ.name, Sanitize(tum, f.sub, path).sels) <==> LacksID(tum, f)
  {
    SanitizeExact(tum, f.sub, path);
    ContainsIsHas(WithIDs(tum, f.sub), ID);
    SameNames(tum, f.sub, ID);
  }

  lemma {:induction false} BelowField(ip: seq<string>, f: Sel, tum: TypeURLMap, p: seq<string>)
    requires f.Field? && Parsed(f.sub) && '.' !in f.alias && NoDots(ip) && p in Injected(tum, f.sub)
    ensures ip + [f.alias] + p == ip + ([f.alias] + p) && Hash(ip + ([f.alias] + p)) != Hash(ip + [f.alias])
    ensures TypeAt("", f.sub, p) == TypeAt(f.typ.name, f.sub, p)
    ensures ([f.alias] + p)[1..] == p
  {
    InjectedStarts(tum, f.sub, p);
    HashInjective(ip, [f.alias] + p, [f.alias]);
    assert |[f.alias] + p| > |[f.alias]|;
  }

  lemma {:induction false} BelowKeys(tum: TypeURLMap, f: Sel, ip: seq<string>, below: Entries, key: string)
    requires f.Field? && f.sub != [] && Parsed(f.sub) && '.' !in f.alias && NoDots(ip)
    requires OnlyAt(Injected(tum, f.sub), ip + [f.alias], below) && key in below
    ensures key != Hash(ip + [f.alias]) && exists q :: q in InjectedField(tum, f) && key == Hash(ip + q)
  {
    var p :| p in Injected(tum, f.sub) && key == Hash(ip + [f.alias] + p);
    BelowField(ip, f, tum, p);
    assert [f.alias] + p in InjectedField(tum, f);
  }

  lemma {:induction false} BelowEntry(tum: TypeURLMap, f: Sel, ip: seq<string>, below: Entries, own: Entries, q: seq<string>)
    requires f.Field? && f.sub != [] && Parsed(f.sub) && '.' !in f.alias && NoDots(ip)
    requires Records(tum, f.sub, ip + [f.alias], below) && q in InjectedField(tum, f)
    requires own == if LacksID(tum, f) then below[Hash(ip + [f.alias]) := map[f.typ.name := [ID]]] else below
    ensures q != [] && EntryAt(ip + q, TypeAt(f.typ.name, f.sub, q[1..]), own)
  {
    if LacksID(tum, f) && q == [f.alias] {
      assert EntryAt(ip + q, f.typ.name, own);
    } else {
      var p :| p in Injected(tum, f.sub) && q == [f.alias] + p;
      BelowField(ip, f, tum, p);
      assert EntryAt(ip + [f.alias] + p, TypeAt("", f.sub, p), below);
    }
  }

  /** What is recorded below a field, and at it. */
  lemma FieldRecorded(tum: TypeURLMap, f: Sel, ip: seq<string>, below: Entries)
    requires f.Field? && f.sub != [] && Parsed(f.sub) && '.' !in f.alias && NoDots(ip)
    requires Records(tum, f.sub, ip + [f.alias], below)
    ensures Hash(ip + [f.alias]) !in below
    ensures RecordsField(tum, f, ip, if LacksID(tum, f) then below[Hash(ip + [f.alias]) := map[f.typ.name := [ID]]] else below)
  {
    var path := ip + [f.alias];
    var own := if LacksID(tum, f) then below[Hash(path) := map[f.typ.name := [ID]]] else below;
    forall key | key in below
      ensures key != Hash(path) && exists q :: q in InjectedField(tum, f) && key == Hash(ip + q)
    {
      BelowKeys(tum, f, ip, below, key);
    }
    if LacksID(tum, f) {
      assert [f.alias] in InjectedField(tum, f);
    }
    assert OnlyAt(InjectedField(tum, f), ip, own);
    forall q | q in InjectedField(tum, f)
      ensures q != [] && EntryAt(ip + q, TypeAt(f.typ.name, f.sub, q[1..]), own)
    {
      BelowEntry(tum, f, ip, below, own, q);
    }
  }

  lemma RecordedLate(tum: TypeURLMap, acc: Entries, below: Entries, path: seq<string>, typename: string, sels: seq<Sel>)
    requires Hash(path) !in acc && Hash(path) !in below
    ensures Recorded(tum, below, path, typename, sels)
            == if NeedsID(tum, typename, sels) then below[Hash(path) := map[typename := [ID]]] else below
    ensures Recorded(tum, MergeEntries(acc, below), path, typename, sels)
            == MergeEntries(acc, Recorded(tum, below, path, typename, sels))
  {
    var key := Hash(path);
    SetOnce(below, key, typename);
    SetOnce(MergeEntries(acc, below), key, typename);
    MergeOnce(below[key := map[typename := [ID]]], key, typename);
    MergePut(acc, below, key, map[typename := [ID]]);
    assert TypesAt(acc, key) == map[];
  }

  /** The paths of the other fields do not start with the alias of the last one. */
  lemma FrontStarts(tum: TypeURLMap, sels: seq<Sel>, p: seq<string>)
    requires Parsed(sels) && DeeplyUnique(sels) && sels != []
    requires p in Injected(tum, sels[..|sels| - 1])
    ensures p != [] && NoDots(p) && p[0] != sels[|sels| - 1].alias
  {
    ParsedPrefix(sels);
    var front, f := sels[..|sels| - 1], sels[|sels| - 1];
    InjectedStarts(tum, front, p);
    var i :| 0 <= i < |front| && front[i].alias == p[0];
    assert sels[i] == front[i] && Key(sels[i]) != Key(f);
  }

  lemma LastStarts(tum: TypeURLMap, sels: seq<Sel>, q: seq<string>)
    requires Parsed(sels) && sels != [] && q in InjectedField(tum, sels[|sels| - 1])
    ensures q != [] && NoDots(q) && q[0] == sels[|sels| - 1].alias
  {
    InInjected(tum, sels, q);
    InjectedStarts(tum, sels, q);
  }

  /** Entries of different fields do not meet. */
  lemma NoMeeting(tum: TypeURLMap, sels: seq<Sel>, ip: seq<string>, p: seq<string>, q: seq<string>)
    requires Parsed(sels) && DeeplyUnique(sels) && sels != [] && NoDots(ip)
    requires p in Injected(tum, sels[..|sels| - 1]) && q in InjectedField(tum, sels[|sels| - 1])
    ensures Hash(ip + p) != Hash(ip + q)
  {
    FrontStarts(tum, sels, p);
    LastStarts(tum, sels, q);
    HashInjective(ip, p, q);
  }

  lemma FrontEntry(tum: TypeURLMap, sels: seq<Sel>, ip: seq<string>, acc: Entries, own: Entries, p: seq<string>)
    requires Parsed(sels) && DeeplyUnique(sels) && sels != [] && NoDots(ip)
    requires p in Injected(tum, sels[..|sels| - 1]) && EntryAt(ip + p, TypeAt("", sels[..|sels| - 1], p), acc)
    requires OnlyAt(InjectedField(tum, sels[|sels| - 1]), ip, own)
    ensures EntryAt(ip + p, TypeAt("", sels, p), MergeEntries(acc, own))
  {
    ParsedPrefix(sels);
    var front, f := sels[..|sels| - 1], sels[|sels| - 1];
    forall q | q in InjectedField(tum, f)
      ensures Hash(ip + p) != Hash(ip + q)
    {
      NoMeeting(tum, sels, ip, p, q);
    }
    assert Hash(ip + p) !in own;
    InjectedStarts(tum, front, p);
    AtUnique(sels, At(front, p[0]));
  }

  lemma LastEntry(tum: TypeURLMap, sels: seq<Sel>, ip: seq<string>, acc: Entries, own: Entries, q: seq<string>)
    requires Parsed(sels) && DeeplyUnique(sels) && sels != [] && NoDots(ip)
    requires sels[|sels| - 1].Field? && q != [] && q in InjectedField(tum, sels[|sels| - 1])
    requires var f := sels[|sels| - 1]; EntryAt(ip + q, TypeAt(f.typ.name, f.sub, q[1..]), own)
    requires OnlyAt(Injected(tum, sels[..|sels| - 1]), ip, acc)
    ensures EntryAt(ip + q, TypeAt("", sels, q), MergeEntries(acc, own))
  {
    var f := sels[|sels| - 1];
    forall p | p in Injected(tum, sels[..|sels| - 1])
      ensures Hash(ip + p) != Hash(ip + q)
    {
      NoMeeting(tum, sels, ip, p, q);
    }
    assert Hash(ip + q) !in acc;
    LastStarts(tum, sels, q);
    MergeOnce(own, Hash(ip + q), TypeAt(f.typ.name, f.sub, q[1..]));
    assert Key(f) == f.alias == q[0];
    AtUnique(sels, f);
  }

  lemma {:induction false} FieldsMerge(tum: TypeURLMap, sels: seq<Sel>, ip: seq<string>, acc: Entries, own: Entries)
    requires Parsed(sels) && DeeplyUnique(sels) && sels != [] && NoDots(ip) && sels[|sels| - 1].Field?
    requires Records(tum, sels[..|sels| - 1], ip, acc) && RecordsField(tum, sels[|sels| - 1], ip, own)
    ensures Records(tum, sels, ip, MergeEntries(acc, own))
  {
    var front, f := sels[..|sels| - 1], sels[|sels| - 1];
    var merged := MergeEntries(acc, own);
    assert OnlyAt(Injected(tum, sels), ip, merged);
    forall p | p in Injected(tum, sels)
      ensures EntryAt(ip + p, TypeAt("", sels, p), merged)
    {
      if p in Injected(tum, front) {
        FrontEntry(tum, sels, ip, acc, own, p);
      } else {
        LastEntry(tum, sels, ip, acc, own, p);
      }
    }
  }

  lemma {:induction false} SanitizeRecords(tum: TypeURLMap, sels: seq<Sel>, ip: seq<string>)
    requires Parsed(sels) && DeeplyUnique(sels) && Unshadowing(sels) && NoDots(ip)
    ensures Records(tum, sels, ip, Sanitize(tum, sels, ip).scrub)
    decreases sels
  {
    if sels != [] {
      ParsedPrefix(sels);
      UniquePrefix(sels);
      UnshadowingPrefix(sels);
      var front, f := sels[..|sels| - 1], sels[|sels| - 1];
      var acc := Sanitize(tum, front, ip).scrub;
      SanitizeRecords(tum, front, ip);
      if f.sub == [] {
        FieldsMerge(tum, sels, ip, acc, map[]);
        assert Sanitize(tum, sels, ip).scrub == acc;
        assert MergeEntries(acc, map[]) == acc;
      } else {
        var path := ip + [f.alias];
        var child := Sanitize(tum, f.sub, path);
        SanitizeRecords(tum, f.sub, path);
        NeedsIDIsLacks(tum, f, path);
        FieldRecorded(tum, f, ip, child.scrub);
        var own := Recorded(tum, child.scrub, path, f.typ.name, child.sels);
        PathIsNew(tum, sels, ip, acc);
        RecordedLate(tum, acc, child.scrub, path, f.typ.name, child.sels);
        FieldsMerge(tum, sels, ip, acc, own);
      }
    }
  }

  lemma {:induction false} PathIsNew(tum: TypeURLMap, sels: seq<Sel>, ip: seq<string>, acc: Entries)
    requires Parsed(sels) && DeeplyUnique(sels) && sels != [] && NoDots(ip)
    requires Records(tum, sels[..|sels| - 1], ip, acc)
    ensures Hash(ip + [sels[|sels| - 1].alias]) !in acc
  {
    var f := sels[|sels| - 1];
    forall p | p in Injected(tum, sels[..|sels| - 1])
      ensures Hash(ip + p) != Hash(ip + [f.alias])
    {
      FrontStarts(tum, sels, p);
      HashInjective(ip, p, [f.alias]);
    }
  }
}
