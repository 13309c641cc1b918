/** Sanitizing a query with inline fragments of object types: exactly when it is the query opened, with ids, and nothing is lost. */
module Opening {
  import opened Prelude
  import opened Schema
  import opened Selection
  import opened Scrubbing
  import opened Sanitizing
  import opened SanitizeProofs
  import opened Fragments
  import opened Asking

  /** The id asked of a selection on a Node type that has none. */
  function AddedID(tum: TypeURLMap, typename: string, sels: seq<Sel>): (ids: seq<Sel>)
    ensures AllFields(ids)
  {
    if Bare(tum, typename, sels) then [Field("", "id", [], TypeRef("id", false, true), [])] else []
  }

  /** The query as it is meant to be sent: every field as it was, fragments opened in place, ids where they are missing. */
  function Opened(tum: TypeURLMap, sels: seq<Sel>): (r: seq<Sel>)
    ensures AllFields(r)
    decreases sels
  {
    if sels == [] then [] else Opened(tum, sels[..|sels| - 1]) + OpenedOne(tum, sels[|sels| - 1])
  }

  function OpenedOne(tum: TypeURLMap, s: Sel): (r: seq<Sel>)
    ensures AllFields(r)
    decreases s, 0
  {
    match s
    case Field(alias, name, args, typ, sub) =>
      [Field(alias, name, args, typ, if sub == [] then [] else AddedID(tum, typ.name, sub) + Opened(tum, sub))]
    case Inline(cond, sub) => AddedID(tum, cond, sub) + Opened(tum, sub)
  }

  /** No alias is the name of a field that comes before it in the opened query, at any depth. */
  ghost predicate NoShadow(tum: TypeURLMap, sels: seq<Sel>)
    decreases sels
  {
    sels != [] ==>
      var front, last := sels[..|sels| - 1], sels[|sels| - 1];
      && NoShadow(tum, front)
      && NoShadow(tum, last.sub)
      && forall i :: 0 <= i < |OpenedOne(tum, last)| ==> !HasFieldNamed(Opened(tum, front), OpenedOne(tum, last)[i].alias)
  }

  lemma {:induction false} UnshadowedExact(result: seq<Sel>, more: seq<Sel>)
    requires AllFields(more)
    ensures AllFields(Unshadowed(result, more)) && |Unshadowed(result, more)| <= |more|
    ensures |Unshadowed(result, more)| == |more| <==> forall i :: 0 <= i < |more| ==> !HasFieldNamed(result, more[i].alias)
    ensures |Unshadowed(result, more)| == |more| ==> Unshadowed(result, more) == more
  {
    if more != [] {
      UnshadowedExact(result, more[..|more| - 1]);
      assert forall i :: 0 <= i < |more| - 1 ==> more[..|more| - 1][i] == more[i];
    }
  }

  /** Two lists cut in the same way. */
  lemma SameParts<T>(a: seq<T>, b: seq<T>, c: seq<T>, d: seq<T>)
    requires |a| <= |c| && |b| <= |d|
    ensures a + b == c + d <==> a == c && b == d
  {
    if a + b == c + d {
      assert a == (a + b)[..|a|] == (c + d)[..|c|] == c;
      assert b == (a + b)[|a|..] == (c + d)[|c|..] == d;
    }
  }

  lemma {:induction false} SanitizedSnoc(tum: TypeURLMap, sels: seq<Sel>, ip: seq<string>)
    requires sels != []
    ensures var acc := Sanitize(tum, sels[..|sels| - 1], ip).sels;
            Sanitize(tum, sels, ip).sels == acc + Unshadowed(acc, MoreOf(tum, sels[|sels| - 1], ip))
  {
    assert Sanitize(tum, sels, ip) == SanitizeNext(tum, sels, ip, Sanitize(tum, sels[..|sels| - 1], ip));
  }

  lemma {:induction false} MoreIs(tum: TypeURLMap, s: Sel, ip: seq<string>)
    requires Named(s.sub)
    ensures MoreOf(tum, s, ip) ==
            match s
            case Field(alias, name, args, typ, sub) =>
              [Field(alias, name, args, typ, if sub == [] then [] else AddedID(tum, typ.name, sub) + Sanitize(tum, sub, ip + [alias]).sels)]
            case Inline(cond, sub) => AddedID(tum, cond, sub) + Sanitize(tum, sub, ip).sels
  {
    assert ID_FIELD == Field("", "id", [], TypeRef("id", false, true), []);
    match s
    case Field(alias, _, _, typ, sub) =>
      NeedsIDIsBare(tum, typ.name, sub, ip + [alias]);
      assert [] + Sanitize(tum, sub, ip + [alias]).sels == Sanitize(tum, sub, ip + [alias]).sels;
    case Inline(cond, sub) =>
      NeedsIDIsBare(tum, cond, sub, ip);
      assert [] + Sanitize(tum, sub, ip).sels == Sanitize(tum, sub, ip).sels;
  }

  /**
   * Sanitizing gives the opened query with ids exactly when no alias is the name of an earlier field of it; otherwise some
   * field is dropped.
   */
  lemma {:induction false} OpenedExact(tum: TypeURLMap, sels: seq<Sel>, ip: seq<string>)
    requires Named(sels)
    ensures AllFields(Sanitize(tum, sels, ip).sels) && |Sanitize(tum, sels, ip).sels| <= |Opened(tum, sels)|
    ensures Sanitize(tum, sels, ip).sels == Opened(tum, sels) <==> NoShadow(tum, sels)
    decreases sels
  {
    if sels != [] {
      NamedSnoc(sels);
      var front, last := sels[..|sels| - 1], sels[|sels| - 1];
      OpenedExact(tum, front, ip);
      MoreExact(tum, last, ip);
      var acc, more := Sanitize(tum, front, ip).sels, MoreOf(tum, last, ip);
      SanitizedSnoc(tum, sels, ip);
      UnshadowedExact(acc, more);
      SameParts(acc, Unshadowed(acc, more), Opened(tum, front), OpenedOne(tum, last));
    }
  }

  lemma {:induction false} MoreExact(tum: TypeURLMap, s: Sel, ip: seq<string>)
    requires Named(s.sub)
    ensures AllFields(MoreOf(tum, s, ip)) && |MoreOf(tum, s, ip)| <= |OpenedOne(tum, s)|
    ensures MoreOf(tum, s, ip) == OpenedOne(tum, s) <==> NoShadow(tum, s.sub)
    decreases s, 0
  {
    MoreIs(tum, s, ip);
    match s
    case Field(alias, _, _, typ, sub) =>
      OpenedExact(tum, sub, ip + [alias]);
      SameParts(AddedID(tum, typ.name, sub), Sanitize(tum, sub, ip + [alias]).sels, AddedID(tum, typ.name, sub), Opened(tum, sub));
      assert MoreOf(tum, s, ip) == OpenedOne(tum, s) <==> MoreOf(tum, s, ip)[0] == OpenedOne(tum, s)[0];
    case Inline(cond, sub) =>
      OpenedExact(tum, sub, ip);
      SameParts(AddedID(tum, cond, sub), Sanitize(tum, sub, ip).sels, AddedID(tum, cond, sub), Opened(tum, sub));
  }

  /** No fragment is empty, as the grammar has it. */
  ghost predicate Filled(sels: seq<Sel>)
    decreases sels
  {
    forall i :: 0 <= i < |sels| ==> (sels[i].Inline? ==> sels[i].sub != []) && Filled(sels[i].sub)
  }

  function IDAsked(path: seq<string>): Ask {
    Ask(path + ["id"], "", "id", [], TypeRef("id", false, true), true)
  }

  function AddedHere(tum: TypeURLMap, path: seq<string>, typename: string, sels: seq<Sel>): multiset<Ask> {
    if Bare(tum, typename, sels) then multiset{IDAsked(path)} else multiset{}
  }

  /** The ids added to a query: one for each field or fragment on a Node type that has none among its selections. */
  function Added(tum: TypeURLMap, path: seq<string>, sels: seq<Sel>): multiset<Ask>
    decreases sels
  {
    if sels == [] then multiset{} else Added(tum, path, sels[..|sels| - 1]) + AddedOne(tum, path, sels[|sels| - 1])
  }

  function AddedOne(tum: TypeURLMap, path: seq<string>, s: Sel): multiset<Ask>
    decreases s, 0
  {
    match s
    case Field(alias, name, _, typ, sub) =>
      var at := path + [if alias != "" then alias else name];
      if sub == [] then multiset{} else AddedHere(tum, at, typ.name, sub) + Added(tum, at, sub)
    case Inline(cond, sub) => AddedHere(tum, path, cond, sub) + Added(tum, path, sub)
  }

  lemma {:induction false} AddedIDAsks(tum: TypeURLMap, path: seq<string>, typename: string, sels: seq<Sel>)
    ensures Asks(path, AddedID(tum, typename, sels)) == AddedHere(tum, path, typename, sels)
  {
    var id := Field("", "id", [], TypeRef("id", false, true), []);
    AsksOne(path, id);
    assert AsksOf(path, id) == multiset{IDAsked(path)};
  }

  lemma FilledSnoc(sels: seq<Sel>)
    requires Filled(sels) && sels != []
    ensures Filled(sels[..|sels| - 1]) && Filled(sels[|sels| - 1].sub) && (sels[|sels| - 1].Inline? ==> sels[|sels| - 1].sub != [])
  {
    var front := sels[..|sels| - 1];
    assert forall i :: 0 <= i < |front| ==> front[i] == sels[i];
  }

  lemma Shuffle(a: multiset<Ask>, b: multiset<Ask>, c: multiset<Ask>, d: multiset<Ask>)
    ensures (a + b) + (c + d) == (a + c) + (b + d)
  {
  }

  /** The opened query asks what the query asks, with all arguments, and the added ids. */
  lemma {:induction false} OpenedAsks(tum: TypeURLMap, path: seq<string>, sels: seq<Sel>)
    requires Filled(sels)
    ensures Asks(path, Opened(tum, sels)) == Asks(path, sels) + Added(tum, path, sels)
    ensures sels != [] ==> Opened(tum, sels) != []
    decreases sels
  {
    if sels != [] {
      FilledSnoc(sels);
      var front, last := sels[..|sels| - 1], sels[|sels| - 1];
      OpenedAsks(tum, path, front);
      OneAsks(tum, path, last);
      AsksAppend(path, Opened(tum, front), OpenedOne(tum, last));
      Shuffle(Asks(path, front), Added(tum, path, front), AsksOf(path, last), AddedOne(tum, path, last));
    }
  }

  lemma {:induction false} OneAsks(tum: TypeURLMap, path: seq<string>, s: Sel)
    requires Filled(s.sub) && (s.Inline? ==> s.sub != [])
    ensures Asks(path, OpenedOne(tum, s)) == AsksOf(path, s) + AddedOne(tum, path, s)
    ensures OpenedOne(tum, s) != []
    decreases s, 0
  {
    match s
    case Field(alias, name, args, typ, sub) =>
      var at := path + [if alias != "" then alias else name];
      if sub == [] {
        AsksOne(path, s);
      } else {
        OpenedAsks(tum, at, sub);
        WithAdded(tum, at, typ.name, sub);
        FieldAsks(path, s, AddedID(tum, typ.name, sub) + Opened(tum, sub), AddedHere(tum, at, typ.name, sub) + Added(tum, at, sub));
      }
    case Inline(cond, sub) =>
      OpenedAsks(tum, path, sub);
      WithAdded(tum, path, cond, sub);
  }

  /** A field that asks for more below it asks for that more. */
  lemma {:induction false} FieldAsks(path: seq<string>, f: Sel, full: seq<Sel>, more: multiset<Ask>)
    requires f.Field? && f.sub != [] && full != []
    requires var at := path + [if f.alias != "" then f.alias else f.name]; Asks(at, full) == Asks(at, f.sub) + more
    ensures Asks(path, [Field(f.alias, f.name, f.args, f.typ, full)]) == AsksOf(path, f) + more
  {
    AsksOne(path, Field(f.alias, f.name, f.args, f.typ, full));
  }

  lemma {:induction false} WithAdded(tum: TypeURLMap, path: seq<string>, typename: string, sels: seq<Sel>)
    requires Asks(path, Opened(tum, sels)) == Asks(path, sels) + Added(tum, path, sels)
    ensures Asks(path, AddedID(tum, typename, sels) + Opened(tum, sels))
            == Asks(path, sels) + (AddedHere(tum, path, typename, sels) + Added(tum, path, sels))
  {
    AddedIDAsks(tum, path, typename, sels);
    AsksAppend(path, AddedID(tum, typename, sels), Opened(tum, sels));
    Shuffle(multiset{}, AddedHere(tum, path, typename, sels), Asks(path, sels), Added(tum, path, sels));
  }

  lemma PartsEqual(a: multiset<Ask>, b: multiset<Ask>, c: multiset<Ask>, d: multiset<Ask>)
    requires a <= c && b <= d
    ensures a + b <= c + d
    ensures a + b == c + d ==> a == c && b == d
  {
    if a + b == c + d {
      forall x
        ensures a[x] == c[x] && b[x] == d[x]
      {
        assert (a + b)[x] == (c + d)[x];
      }
    }
  }

  lemma {:induction false} SomethingAsked(path: seq<string>, f: Sel)
    requires f.Field?
    ensures AsksOf(path, f) != multiset{}
  {
    var at := path + [if f.alias != "" then f.alias else f.name];
    assert Ask(at, f.alias, f.name, f.args, f.typ, f.sub == []) in AsksOf(path, f);
  }

  lemma Dropped(a: multiset<Ask>, b: multiset<Ask>, c: multiset<Ask>)
    requires a <= b && c != multiset{}
    ensures a <= b + c && a != b + c
  {
    var x :| x in c;
    assert (b + c)[x] > b[x] >= a[x];
  }

  lemma {:induction false} KeptAsks(path: seq<string>, kept: seq<Sel>, front: seq<Sel>, last: Sel)
    requires Asks(path, kept) <= Asks(path, front) && (Asks(path, kept) == Asks(path, front) ==> kept == front)
    ensures Asks(path, kept + [last]) <= Asks(path, front + [last])
    ensures Asks(path, kept + [last]) == Asks(path, front + [last]) ==> kept == front
  {
    AsksSnoc(path, kept, last);
    AsksSnoc(path, front, last);
    PartsEqual(Asks(path, kept), AsksOf(path, last), Asks(path, front), AsksOf(path, last));
  }

  /** What is dropped was asked. */
  lemma {:induction false} UnshadowedAsks(path: seq<string>, result: seq<Sel>, more: seq<Sel>)
    requires AllFields(more)
    ensures Asks(path, Unshadowed(result, more)) <= Asks(path, more)
    ensures Asks(path, Unshadowed(result, more)) == Asks(path, more) ==> Unshadowed(result, more) == more
  {
    if more != [] {
      var front, last := more[..|more| - 1], more[|more| - 1];
      UnshadowedAsks(path, result, front);
      var kept := Unshadowed(result, front);
      assert more == front + [last];
      AsksSnoc(path, front, last);
      if HasFieldNamed(result, last.alias) {
        assert Unshadowed(result, more) == kept;
        SomethingAsked(path, last);
        Dropped(Asks(path, kept), Asks(path, front), AsksOf(path, last));
      } else {
        assert Unshadowed(result, more) == kept + [last];
        KeptAsks(path, kept, front, last);
      }
    }
  }

  /** Sanitizing never asks for more than the opened query, and for less unless it is the opened query. */
  ghost predicate Within(path: seq<string>, sanitized: seq<Sel>, full: seq<Sel>) {
    && Asks(path, sanitized) <= Asks(path, full)
    && (Asks(path, sanitized) == Asks(path, full) ==> sanitized == full)
    && (full != [] ==> sanitized != [])
  }

  lemma {:induction false} WithinSnoc(path: seq<string>, acc: seq<Sel>, more: seq<Sel>, full: seq<Sel>, one: seq<Sel>)
    requires Within(path, acc, full) && Within(path, more, one) && AllFields(more)
    requires full == [] ==> acc == []
    ensures Within(path, acc + Unshadowed(acc, more), full + one)
  {
    var kept := Unshadowed(acc, more);
    UnshadowedAsks(path, acc, more);
    AsksAppend(path, acc, kept);
    AsksAppend(path, full, one);
    PartsEqual(Asks(path, acc), Asks(path, kept), Asks(path, full), Asks(path, one));
    if acc == [] {
      UnshadowedExact([], more);
    }
  }

  lemma {:induction false} WithinAdded(path: seq<string>, ids: seq<Sel>, sanitized: seq<Sel>, full: seq<Sel>)
    requires Within(path, sanitized, full)
    ensures Within(path, ids + sanitized, ids + full)
  {
    AsksAppend(path, ids, sanitized);
    AsksAppend(path, ids, full);
    PartsEqual(Asks(path, ids), Asks(path, sanitized), Asks(path, ids), Asks(path, full));
  }

  lemma {:induction false} WithinField(path: seq<string>, f: Sel, sanitized: seq<Sel>, full: seq<Sel>)
    requires f.Field? && full != []
    requires var at := path + [if f.alias != "" then f.alias else f.name]; Within(at, sanitized, full)
    ensures Within(path, [Field(f.alias, f.name, f.args, f.typ, sanitized)], [Field(f.alias, f.name, f.args, f.typ, full)])
  {
    var at := path + [if f.alias != "" then f.alias else f.name];
    var a, b := Field(f.alias, f.name, f.args, f.typ, sanitized), Field(f.alias, f.name, f.args, f.typ, full);
    AsksOne(path, a);
    AsksOne(path, b);
    var here := multiset{Ask(at, f.alias, f.name, f.args, f.typ, false)};
    assert AsksOf(path, a) == here + Asks(at, sanitized) && AsksOf(path, b) == here + Asks(at, full);
    PartsEqual(here, Asks(at, sanitized), here, Asks(at, full));
  }

  lemma {:induction false} SanitizedWithin(tum: TypeURLMap, path: seq<string>, sels: seq<Sel>, ip: seq<string>)
    requires Named(sels) && Filled(sels)
    ensures Within(path, Sanitize(tum, sels, ip).sels, Opened(tum, sels))
    decreases sels
  {
    if sels != [] {
      NamedSnoc(sels);
      FilledSnoc(sels);
      var front, last := sels[..|sels| - 1], sels[|sels| - 1];
      SanitizedWithin(tum, path, front, ip);
      MoreWithin(tum, path, last, ip);
      SanitizedSnoc(tum, sels, ip);
      MoreExact(tum, last, ip);
      OpenedExact(tum, front, ip);
      WithinSnoc(path, Sanitize(tum, front, ip).sels, MoreOf(tum, last, ip), Opened(tum, front), OpenedOne(tum, last));
    }
  }

  lemma {:induction false} MoreWithin(tum: TypeURLMap, path: seq<string>, s: Sel, ip: seq<string>)
    requires Named(s.sub) && Filled(s.sub) && (s.Inline? ==> s.sub != [])
    ensures Within(path, MoreOf(tum, s, ip), OpenedOne(tum, s))
    decreases s, 0
  {
    MoreIs(tum, s, ip);
    match s
    case Field(alias, name, args, typ, sub) =>
      if sub != [] {
        var at := path + [if alias != "" then alias else name];
        SanitizedWithin(tum, at, sub, ip + [alias]);
        OpenedAsks(tum, at, sub);
        WithinAdded(at, AddedID(tum, typ.name, sub), Sanitize(tum, sub, ip + [alias]).sels, Opened(tum, sub));
        WithinField(path, s, AddedID(tum, typ.name, sub) + Sanitize(tum, sub, ip + [alias]).sels, AddedID(tum, typ.name, sub) + Opened(tum, sub));
      }
    case Inline(cond, sub) =>
      SanitizedWithin(tum, path, sub, ip);
      WithinAdded(path, AddedID(tum, cond, sub), Sanitize(tum, sub, ip).sels, Opened(tum, sub));
  }

  /**
   * What the sanitized query asks: never more than the query with all its arguments and the added ids, and all of it if
   * and only if no alias is the name of an earlier field of the opened query.
   */
  lemma {:induction false} SanitizedAsks(tum: TypeURLMap, sels: seq<Sel>)
    requires Named(sels) && Filled(sels)
    ensures var all := Asks([], sels) + Added(tum, [], sels);
            && Asks([], Sanitize(tum, sels, []).sels) <= all
            && (Asks([], Sanitize(tum, sels, []).sels) == all <==> NoShadow(tum, sels))
  {
    OpenedAsks(tum, [], sels);
    OpenedExact(tum, sels, []);
    SanitizedWithin(tum, [], sels, []);
  }

  ghost predicate AddedAt(tum: TypeURLMap, path: seq<string>, sels: seq<Sel>, x: Ask) {
    exists p, t :: Lacks(tum, sels, p, t) && x == IDAsked(path + p)
  }

  ghost predicate AddedAtOne(tum: TypeURLMap, path: seq<string>, s: Sel, x: Ask) {
    exists p, t :: LacksOne(tum, s, p, t) && x == IDAsked(path + p)
  }

  lemma {:induction false} AddedSnoc(tum: TypeURLMap, path: seq<string>, sels: seq<Sel>, x: Ask)
    requires sels != []
    ensures AddedAt(tum, path, sels, x) <==> AddedAt(tum, path, sels[..|sels| - 1], x) || AddedAtOne(tum, path, sels[|sels| - 1], x)
  {
    var front, last := sels[..|sels| - 1], sels[|sels| - 1];
    if AddedAt(tum, path, sels, x) {
      var p, t :| Lacks(tum, sels, p, t) && x == IDAsked(path + p);
      LacksSnoc(tum, sels, p, t);
    }
    if AddedAt(tum, path, front, x) {
      var p, t :| Lacks(tum, front, p, t) && x == IDAsked(path + p);
      LacksSnoc(tum, sels, p, t);
    }
    if AddedAtOne(tum, path, last, x) {
      var p, t :| LacksOne(tum, last, p, t) && x == IDAsked(path + p);
      LacksSnoc(tum, sels, p, t);
    }
  }

  /** The ids added are those of the record: at every path at which some field or fragment lacks an id, and nowhere else. */
  lemma {:induction false} AddedExact(tum: TypeURLMap, path: seq<string>, sels: seq<Sel>, x: Ask)
    requires Named(sels)
    ensures x in Added(tum, path, sels) <==> AddedAt(tum, path, sels, x)
    decreases sels
  {
    if sels != [] {
      NamedSnoc(sels);
      var front, last := sels[..|sels| - 1], sels[|sels| - 1];
      AddedExact(tum, path, front, x);
      AddedOneExact(tum, path, last, x);
      AddedSnoc(tum, path, sels, x);
    }
  }

  lemma {:induction false} AddedOneExact(tum: TypeURLMap, path: seq<string>, s: Sel, x: Ask)
    requires Named(s.sub) && (s.Field? ==> NamedField(s))
    ensures x in AddedOne(tum, path, s) <==> AddedAtOne(tum, path, s, x)
    decreases s, 0
  {
    match s
    case Field(alias, name, args, typ, sub) =>
      if sub != [] {
        AddedExact(tum, path + [alias], sub, x);
        FieldAdds(tum, path, s, x);
      }
    case Inline(cond, sub) =>
      AddedExact(tum, path, sub, x);
      FragmentAdds(tum, path, s, x);
  }

  lemma {:induction false} FieldAdds(tum: TypeURLMap, path: seq<string>, s: Sel, x: Ask)
    requires s.Field? && s.sub != []
    ensures AddedAtOne(tum, path, s, x) <==>
            (Bare(tum, s.typ.name, s.sub) && x == IDAsked(path + [s.alias])) || AddedAt(tum, path + [s.alias], s.sub, x)
  {
    if AddedAtOne(tum, path, s, x) {
      var p, t :| LacksOne(tum, s, p, t) && x == IDAsked(path + p);
      assert p == [s.alias] + p[1..];
      Regroup(path, [s.alias], p[1..]);
      if !Lacks(tum, s.sub, p[1..], t) {
        assert p == [s.alias];
      }
    }
    if Bare(tum, s.typ.name, s.sub) && x == IDAsked(path + [s.alias]) {
      assert LacksOne(tum, s, [s.alias], s.typ.name);
    }
    if AddedAt(tum, path + [s.alias], s.sub, x) {
      var p, t :| Lacks(tum, s.sub, p, t) && x == IDAsked(path + [s.alias] + p);
      Regroup(path, [s.alias], p);
      assert ([s.alias] + p)[1..] == p;
      assert LacksOne(tum, s, [s.alias] + p, t);
    }
  }

  lemma {:induction false} FragmentAdds(tum: TypeURLMap, path: seq<string>, s: Sel, x: Ask)
    requires s.Inline?
    ensures AddedAtOne(tum, path, s, x) <==> (Bare(tum, s.cond, s.sub) && x == IDAsked(path)) || AddedAt(tum, path, s.sub, x)
  {
    assert path + [] == path;
    if AddedAtOne(tum, path, s, x) {
      var p, t :| LacksOne(tum, s, p, t) && x == IDAsked(path + p);
      assert Lacks(tum, s.sub, p, t) || (p == [] && Bare(tum, s.cond, s.sub));
    }
    if Bare(tum, s.cond, s.sub) && x == IDAsked(path) {
      assert LacksOne(tum, s, [], s.cond);
    }
    if AddedAt(tum, path, s.sub, x) {
      var p, t :| Lacks(tum, s.sub, p, t) && x == IDAsked(path + p);
      assert LacksOne(tum, s, p, t);
    }
  }
}
