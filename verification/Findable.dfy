/**
 * When the deep search of FindSelection finds the field it is meant to find in a planned step.
 * The search goes through a selection in pre-order, so a key that occurs below an earlier sibling hides the same key
 * further on; it is right exactly when nothing is hidden.
 * What a planned step hides is a matter of the query it was made from.
 */
module Findable {
  import opened Prelude
  import opened Schema
  import opened Selection
  import opened Planner
  import opened Division
  import opened InsertionPoints

  /** All response keys of a selection set, at every depth. */
  function DeepKeys(sels: seq<Sel>): set<string>
    decreases sels
  {
    if sels == [] then {}
    else
      var last := sels[|sels| - 1];
      DeepKeys(sels[..|sels| - 1]) + (if last.Field? then {Key(last)} else {}) + DeepKeys(last.sub)
  }

  /** A key that occurs nowhere below the fields of a set. */
  ghost predicate NotBelow(key: string, sels: seq<Sel>) {
    forall i :: 0 <= i < |sels| ==> key !in DeepKeys(sels[i].sub)
  }

  lemma NotBelowSnoc(key: string, sels: seq<Sel>, f: Sel)
    requires NotBelow(key, sels) && key !in DeepKeys(f.sub)
    ensures NotBelow(key, sels + [f])
  {
  }

  /** No key under which objects are stitched is shadowed: it occurs nowhere below an earlier sibling. */
  ghost predicate Clear(sels: seq<Sel>)
    decreases sels
  {
    && (forall i, j :: 0 <= i < j < |sels| && sels[j].Field? && sels[j].sub != [] ==> Key(sels[j]) !in DeepKeys(sels[i].sub))
    && (forall i :: 0 <= i < |sels| ==> Clear(sels[i].sub))
  }

  /** What a step asks of its object: under a node query, no composite field has the key of the query's own field. */
  ghost predicate ClearStep(typename: string, sels: seq<Sel>) {
    && Clear(sels)
    && (!IsRoot(typename) ==> forall i :: 0 <= i < |sels| && sels[i].Field? && sels[i].sub != [] ==> Key(sels[i]) != NODE)
  }

  /** Within each step of a selection, answered at location, no key under which objects are stitched is shadowed. */
  ghost predicate Unhidden(ctx: Context, typename: string, sels: seq<Sel>, location: string)
    decreases sels
  {
    && Clear(Local(ctx, typename, sels, location))
    && (forall url :: url != location ==>
          ClearStep(typename, Local(ctx, typename, Group(ctx.tum, typename, sels, location, url), url)))
    && (forall i :: 0 <= i < |sels| && sels[i].Field? && sels[i].sub != [] ==>
          Unhidden(ctx, sels[i].typ.name, sels[i].sub, Where(ctx.tum, typename, sels[i].name, location)))
  }

  lemma {:induction false} DeepKeysAppend(a: seq<Sel>, b: seq<Sel>)
    ensures DeepKeys(a + b) == DeepKeys(a) + DeepKeys(b)
  {
    if b == [] {
      assert a + b == a;
    } else {
      assert (a + b)[..|a + b| - 1] == a + b[..|b| - 1];
      DeepKeysAppend(a, b[..|b| - 1]);
    }
  }

  lemma {:induction false} DeepKeysOfFields(sels: seq<Sel>)
    ensures DeepKeys(ToFields(sels)) == DeepKeys(sels)
    decreases Size(sels)
  {
    if sels != [] {
      var front, last := sels[..|sels| - 1], sels[|sels| - 1];
      DeepKeysOfFields(front);
      if last.Field? {
        DeepKeysAppend(ToFields(front), [last]);
        assert [last][..0] == [];
      } else {
        DeepKeysOfFields(last.sub);
        DeepKeysAppend(ToFields(front), ToFields(last.sub));
      }
    }
  }

  /** The search fails exactly on the keys that occur nowhere. */
  lemma {:induction false} SearchMisses(key: string, sels: seq<Sel>)
    ensures FindSelection(key, sels).None? <==> key !in DeepKeys(sels)
    decreases Size(sels), 1
  {
    FieldsAreSmaller(sels);
    DeepKeysOfFields(sels);
    SearchMissesAmong(key, ToFields(sels));
  }

  lemma {:induction false} SearchMissesAmong(key: string, fields: seq<Sel>)
    requires AllFields(fields)
    ensures FindAmong(key, fields).None? <==> key !in DeepKeys(fields)
    decreases Size(fields), 0
  {
    if fields != [] {
      FrontSize(fields);
      DeepKeysAppend([fields[0]], fields[1..]);
      assert [fields[0]] + fields[1..] == fields && [fields[0]][..0] == [];
      SearchMisses(key, fields[0].sub);
      SearchMissesAmong(key, fields[1..]);
    }
  }

  /** With distinct keys per selection set, the search finds a field itself when no earlier sibling hides its key below. */
  lemma {:induction false} SearchFinds(fields: seq<Sel>, n: nat)
    requires UniqueKeys(fields) && n < |fields|
    requires forall i :: 0 <= i < n ==> Key(fields[n]) !in DeepKeys(fields[i].sub)
    ensures FindAmong(Key(fields[n]), fields) == Some(fields[n])
    decreases n
  {
    if n > 0 {
      SearchMisses(Key(fields[n]), fields[0].sub);
      SearchFinds(fields[1..], n - 1);
    }
  }

  /**
   * ... and only then: when an earlier sibling hides the key, the search returns a field from inside that sibling,
   * whatever its type and selection are.
   */
  lemma {:induction false} SearchMisled(fields: seq<Sel>, n: nat, k: nat)
    requires UniqueKeys(fields) && k < n < |fields|
    requires Key(fields[n]) in DeepKeys(fields[k].sub)
    requires forall i :: 0 <= i < k ==> Key(fields[n]) !in DeepKeys(fields[i].sub)
    ensures FindAmong(Key(fields[n]), fields) == FindSelection(Key(fields[n]), fields[k].sub)
    ensures FindAmong(Key(fields[n]), fields).Some?
    decreases k
  {
    SearchMisses(Key(fields[n]), fields[0].sub);
    if k > 0 {
      SearchMisled(fields[1..], n - 1, k - 1);
    }
  }

  lemma {:induction false} FindDirect(sels: seq<Sel>, f: Sel)
    requires UniqueKeys(sels) && Clear(sels) && f in sels && f.sub != []
    ensures FindSelection(Key(f), sels) == Some(f)
  {
    ToFieldsOfFields(sels);
    var n :| 0 <= n < |sels| && sels[n] == f;
    SearchFinds(sels, n);
  }

  /** The same under the node query of a step. */
  lemma {:induction false} FindInSent(typename: string, sels: seq<Sel>, f: Sel)
    requires UniqueKeys(sels) && ClearStep(typename, sels) && f in sels && f.sub != []
    ensures FindSelection(Key(f), Sent(typename, sels)) == Some(f)
  {
    FindDirect(sels, f);
    if !IsRoot(typename) {
      var n :| 0 <= n < |sels| && sels[n] == f;
      assert Key(sels[n]) != NODE;
      FindUnderNode(typename, sels, Key(f));
    }
  }

  lemma {:induction false} FindUnderNode(typename: string, sels: seq<Sel>, key: string)
    requires key != NODE && FindSelection(key, sels).Some?
    ensures FindSelection(key, NodeQuery(typename, sels)) == FindSelection(key, sels)
  {
    var inner := [Inline(typename, sels)];
    var outer := NodeQuery(typename, sels);
    assert inner[..0] == [] && outer[..0] == [];
    assert ToFields(inner) == ToFields(sels);
    assert ToFields(outer) == outer;
    assert FindSelection(key, inner) == FindSelection(key, sels);
    assert FindAmong(key, outer) == FindSelection(key, outer[0].sub);
  }

  /** What stays at a location has no keys that were not there. */
  lemma {:induction false} DeepKeysLocal(ctx: Context, typename: string, sels: seq<Sel>, location: string)
    ensures DeepKeys(Local(ctx, typename, sels, location)) <= DeepKeys(sels)
    decreases sels
  {
    if sels != [] {
      var front, last := sels[..|sels| - 1], sels[|sels| - 1];
      var before := Local(ctx, typename, front, location);
      DeepKeysLocal(ctx, typename, front, location);
      if last.Field? && Where(ctx.tum, typename, last.name, location) == location {
        DeepKeysLocal(ctx, last.typ.name, last.sub, location);
        var kept := WithSub(last, Local(ctx, last.typ.name, last.sub, location));
        DeepKeysAppend(before, [kept]);
        assert [kept][..0] == [];
      } else {
        assert Local(ctx, typename, sels, location) == before;
      }
    }
  }

  /** What stays at a location, and what goes to a service, hides nothing that was not hidden before. */
  lemma {:induction false} ClearLocal(ctx: Context, typename: string, sels: seq<Sel>, location: string)
    requires Clear(sels)
    ensures Clear(Local(ctx, typename, sels, location))
    decreases sels
  {
    if sels != [] {
      var front, last := sels[..|sels| - 1], sels[|sels| - 1];
      ClearFront(sels);
      ClearLocal(ctx, typename, front, location);
      if last.Field? && Where(ctx.tum, typename, last.name, location) == location {
        ClearLocal(ctx, last.typ.name, last.sub, location);
        var kept := WithSub(last, Local(ctx, last.typ.name, last.sub, location));
        assert last.sub == [] ==> kept.sub == [];
        if last.sub != [] {
          KeptBelow(ctx, typename, front, location, Key(last));
        }
        ClearSnoc(Local(ctx, typename, front, location), kept);
      } else {
        assert Local(ctx, typename, sels, location) == Local(ctx, typename, front, location);
      }
    }
  }

  lemma ClearFront(sels: seq<Sel>)
    requires Clear(sels) && sels != []
    ensures Clear(sels[..|sels| - 1])
    ensures Clear(sels[|sels| - 1].sub)
  {
  }

  lemma {:induction false} ClearSnoc(sels: seq<Sel>, f: Sel)
    requires Clear(sels) && f.Field? && Clear(f.sub)
    requires f.sub != [] ==> NotBelow(Key(f), sels)
    ensures Clear(sels + [f])
  {
  }

  /** What was not below some fields is not below what is kept of them. */
  lemma {:induction false} KeptBelow(ctx: Context, typename: string, sels: seq<Sel>, location: string, key: string)
    requires NotBelow(key, sels)
    ensures NotBelow(key, Local(ctx, typename, sels, location))
  {
    if sels != [] {
      var front, f := sels[..|sels| - 1], sels[|sels| - 1];
      var before := Local(ctx, typename, front, location);
      KeptBelow(ctx, typename, front, location, key);
      if f.Field? && Where(ctx.tum, typename, f.name, location) == location {
        DeepKeysLocal(ctx, f.typ.name, f.sub, location);
        NotBelowSnoc(key, before, WithSub(f, Local(ctx, f.typ.name, f.sub, location)));
      } else {
        assert Local(ctx, typename, sels, location) == before;
      }
    }
  }

  lemma {:induction false} ClearGroup(tum: TypeURLMap, typename: string, sels: seq<Sel>, location: string, url: string)
    requires Clear(sels)
    ensures Clear(Group(tum, typename, sels, location, url))
  {
    if sels != [] {
      var front, last := sels[..|sels| - 1], sels[|sels| - 1];
      ClearFront(sels);
      ClearGroup(tum, typename, front, location, url);
      var group := Group(tum, typename, front, location, url);
      if last.Field? && Where(tum, typename, last.name, location) == url {
        forall i | 0 <= i < |group| && last.sub != []
          ensures Key(last) !in DeepKeys(group[i].sub)
        {
          assert group[i] in group;
          var j :| 0 <= j < |front| && front[j] == group[i];
          assert sels[j] == group[i];
        }
        ClearSnoc(group, last);
      }
    }
  }

  /** The keys of a field, and those below it, are keys of its set. */
  lemma {:induction false} InDeepKeys(sels: seq<Sel>, i: nat)
    requires i < |sels|
    ensures DeepKeys(sels[i].sub) <= DeepKeys(sels)
    ensures sels[i].Field? ==> Key(sels[i]) in DeepKeys(sels)
  {
    if i < |sels| - 1 {
      InDeepKeys(sels[..|sels| - 1], i);
    }
  }

  lemma {:induction false} DeepKeysGroup(tum: TypeURLMap, typename: string, sels: seq<Sel>, location: string, url: string)
    ensures DeepKeys(Group(tum, typename, sels, location, url)) <= DeepKeys(sels)
  {
    if sels != [] {
      var front, last := sels[..|sels| - 1], sels[|sels| - 1];
      var group := Group(tum, typename, front, location, url);
      DeepKeysGroup(tum, typename, front, location, url);
      DeepKeysAppend(group, [last]);
      assert [last][..0] == [];
    }
  }

  /** Keys that are not shadowed in the whole selection are not shadowed in any of its steps. */
  lemma {:induction false} ClearIsUnhidden(ctx: Context, typename: string, sels: seq<Sel>, location: string)
    requires Clear(sels) && NODE !in DeepKeys(sels)
    ensures Unhidden(ctx, typename, sels, location)
    decreases sels
  {
    ClearLocal(ctx, typename, sels, location);
    forall url | url != location
      ensures ClearStep(typename, Local(ctx, typename, Group(ctx.tum, typename, sels, location, url), url))
    {
      var group := Group(ctx.tum, typename, sels, location, url);
      ClearGroup(ctx.tum, typename, sels, location, url);
      ClearLocal(ctx, typename, group, url);
      DeepKeysGroup(ctx.tum, typename, sels, location, url);
      DeepKeysLocal(ctx, typename, group, url);
      NoNodeKey(Local(ctx, typename, group, url));
    }
    forall i | 0 <= i < |sels| && sels[i].Field? && sels[i].sub != []
      ensures Unhidden(ctx, sels[i].typ.name, sels[i].sub, Where(ctx.tum, typename, sels[i].name, location))
    {
      InDeepKeys(sels, i);
      ClearIsUnhidden(ctx, sels[i].typ.name, sels[i].sub, Where(ctx.tum, typename, sels[i].name, location));
    }
  }

  lemma {:induction false} NoNodeKey(sels: seq<Sel>)
    requires NODE !in DeepKeys(sels)
    ensures forall i :: 0 <= i < |sels| && sels[i].Field? ==> Key(sels[i]) != NODE
  {
    forall i | 0 <= i < |sels| && sels[i].Field?
      ensures Key(sels[i]) != NODE
    {
      InDeepKeys(sels, i);
    }
  }

  lemma {:induction false} NoOthers(tum: TypeURLMap, typename: string, group: seq<Sel>, url: string, other: string)
    requires other != url && forall f :: f in group && f.Field? ==> Where(tum, typename, f.name, url) == url
    ensures Group(tum, typename, group, url, other) == []
  {
    if group != [] {
      assert group[|group| - 1] in group;
      NoOthers(tum, typename, group[..|group| - 1], url, other);
    }
  }

  /** The fields one service is asked for are all at home there. */
  lemma {:induction false} UnhiddenGroup(ctx: Context, typename: string, sels: seq<Sel>, location: string, url: string)
    requires Unhidden(ctx, typename, sels, location) && url != location
    requires forall f :: f in Group(ctx.tum, typename, sels, location, url) ==> Where(ctx.tum, typename, f.name, url) == url
    ensures Unhidden(ctx, typename, Group(ctx.tum, typename, sels, location, url), url)
  {
    var group := Group(ctx.tum, typename, sels, location, url);
    forall other | other != url
      ensures ClearStep(typename, Local(ctx, typename, Group(ctx.tum, typename, group, url, other), other))
    {
      NoOthers(ctx.tum, typename, group, url, other);
    }
    forall i | 0 <= i < |group| && group[i].Field? && group[i].sub != []
      ensures Unhidden(ctx, group[i].typ.name, group[i].sub, Where(ctx.tum, typename, group[i].name, url))
    {
      assert group[i] in group;
      var j :| 0 <= j < |sels| && sels[j] == group[i];
    }
  }
}
