/** Which insertion points a search loses: those of a list in which some objects have an id and others have none. */
module LostPoints {
  import opened Prelude
  import opened Text
  import opened Points
  import opened Json
  import opened Schema
  import opened Selection
  import opened InsertionPoints

  /** The objects with an id among those found. */
  function WithIDs(hits: seq<Hit>): seq<Hit> {
    if hits == [] then []
    else (if HasID(hits[0].obj) then [hits[0]] else []) + WithIDs(hits[1..])
  }

  /** The objects of a list that have an id. */
  function Identified(items: seq<Json>): seq<Json> {
    if items == [] then []
    else Identified(items[..|items| - 1]) + if items[|items| - 1].JObj? && HasID(items[|items| - 1].fields) then [items[|items| - 1]] else []
  }

  /** In a list all objects have ids, or none has. */
  predicate AllOrNone(items: seq<Json>) {
    AllHaveIDs(items) || forall i :: 0 <= i < |items| && items[i].JObj? ==> !HasID(items[i].fields)
  }

  /** Every list that the last key leads to is all or none. */
  predicate Even(obj: Object, keys: seq<string>)
    decreases |keys|
  {
    keys != [] && keys[0] in obj ==>
      match obj[keys[0]]
      case JObj(m) => Even(m, keys[1..])
      case JList(items) =>
        (|keys| == 1 ==> AllOrNone(items)) && forall i :: 0 <= i < |items| && items[i].JObj? ==> Even(items[i].fields, keys[1..])
      case _ => true
  }

  lemma {:induction false} WithIDsAppend(a: seq<Hit>, b: seq<Hit>)
    ensures WithIDs(a + b) == WithIDs(a) + WithIDs(b)
  {
    if a == [] {
      assert a + b == b;
    } else {
      WithIDsAppend(a[1..], b);
      assert (a + b)[1..] == a[1..] + b;
    }
  }

  lemma {:induction false} WithIDsPrepend(pt: Pt, hits: seq<Hit>)
    ensures WithIDs(Prepend(pt, hits)) == Prepend(pt, WithIDs(hits))
  {
    if hits == [] {
      assert Prepend(pt, hits) == [];
    } else {
      WithIDsPrepend(pt, hits[1..]);
      assert Prepend(pt, hits)[1..] == Prepend(pt, hits[1..]);
    }
  }

  /** Never more than the objects with ids get points, and exactly they do if and only if every innermost list is all or none. */
  lemma {:induction false} EvenExact(obj: Object, keys: seq<string>)
    ensures |Pointed(obj, keys)| <= |WithIDs(Reached(obj, keys))|
    ensures Even(obj, keys) ==> Pointed(obj, keys) == WithIDs(Reached(obj, keys))
    ensures !Even(obj, keys) ==> |Pointed(obj, keys)| < |WithIDs(Reached(obj, keys))|
    decreases |keys|, 1
  {
    if keys == [] {
      assert WithIDs([Hit([], obj)]) == if HasID(obj) then [Hit([], obj)] else [];
    } else if keys[0] in obj {
      match obj[keys[0]]
      case JObj(m) =>
        EvenExact(m, keys[1..]);
        WithIDsPrepend(Pt(keys[0], None), Reached(m, keys[1..]));
      case JList(items) =>
        FromExact(keys, items, 0);
        if |keys| == 1 {
          LastEven(keys, items, 0);
        }
      case _ =>
    }
  }

  lemma {:induction false} FromExact(keys: seq<string>, items: seq<Json>, i: nat)
    requires keys != [] && i <= |items|
    ensures |PointedFrom(keys, items, i)| <= |WithIDs(ReachedFrom(keys, items, i))|
    ensures (forall j :: i <= j < |items| && items[j].JObj? ==> Even(items[j].fields, keys[1..]))
            ==> PointedFrom(keys, items, i) == WithIDs(ReachedFrom(keys, items, i))
    ensures !(forall j :: i <= j < |items| && items[j].JObj? ==> Even(items[j].fields, keys[1..]))
            ==> |PointedFrom(keys, items, i)| < |WithIDs(ReachedFrom(keys, items, i))|
    decreases |keys|, 0, |items| - i
  {
    if i < |items| {
      FromExact(keys, items, i + 1);
      var rest := ReachedFrom(keys, items, i + 1);
      if items[i].JObj? {
        var pt, hits := Pt(keys[0], Some(i)), Reached(items[i].fields, keys[1..]);
        EvenExact(items[i].fields, keys[1..]);
        WithIDsPrepend(pt, hits);
        WithIDsAppend(Prepend(pt, hits), rest);
      } else {
        WithIDsAppend([], rest);
      }
    }
  }

  /** The objects with ids that a list at the last key adds. */
  lemma {:induction false} LastEven(keys: seq<string>, items: seq<Json>, i: nat)
    requires |keys| == 1 && i <= |items|
    ensures PointedFrom(keys, items, i) == [] <==> forall j :: i <= j < |items| && items[j].JObj? ==> !HasID(items[j].fields)
    decreases |items| - i
  {
    if i < |items| {
      LastEven(keys, items, i + 1);
      assert keys[1..] == [];
    }
  }

  /**
   * Which points are found: where the answer has the shape announced, and the objects reached have an id or none is
   * extracted from them, the search succeeds. It finds exactly one point for each object reached that has an id, in order,
   * if and only if every innermost list is all or none; otherwise it finds fewer.
   */
  lemma {:induction false} PointsExact(targets: seq<string>, sels: seq<Sel>, obj: Object, start: seq<string>)
    requires |start| < |targets| && Fitting(targets[|start|..], sels, obj)
    ensures var keys := targets[|start|..];
            && (forall h :: h in WithIDs(Reached(obj, keys)) ==> HasID(h.obj))
            && (forall h :: h in Pointed(obj, keys) ==> HasID(h.obj))
            && Find(targets, sels, obj, [start]) == Ok(PointsOf(start, Pointed(obj, keys)))
            && (Find(targets, sels, obj, [start]) == Ok(PointsOf(start, WithIDs(Reached(obj, keys)))) <==> Even(obj, keys))
  {
    var keys := targets[|start|..];
    FindPointed(targets, sels, obj, [start], |start|);
    PointedHaveID(obj, keys);
    OneBranch(start, Pointed(obj, keys));
    OnlyWithIDs(Reached(obj, keys));
    EvenExact(obj, keys);
    assert |PointsOf(start, Pointed(obj, keys))| == |Pointed(obj, keys)|;
    assert |PointsOf(start, WithIDs(Reached(obj, keys)))| == |WithIDs(Reached(obj, keys))|;
  }

  lemma {:induction false} OnlyWithIDs(hits: seq<Hit>)
    ensures forall h :: h in WithIDs(hits) ==> HasID(h.obj) && h in hits
  {
    if hits != [] {
      OnlyWithIDs(hits[1..]);
    }
  }

  /** The list an object is an entry of, if it is one. */
  function Siblings(obj: Object, at: seq<Pt>): seq<Json>
    requires at != [] && Reach(obj, at).Some?
    decreases |at|
  {
    if |at| > 1 then Siblings(Child(obj, at[0]).value, at[1..])
    else if at[0].index.Some? then obj[at[0].key].items
    else []
  }

  /** Only the innermost list is lost: an object with an id gets its point if and only if its own siblings all have ids. */
  lemma {:induction false} OwnListOnly(obj: Object, at: seq<Pt>)
    requires at != [] && Reach(obj, at).Some? && HasID(Reach(obj, at).value)
    ensures Hit(at, Reach(obj, at).value) in Pointed(obj, KeysOf(at)) <==> AllHaveIDs(Siblings(obj, at))
    decreases |at|
  {
    var keys, pt, child, o := KeysOf(at), at[0], Child(obj, at[0]).value, Reach(obj, at).value;
    assert keys[1..] == KeysOf(at[1..]) && at == [pt] + at[1..];
    InPrepend(pt, Pointed(child, keys[1..]), at[1..], o);
    if |at| > 1 {
      OwnListOnly(child, at[1..]);
    } else {
      assert at[1..] == [] && Hit([], o) in Pointed(child, []);
    }
    if pt.index.Some? {
      InPointedFrom(keys, obj[keys[0]].items, 0, pt.index.value, Hit(at, o));
    }
  }

  lemma InPrepend(pt: Pt, hits: seq<Hit>, at: seq<Pt>, o: Object)
    ensures Hit([pt] + at, o) in Prepend(pt, hits) <==> Hit(at, o) in hits
  {
    var all := Prepend(pt, hits);
    if Hit(at, o) in hits {
      var i :| 0 <= i < |hits| && hits[i] == Hit(at, o);
      assert all[i] == Hit([pt] + at, o);
    }
    if Hit([pt] + at, o) in all {
      var i :| 0 <= i < |all| && all[i] == Hit([pt] + at, o);
      assert hits[i].at == ([pt] + hits[i].at)[1..] == ([pt] + at)[1..] == at;
    }
  }

  lemma {:induction false} InPointedFrom(keys: seq<string>, items: seq<Json>, from: nat, i: nat, h: Hit)
    requires keys != [] && from <= |items| && i < |items| && items[i].JObj? && h.at != [] && h.at[0] == Pt(keys[0], Some(i))
    ensures h in PointedFrom(keys, items, from) <==> from <= i && h in Prepend(h.at[0], Pointed(items[i].fields, keys[1..]))
    decreases |items| - from
  {
    if from < |items| {
      InPointedFrom(keys, items, from + 1, i, h);
    }
  }

  /** One list on its own: as many points as entries with an id if and only if all entries have one or none has. */
  lemma {:induction false} EntriesExact(targets: seq<string>, found: Sel, items: seq<Json>, start: seq<string>)
    requires found.Field? && |start| == |targets| - 1 && Key(found) == targets[|start|]
    requires forall i :: 0 <= i < |items| ==> items[i].JObj? && (HasID(items[i].fields) || NoID(items[i].fields))
    ensures var r := Entries(targets, |start|, found, items, 0, [start], []);
            r.Ok? && (|r.value| == |Identified(items)| <==> AllOrNone(items))
  {
    var n, keys := |start|, targets[|start|..];
    assert keys[1..] == [] && AllFit(keys, found, items);
    SomeIdentified(items);
    if AllHaveIDs(items) {
      EntriesArePointed(targets, found, items, 0, [start], n, []);
      PointedCount(keys, items, 0);
      AllIdentified(items);
      PointsCount(start, PointedFrom(keys, items, 0));
    } else {
      var j :| 0 <= j < |items| && !HasID(items[j].fields);
      EntriesDiscarded(targets, found, items, 0, j, [start], n, []);
    }
  }

  lemma {:induction false} SomeIdentified(items: seq<Json>)
    ensures Identified(items) == [] <==> forall i :: 0 <= i < |items| && items[i].JObj? ==> !HasID(items[i].fields)
  {
    if items != [] {
      SomeIdentified(items[..|items| - 1]);
      assert forall i :: 0 <= i < |items| - 1 ==> items[..|items| - 1][i] == items[i];
    }
  }

  lemma {:induction false} AllIdentified(items: seq<Json>)
    requires AllHaveIDs(items) && forall i :: 0 <= i < |items| ==> items[i].JObj?
    ensures Identified(items) == items
  {
    if items != [] {
      AllIdentified(items[..|items| - 1]);
    }
  }

  lemma {:induction false} PointedCount(keys: seq<string>, items: seq<Json>, i: nat)
    requires |keys| == 1 && i <= |items| && AllHaveIDs(items) && forall i :: 0 <= i < |items| ==> items[i].JObj?
    ensures |PointedFrom(keys, items, i)| == |items| - i
    decreases |items| - i
  {
    if i < |items| {
      PointedCount(keys, items, i + 1);
      assert keys[1..] == [];
    }
  }

  lemma {:induction false} PointsCount(start: seq<string>, hits: seq<Hit>)
    ensures |AllPoints([start], hits)| == |hits|
  {
    if hits != [] {
      PointsCount(start, hits[..|hits| - 1]);
    }
  }

  /** Up to the first entry without an id, every entry is an object from which an id, or none, can be taken. */
  predicate Identifiable(items: seq<Json>, i: nat)
    requires i <= |items|
    decreases |items| - i
  {
    i < |items| ==>
      items[i].JObj? && ExtractID(items[i].fields).Ok? && (ExtractID(items[i].fields).value.Some? ==> Identifiable(items, i + 1))
  }

  /**
   * An answer that can be searched: no null where the type excludes it, lists exactly where the types announce them, with
   * objects as entries, and ids that can be taken at the end. Where a field of another type holds a leaf, the code goes on
   * in the object around it.
   */
  predicate Searchable(keys: seq<string>, sels: seq<Sel>, obj: Object)
    decreases |keys|
  {
    keys == [] ||
    match FindSelection(keys[0], sels)
    case None => true
    case Some(found) =>
      keys[0] in obj ==>
        var v, last := obj[keys[0]], |keys| == 1;
        if v.JNull? then !found.typ.nonNull
        else if found.typ.list then
          v.JList? &&
          if last then Identifiable(v.items, 0)
          else forall i :: 0 <= i < |v.items| ==> v.items[i].JObj? && Searchable(keys[1..], found.sub, v.items[i].fields)
        else if !last then Searchable(keys[1..], found.sub, if v.JObj? then v.fields else obj)
        else if v.JList? then v.items != [] && v.items[0].JObj? && ExtractID(v.items[0].fields).Ok?
        else v.JObj? && ExtractID(v.fields).Ok?
  }

  /** The search for insertion points fails exactly on answers that cannot be searched. */
  lemma {:induction false} SearchFails(targets: seq<string>, sels: seq<Sel>, obj: Object, start: seq<string>)
    requires |start| <= |targets|
    ensures Find(targets, sels, obj, [start]).Err? <==> !Searchable(targets[|start|..], sels, obj)
    decreases |targets| - |start|, 1
  {
    if |start| < |targets| {
      var n, keys := |start|, targets[|start|..];
      var point := targets[n];
      assert keys[0] == point && keys[1..] == targets[n + 1..];
      assert Find(targets, sels, obj, [start]) == Walk(targets, n, sels, obj, [start]);
      var found := FindSelection(point, sels);
      if found.Some? && point in obj && !obj[point].JNull? {
        var v := obj[point];
        if found.value.typ.list {
          if v.JList? {
            EntriesFail(targets, found.value, v.items, 0, start, []);
          }
        } else {
          var grown := [start + [point]];
          assert seq(1, i requires 0 <= i < 1 => [start][i] + [point]) == grown;
          if n < |targets| - 1 {
            SearchFails(targets, found.value.sub, if v.JObj? then v.fields else obj, start + [point]);
          } else {
            LastFails(v, n, grown);
          }
        }
      }
    }
  }

  lemma {:induction false} LastFails(v: Json, n: nat, grown: seq<seq<string>>)
    requires |grown| == 1
    ensures Last(v, n, grown).Ok? <==>
            if v.JList? then v.items != [] && v.items[0].JObj? && ExtractID(v.items[0].fields).Ok?
            else v.JObj? && ExtractID(v.fields).Ok?
  {
    if v.JList? && v.items != [] && v.items[0].JObj? {
      var id := ExtractID(v.items[0].fields);
      if id.Ok? && id.value.Some? {
        assert LastOfList(v.items, n, grown[0 := WithSuffix(grown[0], n, ":" + PrintNat(0) + "#" + id.value.value)], 1).Ok?;
      }
    }
  }

  lemma {:induction false} EntriesFail(targets: seq<string>, found: Sel, items: seq<Json>, i: nat, start: seq<string>,
                                       acc: seq<seq<string>>)
    requires found.Field? && |start| < |targets| && i <= |items|
    ensures Entries(targets, |start|, found, items, i, [start], acc).Ok? <==>
            if |start| == |targets| - 1 then Identifiable(items, i)
            else forall j :: i <= j < |items| ==> items[j].JObj? && Searchable(targets[|start|..][1..], found.sub, items[j].fields)
    decreases |targets| - |start|, 0, |items| - i
  {
    var n := |start|;
    if i < |items| && items[i].JObj? {
      var entry, point := items[i].fields, PrintStem(Key(found), Some(i));
      if n == |targets| - 1 {
        var id := ExtractID(entry);
        if id.Ok? && id.value.Some? {
          var below := EntryBranches([start], point, id.value);
          assert |below| == 1 && |below[0]| == |targets|;
          EntriesFail(targets, found, items, i + 1, start, acc + below);
        }
      } else {
        var below := EntryBranches([start], point, None);
        assert below == [start + [point]] by {
          assert point + "" == point;
        }
        assert targets[n..][1..] == targets[n + 1..];
        SearchFails(targets, found.sub, entry, start + [point]);
        var points := Find(targets, found.sub, entry, below);
        if points.Ok? {
          EntriesFail(targets, found, items, i + 1, start, acc + points.value);
        }
      }
    }
  }

  /** The points of a list that stands where the type announces an object: the i-th branch ends in the i-th entry. */
  lemma {:induction false} ListUnderObject(items: seq<Json>, n: nat, grown: seq<seq<string>>)
    requires |grown| <= |items| && forall i :: 0 <= i < |grown| ==> |grown[i]| == n + 1 && items[i].JObj? && HasID(items[i].fields)
    ensures Last(JList(items), n, grown) == Ok(Ended(items, n, grown))
  {
    EndsFrom(items, n, grown, grown, 0);
  }

  function Ended(items: seq<Json>, n: nat, grown: seq<seq<string>>): seq<seq<string>>
    requires |grown| <= |items| && forall i :: 0 <= i < |grown| ==> |grown[i]| == n + 1 && items[i].JObj? && HasID(items[i].fields)
  {
    seq(|grown|, i requires 0 <= i < |grown| => grown[i][..n] + [grown[i][n] + ":" + PrintNat(i) + "#" + IDText(items[i].fields)])
  }

  lemma {:induction false} EndsFrom(items: seq<Json>, n: nat, grown: seq<seq<string>>, now: seq<seq<string>>, i: nat)
    requires |grown| <= |items| && forall i :: 0 <= i < |grown| ==> |grown[i]| == n + 1 && items[i].JObj? && HasID(items[i].fields)
    requires i <= |grown| == |now|
    requires forall j :: 0 <= j < |grown| ==> now[j] == if j < i then Ended(items, n, grown)[j] else grown[j]
    ensures LastOfList(items, n, now, i) == Ok(Ended(items, n, grown))
    decreases |grown| - i
  {
    if i == |grown| {
      assert now == Ended(items, n, grown);
    } else {
      var text := items[i].fields[ID].text;
      ExtractIDExact(items[i].fields);
      var ended := WithSuffix(now[i], n, ":" + PrintNat(i) + "#" + text);
      assert ended == grown[i][..n] + [grown[i][n] + ":" + PrintNat(i) + "#" + text] by {
        assert grown[i][n] + (":" + PrintNat(i) + "#" + text) == grown[i][n] + ":" + PrintNat(i) + "#" + text;
      }
      EndsFrom(items, n, grown, now[i := ended], i + 1);
    }
  }
}
