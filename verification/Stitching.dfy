/** ExtractValueModifyingSource of executor/result.go: walking to the object a point denotes, and merging there. */
module Stitching {
  import opened Prelude
  import opened Points
  import opened Json
  import opened MergeMaps

  /** The source after a walk, the address walked to, and the object there. */
  datatype Walked = Walked(source: Object, at: seq<Pt>, target: Object)

  /** One point: the object padded so that the point leads somewhere, and the step it denotes. */
  function Pad(recent: Object, point: string): (r: Result<(Object, Pt)>)
    ensures r.Ok? ==> Child(r.value.0, r.value.1).Some?
  {
    var data :- Decode(point);
    if IsListElement(point) then
      if data.field in recent && !recent[data.field].JList? then Err("did not encounter a list when expected")
      else if data.index < 0 then Err("index out of range")
      else
        var list := if data.field in recent then recent[data.field].items else [];
        var padded := Padded(list, data.index);
        if !padded[data.index].JObj? then Err("did not encounter a map when expected")
        else Ok((recent[data.field := JList(padded)], Pt(data.field, Some(data.index))))
    else
      var value := if data.field !in recent || recent[data.field].JNull? then JObj(map[]) else recent[data.field];
      if !value.JObj? then Err("did not encounter a map when expected")
      else Ok((recent[data.field := value], Pt(data.field, None)))
  }

  /** Empty objects appended until index is a position. */
  function Padded(list: seq<Json>, index: nat): (r: seq<Json>)
    ensures index < |r| && list <= r
    ensures index < |list| ==> r == list
    ensures forall i :: |list| <= i < |r| ==> r[i] == JObj(map[])
    decreases index + 1 - |list|
  {
    if index < |list| then list else Padded(list + [JObj(map[])], index)
  }

  function ExtractValue(source: Object, path: seq<string>): (r: Result<Walked>)
    ensures r.Ok? ==> Reach(r.value.source, r.value.at) == Some(r.value.target)
    decreases |path|
  {
    if path == [] then Ok(Walked(source, [], source))
    else
      var step :- Pad(source, path[0]);
      var below :- ExtractValue(Child(step.0, step.1).value, path[1..]);
      var whole := WithChild(step.0, step.1, below.source);
      assert ([step.1] + below.at)[1..] == below.at;
      Ok(Walked(whole, [step.1] + below.at, below.target))
  }

  /** One execution result stitched into the tree. */
  function Stitch(source: Object, path: seq<string>, result: Object): Result<Object> {
    var w :- ExtractValue(source, path);
    Ok(WithAt(w.source, w.at, MergeInto(w.target, result)))
  }

  /** A point that denotes a step, with whatever id. */
  ghost predicate DenotesPt(point: string, pt: Pt) {
    && IsListElement(point) == pt.index.Some?
    && Decode(point).Ok?
    && Decode(point).value.field == pt.key
    && (pt.index.Some? ==> Decode(point).value.index == pt.index.value)
  }

  ghost predicate Denotes(path: seq<string>, at: seq<Pt>) {
    |path| == |at| && forall i :: 0 <= i < |at| ==> DenotesPt(path[i], at[i])
  }

  /** Walking to something that is there finds it and changes nothing. */
  lemma {:induction false} ReachesWhatIsThere(source: Object, path: seq<string>, at: seq<Pt>)
    requires Denotes(path, at) && Reach(source, at).Some?
    ensures ExtractValue(source, path) == Ok(Walked(source, at, Reach(source, at).value))
    decreases |path|
  {
    if path != [] {
      var pt := at[0];
      var child := Child(source, pt).value;
      DenotesBelow(path, at);
      PadThere(source, path[0], pt);
      ReachesWhatIsThere(child, path[1..], at[1..]);
      WithChildSame(source, pt);
      WalkStep(source, path, pt, Walked(child, at[1..], Reach(child, at[1..]).value));
      assert [pt] + at[1..] == at;
    }
  }

  lemma DenotesBelow(path: seq<string>, at: seq<Pt>)
    requires Denotes(path, at) && path != []
    ensures DenotesPt(path[0], at[0]) && Denotes(path[1..], at[1..])
  {
    forall i | 0 <= i < |at[1..]|
      ensures DenotesPt(path[1..][i], at[1..][i])
    {
      assert DenotesPt(path[i + 1], at[i + 1]);
    }
  }

  /** One step of the walk through a child that is there. */
  lemma {:induction false} WalkStep(source: Object, path: seq<string>, pt: Pt, below: Walked)
    requires path != [] && Child(source, pt).Some? && Pad(source, path[0]) == Ok((source, pt))
    requires ExtractValue(Child(source, pt).value, path[1..]) == Ok(below)
    ensures ExtractValue(source, path) == Ok(Walked(WithChild(source, pt, below.source), [pt] + below.at, below.target))
  {
  }

  lemma PadThere(source: Object, point: string, pt: Pt)
    requires DenotesPt(point, pt) && Child(source, pt).Some?
    ensures Pad(source, point) == Ok((source, pt))
  {
    var v := source[pt.key];
    assert source[pt.key := v] == source;
  }

  lemma PadDenotes(source: Object, point: string)
    requires Pad(source, point).Ok?
    ensures DenotesPt(point, Pad(source, point).value.1)
  {
  }

  /** A second walk along any path that could be walked finds the same object and adds nothing. */
  lemma {:induction false} SecondWalkAddsNothing(source: Object, path: seq<string>)
    requires ExtractValue(source, path).Ok?
    ensures var w := ExtractValue(source, path).value;
            Denotes(path, w.at) && ExtractValue(w.source, path) == Ok(w)
    decreases |path|
  {
    var w := ExtractValue(source, path).value;
    WalkDenotes(source, path);
    ReachesWhatIsThere(w.source, path, w.at);
  }

  lemma {:induction false} WalkDenotes(source: Object, path: seq<string>)
    requires ExtractValue(source, path).Ok?
    ensures Denotes(path, ExtractValue(source, path).value.at)
    decreases |path|
  {
    if path != [] {
      var step := Pad(source, path[0]).value;
      PadDenotes(source, path[0]);
      WalkDenotes(Child(step.0, step.1).value, path[1..]);
      var below := ExtractValue(Child(step.0, step.1).value, path[1..]).value;
      var at := [step.1] + below.at;
      forall i | 0 <= i < |at|
        ensures DenotesPt(path[i], at[i])
      {
        assert i > 0 ==> DenotesPt(path[1..][i - 1], below.at[i - 1]);
      }
    }
  }

  /** Nothing of a is lost or changed in b: only keys and list entries are added, and nulls become objects. */
  ghost predicate Grows(a: Json, b: Json)
    decreases a
  {
    match a
    case JNull => b.JNull? || b.JObj?
    case JScalar(_) => b == a
    case JList(items) => b.JList? && |items| <= |b.items| && forall i :: 0 <= i < |items| ==> Grows(items[i], b.items[i])
    case JObj(m) => b.JObj? && forall k :: k in m ==> k in b.fields && Grows(m[k], b.fields[k])
  }

  lemma {:induction false} GrowsReflexive(a: Json)
    ensures Grows(a, a)
    decreases a
  {
    match a
    case JList(items) =>
      forall i | 0 <= i < |items|
        ensures Grows(items[i], items[i])
      {
        GrowsReflexive(items[i]);
      }
    case JObj(m) =>
      forall k | k in m
        ensures Grows(m[k], m[k])
      {
        GrowsReflexive(m[k]);
      }
    case _ =>
  }

  /** What an object holds under a key that a walk goes through: nothing when the key is missing or null. */
  function Held(obj: Object, key: string): Object {
    if key in obj && obj[key].JObj? then obj[key].fields else map[]
  }

  function HeldList(obj: Object, key: string): seq<Json> {
    if key in obj && obj[key].JList? then obj[key].items else []
  }

  function HeldEntry(list: seq<Json>, i: nat): Object {
    if i < |list| && list[i].JObj? then list[i].fields else map[]
  }

  /**
   * b is a with exactly what an address needs: the missing objects on it, and lists on it filled with empty objects up
   * to the position it names. Off the address, and in the object at its end, everything is equal.
   */
  ghost predicate AddsAlong(a: Object, b: Object, at: seq<Pt>)
    decreases |at|
  {
    if at == [] then b == a
    else
      var key := at[0].key;
      && b.Keys == a.Keys + {key}
      && (forall k :: k in a && k != key ==> b[k] == a[k])
      && match at[0].index
         case None =>
           && (key in a ==> a[key].JNull? || a[key].JObj?)
           && b[key].JObj? && AddsAlong(Held(a, key), b[key].fields, at[1..])
         case Some(i) =>
           && (key in a ==> a[key].JList?)
           && b[key].JList? && FilledUpTo(HeldList(a, key), b[key].items, i)
           && AddsAlong(HeldEntry(HeldList(a, key), i), b[key].items[i].fields, at[1..])
  }

  /** A list with empty objects added up to position i, and anything at i itself. */
  ghost predicate FilledUpTo(old_: seq<Json>, new_: seq<Json>, i: nat) {
    && |new_| == (if i < |old_| then |old_| else i + 1)
    && (forall j :: 0 <= j < |new_| && j != i ==> new_[j] == if j < |old_| then old_[j] else JObj(map[]))
    && new_[i].JObj? && (i < |old_| ==> old_[i].JObj?)
  }

  lemma {:induction false} PadFills(list: seq<Json>, index: nat)
    ensures |Padded(list, index)| == if index < |list| then |list| else index + 1
    decreases index + 1 - |list|
  {
    if index >= |list| {
      PadFills(list + [JObj(map[])], index);
    }
  }

  /** Walking adds what the address walked to needs, and nothing else. */
  lemma {:induction false} WalkAddsAlong(source: Object, path: seq<string>)
    requires ExtractValue(source, path).Ok?
    ensures var w := ExtractValue(source, path).value;
            AddsAlong(source, w.source, w.at)
    decreases |path|
  {
    if path != [] {
      var step := Pad(source, path[0]).value;
      var child := Child(step.0, step.1).value;
      WalkAddsAlong(child, path[1..]);
      var below := ExtractValue(child, path[1..]).value;
      StepAddsAlong(source, path[0], below.source, below.at);
    }
  }

  lemma {:induction false} StepAddsAlong(source: Object, point: string, below: Object, at: seq<Pt>)
    requires Pad(source, point).Ok?
    requires var step := Pad(source, point).value; AddsAlong(Child(step.0, step.1).value, below, at)
    ensures var step := Pad(source, point).value; AddsAlong(source, WithChild(step.0, step.1, below), [step.1] + at)
  {
    var step := Pad(source, point).value;
    PadShape(source, point);
    match step.1.index
    case None => AlongObject(source, step.1.key, below, at);
    case Some(i) => AlongList(source, step.1.key, i, below, at);
  }

  /** What one point adds. */
  lemma PadShape(recent: Object, point: string)
    requires Pad(recent, point).Ok?
    ensures var step := Pad(recent, point).value;
            var key := step.1.key;
            match step.1.index
            case None => (key in recent ==> recent[key].JNull? || recent[key].JObj?) && step.0 == recent[key := JObj(Held(recent, key))]
            case Some(i) =>
              && (key in recent ==> recent[key].JList?)
              && step.0 == recent[key := JList(Padded(HeldList(recent, key), i))]
              && Padded(HeldList(recent, key), i)[i].JObj?
  {
  }

  lemma {:induction false} AlongObject(source: Object, key: string, below: Object, at: seq<Pt>)
    requires (key in source ==> source[key].JNull? || source[key].JObj?) && AddsAlong(Held(source, key), below, at)
    ensures AddsAlong(source, source[key := JObj(below)], [Pt(key, None)] + at)
  {
    assert ([Pt(key, None)] + at)[1..] == at;
  }

  lemma {:induction false} AlongList(source: Object, key: string, i: nat, below: Object, at: seq<Pt>)
    requires key in source ==> source[key].JList?
    requires var padded := Padded(HeldList(source, key), i); padded[i].JObj? && AddsAlong(padded[i].fields, below, at)
    ensures AddsAlong(source, source[key := JList(Padded(HeldList(source, key), i)[i := JObj(below)])], [Pt(key, Some(i))] + at)
  {
    assert ([Pt(key, Some(i))] + at)[1..] == at;
    PadFills(HeldList(source, key), i);
  }

  /** What is added along an address loses nothing. */
  lemma {:induction false} AlongGrows(a: Object, b: Object, at: seq<Pt>)
    requires AddsAlong(a, b, at)
    ensures Grows(JObj(a), JObj(b))
    decreases |at|
  {
    forall k | k in a
      ensures Grows(a[k], b[k])
    {
      if at == [] || k != at[0].key {
        GrowsReflexive(a[k]);
      } else {
        KeyGrows(a, b, at);
      }
    }
  }

  lemma {:induction false} KeyGrows(a: Object, b: Object, at: seq<Pt>)
    requires at != [] && at[0].key in a && AddsAlong(a, b, at)
    ensures Grows(a[at[0].key], b[at[0].key])
    decreases |at|, 0
  {
    var v, w := a[at[0].key], b[at[0].key];
    match at[0].index
    case None =>
      if v.JObj? {
        AlongGrows(v.fields, w.fields, at[1..]);
      }
    case Some(n) =>
      forall i | 0 <= i < |v.items|
        ensures Grows(v.items[i], w.items[i])
      {
        if i == n {
          AlongGrows(v.items[i].fields, w.items[i].fields, at[1..]);
        } else {
          GrowsReflexive(v.items[i]);
        }
      }
  }

  /**
   * On any path, walking only adds: everything the source held is still there, and what is new is the missing objects
   * on the address walked to and the empty list entries up to the positions it names.
   */
  lemma {:induction false} WalkOnlyAdds(source: Object, path: seq<string>)
    requires ExtractValue(source, path).Ok?
    ensures var w := ExtractValue(source, path).value;
            AddsAlong(source, w.source, w.at) && Grows(JObj(source), JObj(w.source))
  {
    WalkAddsAlong(source, path);
    AlongGrows(source, ExtractValue(source, path).value.source, ExtractValue(source, path).value.at);
  }

  /** An address along which only missing, null and fitting values lie: an object where it names one, a list where it names a position. */
  predicate CanLead(source: Object, at: seq<Pt>)
    decreases |at|
  {
    at != [] ==>
      var key := at[0].key;
      match at[0].index
      case None => (key in source ==> source[key].JNull? || source[key].JObj?) && CanLead(Held(source, key), at[1..])
      case Some(i) =>
        var list := HeldList(source, key);
        (key in source ==> source[key].JList?) && (i < |list| ==> list[i].JObj?) && CanLead(HeldEntry(list, i), at[1..])
  }

  /** A walk fails exactly where something else is in its way. */
  lemma {:induction false} WalkExact(source: Object, path: seq<string>, at: seq<Pt>)
    requires Denotes(path, at)
    ensures ExtractValue(source, path).Ok? <==> CanLead(source, at)
    decreases |path|
  {
    if path != [] {
      DenotesBelow(path, at);
      PadExact(source, path[0], at[0]);
      if Pad(source, path[0]).Ok? {
        var step := Pad(source, path[0]).value;
        WalkExact(Child(step.0, step.1).value, path[1..], at[1..]);
      }
    }
  }

  lemma PadExact(recent: Object, point: string, pt: Pt)
    requires DenotesPt(point, pt)
    ensures Pad(recent, point).Ok? <==>
            match pt.index
            case None => pt.key in recent ==> recent[pt.key].JNull? || recent[pt.key].JObj?
            case Some(i) => (pt.key in recent ==> recent[pt.key].JList?) && (i < |HeldList(recent, pt.key)| ==> HeldList(recent, pt.key)[i].JObj?)
    ensures Pad(recent, point).Ok? ==>
              && Pad(recent, point).value.1 == pt
              && Child(Pad(recent, point).value.0, pt)
                 == Some(if pt.index.None? then Held(recent, pt.key) else HeldEntry(HeldList(recent, pt.key), pt.index.value))
  {
    if pt.index.Some? {
      PadFills(HeldList(recent, pt.key), pt.index.value);
    }
  }

  /** Two writes on one path are one write. */
  lemma {:induction false} WithAtDeeper(obj: Object, at: seq<Pt>, new_: Object, pt: Pt, child: Object)
    requires Reach(obj, at).Some? && Child(new_, pt).Some?
    ensures Reach(WithAt(obj, at, new_), at + [pt]) == Child(new_, pt)
    ensures WithAt(WithAt(obj, at, new_), at + [pt], child) == WithAt(obj, at, WithChild(new_, pt, child))
    decreases |at|
  {
    if at == [] {
      assert at + [pt] == [pt] && [pt][1..] == [];
    } else {
      var below := Child(obj, at[0]).value;
      var inner := WithAt(below, at[1..], new_);
      assert (at + [pt])[1..] == at[1..] + [pt] && (at + [pt])[0] == at[0];
      WithAtDeeper(below, at[1..], new_, pt, child);
      WithChildTwice(obj, at[0], inner, WithAt(inner, at[1..] + [pt], child));
    }
  }

  /** One turn of the walk: the object made ready for the point. */
  method PadRecent(extractor: CachedPointDataExtractor, recent: Object, point: string) returns (r: Result<(Object, Pt)>)
    requires extractor.Valid()
    modifies extractor
    ensures extractor.Valid() && r == Pad(recent, point)
  {
    var pointData := extractor.Extract(point);
    if pointData.Err? {
      return Err(pointData.reason);
    }
    var data := pointData.value;
    if IsListElement(point) {
      if data.field in recent && !recent[data.field].JList? {
        return Err("did not encounter a list when expected");
      }
      if data.index < 0 {
        return Err("index out of range");
      }
      var list := if data.field in recent then recent[data.field].items else [];
      var targetList := PadList(list, data.index);
      if !targetList[data.index].JObj? {
        return Err("did not encounter a map when expected");
      }
      return Ok((recent[data.field := JList(targetList)], Pt(data.field, Some(data.index))));
    }
    var value := if data.field !in recent || recent[data.field].JNull? then JObj(map[]) else recent[data.field];
    if !value.JObj? {
      return Err("did not encounter a map when expected");
    }
    return Ok((recent[data.field := value], Pt(data.field, None)));
  }

  method PadList(list: seq<Json>, index: nat) returns (padded: seq<Json>)
    ensures padded == Padded(list, index)
  {
    padded := list;
    while |padded| <= index
      invariant Padded(padded, index) == Padded(list, index)
      decreases index + 1 - |padded|
    {
      padded := padded + [JObj(map[])];
    }
  }

  /** What is left of a walk, carried out below the address reached so far. */
  function Resumed(current: Object, at: seq<Pt>, below: Result<Walked>): Result<Walked>
    requires Reach(current, at).Some?
  {
    match below
    case Err(reason) => Err(reason)
    case Ok(w) => Ok(Walked(WithAt(current, at, w.source), at + w.at, w.target))
  }

  lemma ResumedHere(source: Object, below: Result<Walked>)
    ensures Resumed(source, [], below) == below
  {
    if below.Ok? {
      assert [] + below.value.at == below.value.at;
    }
  }

  /** A walk from a child, seen from its parent. */
  function FromChild(parent: Object, pt: Pt, below: Result<Walked>): Result<Walked>
    requires Child(parent, pt).Some?
  {
    match below
    case Err(reason) => Err(reason)
    case Ok(w) => Ok(Walked(WithChild(parent, pt, w.source), [pt] + w.at, w.target))
  }

  lemma {:induction false} ResumedBelow(current: Object, at: seq<Pt>, parent: Object, pt: Pt, below: Result<Walked>)
    requires Reach(current, at).Some? && Child(parent, pt).Some?
    ensures Reach(WithAt(current, at, parent), at + [pt]) == Child(parent, pt)
    ensures Resumed(current, at, FromChild(parent, pt, below)) == Resumed(WithAt(current, at, parent), at + [pt], below)
  {
    WithAtDeeper(current, at, parent, pt, Child(parent, pt).value);
    if below.Ok? {
      WithAtDeeper(current, at, parent, pt, below.value.source);
      assert at + ([pt] + below.value.at) == at + [pt] + below.value.at;
    }
  }

  lemma {:induction false} ResumedStep(recent: Object, path: seq<string>)
    requires path != [] && Pad(recent, path[0]).Ok?
    ensures var step := Pad(recent, path[0]).value;
            ExtractValue(recent, path) == FromChild(step.0, step.1, ExtractValue(Child(step.0, step.1).value, path[1..]))
  {
  }

  /** ExtractValueModifyingSource: the source is written along the walk, and recent is the object walked to. */
  method ExtractValueModifyingSource(extractor: CachedPointDataExtractor, source: Object, path: seq<string>)
    returns (r: Result<Walked>)
    requires extractor.Valid()
    modifies extractor
    ensures extractor.Valid() && r == ExtractValue(source, path)
  {
    var current, at, recent := source, [], source;
    assert path[0..] == path;
    ResumedHere(source, ExtractValue(source, path));
    for i := 0 to |path|
      invariant extractor.Valid()
      invariant Reach(current, at) == Some(recent)
      invariant ExtractValue(source, path) == Resumed(current, at, ExtractValue(recent, path[i..]))
    {
      assert path[i..][0] == path[i] && path[i..][1..] == path[i + 1..];
      var step := PadRecent(extractor, recent, path[i]);
      if step.Err? {
        return Err(step.reason);
      }
      ResumedStep(recent, path[i..]);
      ResumedBelow(current, at, step.value.0, step.value.1, ExtractValue(Child(step.value.0, step.value.1).value, path[i + 1..]));
      current := WithAt(current, at, step.value.0);
      at := at + [step.value.1];
      recent := Child(step.value.0, step.value.1).value;
    }
    WithAtSame(current, at);
    assert at + [] == at;
    return Ok(Walked(current, at, recent));
  }
}
