/** FindInsertionPoints and FindSelection of the executor: which objects the next steps are executed at. */
module InsertionPoints {
  import opened Prelude
  import opened Text
  import opened Points
  import opened Json
  import opened Schema
  import opened Selection

  /** Pre-order search through all depths of a selection set, fragments opened. */
  function FindSelection(key: string, sels: seq<Sel>): (r: Option<Sel>)
    ensures r.Some? ==> r.value.Field? && Key(r.value) == key
    decreases Size(sels), 1
  {
    FieldsAreSmaller(sels);
    FindAmong(key, ToFields(sels))
  }

  function FindAmong(key: string, fields: seq<Sel>): (r: Option<Sel>)
    requires AllFields(fields)
    ensures r.Some? ==> r.value.Field? && Key(r.value) == key
    decreases Size(fields), 0
  {
    if fields == [] then None
    else
      FrontSize(fields);
      if Key(fields[0]) == key then Some(fields[0])
      else
        var deep := FindSelection(key, fields[0].sub);
        if deep.Some? then deep else FindAmong(key, fields[1..])
  }

  lemma {:induction false} SizeAppend(a: seq<Sel>, b: seq<Sel>)
    ensures Size(a + b) == Size(a) + Size(b)
  {
    if b == [] {
      assert a + b == a;
    } else {
      assert (a + b)[..|a + b| - 1] == a + b[..|b| - 1];
      SizeAppend(a, b[..|b| - 1]);
    }
  }

  lemma {:induction false} FrontSize(sels: seq<Sel>)
    requires sels != []
    ensures Size(sels) == 1 + Size(sels[0].sub) + Size(sels[1..])
  {
    SizeOfOne(sels[0]);
    SizeAppend([sels[0]], sels[1..]);
    assert sels == [sels[0]] + sels[1..];
  }

  lemma {:induction false} FieldsAreSmaller(sels: seq<Sel>)
    ensures Size(ToFields(sels)) <= Size(sels)
    decreases Size(sels)
  {
    if sels != [] {
      var front, last := sels[..|sels| - 1], sels[|sels| - 1];
      FieldsAreSmaller(front);
      if last.Field? {
        SizeOfOne(last);
        SizeAppend(ToFields(front), [last]);
      } else {
        FieldsAreSmaller(last.sub);
        SizeAppend(ToFields(front), ToFields(last.sub));
      }
    }
  }

  /** None stands for the nil id of an entry that holds nothing but its __typename. */
  function ExtractID(obj: Object): Result<Option<string>> {
    if ID in obj then Ok(if obj[ID].JNull? then None else Some(Printed(obj[ID])))
    else if TYPENAME in obj && |obj| == 1 then Ok(None)
    else Err("could not find the id")
  }

  /** The `%v` text of a value; lists and objects never are ids and are not spelled out. */
  function Printed(v: Json): string {
    match v
    case JScalar(text) => text
    case JNull => "<nil>"
    case JList(_) => "[]"
    case JObj(_) => "map[]"
  }

  /** `#id`, n times: what the cumulative append puts after an entry for the n-th starting branch. */
  function Suffix(id: string, n: nat): string {
    if n == 0 then "" else Suffix(id, n - 1) + "#" + id
  }

  /** The branches of one list entry: the entry's point added to every branch, or alone when there is none. */
  function EntryBranches(branches: seq<seq<string>>, point: string, id: Option<string>): seq<seq<string>> {
    if branches == [] then [[point]]
    else
      seq(|branches|, i requires 0 <= i < |branches| => branches[i] + [point + (if id.Some? then Suffix(id.value, i + 1) else "")])
  }

  /** FindInsertionPoints: starting branches tell how many targets are already behind us. */
  function Find(targets: seq<string>, sels: seq<Sel>, result: Object, branches: seq<seq<string>>): Result<seq<seq<string>>>
    decreases JObj(result), |targets|, 2
  {
    if branches != [] && |targets| == |branches[0]| then Ok(branches)
    else Walk(targets, if branches == [] then 0 else |branches[0]|, sels, result, branches)
  }

  function Walk(targets: seq<string>, n: nat, sels: seq<Sel>, chunk: Object, branches: seq<seq<string>>): Result<seq<seq<string>>>
    decreases JObj(chunk), if n <= |targets| then |targets| - n else 0, 1
  {
    if n >= |targets| then Ok(branches)
    else
      var point := targets[n];
      match FindSelection(point, sels)
      case None => Ok([])
      case Some(found) =>
        if point !in chunk then Ok([])
        else
          var value := chunk[point];
          if value.JNull? then
            if found.typ.nonNull then Err("received null for required field") else Ok([])
          else if found.typ.list then
            if value.JList? then Entries(targets, n, found, value.items, 0, branches, [])
            else Err("root value of result chunk was not a list")
          else
            var grown := seq(|branches|, i requires 0 <= i < |branches| => branches[i] + [point]);
            if n == |targets| - 1 then Last(value, n, grown)
            else Walk(targets, n + 1, found.sub, if value.JObj? then value.fields else chunk, grown)
  }

  /** The entries of a list from position i on, acc holding the points of the earlier ones. */
  function Entries(targets: seq<string>, n: nat, found: Sel, items: seq<Json>, i: nat, branches: seq<seq<string>>,
                   acc: seq<seq<string>>): Result<seq<seq<string>>>
    requires found.Field? && n < |targets| && i <= |items|
    decreases JList(items), |items| - i, 0
  {
    if i == |items| then Ok(acc)
    else if !items[i].JObj? then Err("entry in result wasn't a map")
    else
      var entry := items[i].fields;
      var point := PrintStem(Key(found), Some(i));
      if n == |targets| - 1 && branches != [] then
        var id :- ExtractID(entry);
        if id.None? then Ok([])
        else
          var points :- Find(targets, found.sub, entry, EntryBranches(branches, point, id));
          Entries(targets, n, found, items, i + 1, branches, acc + points)
      else
        var points :- Find(targets, found.sub, entry, EntryBranches(branches, point, None));
        Entries(targets, n, found, items, i + 1, branches, acc + points)
  }

  /** The last target when its type is not a list; grown already ends in the point, which gets the id. */
  function Last(value: Json, n: nat, grown: seq<seq<string>>): Result<seq<seq<string>>> {
    match value
    case JList(items) => LastOfList(items, n, grown, 0)
    case JObj(fields) =>
      if grown == [] then Ok([])
      else
        var id :- ExtractID(fields);
        if id.None? then Ok([])
        else Ok(seq(|grown|, i requires 0 <= i < |grown| => WithSuffix(grown[i], n, "#" + id.value)))
    case _ => Err("root value of result chunk was not an object")
  }

  /** A list where the type says there is none: the i-th branch takes the i-th entry. */
  function LastOfList(items: seq<Json>, n: nat, grown: seq<seq<string>>, i: nat): Result<seq<seq<string>>>
    requires i <= |grown|
    decreases |grown| - i
  {
    if i == |grown| then Ok(grown)
    else if i >= |items| || !items[i].JObj? then Err("item in root list isn't a map")
    else
      var id :- ExtractID(items[i].fields);
      if id.None? then Ok([])
      else LastOfList(items, n, grown[i := WithSuffix(grown[i], n, ":" + PrintNat(i) + "#" + id.value)], i + 1)
  }

  function WithSuffix(branch: seq<string>, n: nat, suffix: string): seq<string> {
    if n < |branch| then branch[n := branch[n] + suffix] else branch
  }

  /** An object found under an answer: where it is and what it is. */
  datatype Hit = Hit(at: seq<Pt>, obj: Object)

  function Prepend(pt: Pt, hits: seq<Hit>): seq<Hit> {
    seq(|hits|, i requires 0 <= i < |hits| => Hit([pt] + hits[i].at, hits[i].obj))
  }

  /** All objects reached along a path of keys, through any nesting of lists, in order: the reference. */
  function Reached(obj: Object, keys: seq<string>): seq<Hit>
    decreases |keys|, 0
  {
    if keys == [] then [Hit([], obj)]
    else if keys[0] !in obj then []
    else match obj[keys[0]]
      case JObj(m) => Prepend(Pt(keys[0], None), Reached(m, keys[1..]))
      case JList(items) => ReachedFrom(keys, items, 0)
      case _ => []
  }

  function ReachedFrom(keys: seq<string>, items: seq<Json>, i: nat): seq<Hit>
    requires keys != [] && i <= |items|
    decreases |keys|, 0, |items| - i
  {
    if i == |items| then []
    else
      (if items[i].JObj? then Prepend(Pt(keys[0], Some(i)), Reached(items[i].fields, keys[1..])) else [])
      + ReachedFrom(keys, items, i + 1)
  }

  predicate HasID(obj: Object) {
    ID in obj && obj[ID].JScalar?
  }

  /** The answer has the shape its selection announces along the targets, and the objects reached have ids. */
  ghost predicate Conforms(keys: seq<string>, sels: seq<Sel>, obj: Object)
    decreases |keys|
  {
    keys != [] ==>
      var found := FindSelection(keys[0], sels);
      && found.Some?
      && (keys[0] in obj ==>
            match obj[keys[0]]
            case JNull => !found.value.typ.nonNull
            case JScalar(_) => false
            case JObj(m) => !found.value.typ.list && ConformsBelow(keys, found.value, m)
            case JList(items) =>
              && found.value.typ.list
              && forall i :: 0 <= i < |items| ==> items[i].JObj? && ConformsBelow(keys, found.value, items[i].fields))
  }

  ghost predicate ConformsBelow(keys: seq<string>, found: Sel, obj: Object)
    requires keys != []
    decreases |keys|, 0
  {
    (|keys| == 1 ==> HasID(obj)) && Conforms(keys[1..], found.sub, obj)
  }

  /** The same shape, where an object reached may have no id: its id is null, or it holds nothing but its type name. */
  ghost predicate Fitting(keys: seq<string>, sels: seq<Sel>, obj: Object)
    decreases |keys|
  {
    keys != [] ==>
      var found := FindSelection(keys[0], sels);
      && found.Some?
      && (keys[0] in obj ==>
            match obj[keys[0]]
            case JNull => !found.value.typ.nonNull
            case JScalar(_) => false
            case JObj(m) => !found.value.typ.list && FittingBelow(keys, found.value, m)
            case JList(items) =>
              && found.value.typ.list
              && forall i :: 0 <= i < |items| ==> items[i].JObj? && FittingBelow(keys, found.value, items[i].fields))
  }

  ghost predicate FittingBelow(keys: seq<string>, found: Sel, obj: Object)
    requires keys != []
    decreases |keys|, 0
  {
    (|keys| == 1 ==> HasID(obj) || NoID(obj)) && Fitting(keys[1..], found.sub, obj)
  }

  /** An object without an id that is no error: its id is null, or nothing but its type name came back. */
  predicate NoID(obj: Object) {
    ("id" in obj && obj["id"] == JNull) || obj.Keys == {"__typename"}
  }

  /** What is taken as the id: its text where there is one, nothing where it is none, and an error otherwise. */
  lemma ExtractIDExact(obj: Object)
    ensures ExtractID(obj) == Ok(None) <==> NoID(obj)
    ensures HasID(obj) <==> "id" in obj && obj["id"].JScalar?
    ensures HasID(obj) ==> ExtractID(obj) == Ok(Some(obj["id"].text))
    ensures ExtractID(obj).Err? <==> "id" !in obj && obj.Keys != {"__typename"}
  {
    if obj.Keys == {TYPENAME} {
      assert |obj.Keys| == 1;
    }
    if TYPENAME in obj && |obj| == 1 {
      assert |obj.Keys - {TYPENAME}| == 0;
    }
    assert ID == "id" && TYPENAME == "__typename";
  }

  predicate AllHaveIDs(items: seq<Json>) {
    forall i :: 0 <= i < |items| && items[i].JObj? ==> HasID(items[i].fields)
  }

  /** The objects that get a point: of those reached in one list by the last key, all or, when one has no id, none. */
  function Pointed(obj: Object, keys: seq<string>): seq<Hit>
    decreases |keys|, 0
  {
    if keys == [] then if HasID(obj) then [Hit([], obj)] else []
    else if keys[0] !in obj then []
    else match obj[keys[0]]
      case JObj(m) => Prepend(Pt(keys[0], None), Pointed(m, keys[1..]))
      case JList(items) => if |keys| > 1 || AllHaveIDs(items) then PointedFrom(keys, items, 0) else []
      case _ => []
  }

  function PointedFrom(keys: seq<string>, items: seq<Json>, i: nat): seq<Hit>
    requires keys != [] && i <= |items|
    decreases |keys|, 0, |items| - i
  {
    if i == |items| then []
    else
      (if items[i].JObj? then Prepend(Pt(keys[0], Some(i)), Pointed(items[i].fields, keys[1..])) else [])
      + PointedFrom(keys, items, i + 1)
  }

  lemma {:induction false} PointedHaveID(obj: Object, keys: seq<string>)
    ensures forall h :: h in Pointed(obj, keys) ==> HasID(h.obj) && (keys != [] ==> h.at != [])
    decreases |keys|, 1
  {
    if keys != [] && keys[0] in obj {
      match obj[keys[0]]
      case JObj(m) => PointedHaveID(m, keys[1..]);
      case JList(items) => FromHaveID(keys, items, 0);
      case _ =>
    }
  }

  lemma {:induction false} FromHaveID(keys: seq<string>, items: seq<Json>, i: nat)
    requires keys != [] && i <= |items|
    ensures forall h :: h in PointedFrom(keys, items, i) ==> HasID(h.obj) && h.at != []
    decreases |keys|, 0, |items| - i
  {
    if i < |items| {
      FromHaveID(keys, items, i + 1);
      if items[i].JObj? {
        PointedHaveID(items[i].fields, keys[1..]);
      }
    }
  }

  /** Where every object reached has an id, every object reached gets a point. */
  lemma {:induction false} ConformsFits(keys: seq<string>, sels: seq<Sel>, obj: Object)
    requires keys != [] && Conforms(keys, sels, obj)
    ensures Fitting(keys, sels, obj) && Pointed(obj, keys) == Reached(obj, keys)
    decreases |keys|, 1
  {
    var found := FindSelection(keys[0], sels).value;
    if keys[0] in obj {
      match obj[keys[0]]
      case JObj(m) => BelowFits(keys, found, m);
      case JList(items) =>
        forall i | 0 <= i < |items|
          ensures FittingBelow(keys, found, items[i].fields) && Pointed(items[i].fields, keys[1..]) == Reached(items[i].fields, keys[1..])
        {
          BelowFits(keys, found, items[i].fields);
        }
        SameFrom(keys, items, 0);
      case _ =>
    }
  }

  lemma {:induction false} BelowFits(keys: seq<string>, found: Sel, m: Object)
    requires keys != [] && ConformsBelow(keys, found, m)
    ensures FittingBelow(keys, found, m) && Pointed(m, keys[1..]) == Reached(m, keys[1..])
    decreases |keys|, 0
  {
    if |keys| > 1 {
      ConformsFits(keys[1..], found.sub, m);
    }
  }

  lemma {:induction false} SameFrom(keys: seq<string>, items: seq<Json>, i: nat)
    requires keys != [] && i <= |items|
    requires forall j :: 0 <= j < |items| && items[j].JObj? ==> Pointed(items[j].fields, keys[1..]) == Reached(items[j].fields, keys[1..])
    ensures PointedFrom(keys, items, i) == ReachedFrom(keys, items, i)
    decreases |items| - i
  {
    if i < |items| {
      SameFrom(keys, items, i + 1);
    }
  }

  /** Conformance seen child by child. */
  lemma {:induction false} ConformsFromChildren(keys: seq<string>, sels: seq<Sel>, found: Sel, obj: Object)
    requires keys != [] && FindSelection(keys[0], sels) == Some(found) && found.Field?
    requires keys[0] in obj
    requires match obj[keys[0]]
             case JNull => !found.typ.nonNull
             case JScalar(_) => false
             case JObj(m) => !found.typ.list
             case JList(items) => found.typ.list && forall i :: 0 <= i < |items| ==> items[i].JObj?
    requires forall pt: Pt :: pt.key == keys[0] && Child(obj, pt).Some? ==> ConformsBelow(keys, found, Child(obj, pt).value)
    ensures Conforms(keys, sels, obj)
  {
    match obj[keys[0]]
    case JObj(m) =>
      assert Child(obj, Pt(keys[0], None)) == Some(m);
    case JList(items) =>
      forall i | 0 <= i < |items|
        ensures ConformsBelow(keys, found, items[i].fields)
      {
        assert Child(obj, Pt(keys[0], Some(i))) == Some(items[i].fields);
      }
    case _ =>
  }

  /** The point printed for an address whose object has an id: only the last element carries it. */
  function PrintPath(at: seq<Pt>, obj: Object): (points: seq<string>)
    requires at != [] ==> HasID(obj)
    ensures |points| == |at|
    decreases |at|
  {
    if at == [] then []
    else [Print(at[0].key, at[0].index, if |at| == 1 then Some(obj[ID].text) else None)] + PrintPath(at[1..], obj)
  }

  function PointsOf(start: seq<string>, hits: seq<Hit>): seq<seq<string>>
    requires forall h :: h in hits && h.at != [] ==> HasID(h.obj)
  {
    seq(|hits|, i requires 0 <= i < |hits| => start + PrintPath(hits[i].at, hits[i].obj))
  }

  /** What is reached lies on the path asked for, and is what reaching its address gives. */
  lemma {:induction false} ReachedSound(obj: Object, keys: seq<string>, h: Hit)
    requires h in Reached(obj, keys)
    ensures KeysOf(h.at) == keys
    ensures Reach(obj, h.at) == Some(h.obj)
    decreases |keys|, 0
  {
    if keys != [] {
      match obj[keys[0]]
      case JObj(m) => PrependSound(obj, Pt(keys[0], None), keys, h);
      case JList(items) =>
        var i := ReachedFromSplit(keys, items, 0, h);
        PrependSound(obj, Pt(keys[0], Some(i)), keys, h);
      case _ =>
    }
  }

  lemma {:induction false} PrependSound(obj: Object, pt: Pt, keys: seq<string>, h: Hit)
    requires keys != [] && pt.key == keys[0] && Child(obj, pt).Some?
    requires h in Prepend(pt, Reached(Child(obj, pt).value, keys[1..]))
    ensures KeysOf(h.at) == keys
    ensures h.at != [] && h.at[0] == pt
    ensures Reach(obj, h.at) == Some(h.obj)
    decreases |keys|, 0, 0
  {
    var below := Reached(Child(obj, pt).value, keys[1..]);
    var i :| 0 <= i < |below| && h == Hit([pt] + below[i].at, below[i].obj);
    ReachedSound(Child(obj, pt).value, keys[1..], below[i]);
    assert h.at[1..] == below[i].at;
    assert KeysOf(h.at) == [pt.key] + KeysOf(below[i].at);
    assert keys == [keys[0]] + keys[1..];
  }

  lemma {:induction false} ReachedFromSplit(keys: seq<string>, items: seq<Json>, from: nat, h: Hit) returns (i: nat)
    requires keys != [] && from <= |items| && h in ReachedFrom(keys, items, from)
    ensures from <= i < |items| && items[i].JObj?
    ensures h in Prepend(Pt(keys[0], Some(i)), Reached(items[i].fields, keys[1..]))
    decreases |items| - from
  {
    if items[from].JObj? && h in Prepend(Pt(keys[0], Some(from)), Reached(items[from].fields, keys[1..])) {
      i := from;
    } else {
      i := ReachedFromSplit(keys, items, from + 1, h);
    }
  }

  lemma {:induction false} ReachedHaveID(obj: Object, keys: seq<string>, sels: seq<Sel>)
    requires keys != [] && Conforms(keys, sels, obj)
    ensures forall h :: h in Reached(obj, keys) ==> HasID(h.obj) && h.at != []
    decreases |keys|, 1
  {
    var found := FindSelection(keys[0], sels).value;
    forall h | h in Reached(obj, keys)
      ensures HasID(h.obj) && h.at != []
    {
      ReachedSound(obj, keys, h);
      match obj[keys[0]]
      case JObj(m) => BelowHaveID(Pt(keys[0], None), m, keys, found, h);
      case JList(items) =>
        var i := ReachedFromSplit(keys, items, 0, h);
        BelowHaveID(Pt(keys[0], Some(i)), items[i].fields, keys, found, h);
      case _ =>
    }
  }

  lemma {:induction false} BelowHaveID(pt: Pt, m: Object, keys: seq<string>, found: Sel, h: Hit)
    requires keys != [] && ConformsBelow(keys, found, m) && h in Prepend(pt, Reached(m, keys[1..]))
    ensures HasID(h.obj)
    decreases |keys|, 0
  {
    if |keys| > 1 {
      ReachedHaveID(m, keys[1..], found.sub);
    }
  }

  /** What follows the last point on the b-th starting branch: for a list entry the id over and over, once more on each branch. */
  function IDSuffix(index: Option<nat>, id: string, b: nat): string {
    if index.Some? then Suffix(id, b + 1) else "#" + id
  }

  function IDText(obj: Object): string {
    if HasID(obj) then obj[ID].text else ""
  }

  /** The points of an object on the b-th starting branch. */
  function PrintBranch(at: seq<Pt>, obj: Object, b: nat): (points: seq<string>)
    ensures |points| == |at|
    decreases |at|
  {
    if at == [] then []
    else [PrintStem(at[0].key, at[0].index) + if |at| == 1 then IDSuffix(at[0].index, IDText(obj), b) else ""] + PrintBranch(at[1..], obj, b)
  }

  /** An object's points, one for each starting branch. */
  function BranchesAt(starts: seq<seq<string>>, h: Hit): (r: seq<seq<string>>)
    ensures |r| == |starts|
  {
    seq(|starts|, b requires 0 <= b < |starts| => starts[b] + PrintBranch(h.at, h.obj, b))
  }

  /** All points of the objects found: object by object, and for each of them branch by branch. */
  function AllPoints(starts: seq<seq<string>>, hits: seq<Hit>): seq<seq<string>> {
    if hits == [] then [] else AllPoints(starts, hits[..|hits| - 1]) + BranchesAt(starts, hits[|hits| - 1])
  }

  /** Every branch one point further. */
  function GrownBy(starts: seq<seq<string>>, point: string): (r: seq<seq<string>>)
    ensures |r| == |starts|
  {
    seq(|starts|, b requires 0 <= b < |starts| => starts[b] + [point])
  }

  lemma {:induction false} AllPointsSnoc(starts: seq<seq<string>>, hits: seq<Hit>, h: Hit)
    ensures AllPoints(starts, hits + [h]) == AllPoints(starts, hits) + BranchesAt(starts, h)
  {
    assert (hits + [h])[..|hits|] == hits;
  }

  lemma {:induction false} AllPointsAppend(starts: seq<seq<string>>, a: seq<Hit>, b: seq<Hit>)
    ensures AllPoints(starts, a + b) == AllPoints(starts, a) + AllPoints(starts, b)
  {
    if b == [] {
      assert a + b == a;
    } else {
      var front, last := b[..|b| - 1], b[|b| - 1];
      assert b == front + [last];
      AllPointsAppend(starts, a, front);
      assert a + b == a + front + [last];
      AllPointsSnoc(starts, a + front, last);
      AllPointsSnoc(starts, front, last);
      Regroup(AllPoints(starts, a), AllPoints(starts, front), BranchesAt(starts, last));
    }
  }

  /** One more element in front of an address is one more point in front of what is printed for it. */
  lemma {:induction false} AllPointsPrepend(starts: seq<seq<string>>, pt: Pt, hits: seq<Hit>)
    requires forall h :: h in hits ==> h.at != []
    ensures AllPoints(starts, Prepend(pt, hits)) == AllPoints(GrownBy(starts, PrintStem(pt.key, pt.index)), hits)
  {
    var all := Prepend(pt, hits);
    if hits != [] {
      var front, last := hits[..|hits| - 1], hits[|hits| - 1];
      assert last in hits;
      AllPointsPrepend(starts, pt, front);
      assert all[..|all| - 1] == Prepend(pt, front);
      BranchesPrepend(starts, pt, last);
    }
  }

  lemma {:induction false} BranchesPrepend(starts: seq<seq<string>>, pt: Pt, h: Hit)
    requires h.at != []
    ensures BranchesAt(starts, Hit([pt] + h.at, h.obj)) == BranchesAt(GrownBy(starts, PrintStem(pt.key, pt.index)), h)
  {
    var stem := PrintStem(pt.key, pt.index);
    forall b: nat | b < |starts|
      ensures starts[b] + PrintBranch([pt] + h.at, h.obj, b) == starts[b] + [stem] + PrintBranch(h.at, h.obj, b)
    {
      assert ([pt] + h.at)[1..] == h.at;
      assert stem + "" == stem;
      assert PrintBranch([pt] + h.at, h.obj, b) == [stem] + PrintBranch(h.at, h.obj, b);
    }
  }

  /** The branches of an object that is reached by the last target. */
  lemma {:induction false} AllPointsOfLast(starts: seq<seq<string>>, pt: Pt, m: Object)
    requires HasID(m)
    ensures AllPoints(starts, Prepend(pt, Pointed(m, []))) == seq(|starts|, b requires 0 <= b < |starts| => starts[b] + [PrintStem(pt.key, pt.index) + IDSuffix(pt.index, m[ID].text, b)])
  {
    var hits := Prepend(pt, Pointed(m, []));
    assert [pt] + [] == [pt];
    assert hits == [Hit([pt], m)];
    assert [pt][1..] == [];
    forall b: nat | b < |starts|
      ensures PrintBranch([pt], m, b) == [PrintStem(pt.key, pt.index) + IDSuffix(pt.index, m[ID].text, b)]
    {
    }
    assert AllPoints(starts, hits) == [] + BranchesAt(starts, hits[0]);
  }

  /** At least one starting branch, and all of one length. */
  ghost predicate SameLength(starts: seq<seq<string>>, n: nat) {
    starts != [] && forall b :: 0 <= b < |starts| ==> |starts[b]| == n
  }

  /**
   * What FindInsertionPoints returns, for any number of starting branches: object by object, in order, one point for
   * each branch. A branch is extended by the way to the object; behind the point of a list entry the id is repeated once
   * more from branch to branch.
   */
  lemma {:induction false} FindBranches(targets: seq<string>, sels: seq<Sel>, obj: Object, starts: seq<seq<string>>, n: nat)
    requires SameLength(starts, n) && n < |targets|
    requires Conforms(targets[n..], sels, obj)
    ensures forall h :: h in Reached(obj, targets[n..]) ==> HasID(h.obj) && h.at != []
    ensures Find(targets, sels, obj, starts) == Ok(AllPoints(starts, Reached(obj, targets[n..])))
    decreases |targets| - n, 1
  {
    ReachedHaveID(obj, targets[n..], sels);
    ConformsFits(targets[n..], sels, obj);
    FindPointed(targets, sels, obj, starts, n);
  }

  /** The same where objects reached may have no id: a list with such an object gets no point at all. */
  lemma {:induction false} FindPointed(targets: seq<string>, sels: seq<Sel>, obj: Object, starts: seq<seq<string>>, n: nat)
    requires SameLength(starts, n) && n < |targets|
    requires Fitting(targets[n..], sels, obj)
    ensures Find(targets, sels, obj, starts) == Ok(AllPoints(starts, Pointed(obj, targets[n..])))
    decreases |targets| - n, 1
  {
    var keys := targets[n..];
    assert keys[0] == targets[n] && keys[1..] == targets[n + 1..];
    var found := FindSelection(targets[n], sels).value;
    assert Find(targets, sels, obj, starts) == Walk(targets, n, sels, obj, starts);
    if targets[n] in obj {
      match obj[targets[n]]
      case JObj(m) => FindInObject(targets, sels, obj, starts, n, m);
      case JList(items) =>
        assert AllFit(keys, found, items);
        assert Walk(targets, n, sels, obj, starts) == Entries(targets, n, found, items, 0, starts, []);
        if n < |targets| - 1 || AllHaveIDs(items) {
          EntriesArePointed(targets, found, items, 0, starts, n, []);
          assert [] + AllPoints(starts, PointedFrom(keys, items, 0)) == AllPoints(starts, PointedFrom(keys, items, 0));
        } else {
          var j :| 0 <= j < |items| && !HasID(items[j].fields);
          EntriesDiscarded(targets, found, items, 0, j, starts, n, []);
        }
      case _ =>
    }
  }

  lemma {:induction false} FindInObject(targets: seq<string>, sels: seq<Sel>, obj: Object, starts: seq<seq<string>>,
                                        n: nat, m: Object)
    requires SameLength(starts, n) && n < |targets|
    requires targets[n] in obj && obj[targets[n]] == JObj(m)
    requires Fitting(targets[n..], sels, obj)
    ensures Find(targets, sels, obj, starts) == Ok(AllPoints(starts, Pointed(obj, targets[n..])))
    decreases |targets| - n, 0
  {
    var keys, pt := targets[n..], Pt(targets[n], None);
    assert keys[0] == targets[n] && keys[1..] == targets[n + 1..];
    assert Pointed(obj, keys) == Prepend(pt, Pointed(m, keys[1..]));
    var found := FindSelection(targets[n], sels).value;
    StepIntoObject(targets, sels, obj, starts, n, m);
    if n == |targets| - 1 {
      assert keys[1..] == [];
      ExtractIDExact(m);
      if HasID(m) {
        LastObject(starts, n, pt, m);
      }
    } else {
      FindPointed(targets, found.sub, m, GrownBy(starts, PrintStem(targets[n], None)), n + 1);
      PointedHaveID(m, keys[1..]);
      AllPointsPrepend(starts, pt, Pointed(m, keys[1..]));
    }
  }

  /** One turn of the walk, through an object. */
  lemma {:induction false} StepIntoObject(targets: seq<string>, sels: seq<Sel>, obj: Object, starts: seq<seq<string>>,
                                        n: nat, m: Object)
    requires SameLength(starts, n) && n < |targets|
    requires targets[n] in obj && obj[targets[n]] == JObj(m)
    requires FindSelection(targets[n], sels).Some? && !FindSelection(targets[n], sels).value.typ.list
    ensures var grown := GrownBy(starts, PrintStem(targets[n], None));
            Find(targets, sels, obj, starts) ==
            if n == |targets| - 1 then Last(JObj(m), n, grown)
            else Find(targets, FindSelection(targets[n], sels).value.sub, m, grown)
  {
    assert targets[n] + "" == targets[n];
    var grown := GrownBy(starts, targets[n]);
    assert seq(|starts|, i requires 0 <= i < |starts| => starts[i] + [targets[n]]) == grown;
    assert Find(targets, sels, obj, starts) == Walk(targets, n, sels, obj, starts);
    assert |grown[0]| == n + 1;
  }

  /** The last target leads to one object: its id ends every branch. */
  lemma {:induction false} LastObject(starts: seq<seq<string>>, n: nat, pt: Pt, m: Object)
    requires SameLength(starts, n) && pt.index.None? && HasID(m)
    ensures Last(JObj(m), n, GrownBy(starts, PrintStem(pt.key, None))) == Ok(AllPoints(starts, Prepend(pt, Pointed(m, []))))
  {
    var stem, grown := PrintStem(pt.key, None), GrownBy(starts, PrintStem(pt.key, None));
    AllPointsOfLast(starts, pt, m);
    var id := m[ID].text;
    assert ExtractID(m) == Ok(Some(id));
    var last := seq(|grown|, i requires 0 <= i < |grown| => WithSuffix(grown[i], n, "#" + id));
    forall b: nat | b < |starts|
      ensures last[b] == starts[b] + [stem + IDSuffix(None, id, b)]
    {
      assert grown[b] == starts[b] + [stem] && |starts[b]| == n;
    }
    assert last == AllPoints(starts, Prepend(pt, Pointed(m, [])));
  }

  lemma {:induction false} EntriesArePointed(targets: seq<string>, found: Sel, items: seq<Json>, i: nat,
                                        starts: seq<seq<string>>, n: nat, acc: seq<seq<string>>)
    requires SameLength(starts, n) && n < |targets| && i <= |items|
    requires found.Field? && Key(found) == targets[n]
    requires AllFit(targets[n..], found, items) && (n == |targets| - 1 ==> AllHaveIDs(items))
    ensures Entries(targets, n, found, items, i, starts, acc)
            == Ok(acc + AllPoints(starts, PointedFrom(targets[n..], items, i)))
    decreases |targets| - n, 0, |items| - i
  {
    var keys := targets[n..];
    if i == |items| {
      assert acc + AllPoints(starts, []) == acc;
    } else {
      OneFits(keys, found, items, i);
      var entry := items[i].fields;
      var pt := Pt(Key(found), Some(i));
      var first := Prepend(pt, Pointed(entry, keys[1..]));
      EntryIsPointed(targets, found, entry, i, starts, n);
      PointedFromFirst(keys, items, i, first);
      var points := AllPoints(starts, first);
      NextEntry(targets, found, items, i, starts, n, acc, points);
      EntriesArePointed(targets, found, items, i + 1, starts, n, acc + points);
      FirstAndRest(starts, first, PointedFrom(keys, items, i + 1), acc);
    }
  }

  /** One entry from which no id is extracted discards its whole list, whatever the other entries are. */
  lemma {:induction false} EntriesDiscarded(targets: seq<string>, found: Sel, items: seq<Json>, i: nat, j: nat,
                                        starts: seq<seq<string>>, n: nat, acc: seq<seq<string>>)
    requires SameLength(starts, n) && n == |targets| - 1 && found.Field? && Key(found) == targets[n] && i <= j < |items|
    requires AllFit(targets[n..], found, items) && !HasID(items[j].fields)
    ensures Entries(targets, n, found, items, i, starts, acc) == Ok([])
    decreases |targets| - n, 0, j - i + 2
  {
    OneFits(targets[n..], found, items, i);
    if HasID(items[i].fields) {
      var points := EntryGoesOn(targets, found, items, i, starts, n, acc);
      EntriesDiscarded(targets, found, items, i + 1, j, starts, n, acc + points);
    } else {
      DiscardedHere(targets, found, items, i, starts, n, acc);
    }
  }

  lemma {:induction false} DiscardedHere(targets: seq<string>, found: Sel, items: seq<Json>, i: nat,
                                        starts: seq<seq<string>>, n: nat,
                      acc: seq<seq<string>>)
    requires starts != [] && n == |targets| - 1 && found.Field? && i < |items| && items[i].JObj? && ExtractID(items[i].fields) == Ok(None)
    ensures Entries(targets, n, found, items, i, starts, acc) == Ok([])
  {
  }

  lemma {:induction false} EntryGoesOn(targets: seq<string>, found: Sel, items: seq<Json>, i: nat, starts: seq<seq<string>>,
                                       n: nat, acc: seq<seq<string>>) returns (points: seq<seq<string>>)
    requires SameLength(starts, n) && n == |targets| - 1 && found.Field? && Key(found) == targets[n] && i < |items|
    requires items[i].JObj? && HasID(items[i].fields) && FittingBelow(targets[n..], found, items[i].fields)
    ensures Entries(targets, n, found, items, i, starts, acc) == Entries(targets, n, found, items, i + 1, starts, acc + points)
    decreases |targets| - n, 0, 1
  {
    EntryIsPointed(targets, found, items[i].fields, i, starts, n);
    points := AllPoints(starts, Prepend(Pt(Key(found), Some(i)), Pointed(items[i].fields, targets[n..][1..])));
    NextEntry(targets, found, items, i, starts, n, acc, points);
  }

  lemma PointedFromFirst(keys: seq<string>, items: seq<Json>, i: nat, first: seq<Hit>)
    requires keys != [] && i < |items| && items[i].JObj?
    requires first == Prepend(Pt(keys[0], Some(i)), Pointed(items[i].fields, keys[1..]))
    ensures PointedFrom(keys, items, i) == first + PointedFrom(keys, items, i + 1)
  {
  }

  ghost predicate AllFit(keys: seq<string>, found: Sel, items: seq<Json>)
    requires keys != []
  {
    forall j :: 0 <= j < |items| ==> items[j].JObj? && FittingBelow(keys, found, items[j].fields)
  }

  lemma {:induction false} OneFits(keys: seq<string>, found: Sel, items: seq<Json>, i: nat)
    requires keys != [] && i < |items| && AllFit(keys, found, items)
    ensures items[i].JObj? && FittingBelow(keys, found, items[i].fields)
    ensures |keys| == 1 ==> HasID(items[i].fields) || ExtractID(items[i].fields) == Ok(None)
  {
    ExtractIDExact(items[i].fields);
  }

  lemma {:induction false} FirstAndRest(starts: seq<seq<string>>, first: seq<Hit>, rest: seq<Hit>, acc: seq<seq<string>>)
    ensures acc + AllPoints(starts, first) + AllPoints(starts, rest) == acc + AllPoints(starts, first + rest)
  {
    AllPointsAppend(starts, first, rest);
    Regroup(acc, AllPoints(starts, first), AllPoints(starts, rest));
  }

  /** One turn of the loop over a list. */
  lemma {:induction false} NextEntry(targets: seq<string>, found: Sel, items: seq<Json>, i: nat,
                                     starts: seq<seq<string>>, n: nat, acc: seq<seq<string>>, points: seq<seq<string>>)
    requires SameLength(starts, n) && n < |targets| && i < |items| && found.Field? && items[i].JObj?
    requires n == |targets| - 1 ==> HasID(items[i].fields)
    requires var id := if n == |targets| - 1 then Some(items[i].fields[ID].text) else None;
             Find(targets, found.sub, items[i].fields, EntryBranches(starts, PrintStem(Key(found), Some(i)), id)) == Ok(points)
    ensures Entries(targets, n, found, items, i, starts, acc) == Entries(targets, n, found, items, i + 1, starts, acc + points)
  {
    if n == |targets| - 1 {
      assert ExtractID(items[i].fields) == Ok(Some(items[i].fields[ID].text));
    }
  }

  lemma {:induction false} EntryIsPointed(targets: seq<string>, found: Sel, entry: Object, i: nat,
                                        starts: seq<seq<string>>, n: nat)
    requires SameLength(starts, n) && n < |targets|
    requires found.Field? && Key(found) == targets[n]
    requires FittingBelow(targets[n..], found, entry) && (n == |targets| - 1 ==> HasID(entry))
    ensures var last := n == |targets| - 1;
            var point := PrintStem(Key(found), Some(i));
            var first := Prepend(Pt(Key(found), Some(i)), Pointed(entry, targets[n..][1..]));
            && (last ==> ExtractID(entry) == Ok(Some(entry[ID].text)))
            && Find(targets, found.sub, entry, EntryBranches(starts, point, if last then Some(entry[ID].text) else None))
               == Ok(AllPoints(starts, first))
    decreases |targets| - n, 0, 0
  {
    var keys := targets[n..];
    assert keys[1..] == targets[n + 1..];
    var point := PrintStem(Key(found), Some(i));
    var pt := Pt(Key(found), Some(i));
    if n == |targets| - 1 {
      LastEntry(starts, pt, entry);
      assert keys[1..] == [];
    } else {
      assert EntryBranches(starts, point, None) == GrownBy(starts, point) by {
        assert point + "" == point;
      }
      PointedHaveID(entry, keys[1..]);
      FindPointed(targets, found.sub, entry, GrownBy(starts, point), n + 1);
      AllPointsPrepend(starts, pt, Pointed(entry, keys[1..]));
    }
  }

  /** The last target leads to a list entry. */
  lemma {:induction false} LastEntry(starts: seq<seq<string>>, pt: Pt, m: Object)
    requires starts != [] && pt.index.Some? && HasID(m)
    ensures ExtractID(m) == Ok(Some(m[ID].text))
    ensures EntryBranches(starts, PrintStem(pt.key, pt.index), Some(m[ID].text)) == AllPoints(starts, Prepend(pt, Pointed(m, [])))
  {
    AllPointsOfLast(starts, pt, m);
  }

  /** On the first branch the id is printed once. */
  lemma {:induction false} FirstBranch(at: seq<Pt>, obj: Object)
    requires at != [] ==> HasID(obj)
    ensures PrintBranch(at, obj, 0) == PrintPath(at, obj)
    decreases |at|
  {
    if at != [] {
      FirstBranch(at[1..], obj);
      var stem := PrintStem(at[0].key, at[0].index);
      if |at| == 1 {
        var id := obj[ID].text;
        assert Suffix(id, 0) == "" && Suffix(id, 1) == "" + "#" + id == "#" + id;
      } else {
        assert Print(at[0].key, at[0].index, None) == stem + "";
      }
    }
  }

  lemma {:induction false} OneBranch(start: seq<string>, hits: seq<Hit>)
    requires forall h :: h in hits && h.at != [] ==> HasID(h.obj)
    ensures AllPoints([start], hits) == PointsOf(start, hits)
  {
    if hits != [] {
      var front, last := hits[..|hits| - 1], hits[|hits| - 1];
      OneBranch(start, front);
      assert last in hits;
      FirstBranch(last.at, last.obj);
      assert BranchesAt([start], last) == [start + PrintPath(last.at, last.obj)];
    }
  }

  /**
   * Insertion points are sound and complete: from one starting point, exactly one point for each object reached,
   * in order, naming the way there and ending in that object's id.
   */
  lemma {:induction false} FindIsReached(targets: seq<string>, sels: seq<Sel>, obj: Object, start: seq<string>)
    requires |start| < |targets|
    requires Conforms(targets[|start|..], sels, obj)
    ensures forall h :: h in Reached(obj, targets[|start|..]) ==> HasID(h.obj) && h.at != []
    ensures Find(targets, sels, obj, [start]) == Ok(PointsOf(start, Reached(obj, targets[|start|..])))
  {
    FindBranches(targets, sels, obj, [start], |start|);
    OneBranch(start, Reached(obj, targets[|start|..]));
  }

  /**
   * What the last point of a list entry says on the b-th branch: the right field and position on every branch, but the
   * entry's id on the first one only.
   */
  lemma {:induction false} BranchDecodes(field: string, index: nat, id: string, b: nat)
    requires IsName(field) && index < MAX_INDEX
    ensures Decode(PrintStem(field, Some(index)) + IDSuffix(Some(index), id, b))
            == Ok(PointData(field, index, if b == 0 && '#' !in id then id else ""))
  {
    var stem := PrintStem(field, Some(index));
    StemHasNoHash(field, Some(index));
    DecodeStem(field, Some(index));
    var rest := SuffixTail(id, b);
    DecodeAfterStem(stem, rest);
    Regroup(stem, "#", rest);
  }

  lemma {:induction false} SuffixTail(id: string, b: nat) returns (rest: string)
    ensures Suffix(id, b + 1) == "#" + rest
    ensures b == 0 ==> rest == id
    ensures b > 0 ==> '#' in rest
  {
    if b == 0 {
      rest := id;
      assert Suffix(id, 1) == Suffix(id, 0) + "#" + id;
    } else {
      var before := SuffixTail(id, b - 1);
      rest := before + "#" + id;
      assert rest[|before|] == '#';
      assert Suffix(id, b + 1) == "#" + before + "#" + id == "#" + rest;
    }
  }

  /** Nothing that can be reached along the keys is missed. */
  lemma {:induction false} ReachedComplete(obj: Object, at: seq<Pt>)
    requires Reach(obj, at).Some?
    ensures Hit(at, Reach(obj, at).value) in Reached(obj, KeysOf(at))
    decreases |at|
  {
    var keys := KeysOf(at);
    if at == [] {
      assert keys == [];
    } else {
      var pt, child := at[0], Child(obj, at[0]).value;
      ReachedComplete(child, at[1..]);
      assert keys[1..] == KeysOf(at[1..]);
      var below := Reached(child, keys[1..]);
      var h := Hit(at, Reach(obj, at).value);
      var k :| 0 <= k < |below| && below[k] == Hit(at[1..], h.obj);
      assert [pt] + at[1..] == at;
      assert Prepend(pt, below)[k] == h;
      if pt.index.Some? {
        InReachedFrom(keys, obj[pt.key].items, 0, pt.index.value, h);
      }
    }
  }

  lemma {:induction false} InReachedFrom(keys: seq<string>, items: seq<Json>, from: nat, i: nat, h: Hit)
    requires keys != [] && from <= i < |items| && items[i].JObj?
    requires h in Prepend(Pt(keys[0], Some(i)), Reached(items[i].fields, keys[1..]))
    ensures h in ReachedFrom(keys, items, from)
    decreases i - from
  {
    if from < i {
      InReachedFrom(keys, items, from + 1, i, h);
    }
  }

  ghost predicate DistinctHits(hits: seq<Hit>) {
    forall i, j :: 0 <= i < j < |hits| ==> hits[i].at != hits[j].at
  }

  /** No object is reached twice. */
  lemma {:induction false} ReachedDistinct(obj: Object, keys: seq<string>)
    ensures DistinctHits(Reached(obj, keys))
    decreases |keys|, 1
  {
    if keys != [] && keys[0] in obj {
      match obj[keys[0]]
      case JObj(m) =>
        ReachedDistinct(m, keys[1..]);
        PrependDistinct(Pt(keys[0], None), Reached(m, keys[1..]));
      case JList(items) =>
        ReachedFromDistinct(keys, items, 0);
      case _ =>
    }
  }

  lemma PrependDistinct(pt: Pt, hits: seq<Hit>)
    requires DistinctHits(hits)
    ensures DistinctHits(Prepend(pt, hits))
  {
    var all := Prepend(pt, hits);
    forall i, j | 0 <= i < j < |all|
      ensures all[i].at != all[j].at
    {
      assert all[i].at[1..] == hits[i].at && all[j].at[1..] == hits[j].at;
    }
  }

  lemma {:induction false} ReachedFromDistinct(keys: seq<string>, items: seq<Json>, i: nat)
    requires keys != [] && i <= |items|
    ensures DistinctHits(ReachedFrom(keys, items, i))
    decreases |keys|, 0, |items| - i
  {
    if i < |items| {
      ReachedFromDistinct(keys, items, i + 1);
      if items[i].JObj? {
        ReachedDistinct(items[i].fields, keys[1..]);
        var pt := Pt(keys[0], Some(i));
        var first, rest := Prepend(pt, Reached(items[i].fields, keys[1..])), ReachedFrom(keys, items, i + 1);
        PrependDistinct(pt, Reached(items[i].fields, keys[1..]));
        forall j, k | 0 <= j < |first| && 0 <= k < |rest|
          ensures first[j].at != rest[k].at
        {
          StartsLater(keys, items, i + 1, rest[k]);
        }
      }
    }
  }

  lemma {:induction false} StartsLater(keys: seq<string>, items: seq<Json>, from: nat, h: Hit)
    requires keys != [] && from <= |items| && h in ReachedFrom(keys, items, from)
    ensures h.at != [] && h.at[0].index.Some? && h.at[0].index.value >= from
  {
    var i := ReachedFromSplit(keys, items, from, h);
  }

  /** Different addresses print differently, whatever the ids of the objects there. */
  lemma {:induction false} PrintPathInjective(a: seq<Pt>, x: Object, b: seq<Pt>, y: Object)
    requires a != [] && b != [] && HasID(x) && HasID(y)
    requires forall i :: 0 <= i < |a| ==> IsName(a[i].key)
    requires forall i :: 0 <= i < |b| ==> IsName(b[i].key)
    requires PrintPath(a, x) == PrintPath(b, y)
    ensures a == b && x[ID] == y[ID]
    decreases |a|
  {
    var p, q := PrintPath(a, x), PrintPath(b, y);
    assert p[0] == q[0] && |a| == |b|;
    PrintInjective(a[0].key, a[0].index, if |a| == 1 then Some(x[ID].text) else None,
                   b[0].key, b[0].index, if |b| == 1 then Some(y[ID].text) else None);
    assert a[0] == b[0];
    if |a| > 1 {
      assert PrintPath(a[1..], x) == p[1..] == q[1..] == PrintPath(b[1..], y);
      PrintPathInjective(a[1..], x, b[1..], y);
    }
    assert a == [a[0]] + a[1..] && b == [b[0]] + b[1..];
  }

  /**
   * FindInsertionPoints in one statement: pairwise distinct points of the target's length that extend the start,
   * one for each address at which an object lies below the answer on the remaining path, and no others.
   */
  lemma {:induction false} InsertionPointsExact(targets: seq<string>, sels: seq<Sel>, obj: Object, start: seq<string>)
    requires |start| < |targets|
    requires Conforms(targets[|start|..], sels, obj)
    requires forall i :: 0 <= i < |targets| ==> IsName(targets[i])
    ensures var r := Find(targets, sels, obj, [start]);
            var hits := Reached(obj, targets[|start|..]);
            && r.Ok?
            && |r.value| == |hits|
            && Distinct(r.value)
            && (forall i :: 0 <= i < |hits| ==> |r.value[i]| == |targets| && start <= r.value[i])
            && (forall i :: 0 <= i < |hits| ==> HasID(hits[i].obj) && r.value[i][|start|..] == PrintPath(hits[i].at, hits[i].obj))
            && (forall at: seq<Pt> :: (exists i :: 0 <= i < |hits| && hits[i].at == at)
                                      <==> Reach(obj, at).Some? && KeysOf(at) == targets[|start|..])
  {
    var keys := targets[|start|..];
    var hits := Reached(obj, keys);
    FindIsReached(targets, sels, obj, start);
    ReachedDistinct(obj, keys);
    forall i | 0 <= i < |hits|
      ensures KeysOf(hits[i].at) == keys && Reach(obj, hits[i].at) == Some(hits[i].obj)
      ensures forall k :: 0 <= k < |hits[i].at| ==> IsName(hits[i].at[k].key)
    {
      ReachedSound(obj, keys, hits[i]);
      assert forall k :: 0 <= k < |hits[i].at| ==> hits[i].at[k].key == KeysOf(hits[i].at)[k];
    }
    var points := PointsOf(start, hits);
    forall i, j | 0 <= i < j < |points|
      ensures points[i] != points[j]
    {
      if points[i] == points[j] {
        assert points[i][|start|..] == PrintPath(hits[i].at, hits[i].obj);
        assert points[j][|start|..] == PrintPath(hits[j].at, hits[j].obj);
        PrintPathInjective(hits[i].at, hits[i].obj, hits[j].at, hits[j].obj);
      }
    }
    forall at: seq<Pt> | Reach(obj, at).Some? && KeysOf(at) == keys
      ensures exists i :: 0 <= i < |hits| && hits[i].at == at
    {
      ReachedComplete(obj, at);
    }
  }
}
