/** Uploads put into the variables of a request (requests/request.go) and taken out again (queryer/files.go). */
module Files {
  import opened Prelude
  import opened Text

  datatype Upload = Upload(file: nat, fileName: string)

  datatype Value = Null | Scalar(text: string) | File(upload: Upload) | List(items: seq<Value>) | Map(entries: Vars)

  type Vars = map<string, Value>

  /** One step into a value: a key of a map or a position of a list. */
  datatype Crumb = Key(name: string) | Index(i: nat)

  function Inside(v: Value, c: Crumb): Option<Value> {
    match (v, c)
    case (Map(m), Key(k)) => if k in m then Some(m[k]) else None
    case (List(items), Index(i)) => if i < |items| then Some(items[i]) else None
    case (Map(_), Index(_)) => None
    case (List(_), Key(_)) => None
    case (Null, _) => None
    case (Scalar(_), _) => None
    case (File(_), _) => None
  }

  function ValueAt(v: Value, at: seq<Crumb>): Option<Value>
    decreases |at|
  {
    if at == [] then Some(v)
    else match Inside(v, at[0])
      case None => None
      case Some(w) => ValueAt(w, at[1..])
  }

  function WriteInside(v: Value, c: Crumb, w: Value): Value
    requires Inside(v, c).Some?
  {
    match c
    case Key(k) => Map(v.entries[k := w])
    case Index(i) => List(v.items[i := w])
  }

  function Write(v: Value, at: seq<Crumb>, w: Value): Value
    requires ValueAt(v, at).Some?
    decreases |at|
  {
    if at == [] then w else WriteInside(v, at[0], Write(Inside(v, at[0]).value, at[1..], w))
  }

  predicate Holds(v: Value, at: seq<Crumb>, u: Upload) {
    ValueAt(v, at) == Some(File(u))
  }

  /** The value with every upload replaced by null. */
  function Nulled(v: Value): Value
    decreases v
  {
    match v
    case File(_) => Null
    case Map(m) => Map(map k | k in m :: Nulled(m[k]))
    case List(items) => List(seq(|items|, i requires 0 <= i < |items| => Nulled(items[i])))
    case Null => v
    case Scalar(_) => v
  }

  function CrumbText(c: Crumb): string {
    match c
    case Key(k) => k
    case Index(i) => PrintNat(i)
  }

  function Texts(at: seq<Crumb>): (texts: seq<string>)
    ensures |texts| == |at|
  {
    seq(|at|, i requires 0 <= i < |at| => CrumbText(at[i]))
  }

  function PrintAt(at: seq<Crumb>): string {
    Join(Texts(at), '.')
  }

  lemma {:induction false} JoinSnoc(parts: seq<string>, last: string)
    requires parts != []
    ensures Join(parts + [last], '.') == Join(parts, '.') + "." + last
  {
    if |parts| > 1 {
      JoinSnoc(parts[1..], last);
      assert (parts + [last])[1..] == parts[1..] + [last];
      assert parts[0] + ['.'] + (Join(parts[1..], '.') + "." + last) == parts[0] + ['.'] + Join(parts[1..], '.') + "." + last;
    }
  }

  /** strconv.Atoi within 64 bits. */
  function Atoi(s: string): Result<int> {
    var digits := if s != "" && (s[0] == '-' || s[0] == '+') then s[1..] else s;
    if digits == "" || exists i :: 0 <= i < |digits| && !IsDigit(digits[i]) then Err("invalid syntax")
    else
      var n: int := NatValue(digits);
      var value := if s[0] == '-' then -n else n;
      if -0x8000_0000_0000_0000 <= value < 0x8000_0000_0000_0000 then Ok(value) else Err("value out of range")
  }

  /** The loop of injectFile over the parts that are left; a negative index, on which Go panics, is an error here. */
  function Inject(variables: Vars, parts: seq<string>, upload: Upload): Result<Vars>
    decreases |parts|
  {
    if parts == [] then Ok(variables)
    else if parts[0] !in variables then Err("key not found in variables")
    else match variables[parts[0]]
      case Map(v) =>
        var inner :- Inject(v, parts[1..], upload);
        Ok(variables[parts[0] := Map(inner)])
      case Null => Inject(variables[parts[0] := File(upload)], parts[1..], upload)
      case List(v) =>
        if |parts| < 2 then Err("invalid number of parts in path")
        else
          var index :- Atoi(parts[1]);
          if index >= |v| then Err("file index out of bound")
          else if index < 0 then Err("index out of range")
          else if v[index] != Null then Err("expected nil value")
          else Inject(variables[parts[0] := List(v[index := File(upload)])], parts[2..], upload)
      case Scalar(_) => Err("expected nil value")
      case File(_) => Err("expected nil value")
  }

  /** A path of injectFile: in batch mode the request's number comes first. */
  function InjectPath(requests: seq<Vars>, isBatchMode: bool, upload: Upload, path: string): Result<seq<Vars>> {
    var all := Split(path, '.');
    var idx :- if isBatchMode then Atoi(all[0]) else Ok(0);
    var parts := if isBatchMode then all[1..] else all;
    if parts == [] || parts[0] != "variables" then Err("missing keyword variables in path")
    else if |parts| < 2 then Err("invalid number of parts in path")
    else if !(0 <= idx < |requests|) then Err("index out of range")
    else
      var variables :- Inject(requests[idx], parts[1..], upload);
      Ok(requests[idx := variables])
  }

  /** A place a file may be put: a null reached through maps, or an entry of a list reached through maps. */
  ghost predicate Slot(v: Value, at: seq<Crumb>)
    decreases |at|
  {
    && v.Map? && at != []
    && at[0].Key? && '.' !in at[0].name && at[0].name in v.entries
    && match v.entries[at[0].name]
       case Map(m) => Slot(Map(m), at[1..])
       case Null => |at| == 1
       case List(items) => |at| == 2 && at[1].Index? && at[1].i < |items| && items[at[1].i] == Null
       case Scalar(_) => false
       case File(_) => false
  }

  lemma {:induction false} SlotIsNull(v: Value, at: seq<Crumb>)
    requires Slot(v, at)
    ensures ValueAt(v, at) == Some(Null)
    decreases |at|
  {
    match v.entries[at[0].name]
    case Map(m) => SlotIsNull(Map(m), at[1..]);
    case Null =>
    case List(items) => EntryAt(items, at[1..]);
  }

  lemma {:induction false} EntryAt(items: seq<Value>, at: seq<Crumb>)
    requires |at| == 1 && at[0].Index? && at[0].i < |items|
    ensures ValueAt(List(items), at) == Some(items[at[0].i])
    ensures forall w :: Write(List(items), at, w) == List(items[at[0].i := w])
  {
    assert at[1..] == [];
  }

  lemma {:induction false} AtoiOfPrint(n: nat)
    requires n < 0x8000_0000_0000_0000
    ensures Atoi(PrintNat(n)) == Ok(n)
  {
    NatValueOfPrint(n);
    assert IsDigit(PrintNat(n)[0]);
  }

  /** Positions fit a Go int. */
  ghost predicate Small(at: seq<Crumb>) {
    forall k :: 0 <= k < |at| && at[k].Index? ==> at[k].i < 0x8000_0000_0000_0000
  }

  /** Injecting along a slot's path writes the file there and nothing else. */
  lemma {:induction false} InjectWrites(m: Vars, at: seq<Crumb>, u: Upload)
    requires Slot(Map(m), at) && Small(at)
    ensures ValueAt(Map(m), at).Some?
    ensures Write(Map(m), at, File(u)).Map?
    ensures Inject(m, Texts(at), u) == Ok(Write(Map(m), at, File(u)).entries)
    decreases |at|
  {
    SlotIsNull(Map(m), at);
    var texts := Texts(at);
    assert texts[0] == at[0].name && texts[1..] == Texts(at[1..]);
    match m[at[0].name]
    case Map(inner) => InjectWrites(inner, at[1..], u);
    case Null => assert texts[1..] == [];
    case List(items) =>
      EntryAt(items, at[1..]);
      assert texts[1] == PrintNat(at[1].i) && texts[2..] == [];
      AtoiOfPrint(at[1].i);
  }

  lemma {:induction false} WriteKeepsNulled(v: Value, at: seq<Crumb>, u: Upload)
    requires ValueAt(v, at) == Some(Null)
    ensures Nulled(Write(v, at, File(u))) == Nulled(v)
    decreases |at|
  {
    if at != [] {
      WriteKeepsNulled(Inside(v, at[0]).value, at[1..], u);
      if v.List? {
        assert Nulled(Write(v, at, File(u))).items == Nulled(v).items;
      }
    }
  }

  /** After the write the file is at its place, and everywhere else there are the files that were there. */
  lemma {:induction false} WriteHolds(v: Value, at: seq<Crumb>, u: Upload, b: seq<Crumb>, w: Upload)
    requires ValueAt(v, at) == Some(Null)
    ensures Holds(Write(v, at, File(u)), b, w) <==> (b == at && w == u) || Holds(v, b, w)
    ensures b != at && ValueAt(v, b) == Some(Null) ==> ValueAt(Write(v, at, File(u)), b) == Some(Null)
    decreases |at|
  {
    if at != [] {
      var inner := Inside(v, at[0]).value;
      InsideWritten(v, at[0], Write(inner, at[1..], File(u)));
      if b != [] && b[0] == at[0] {
        assert b == [b[0]] + b[1..] && at == [at[0]] + at[1..];
        WriteHolds(inner, at[1..], u, b[1..], w);
      }
    }
  }

  lemma InsideWritten(v: Value, c: Crumb, w: Value)
    requires Inside(v, c).Some?
    ensures forall d :: Inside(WriteInside(v, c, w), d) == if d == c then Some(w) else Inside(v, d)
  {
  }

  /** Another slot is still one after the write. */
  lemma {:induction false} SlotStays(v: Value, at: seq<Crumb>, u: Upload, b: seq<Crumb>)
    requires Slot(v, at) && Slot(v, b) && at != b && ValueAt(v, at).Some?
    ensures Slot(Write(v, at, File(u)), b)
    decreases |at|
  {
    if b[0] == at[0] {
      assert b == [b[0]] + b[1..] && at == [at[0]] + at[1..];
      var name := at[0].name;
      match v.entries[name]
      case Map(m) => SlotStays(Map(m), at[1..], u, b[1..]);
      case List(items) =>
        assert at[1..] == [at[1]] && b[1..] == [b[1]];
        assert at[1..][1..] == [];
      case Null =>
    }
  }

  /** The state after the first n files of a request have been put in. */
  ghost predicate Filled(before: Value, places: seq<seq<Crumb>>, uploads: seq<Upload>, n: nat, after: Value)
    requires n <= |places| == |uploads|
  {
    && after.Map?
    && Nulled(after) == Nulled(before)
    && (forall b, w :: Holds(after, b, w) <==> Holds(before, b, w) || exists i :: 0 <= i < n && b == places[i] && w == uploads[i])
    && (forall i :: n <= i < |places| ==> Slot(after, places[i]))
  }

  lemma {:induction false} FilledOneMore(before: Value, places: seq<seq<Crumb>>, uploads: seq<Upload>, n: nat, after: Value)
    requires n < |places| == |uploads| && Distinct(places) && Filled(before, places, uploads, n, after)
    ensures ValueAt(after, places[n]).Some?
    ensures Filled(before, places, uploads, n + 1, Write(after, places[n], File(uploads[n])))
  {
    var at, u := places[n], uploads[n];
    SlotIsNull(after, at);
    WriteKeepsNulled(after, at, u);
    var next := Write(after, at, File(u));
    forall b, w
      ensures Holds(next, b, w) <==> Holds(before, b, w) || exists i :: 0 <= i < n + 1 && b == places[i] && w == uploads[i]
    {
      WriteHolds(after, at, u, b, w);
    }
    forall i | n + 1 <= i < |places|
      ensures Slot(next, places[i])
    {
      SlotStays(after, at, u, places[i]);
    }
  }

  datatype UploadMapItem = UploadMapItem(upload: Upload, positions: seq<string>)

  ghost predicate IsItem(v: Value, base: seq<Crumb>, at: seq<Crumb>, item: UploadMapItem) {
    exists u :: Holds(v, at, u) && item == UploadMapItem(u, ["variables." + PrintAt(base + at)])
  }

  /** The uploads of a value, each once, under the text of its place. */
  ghost predicate Found(v: Value, base: seq<Crumb>, items: seq<UploadMapItem>, ats: seq<seq<Crumb>>) {
    && |items| == |ats| && Distinct(ats)
    && (forall i :: 0 <= i < |ats| ==> IsItem(v, base, ats[i], items[i]))
    && (forall at, u :: Holds(v, at, u) ==> at in ats)
  }

  /** The same for the parts of a container that have been visited. */
  ghost predicate FoundIn(v: Value, visited: set<Crumb>, base: seq<Crumb>, items: seq<UploadMapItem>, ats: seq<seq<Crumb>>) {
    && |items| == |ats| && Distinct(ats)
    && (forall i :: 0 <= i < |ats| ==> ats[i] != [] && ats[i][0] in visited && IsItem(v, base, ats[i], items[i]))
    && (forall at, u :: at != [] && at[0] in visited && Holds(v, at, u) ==> at in ats)
  }

  function Prefixed(c: Crumb, ats: seq<seq<Crumb>>): (r: seq<seq<Crumb>>)
    ensures |r| == |ats|
  {
    seq(|ats|, i requires 0 <= i < |ats| => [c] + ats[i])
  }

  lemma PrefixedDistinct(c: Crumb, ats: seq<seq<Crumb>>)
    requires Distinct(ats)
    ensures Distinct(Prefixed(c, ats))
  {
    forall i, j | 0 <= i < j < |ats|
      ensures Prefixed(c, ats)[i] != Prefixed(c, ats)[j]
    {
      assert ([c] + ats[i])[1..] == ats[i] && ([c] + ats[j])[1..] == ats[j];
    }
  }

  lemma PrefixedItem(v: Value, c: Crumb, w: Value, base: seq<Crumb>, at: seq<Crumb>, item: UploadMapItem)
    requires Inside(v, c) == Some(w) && IsItem(w, base + [c], at, item)
    ensures IsItem(v, base, [c] + at, item)
  {
    var u :| Holds(w, at, u) && item == UploadMapItem(u, ["variables." + PrintAt(base + [c] + at)]);
    assert base + [c] + at == base + ([c] + at);
    assert ([c] + at)[1..] == at;
    assert Holds(v, [c] + at, u);
  }

  lemma StepDistinct(ats: seq<seq<Crumb>>, visited: set<Crumb>, c: Crumb, below: seq<seq<Crumb>>)
    requires Distinct(ats) && Distinct(below) && c !in visited
    requires forall i :: 0 <= i < |ats| ==> ats[i] != [] && ats[i][0] in visited
    ensures Distinct(ats + Prefixed(c, below))
  {
    PrefixedDistinct(c, below);
    var new_ := Prefixed(c, below);
    assert forall i :: 0 <= i < |new_| ==> new_[i][0] == c;
  }

  lemma StepCovers(w: Value, c: Crumb, below: seq<seq<Crumb>>, v: Value, at: seq<Crumb>, u: Upload)
    requires Inside(v, c) == Some(w) && at != [] && at[0] == c && Holds(v, at, u)
    requires forall b, x :: Holds(w, b, x) ==> b in below
    ensures at in Prefixed(c, below)
  {
    assert Holds(w, at[1..], u);
    var i :| 0 <= i < |below| && below[i] == at[1..];
    assert at == [c] + at[1..] == Prefixed(c, below)[i];
  }

  /** One more part visited. */
  lemma FoundStep(v: Value, visited: set<Crumb>, base: seq<Crumb>, items: seq<UploadMapItem>, ats: seq<seq<Crumb>>,
                  c: Crumb, w: Value, more: seq<UploadMapItem>, below: seq<seq<Crumb>>)
    requires FoundIn(v, visited, base, items, ats) && c !in visited
    requires Inside(v, c) == Some(w) && Found(w, base + [c], more, below)
    ensures FoundIn(v, visited + {c}, base, items + more, ats + Prefixed(c, below))
  {
    var new_ := Prefixed(c, below);
    StepDistinct(ats, visited, c, below);
    StepItems(v, base, c, w, more, below);
    forall i | 0 <= i < |ats + new_|
      ensures (ats + new_)[i] != [] && (ats + new_)[i][0] in visited + {c} && IsItem(v, base, (ats + new_)[i], (items + more)[i])
    {
    }
    forall at, u | at != [] && at[0] in visited + {c} && Holds(v, at, u)
      ensures at in ats + new_
    {
      if at[0] == c {
        StepCovers(w, c, below, v, at, u);
      }
    }
  }

  lemma StepItems(v: Value, base: seq<Crumb>, c: Crumb, w: Value, more: seq<UploadMapItem>, below: seq<seq<Crumb>>)
    requires Inside(v, c) == Some(w) && Found(w, base + [c], more, below)
    ensures forall i :: 0 <= i < |below| ==>
              Prefixed(c, below)[i] != [] && Prefixed(c, below)[i][0] == c && IsItem(v, base, Prefixed(c, below)[i], more[i])
  {
    forall i | 0 <= i < |below|
      ensures IsItem(v, base, [c] + below[i], more[i])
    {
      PrefixedItem(v, c, w, base, below[i], more[i]);
    }
  }

  /** A map with the values of some keys still to be visited. */
  ghost predicate Midway(m: Vars, left: set<string>, visited: set<Crumb>, val: Vars) {
    && left <= m.Keys == val.Keys
    && visited == (set k | k in m && k !in left :: Key(k))
    && forall k :: k in m ==> val[k] == if k in left then m[k] else Nulled(m[k])
  }

  lemma OneMoreKey(m: Vars, left: set<string>, visited: set<Crumb>, val: Vars, k: string)
    requires Midway(m, left, visited, val) && k in left
    ensures Key(k) !in visited
    ensures Midway(m, left - {k}, visited + {Key(k)}, val[k := Nulled(m[k])])
  {
  }

  /** A list with the values from position i on still to be visited. */
  ghost predicate MidwayList(list: seq<Value>, i: nat, visited: set<Crumb>, val: seq<Value>) {
    && i <= |list| == |val|
    && visited == (set j | 0 <= j < i :: Index(j))
    && forall j :: 0 <= j < |list| ==> val[j] == if j < i then Nulled(list[j]) else list[j]
  }

  lemma OneMorePosition(list: seq<Value>, i: nat, visited: set<Crumb>, val: seq<Value>)
    requires MidwayList(list, i, visited, val) && i < |list|
    ensures Index(i) !in visited
    ensures MidwayList(list, i + 1, visited + {Index(i)}, val[i := Nulled(list[i])])
  {
  }

  lemma AllPositions(list: seq<Value>, visited: set<Crumb>, val: seq<Value>)
    requires MidwayList(list, |list|, visited, val)
    ensures List(val) == Nulled(List(list))
    ensures forall c :: Inside(List(list), c).Some? ==> c in visited
  {
    assert val == Nulled(List(list)).items;
  }

  lemma AllKeys(m: Vars, visited: set<Crumb>, val: Vars)
    requires Midway(m, {}, visited, val)
    ensures Map(val) == Nulled(Map(m))
    ensures forall c :: Inside(Map(m), c).Some? ==> c in visited
  {
  }

  lemma FoundEverywhere(v: Value, visited: set<Crumb>, base: seq<Crumb>, items: seq<UploadMapItem>, ats: seq<seq<Crumb>>)
    requires FoundIn(v, visited, base, items, ats) && !v.File? && forall c :: Inside(v, c).Some? ==> c in visited
    ensures Found(v, base, items, ats)
  {
  }

  /** What stands before a part's own text: nothing for a variable, the path and a dot for everything below. */
  function Prefix(base: seq<Crumb>): string {
    if base == [] then "" else PrintAt(base) + "."
  }

  lemma PrintBelow(base: seq<Crumb>, c: Crumb)
    ensures PrintAt(base + [c]) == Prefix(base) + CrumbText(c)
  {
    if base == [] {
      assert Texts(base + [c]) == [CrumbText(c)];
      return;
    }
    assert Texts(base + [c]) == Texts(base) + [CrumbText(c)];
    JoinSnoc(Texts(base), CrumbText(c));
  }

  class UploadMap {
    var items: seq<UploadMapItem>

    constructor ()
      ensures items == []
    {
      items := [];
    }

    method Add(upload: Upload, varName: string)
      modifies this
      ensures items == old(items) + [UploadMapItem(upload, ["variables." + varName])]
    {
      items := items + [UploadMapItem(upload, ["variables." + varName])];
    }

    /** extract: the uploads of a value are added, and nulled wherever a map or list holds them. */
    method Extract(value: Value, path: string, ghost base: seq<Crumb>) returns (rest: Value,
                   ghost more: seq<UploadMapItem>, ghost ats: seq<seq<Crumb>>)
      requires base != [] && path == PrintAt(base)
      modifies this
      ensures items == old(items) + more && Found(value, base, more, ats)
      ensures rest == if value.File? then value else Nulled(value)
      decreases value
    {
      rest, more, ats := value, [], [];
      match value
      case File(upload) =>
        Add(upload, path);
        more, ats := [UploadMapItem(upload, ["variables." + path])], [[]];
        assert base + [] == base;
        assert Holds(value, [], upload);
      case Map(m) => rest, more, ats := ExtractMap(m, path + ".", base);
      case List(list) => rest, more, ats := ExtractList(list, path + ".", base);
      case Null =>
      case Scalar(_) =>
    }

    /** The entries of a map, in any order. */
    method ExtractMap(m: Vars, prefix: string, ghost base: seq<Crumb>) returns (rest: Value,
                      ghost more: seq<UploadMapItem>, ghost ats: seq<seq<Crumb>>)
      requires prefix == Prefix(base)
      modifies this
      ensures items == old(items) + more && Found(Map(m), base, more, ats)
      ensures rest == Nulled(Map(m))
      decreases Map(m), 0
    {
      var val := m;
      more, ats := [], [];
      var left := m.Keys;
      ghost var visited: set<Crumb> := {};
      while left != {}
        invariant Midway(m, left, visited, val)
        invariant items == old(items) + more && FoundIn(Map(m), visited, base, more, ats)
        decreases left
      {
        var k :| k in left;
        OneMoreKey(m, left, visited, val, k);
        left := left - {k};
        PrintBelow(base, Key(k));
        var inner;
        ghost var found, under;
        inner, found, under := Extract(m[k], prefix + k, base + [Key(k)]);
        FoundStep(Map(m), visited, base, more, ats, Key(k), m[k], found, under);
        Regroup(old(items), more, found);
        val := val[k := if m[k].File? then Null else inner];
        more, ats, visited := more + found, ats + Prefixed(Key(k), under), visited + {Key(k)};
      }
      AllKeys(m, visited, val);
      FoundEverywhere(Map(m), visited, base, more, ats);
      rest := Map(val);
    }

    /** The elements of a list. */
    method ExtractList(list: seq<Value>, prefix: string, ghost base: seq<Crumb>) returns (rest: Value,
                       ghost more: seq<UploadMapItem>, ghost ats: seq<seq<Crumb>>)
      requires prefix == Prefix(base)
      modifies this
      ensures items == old(items) + more && Found(List(list), base, more, ats)
      ensures rest == Nulled(List(list))
      decreases List(list), 0
    {
      var val := list;
      more, ats := [], [];
      ghost var visited: set<Crumb> := {};
      for i := 0 to |list|
        invariant MidwayList(list, i, visited, val)
        invariant items == old(items) + more && FoundIn(List(list), visited, base, more, ats)
      {
        OneMorePosition(list, i, visited, val);
        PrintBelow(base, Index(i));
        var inner;
        ghost var found, under;
        inner, found, under := Extract(list[i], prefix + PrintNat(i), base + [Index(i)]);
        FoundStep(List(list), visited, base, more, ats, Index(i), list[i], found, under);
        Regroup(old(items), more, found);
        val := val[i := if list[i].File? then Null else inner];
        more, ats, visited := more + found, ats + Prefixed(Index(i), under), visited + {Index(i)};
      }
      AllPositions(list, visited, val);
      FoundEverywhere(List(list), visited, base, more, ats);
      rest := List(val);
    }
  }

  /** extractFiles. */
  method ExtractFiles(variables: Vars) returns (uploadMap: UploadMap, rest: Vars, ghost ats: seq<seq<Crumb>>)
    ensures fresh(uploadMap)
    ensures Found(Map(variables), [], uploadMap.items, ats)
    ensures Map(rest) == Nulled(Map(variables))
  {
    uploadMap := new UploadMap();
    ghost var more;
    var nulled;
    nulled, more, ats := uploadMap.ExtractMap(variables, "", []);
    rest := nulled.entries;
  }

  /** One upload put at all its paths. */
  function InjectPaths(requests: seq<Vars>, isBatchMode: bool, upload: Upload, paths: seq<string>): Result<seq<Vars>> {
    if paths == [] then Ok(requests)
    else
      var before :- InjectPaths(requests, isBatchMode, upload, paths[..|paths| - 1]);
      InjectPath(before, isBatchMode, upload, paths[|paths| - 1])
  }

  lemma {:induction false} FirstInjectError(requests: seq<Vars>, isBatchMode: bool, upload: Upload, paths: seq<string>, n: nat)
    requires n <= |paths| && InjectPaths(requests, isBatchMode, upload, paths[..n]).Err?
    ensures InjectPaths(requests, isBatchMode, upload, paths).Err?
    decreases |paths| - n
  {
    if n == |paths| {
      assert paths[..n] == paths;
    } else {
      assert paths[..n + 1][..n] == paths[..n];
      FirstInjectError(requests, isBatchMode, upload, paths, n + 1);
    }
  }

  class ParseRequestResponse {
    var requests: seq<Vars>
    const isBatchMode: bool

    constructor (requests: seq<Vars>, isBatchMode: bool)
      ensures this.requests == requests && this.isBatchMode == isBatchMode
    {
      this.requests := requests;
      this.isBatchMode := isBatchMode;
    }

    /** After an error the requests are not used. */
    method InjectFile(upload: Upload, paths: seq<string>) returns (err: Option<string>)
      modifies this
      ensures err.None? ==> InjectPaths(old(requests), isBatchMode, upload, paths) == Ok(requests)
      ensures err.Some? ==> InjectPaths(old(requests), isBatchMode, upload, paths).Err?
    {
      for i := 0 to |paths|
        invariant InjectPaths(old(requests), isBatchMode, upload, paths[..i]) == Ok(requests)
      {
        assert paths[..i + 1][..i] == paths[..i];
        var injected := InjectPath(requests, isBatchMode, upload, paths[i]);
        if injected.Err? {
          FirstInjectError(old(requests), isBatchMode, upload, paths, i + 1);
          return Some(injected.reason);
        }
        requests := injected.value;
      }
      assert paths[..|paths|] == paths;
      return None;
    }
  }

  /** The path of a place, with the request's number in front in batch mode. */
  function PathOf(isBatchMode: bool, idx: nat, at: seq<Crumb>): string {
    Join((if isBatchMode then [PrintNat(idx)] else []) + ["variables"] + Texts(at), '.')
  }

  lemma {:induction false} SlotTexts(v: Value, at: seq<Crumb>)
    requires Slot(v, at)
    ensures forall i :: 0 <= i < |at| ==> '.' !in Texts(at)[i]
    decreases |at|
  {
    forall i | 0 <= i < |at|
      ensures '.' !in Texts(at)[i]
    {
      if i > 0 {
        match v.entries[at[0].name]
        case Map(m) =>
          SlotTexts(Map(m), at[1..]);
          assert Texts(at)[i] == Texts(at[1..])[i - 1];
        case List(items) => assert at[i] == at[1] && '.' !in PrintNat(at[1].i);
        case Null =>
      }
    }
  }

  /** A slot's path puts the file into its request, in single and in batch mode. */
  lemma {:induction false} PathWrites(requests: seq<Vars>, isBatchMode: bool, idx: nat, at: seq<Crumb>, u: Upload)
    requires idx < |requests| && (!isBatchMode ==> idx == 0) && idx < 0x8000_0000_0000_0000
    requires Slot(Map(requests[idx]), at) && Small(at)
    ensures ValueAt(Map(requests[idx]), at).Some? && Write(Map(requests[idx]), at, File(u)).Map?
    ensures InjectPath(requests, isBatchMode, u, PathOf(isBatchMode, idx, at))
            == Ok(requests[idx := Write(Map(requests[idx]), at, File(u)).entries])
  {
    InjectWrites(requests[idx], at, u);
    SlotTexts(Map(requests[idx]), at);
    PathParts(isBatchMode, idx, at);
  }

  lemma PathParts(isBatchMode: bool, idx: nat, at: seq<Crumb>)
    requires at != [] && idx < 0x8000_0000_0000_0000 && forall i :: 0 <= i < |at| ==> '.' !in Texts(at)[i]
    ensures var all := Split(PathOf(isBatchMode, idx, at), '.');
            var parts := if isBatchMode then all[1..] else all;
            && |parts| == 1 + |at| && parts[0] == "variables" && parts[1..] == Texts(at)
            && (isBatchMode ==> Atoi(all[0]) == Ok(idx))
  {
    var parts := (if isBatchMode then [PrintNat(idx)] else []) + ["variables"] + Texts(at);
    assert '.' !in "variables" && '.' !in PrintNat(idx);
    SplitJoin(parts, '.');
    AtoiOfPrint(idx);
    var rest := if isBatchMode then parts[1..] else parts;
    assert rest == ["variables"] + Texts(at);
  }

  /** Several uploads put into one request, each at its own place. */
  function InjectAll(requests: seq<Vars>, isBatchMode: bool, idx: nat, places: seq<seq<Crumb>>,
                     uploads: seq<Upload>): Result<seq<Vars>>
    requires |places| == |uploads|
  {
    if places == [] then Ok(requests)
    else
      var before :- InjectAll(requests, isBatchMode, idx, places[..|places| - 1], uploads[..|uploads| - 1]);
      InjectPaths(before, isBatchMode, uploads[|uploads| - 1], [PathOf(isBatchMode, idx, places[|places| - 1])])
  }

  ghost predicate Placeable(variables: Vars, places: seq<seq<Crumb>>, uploads: seq<Upload>) {
    && |places| == |uploads| && Distinct(places)
    && forall i :: 0 <= i < |places| ==> Slot(Map(variables), places[i]) && Small(places[i])
  }

  lemma {:induction false} AllInjected(requests: seq<Vars>, isBatchMode: bool, idx: nat, places: seq<seq<Crumb>>,
                                       uploads: seq<Upload>, n: nat)
    requires idx < |requests| && (!isBatchMode ==> idx == 0) && idx < 0x8000_0000_0000_0000
    requires Placeable(requests[idx], places, uploads) && n <= |places|
    ensures var r := InjectAll(requests, isBatchMode, idx, places[..n], uploads[..n]);
            && r.Ok? && |r.value| == |requests|
            && (forall j :: 0 <= j < |requests| && j != idx ==> r.value[j] == requests[j])
            && Filled(Map(requests[idx]), places, uploads, n, Map(r.value[idx]))
  {
    if n > 0 {
      AllInjected(requests, isBatchMode, idx, places, uploads, n - 1);
      var before := InjectAll(requests, isBatchMode, idx, places[..n - 1], uploads[..n - 1]).value;
      assert places[..n][..n - 1] == places[..n - 1] && uploads[..n][..n - 1] == uploads[..n - 1];
      OneInjected(Map(requests[idx]), before, isBatchMode, idx, places, uploads, n - 1);
    }
  }

  lemma {:induction false} OneInjected(start: Value, requests: seq<Vars>, isBatchMode: bool, idx: nat,
                                       places: seq<seq<Crumb>>, uploads: seq<Upload>, n: nat)
    requires idx < |requests| && (!isBatchMode ==> idx == 0) && idx < 0x8000_0000_0000_0000
    requires n < |places| == |uploads| && Distinct(places) && Small(places[n])
    requires Filled(start, places, uploads, n, Map(requests[idx]))
    ensures var r := InjectPaths(requests, isBatchMode, uploads[n], [PathOf(isBatchMode, idx, places[n])]);
            && r.Ok? && |r.value| == |requests|
            && (forall j :: 0 <= j < |requests| && j != idx ==> r.value[j] == requests[j])
            && Filled(start, places, uploads, n + 1, Map(r.value[idx]))
  {
    var path := PathOf(isBatchMode, idx, places[n]);
    assert [path][..0] == [];
    PathWrites(requests, isBatchMode, idx, places[n], uploads[n]);
    FilledOneMore(start, places, uploads, n, Map(requests[idx]));
  }

  lemma {:induction false} NulledSame(v: Value)
    requires forall at, u :: !Holds(v, at, u)
    ensures Nulled(v) == v
    decreases v
  {
    match v
    case File(u) => assert Holds(v, [], u);
    case Map(m) =>
      forall k | k in m
        ensures Nulled(m[k]) == m[k]
      {
        NoneInside(v, Key(k));
        NulledSame(m[k]);
      }
      assert Nulled(v).entries == m;
    case List(items) =>
      forall i | 0 <= i < |items|
        ensures Nulled(items[i]) == items[i]
      {
        NoneInside(v, Index(i));
        NulledSame(items[i]);
      }
      assert Nulled(v).items == items;
    case Null =>
    case Scalar(_) =>
  }

  lemma NoneInside(v: Value, c: Crumb)
    requires Inside(v, c).Some? && forall at, u :: !Holds(v, at, u)
    ensures forall at, u :: !Holds(Inside(v, c).value, at, u)
  {
    forall at, u
      ensures !Holds(Inside(v, c).value, at, u)
    {
      assert ([c] + at)[1..] == at;
      assert !Holds(v, [c] + at, u);
    }
  }

  /**
   * The round trip: uploads injected at distinct null places of a request without files, and then extracted in any
   * order, come back as exactly those uploads under exactly those paths, and the variables are as they were.
   */
  lemma {:induction false} RoundTrip(requests: seq<Vars>, isBatchMode: bool, idx: nat, places: seq<seq<Crumb>>,
                                     uploads: seq<Upload>,
                  items: seq<UploadMapItem>, ats: seq<seq<Crumb>>)
    requires idx < |requests| && (!isBatchMode ==> idx == 0) && idx < 0x8000_0000_0000_0000
    requires Placeable(requests[idx], places, uploads)
    requires forall at, u :: !Holds(Map(requests[idx]), at, u)
    requires InjectAll(requests, isBatchMode, idx, places, uploads).Ok? ==>
               var injected := InjectAll(requests, isBatchMode, idx, places, uploads).value;
               idx < |injected| ==> Found(Map(injected[idx]), [], items, ats)
    ensures var r := InjectAll(requests, isBatchMode, idx, places, uploads);
            r.Ok? && |r.value| == |requests| && Nulled(Map(r.value[idx])) == Map(requests[idx])
    ensures |items| == |places|
    ensures forall i :: 0 <= i < |places| ==> UploadMapItem(uploads[i], ["variables." + PrintAt(places[i])]) in items
    ensures forall item :: item in items ==> exists i :: 0 <= i < |places| && item == UploadMapItem(uploads[i], ["variables." + PrintAt(places[i])])
  {
    var n := |places|;
    assert places[..n] == places && uploads[..n] == uploads;
    AllInjected(requests, isBatchMode, idx, places, uploads, n);
    var after := Map(InjectAll(requests, isBatchMode, idx, places, uploads).value[idx]);
    NulledSame(Map(requests[idx]));
    SamePlaces(Map(requests[idx]), places, uploads, after, items, ats);
  }

  lemma SamePlaces(before: Value, places: seq<seq<Crumb>>, uploads: seq<Upload>, after: Value,
                   items: seq<UploadMapItem>, ats: seq<seq<Crumb>>)
    requires |places| == |uploads| && Distinct(places) && Filled(before, places, uploads, |places|, after)
    requires Found(after, [], items, ats)
    requires forall at, u :: !Holds(before, at, u)
    ensures |items| == |places|
    ensures forall i :: 0 <= i < |places| ==> UploadMapItem(uploads[i], ["variables." + PrintAt(places[i])]) in items
    ensures forall item :: item in items ==> exists i :: 0 <= i < |places| && item == UploadMapItem(uploads[i], ["variables." + PrintAt(places[i])])
  {
    forall i | 0 <= i < |places|
      ensures places[i] in ats
      ensures UploadMapItem(uploads[i], ["variables." + PrintAt(places[i])]) in items
    {
      assert Holds(after, places[i], uploads[i]);
      var j :| 0 <= j < |ats| && ats[j] == places[i];
      assert IsItem(after, [], ats[j], items[j]);
      assert [] + ats[j] == ats[j];
    }
    forall j | 0 <= j < |ats|
      ensures exists i :: 0 <= i < |places| && ats[j] == places[i] && items[j] == UploadMapItem(uploads[i], ["variables." + PrintAt(places[i])])
    {
      assert IsItem(after, [], ats[j], items[j]);
      assert [] + ats[j] == ats[j];
    }
    SameBag(ats, places);
    assert |multiset(ats)| == |multiset(places)|;
  }
}
