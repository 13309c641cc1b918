/** executor/point_data.go and isListElement of executor/utils.go: insertion points as text `field:index#id`. */
module Points {
  import opened Prelude
  import opened Text

  /** What one textual point says; index -1 and the empty id stand for a missing part. */
  datatype PointData = PointData(field: string, index: int, id: string)

  /** A GraphQL name, section 2.1.9 of the GraphQL specification, October 2021. */
  predicate IsName(s: string) {
    s != "" && !IsDigit(s[0]) && forall i :: 0 <= i < |s| ==> IsNameChar(s[i])
  }

  predicate IsNameChar(c: char) {
    c == '_' || 'a' <= c <= 'z' || 'A' <= c <= 'Z' || IsDigit(c)
  }

  function Decode(point: string): Result<PointData> {
    var idData := Split(point, '#');
    var id := if '#' in point && |idData| == 2 then idData[1] else "";
    var field := if '#' in point then idData[0] else point;
    if ':' in field then
      var indexData := Split(field, ':');
      SplitWhole(field, ':');
      var index :- ParseIndex(indexData[1]);
      Ok(PointData(indexData[0], index, id))
    else
      Ok(PointData(field, -1, id))
  }

  predicate IsListElement(point: string) {
    var hash := Position(point, '#');
    ':' in (if 0 < hash < |point| then point[..hash] else point)
  }

  /** The text FindInsertionPoints prints for a response key, an optional list index and an optional id. */
  function Print(field: string, index: Option<nat>, id: Option<string>): string {
    PrintStem(field, index) + (match id case None => "" case Some(t) => "#" + t)
  }

  function PrintStem(field: string, index: Option<nat>): string {
    field + (match index case None => "" case Some(n) => ":" + PrintNat(n))
  }

  lemma StemHasNoHash(field: string, index: Option<nat>)
    requires IsName(field)
    ensures '#' !in PrintStem(field, index) && PrintStem(field, index) != ""
    ensures ':' in PrintStem(field, index) <==> index.Some?
  {
    assert '#' !in field && ':' !in field;
    if index.Some? {
      var stem := PrintStem(field, index);
      assert stem[|field|] == ':';
      assert forall i :: |field| < i < |stem| ==> stem[i] == PrintNat(index.value)[i - |field| - 1];
    }
  }

  lemma StemDecodes(field: string, index: Option<nat>)
    requires IsName(field)
    ensures index.Some? ==> Split(PrintStem(field, index), ':') == [field, PrintNat(index.value)]
    ensures index.Some? ==> ParseIndex(PrintNat(index.value)) == if index.value < MAX_INDEX then Ok(index.value) else Err("invalid index")
  {
    assert ':' !in field;
    if index.Some? {
      var digits := PrintNat(index.value);
      NatValueOfPrint(index.value);
      assert PrintStem(field, index) == field + [':'] + digits;
      SplitFirst(field, ':', digits);
      SplitWhole(digits, ':');
    }
  }

  /**
   * What decoding a printed point gives, for every id and index: the same field always, the same index below
   * 2^31 and an error from there on, and the same id exactly when the id holds no '#'.
   */
  lemma DecodePrint(field: string, index: Option<nat>, id: Option<string>)
    requires IsName(field)
    ensures IsListElement(Print(field, index, id)) <==> index.Some?
    ensures Decode(Print(field, index, id)) ==
            if index.Some? && index.value >= MAX_INDEX then Err("invalid index")
            else Ok(PointData(
                      field,
                      if index.Some? then index.value else -1,
                      if id.Some? && '#' !in id.value then id.value else ""))
  {
    var stem := PrintStem(field, index);
    var point := Print(field, index, id);
    StemHasNoHash(field, index);
    DecodeStem(field, index);
    if id.Some? {
      assert point == stem + "#" + id.value;
      ListElementAfterStem(stem, id.value);
      DecodeAfterStem(stem, id.value);
    } else {
      assert point == stem;
    }
  }

  lemma ListElementAfterStem(stem: string, id: string)
    requires stem != "" && '#' !in stem
    ensures IsListElement(stem + "#" + id) <==> ':' in stem
  {
    var point := stem + ['#'] + id;
    assert point == stem + "#" + id;
    PositionAfter(stem, '#', id);
    assert point[..|stem|] == stem;
  }

  lemma DecodeStem(field: string, index: Option<nat>)
    requires IsName(field)
    ensures Decode(PrintStem(field, index)) ==
            if index.Some? && index.value >= MAX_INDEX then Err("invalid index")
            else Ok(PointData(field, if index.Some? then index.value else -1, ""))
  {
    StemHasNoHash(field, index);
    StemDecodes(field, index);
    if index.None? {
      assert PrintStem(field, index) == field;
    }
  }

  lemma DecodeAfterStem(stem: string, id: string)
    requires '#' !in stem
    ensures Decode(stem + "#" + id) ==
            var r := Decode(stem);
            if r.Err? then r else Ok(r.value.(id := if '#' in id then "" else id))
  {
    var point := stem + ['#'] + id;
    assert point == stem + "#" + id;
    assert point[|stem|] == '#';
    SplitFirst(stem, '#', id);
    SplitWhole(id, '#');
    assert '#' in point;
    assert Split(point, '#')[0] == stem;
  }

  /** Distinct triples never print alike: the whole encoding is injective, whatever the ids hold. */
  lemma PrintInjective(f1: string, i1: Option<nat>, id1: Option<string>, f2: string, i2: Option<nat>, id2: Option<string>)
    requires IsName(f1) && IsName(f2)
    requires Print(f1, i1, id1) == Print(f2, i2, id2)
    ensures f1 == f2 && i1 == i2 && id1 == id2
  {
    var s1, s2 := PrintStem(f1, i1), PrintStem(f2, i2);
    var p := Print(f1, i1, id1);
    StemHasNoHash(f1, i1);
    StemHasNoHash(f2, i2);
    assert id1.Some? ==> p == s1 + ['#'] + id1.value && p[|s1|] == '#';
    assert id2.Some? ==> p == s2 + ['#'] + id2.value && p[|s2|] == '#';
    if id1.Some? {
      PositionAfter(s1, '#', id1.value);
    }
    if id2.Some? {
      PositionAfter(s2, '#', id2.value);
    }
    assert s1 == p[..|s1|] && s2 == p[..|s2|];
    assert s1 == s2;
    assert id1.Some? ==> id1.value == p[|s1| + 1..];
    assert id2.Some? ==> id2.value == p[|s2| + 1..];
    StemDecodes(f1, i1);
    StemDecodes(f2, i2);
    if i1.Some? {
      PrintNatInjective(i1.value, i2.value);
    } else {
      assert s1 == f1 && s2 == f2;
    }
  }

  /** The separator of the cache's keys: U+2764, U+FE0F. */
  const HEART: string := "\U{2764}\U{FE0F}"

  /** The text under which the insertion points of a target path are remembered. */
  function CacheKey(path: seq<string>): string {
    if path == [] then ""
    else if |path| == 1 then path[0]
    else path[0] + HEART + CacheKey(path[1..])
  }

  /** The joined text tells paths of names apart, so it can stand for the path. */
  lemma {:induction false} CacheKeyInjective(a: seq<string>, b: seq<string>)
    requires (forall i :: 0 <= i < |a| ==> IsName(a[i])) && forall i :: 0 <= i < |b| ==> IsName(b[i])
    requires CacheKey(a) == CacheKey(b)
    ensures a == b
  {
    if a != [] && b != [] {
      KeyStart(a);
      KeyStart(b);
      if |a| > 1 && |b| > 1 {
        assert CacheKey(a)[|a[0]| + 2..] == CacheKey(a[1..]) && CacheKey(b)[|b[0]| + 2..] == CacheKey(b[1..]);
        CacheKeyInjective(a[1..], b[1..]);
      }
      assert a == [a[0]] + a[1..] && b == [b[0]] + b[1..];
    }
  }

  lemma HeartSplits(a: string, b: string)
    ensures a + HEART + b == a + [HEART[0]] + (HEART[1..] + b)
  {
    assert HEART == [HEART[0]] + HEART[1..];
    Regroup(a + [HEART[0]], HEART[1..], b);
    Regroup(a, [HEART[0]], HEART[1..]);
  }

  lemma {:induction false} KeyStart(path: seq<string>)
    requires path != [] && forall i :: 0 <= i < |path| ==> IsName(path[i])
    ensures Position(CacheKey(path), HEART[0]) == |path[0]| && CacheKey(path)[..|path[0]|] == path[0] != ""
    ensures |path| == 1 <==> |CacheKey(path)| == |path[0]|
  {
    assert HEART[0] !in path[0];
    if |path| > 1 {
      var rest := HEART[1..] + CacheKey(path[1..]);
      PositionAfter(path[0], HEART[0], rest);
      HeartSplits(path[0], CacheKey(path[1..]));
    }
  }

  /** The decoder with its memory: every remembered answer is what decoding would give. */
  class CachedPointDataExtractor {
    var cache: map<string, PointData>

    ghost predicate Valid()
      reads this
    {
      forall point :: point in cache ==> Decode(point) == Ok(cache[point])
    }

    constructor ()
      ensures Valid() && cache == map[]
    {
      cache := map[];
    }

    method Extract(point: string) returns (r: Result<PointData>)
      requires Valid()
      modifies this
      ensures Valid()
      ensures r == Decode(point)
      ensures cache == if r.Ok? then old(cache)[point := r.value] else old(cache)
    {
      if point in cache {
        assert cache == cache[point := cache[point]];
        return Ok(cache[point]);
      }
      var field, id := point, "";
      var index: int := -1;
      if '#' in point {
        var idData := Split(point, '#');
        if |idData| == 2 {
          id := idData[1];
        }
        field := idData[0];
      }
      if ':' in field {
        var indexData := Split(field, ':');
        SplitWhole(field, ':');
        var value := ParseIndex(indexData[1]);
        if value.Err? {
          return Err(value.reason);
        }
        index, field := value.value, indexData[0];
      }
      r := Ok(PointData(field, index, id));
      cache := cache[point := r.value];
    }
  }
}
