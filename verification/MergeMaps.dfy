/** mergeMaps and mergeSlices of executor/utils.go. */
module MergeMaps {
  import opened Schema
  import opened Json

  /** The right map merged into the left one. Each key is settled on its own, so the order of keys is immaterial. */
  function Merge(left: Object, right: Object): Object
    decreases JObj(right), 0
  {
    map k | k in left.Keys + right.Keys ::
      if k !in right then left[k]
      else if k !in left then right[k]
      else MergeValue(left[k], right[k])
  }

  function MergeValue(l: Json, r: Json): Json
    decreases r, 1
  {
    match (l, r)
    case (JObj(lm), JObj(rm)) => JObj(Merge(lm, rm))
    case (JList(ls), JList(rs)) => JList(MergeSlices(ls, rs))
    case _ => r
  }

  /** getLeftEntityPosition, with the length of the list for "none". */
  function LeftPosition(left: seq<Json>, id: Json): (p: nat)
    ensures p <= |left|
    ensures p < |left| ==> left[p].JObj? && ID in left[p].fields && left[p].fields[ID] == id
    ensures forall i :: 0 <= i < p ==> !(left[i].JObj? && ID in left[i].fields && left[i].fields[ID] == id)
  {
    if left == [] then 0
    else if left[0].JObj? && ID in left[0].fields && left[0].fields[ID] == id then 0
    else 1 + LeftPosition(left[1..], id)
  }

  /** Where in the left list a right element belongs: by id, else by position, else at the end. */
  function Target(left: seq<Json>, r: Json, position: nat): (p: nat)
    ensures p <= |left|
  {
    if !r.JObj? then |left|
    else
      var byId := if ID in r.fields then LeftPosition(left, r.fields[ID]) else |left|;
      if byId < |left| then byId
      else if position < |left| then position
      else |left|
  }

  /** The left list after all elements of right. */
  function MergeSlices(left: seq<Json>, right: seq<Json>): seq<Json>
    decreases right
  {
    if right == [] then left
    else OneMore(MergeSlices(left, right[..|right| - 1]), right[|right| - 1], |right| - 1)
  }

  /** The left list after one more right element, the n-th. */
  function OneMore(before: seq<Json>, r: Json, n: nat): seq<Json>
    decreases r, 2
  {
    var p := Target(before, r, n);
    if p == |before| then before + [r] else before[p := Settled(before[p], r)]
  }

  /** mergeOrRewriteMap: a map is merged into a map, and takes the place of anything else. */
  function Settled(l: Json, r: Json): Json
    decreases r, 1
  {
    if l.JObj? && r.JObj? then JObj(Merge(l.fields, r.fields)) else r
  }

  /** DepthExecutorManager.merge for one result: objects are merged, everything else is overwritten. */
  function MergeInto(target: Object, result: Object): Object {
    map k | k in target.Keys + result.Keys ::
      if k !in result then target[k]
      else if k in target && target[k].JObj? && result[k].JObj? then JObj(Merge(target[k].fields, result[k].fields))
      else result[k]
  }

  /** The loop of DepthExecutorManager.merge over one result, in any order of its keys. */
  method MergeResult(target: Object, result: Object) returns (merged: Object)
    ensures merged == MergeInto(target, result)
  {
    merged := target;
    var keys := result.Keys;
    ghost var seen: set<string> := {};
    while keys != {}
      invariant seen + keys == result.Keys && seen !! keys
      invariant merged == MergeInto(target, map k | k in seen :: result[k])
      decreases keys
    {
      var key :| key in keys;
      keys := keys - {key};
      if key in merged && merged[key].JObj? && result[key].JObj? {
        merged := merged[key := JObj(Merge(merged[key].fields, result[key].fields))];
      } else {
        merged := merged[key := result[key]];
      }
      seen := seen + {key};
    }
    assert (map k | k in seen :: result[k]) == result;
  }
}
