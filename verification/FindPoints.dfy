/** The loops of FindInsertionPoints (executor/result.go), proved against InsertionPoints.Find. */
module FindPoints {
  import opened Prelude
  import opened Text
  import opened Points
  import opened Json
  import opened Schema
  import opened Selection
  import opened InsertionPoints

  method FindInsertionPoints(targetPoints: seq<string>, selectionSet: seq<Sel>, result: Object, startingPoints: seq<seq<string>>)
    returns (r: Result<seq<seq<string>>>)
    ensures r == Find(targetPoints, selectionSet, result, startingPoints)
    decreases JObj(result), 1
  {
    var oldBranch, selectionSetRoot, resultChunk := startingPoints, selectionSet, result;
    var pointI := 0;
    if |oldBranch| > 0 {
      pointI := |oldBranch[0]|;
      if |targetPoints| == |oldBranch[0]| {
        return Ok(startingPoints);
      }
    }
    while pointI < |targetPoints|
      invariant Find(targetPoints, selectionSet, result, startingPoints) == Walk(targetPoints, pointI, selectionSetRoot, resultChunk, oldBranch)
      invariant resultChunk == result || JObj(resultChunk) < JObj(result)
      decreases |targetPoints| - pointI
    {
      var point := targetPoints[pointI];
      var foundSelection := FindSelection(point, selectionSetRoot);
      if foundSelection.None? {
        return Ok([]);
      }
      var found := foundSelection.value;
      if point !in resultChunk {
        return Ok([]);
      }
      var rootValue := resultChunk[point];
      if rootValue.JNull? {
        if found.typ.nonNull {
          return Err("received null for required field");
        }
        return Ok([]);
      }
      if found.typ.list {
        if !rootValue.JList? {
          return Err("root value of result chunk was not a list");
        }
        r := FindInEntries(targetPoints, pointI, found, rootValue.items, oldBranch);
        return;
      }
      oldBranch := AppendPoint(oldBranch, point);
      if pointI == |targetPoints| - 1 {
        r := AppendID(rootValue, pointI, oldBranch);
        return;
      }
      selectionSetRoot := found.sub;
      if rootValue.JObj? {
        resultChunk := rootValue.fields;
      }
      pointI := pointI + 1;
    }
    return Ok(oldBranch);
  }

  method AppendPoint(branches: seq<seq<string>>, point: string) returns (grown: seq<seq<string>>)
    ensures grown == seq(|branches|, i requires 0 <= i < |branches| => branches[i] + [point])
  {
    grown := [];
    for i := 0 to |branches|
      invariant |grown| == i && forall j :: 0 <= j < i ==> grown[j] == branches[j] + [point]
    {
      grown := grown + [branches[i] + [point]];
    }
  }

  /** Each value of a list contributes its own points. */
  method FindInEntries(targetPoints: seq<string>, pointI: nat, found: Sel, rootList: seq<Json>, oldBranch: seq<seq<string>>)
    returns (r: Result<seq<seq<string>>>)
    requires found.Field? && pointI < |targetPoints|
    ensures r == Entries(targetPoints, pointI, found, rootList, 0, oldBranch, [])
    decreases JList(rootList), 0
  {
    var newInsertionPoints: seq<seq<string>> := [];
    for entryI := 0 to |rootList|
      invariant Entries(targetPoints, pointI, found, rootList, 0, oldBranch, [])
             == Entries(targetPoints, pointI, found, rootList, entryI, oldBranch, newInsertionPoints)
    {
      if !rootList[entryI].JObj? {
        return Err("entry in result wasn't a map");
      }
      var resultEntry := rootList[entryI].fields;
      var id := None;
      if pointI == |targetPoints| - 1 && |oldBranch| > 0 {
        var extracted := ExtractID(resultEntry);
        if extracted.Err? {
          return Err(extracted.reason);
        }
        if extracted.value.None? {
          return Ok([]);
        }
        id := extracted.value;
      }
      var newBranchSet := BranchesOfEntry(oldBranch, PrintStem(Key(found), Some(entryI)), id);
      var entryInsertionPoints := FindInsertionPoints(targetPoints, found.sub, resultEntry, newBranchSet);
      if entryInsertionPoints.Err? {
        return Err(entryInsertionPoints.reason);
      }
      newInsertionPoints := newInsertionPoints + entryInsertionPoints.value;
    }
    return Ok(newInsertionPoints);
  }

  /** The entry's point on every branch; the text of the point grows by the id from branch to branch. */
  method BranchesOfEntry(oldBranch: seq<seq<string>>, point: string, id: Option<string>) returns (newBranchSet: seq<seq<string>>)
    ensures newBranchSet == EntryBranches(oldBranch, point, id)
  {
    if |oldBranch| == 0 {
      return [[point]];
    }
    newBranchSet := [];
    var entryPoint := point;
    for i := 0 to |oldBranch|
      invariant entryPoint == point + if id.Some? then Suffix(id.value, i) else ""
      invariant |newBranchSet| == i
      invariant forall j :: 0 <= j < i ==> newBranchSet[j] == oldBranch[j] + [point + if id.Some? then Suffix(id.value, j + 1) else ""]
    {
      if id.Some? {
        assert point + (Suffix(id.value, i) + "#" + id.value) == point + Suffix(id.value, i) + "#" + id.value;
        entryPoint := entryPoint + "#" + id.value;
      }
      newBranchSet := newBranchSet + [oldBranch[i] + [entryPoint]];
    }
  }

  /** The id of the object, or of the entry of the branch, behind the last point. */
  method AppendID(rootValue: Json, pointI: nat, oldBranch: seq<seq<string>>) returns (r: Result<seq<seq<string>>>)
    ensures r == Last(rootValue, pointI, oldBranch)
  {
    if rootValue.JList? {
      r := AppendEntryIDs(rootValue.items, pointI, oldBranch);
      return;
    }
    if !rootValue.JObj? {
      return Err("root value of result chunk was not an object");
    }
    var branches: seq<seq<string>> := [];
    for i := 0 to |oldBranch|
      invariant |branches| == i
      invariant i > 0 ==> ExtractID(rootValue.fields).Ok? && ExtractID(rootValue.fields).value.Some?
      invariant forall j :: 0 <= j < i ==> branches[j] == WithSuffix(oldBranch[j], pointI, "#" + ExtractID(rootValue.fields).value.value)
    {
      var id := ExtractID(rootValue.fields);
      if id.Err? {
        return Err(id.reason);
      }
      if id.value.None? {
        return Ok([]);
      }
      branches := branches + [WithSuffix(oldBranch[i], pointI, "#" + id.value.value)];
    }
    if |oldBranch| > 0 {
      ghost var text := ExtractID(rootValue.fields).value.value;
      assert branches == seq(|oldBranch|, i requires 0 <= i < |oldBranch| => WithSuffix(oldBranch[i], pointI, "#" + text));
    }
    return Ok(branches);
  }

  method AppendEntryIDs(rootList: seq<Json>, pointI: nat, oldBranch: seq<seq<string>>) returns (r: Result<seq<seq<string>>>)
    ensures r == LastOfList(rootList, pointI, oldBranch, 0)
  {
    var branches := oldBranch;
    for i := 0 to |oldBranch|
      invariant |branches| == |oldBranch|
      invariant LastOfList(rootList, pointI, oldBranch, 0) == LastOfList(rootList, pointI, branches, i)
    {
      if i >= |rootList| || !rootList[i].JObj? {
        return Err("item in root list isn't a map");
      }
      var id := ExtractID(rootList[i].fields);
      if id.Err? {
        return Err(id.reason);
      }
      if id.value.None? {
        return Ok([]);
      }
      branches := branches[i := WithSuffix(branches[i], pointI, ":" + PrintNat(i) + "#" + id.value.value)];
    }
    return Ok(branches);
  }
}
