/** planner/sanitize_selection_set.go on object types: ids are asked for where they are missing, and recorded. */
module Sanitizing {
  import opened Schema
  import opened Selection
  import opened SequentialPlanner
  import opened Scrubbing

  /** The id as addIDFieldToSelectionSet asks for it: without an alias. */
  const ID_FIELD: Sel := Field("", ID, [], TypeRef(ID, false, true), [])

  /** isContainsField: also inside fragments. */
  predicate ContainsField(sels: seq<Sel>, name: string)
    decreases sels
  {
    exists i :: 0 <= i < |sels| && if sels[i].Field? then sels[i].name == name else ContainsField(sels[i].sub, name)
  }

  predicate NeedsID(tum: TypeURLMap, typename: string, sels: seq<Sel>) {
    ImplementsNode(tum, typename) && !ContainsField(sels, ID)
  }

  /** addScrubFieldsToSelectionSet. */
  function AddScrubFields(tum: TypeURLMap, typename: string, sels: seq<Sel>): seq<Sel> {
    if NeedsID(tum, typename, sels) then [ID_FIELD] + sels else sels
  }

  /** The selections whose alias is not the name of a field that is already in the result. */
  function Unshadowed(result: seq<Sel>, more: seq<Sel>): seq<Sel> {
    if more == [] then []
    else
      var last := more[|more| - 1];
      Unshadowed(result, more[..|more| - 1]) + if last.Field? && HasFieldNamed(result, last.alias) then [] else [last]
  }

  /** addSelectionSetToSanitizedResult. */
  function AddToResult(result: seq<Sel>, more: seq<Sel>): seq<Sel> {
    result + Unshadowed(result, more)
  }

  datatype Sanitized = Sanitized(sels: seq<Sel>, scrub: Entries)

  function Recorded(tum: TypeURLMap, scrub: Entries, path: seq<string>, typename: string, sels: seq<Sel>): Entries {
    if NeedsID(tum, typename, sels) then SetEntry(scrub, Hash(path), typename, ID) else scrub
  }

  /** sanitizeSelectionSet. */
  function Sanitize(tum: TypeURLMap, sels: seq<Sel>, ip: seq<string>): Sanitized
    decreases sels
  {
    if sels == [] then Sanitized([], map[])
    else SanitizeNext(tum, sels, ip, Sanitize(tum, sels[..|sels| - 1], ip))
  }

  /** One turn of the loop, for the last selection. */
  function SanitizeNext(tum: TypeURLMap, sels: seq<Sel>, ip: seq<string>, acc: Sanitized): Sanitized
    requires sels != []
    decreases sels, 0
  {
    var s := sels[|sels| - 1];
    match s
    case Field(alias, _, _, typ, sub) =>
      if sub == [] then Sanitized(AddToResult(acc.sels, [s]), acc.scrub)
      else
        var path := ip + [alias];
        var child := Sanitize(tum, sub, path);
        Sanitized(AddToResult(acc.sels, [WithSub(s, AddScrubFields(tum, typ.name, child.sels))]),
                  Recorded(tum, MergeEntries(acc.scrub, child.scrub), path, typ.name, child.sels))
    case Inline(cond, sub) =>
      var child := Sanitize(tum, sub, ip);
      Sanitized(AddToResult(acc.sels, AddScrubFields(tum, cond, child.sels)),
                Recorded(tum, MergeEntries(acc.scrub, child.scrub), ip, cond, child.sels))
  }

  method AddSelectionSetToSanitizedResult(result: seq<Sel>, more: seq<Sel>) returns (r: seq<Sel>)
    ensures r == AddToResult(result, more)
  {
    var kept: seq<Sel> := [];
    for i := 0 to |more|
      invariant kept == Unshadowed(result, more[..i])
    {
      assert more[..i + 1][..i] == more[..i];
      if !(more[i].Field? && HasFieldNamed(result, more[i].alias)) {
        kept := kept + [more[i]];
      }
    }
    assert more[..|more|] == more;
    return result + kept;
  }

  /** sanitizeSelectionSet as the loop that updates the result and the scrub fields. */
  method SanitizeSelectionSet(tum: TypeURLMap, sels: seq<Sel>, ip: seq<string>) returns (result: seq<Sel>,
                              scrubFields: ScrubFields)
    ensures fresh(scrubFields)
    ensures Sanitized(result, scrubFields.entries) == Sanitize(tum, sels, ip)
    decreases Size(sels)
  {
    scrubFields := new ScrubFields();
    result := [];
    for i := 0 to |sels|
      invariant fresh(scrubFields)
      invariant Sanitized(result, scrubFields.entries) == Sanitize(tum, sels[..i], ip)
    {
      ghost var acc := Sanitized(result, scrubFields.entries);
      assert sels[..i + 1][..i] == sels[..i];
      PrefixSize(sels, i + 1);
      SubSize(sels[..i + 1]);
      var s := sels[i];
      if s.Inline? || s.sub != [] {
        var path, typename := if s.Inline? then ip else ip + [s.alias], if s.Inline? then s.cond else s.typ.name;
        var child, sf := SanitizeSelectionSet(tum, s.sub, path);
        scrubFields.Merge(sf);
        if NeedsID(tum, typename, child) {
          scrubFields.Set(path, typename, ID);
        }
        child := AddScrubFields(tum, typename, child);
        result := AddSelectionSetToSanitizedResult(result, if s.Inline? then child else [WithSub(s, child)]);
      } else {
        result := AddSelectionSetToSanitizedResult(result, [s]);
      }
      assert Sanitized(result, scrubFields.entries) == SanitizeNext(tum, sels[..i + 1], ip, acc);
    }
    assert sels[..|sels|] == sels;
  }
}
