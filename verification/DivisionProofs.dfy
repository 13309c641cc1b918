/** The planner's loops, with their merging into existing steps, compute the division of the query. */
module DivisionProofs {
  import opened Prelude
  import opened Schema
  import opened Selection
  import opened Planner
  import opened Division

  lemma {:induction false} PlannablePrefix(ctx: Context, typename: string, sels: seq<Sel>)
    requires Plannable(ctx, typename, sels) && sels != []
    ensures Plannable(ctx, typename, sels[..|sels| - 1])
  {
    var front := sels[..|sels| - 1];
    forall i | 0 <= i < |front|
      ensures PlannableField(ctx, typename, front[i])
    {
      assert front[i] == sels[i];
    }
  }

  lemma {:induction false} PlannableSub(ctx: Context, typename: string, sels: seq<Sel>, f: Sel)
    requires Plannable(ctx, typename, sels) && f in sels
    ensures PlannableField(ctx, typename, f)
  {
  }

  /** Only fields of Node and root types are sent elsewhere. */
  lemma OnlyNodesSplit(tum: TypeURLMap, typename: string, field: string, location: string)
    requires location != INTERNAL_SERVICE
    requires Where(tum, typename, field, location) != location
    ensures Get(tum, typename, field) == Some(Where(tum, typename, field, location))
    ensures ImplementsNode(tum, typename) || IsRoot(typename)
    ensures Where(tum, typename, field, Where(tum, typename, field, location)) == Where(tum, typename, field, location)
  {
  }

  lemma {:induction false} LocalHasId(ctx: Context, typename: string, sels: seq<Sel>, location: string)
    requires Sound(ctx.tum) && ImplementsNode(ctx.tum, typename) && AllFields(sels)
    ensures HasFieldNamed(Local(ctx, typename, sels, location), ID) <==> HasFieldNamed(sels, ID)
  {
    if sels != [] {
      var front, f := sels[..|sels| - 1], sels[|sels| - 1];
      assert sels == front + [f];
      LocalHasId(ctx, typename, front, location);
      assert f.name == ID ==> Where(ctx.tum, typename, f.name, location) == location;
      HasFieldNamedAppend(front, f, ID);
      var stay := Local(ctx, typename, front, location);
      if Where(ctx.tum, typename, f.name, location) == location {
        var kept := WithSub(f, Local(ctx, f.typ.name, f.sub, location));
        HasFieldNamedAppend(stay, kept, ID);
      } else {
        assert Local(ctx, typename, sels, location) == stay;
      }
    }
  }

  lemma HasFieldNamedAppend(sels: seq<Sel>, f: Sel, name: string)
    requires f.Field?
    ensures HasFieldNamed(sels + [f], name) <==> HasFieldNamed(sels, name) || f.name == name
  {
    var all := sels + [f];
    if HasFieldNamed(sels, name) {
      var i :| 0 <= i < |sels| && sels[i].Field? && sels[i].name == name;
      assert all[i] == sels[i];
    }
    if f.name == name {
      assert all[|sels|] == f;
    }
  }

  /** Every step sits at or below the insertion point it was computed for. */
  lemma {:induction false} ChildrenBelow(ctx: Context, ip: seq<string>, typename: string, sels: seq<Sel>,
                                        location: string, s: Step)
    requires s in Children(ctx, ip, typename, sels, location)
    ensures ip <= s.ip
    decreases Size(sels)
  {
    var f := sels[|sels| - 1];
    var front := sels[..|sels| - 1];
    var steps := Children(ctx, ip, typename, front, location);
    if s in steps {
      ChildrenBelow(ctx, ip, typename, front, location, s);
    } else if f.Field? && Where(ctx.tum, typename, f.name, location) == location {
      ChildrenBelow(ctx, ip + [f.alias], f.typ.name, f.sub, location, s);
    }
  }

  /** Where a new field finds a step to join, that step is the one for the fields already sent there. */
  lemma {:induction false} JoinedStep(ctx: Context, ip: seq<string>, typename: string, sels: seq<Sel>, location: string, s: Step)
    requires s in Children(ctx, ip, typename, sels, location) && s.ip == ip
    ensures s == StepFor(ctx, ip, typename, Group(ctx.tum, typename, sels, location, s.url), s.url)
    ensures s.url != location
    decreases Size(sels)
  {
    var f := sels[|sels| - 1];
    var front := sels[..|sels| - 1];
    var steps := Children(ctx, ip, typename, front, location);
    if !f.Field? {
      JoinedStep(ctx, ip, typename, front, location, s);
    } else {
      var url := Where(ctx.tum, typename, f.name, location);
      if url == location {
        if s in steps {
          JoinedStep(ctx, ip, typename, front, location, s);
        } else {
          ChildrenBelow(ctx, ip + [f.alias], f.typ.name, f.sub, location, s);
        }
      } else if s.url != url {
        assert s in steps;
        JoinedStep(ctx, ip, typename, front, location, s);
      } else {
        var i := FindStep(steps, url, ip);
        var k :| 0 <= k < |Children(ctx, ip, typename, sels, location)| && Children(ctx, ip, typename, sels, location)[k] == s;
        if k != i {
          assert s == steps[k];
          OneStepEach(ctx, ip, typename, front, location, k, i);
        }
      }
    }
  }

  /** No two steps share both service and insertion point at ip itself. */
  lemma {:induction false} OneStepEach(ctx: Context, ip: seq<string>, typename: string, sels: seq<Sel>,
                                       location: string, i: nat, j: nat)
    requires i < |Children(ctx, ip, typename, sels, location)| && j < |Children(ctx, ip, typename, sels, location)|
    requires Children(ctx, ip, typename, sels, location)[i].ip == ip == Children(ctx, ip, typename, sels, location)[j].ip
    requires Children(ctx, ip, typename, sels, location)[i].url == Children(ctx, ip, typename, sels, location)[j].url
    ensures i == j
    decreases Size(sels)
  {
    var f := sels[|sels| - 1];
    var front := sels[..|sels| - 1];
    var steps := Children(ctx, ip, typename, front, location);
    if f.Field? && Where(ctx.tum, typename, f.name, location) == location {
      var more := Children(ctx, ip + [f.alias], f.typ.name, f.sub, location);
      forall s | s in more
        ensures s.ip != ip
      {
        ChildrenBelow(ctx, ip + [f.alias], f.typ.name, f.sub, location, s);
      }
      assert Children(ctx, ip, typename, sels, location) == steps + more;
      OneStepEach(ctx, ip, typename, front, location, i, j);
    } else if i < |steps| && j < |steps| {
      OneStepEach(ctx, ip, typename, front, location, i, j);
    }
  }

  predicate AllAt(tum: TypeURLMap, typename: string, sels: seq<Sel>, location: string) {
    forall f :: f in sels ==> f.Field? && Where(tum, typename, f.name, location) == location
  }

  lemma {:induction false} ChildrenOfGroup(ctx: Context, ip: seq<string>, typename: string, group: seq<Sel>, url: string)
    requires AllAt(ctx.tum, typename, group, url)
    ensures Children(ctx, ip, typename, group, url) == Kids(ctx, ip, group, url)
  {
    if group != [] {
      ChildrenOfGroup(ctx, ip, typename, group[..|group| - 1], url);
    }
  }

  /** Where extraction may start: a root set is routed first, so everything in it is at home. */
  ghost predicate Extractable(ctx: Context, typename: string, sels: seq<Sel>, location: string) {
    && Sound(ctx.tum)
    && location != INTERNAL_SERVICE
    && Plannable(ctx, typename, sels)
    && (IsRoot(typename) ==> AllAt(ctx.tum, typename, sels, location))
  }

  lemma {:induction false} ExtractableField(ctx: Context, typename: string, sels: seq<Sel>, location: string, f: Sel, url: string)
    requires Extractable(ctx, typename, sels, location) && f in sels && f.sub != [] && url != INTERNAL_SERVICE
    ensures Extractable(ctx, f.typ.name, f.sub, url)
    ensures !NeedsNodeQuery(ctx, f.typ.name, Local(ctx, f.typ.name, f.sub, url))
  {
    PlannableSub(ctx, typename, sels, f);
    if ImplementsNode(ctx.tum, f.typ.name) {
      LocalHasId(ctx, f.typ.name, f.sub, url);
    }
  }

  lemma RemoteField(ctx: Context, typename: string, sels: seq<Sel>, location: string, f: Sel)
    requires Extractable(ctx, typename, sels, location) && f in sels && f.Field?
    requires Where(ctx.tum, typename, f.name, location) != location
    ensures var url := Where(ctx.tum, typename, f.name, location);
            && url != INTERNAL_SERVICE
            && f.name != ID
            && Get(ctx.tum, typename, f.name) == Some(url)
            && Where(ctx.tum, typename, f.name, url) == url
            && !IsRoot(typename) && ImplementsNode(ctx.tum, typename)
  {
    OnlyNodesSplit(ctx.tum, typename, f.name, location);
  }

  lemma {:induction false} LocalSnoc(ctx: Context, typename: string, sels: seq<Sel>, f: Sel, url: string)
    requires f.Field? && Where(ctx.tum, typename, f.name, url) == url
    ensures Local(ctx, typename, sels + [f], url) ==
            Local(ctx, typename, sels, url) + [WithSub(f, Local(ctx, f.typ.name, f.sub, url))]
    ensures forall ip ::
              Kids(ctx, ip, sels + [f], url) ==
              Kids(ctx, ip, sels, url) + Children(ctx, ip + [f.alias], f.typ.name, f.sub, url)
  {
    assert (sels + [f])[..|sels|] == sels;
  }

  /** Handing one more field to a step is the step for one more field. */
  lemma {:induction false} AddToStepIs(ctx: Context, ip: seq<string>, typename: string, group: seq<Sel>, f: Sel, url: string)
    requires !IsRoot(typename) && f.Field? && Where(ctx.tum, typename, f.name, url) == url
    ensures AddToStep(typename, StepFor(ctx, ip, typename, group, url),
                      WithSub(f, Local(ctx, f.typ.name, f.sub, url)),
                      Children(ctx, ip + [f.alias], f.typ.name, f.sub, url))
            == StepFor(ctx, ip, typename, group + [f], url)
  {
    LocalSnoc(ctx, typename, group, f, url);
  }

  /** The whole loop of extractSelectionSet, error paths included, on sanitized queries over object types. */
  lemma {:induction false} GatherIsDivision(ctx: Context, ip: seq<string>, typename: string, sels: seq<Sel>, location: string)
    requires Extractable(ctx, typename, sels, location)
    ensures Gather(ctx, ip, typename, sels, location)
            == Ok(Extracted(Local(ctx, typename, sels, location), Children(ctx, ip, typename, sels, location)))
    decreases Size(sels), Hop(ctx, typename, sels, location), 2
  {
    if sels != [] {
      var front, f := sels[..|sels| - 1], sels[|sels| - 1];
      PlannablePrefix(ctx, typename, sels);
      GatherIsDivision(ctx, ip, typename, front, location);
      PlannableSub(ctx, typename, sels, f);
      var acc := Extracted(Local(ctx, typename, front, location), Children(ctx, ip, typename, front, location));
      var url := Where(ctx.tum, typename, f.name, location);
      if url == location {
        if f.sub != [] {
          ExtractNestedIsDivision(ctx, ip, typename, sels, location, f, location);
        } else {
          VisitLeaf(ctx, ip, typename, sels, location);
        }
      } else {
        VisitRemote(ctx, ip, typename, sels, location, acc);
      }
    }
  }

  lemma {:induction false} ExtractNestedIsDivision(ctx: Context, ip: seq<string>, typename: string, sels: seq<Sel>,
                                        location: string, f: Sel, url: string)
    requires Extractable(ctx, typename, sels, location) && f in sels && f.sub != [] && url != INTERNAL_SERVICE
    requires Size(f.sub) < Size(sels)
    ensures Extract(ctx, ip + [f.alias], f.typ.name, f.sub, url)
            == Ok(Extracted(Local(ctx, f.typ.name, f.sub, url), Children(ctx, ip + [f.alias], f.typ.name, f.sub, url)))
    decreases Size(sels), Hop(ctx, typename, sels, location), 0
  {
    ExtractableField(ctx, typename, sels, location, f, url);
    GatherIsDivision(ctx, ip + [f.alias], f.typ.name, f.sub, url);
  }

  lemma VisitLeaf(ctx: Context, ip: seq<string>, typename: string, sels: seq<Sel>, location: string)
    requires sels != [] && sels[|sels| - 1].Field? && sels[|sels| - 1].sub == []
    requires Where(ctx.tum, typename, sels[|sels| - 1].name, location) == location
    ensures var front := sels[..|sels| - 1];
            && Local(ctx, typename, sels, location) == Local(ctx, typename, front, location) + [sels[|sels| - 1]]
            && Children(ctx, ip, typename, sels, location) == Children(ctx, ip, typename, front, location)
  {
    var f := sels[|sels| - 1];
    assert Local(ctx, f.typ.name, f.sub, location) == [];
    assert WithSub(f, []) == f;
    assert Children(ctx, ip + [f.alias], f.typ.name, f.sub, location) == [];
  }

  lemma {:induction false} VisitRemote(ctx: Context, ip: seq<string>, typename: string, sels: seq<Sel>,
                                       location: string, acc: Extracted)
    requires Extractable(ctx, typename, sels, location) && sels != []
    requires var f := sels[|sels| - 1]; Where(ctx.tum, typename, f.name, location) != location
    requires acc == Extracted(Local(ctx, typename, sels[..|sels| - 1], location), Children(ctx, ip, typename, sels[..|sels| - 1], location))
    ensures Visit(ctx, ip, typename, sels, location, acc)
            == Ok(Extracted(Local(ctx, typename, sels, location), Children(ctx, ip, typename, sels, location)))
    decreases Size(sels), Hop(ctx, typename, sels, location), 1
  {
    var front, f := sels[..|sels| - 1], sels[|sels| - 1];
    var url := Where(ctx.tum, typename, f.name, location);
    PlannableSub(ctx, typename, sels, f);
    RemoteField(ctx, typename, sels, location, f);
    var before := Group(ctx.tum, typename, front, location, url);
    assert Group(ctx.tum, typename, sels, location, url) == before + [f];
    assert Local(ctx, typename, sels, location) == acc.sel;
    var i := FindStep(acc.steps, url, ip);
    var s := StepFor(ctx, ip, typename, before + [f], url);
    if i < |acc.steps| {
      assert acc.steps[i] == StepFor(ctx, ip, typename, before, url) by {
        JoinedStep(ctx, ip, typename, front, location, acc.steps[i]);
      }
      assert Children(ctx, ip, typename, sels, location) == acc.steps[i := s];
      AddToStepIs(ctx, ip, typename, before, f, url);
      if f.sub != [] {
        ExtractNestedIsDivision(ctx, ip, typename, sels, location, f, url);
      } else {
        LeafBelow(ctx, ip + [f.alias], f, url);
      }
    } else {
      assert before == [] by {
        if before != [] {
          var k := HasStep(ctx, ip, typename, front, location, before[0]);
        }
      }
      assert before + [f] == [f];
      assert Children(ctx, ip, typename, sels, location) == acc.steps + [s];
      NewStepIs(ctx, ip, typename, sels, location);
    }
  }

  lemma {:induction false} LeafBelow(ctx: Context, ip: seq<string>, f: Sel, url: string)
    requires f.Field? && f.sub == []
    ensures WithSub(f, Local(ctx, f.typ.name, f.sub, url)) == f
    ensures Children(ctx, ip, f.typ.name, f.sub, url) == []
  {
  }

  /** A field sent to another service has a step there. */
  lemma {:induction false} HasStep(ctx: Context, ip: seq<string>, typename: string, sels: seq<Sel>, location: string, f: Sel)
    returns (k: nat)
    requires f in sels && f.Field? && Where(ctx.tum, typename, f.name, location) != location
    ensures var steps := Children(ctx, ip, typename, sels, location);
            k < |steps| && steps[k].url == Where(ctx.tum, typename, f.name, location) && steps[k].ip == ip
  {
    var front, last := sels[..|sels| - 1], sels[|sels| - 1];
    var steps := Children(ctx, ip, typename, front, location);
    if f == last {
      k := FindStep(steps, Where(ctx.tum, typename, f.name, location), ip);
    } else {
      assert f in front;
      k := HasStep(ctx, ip, typename, front, location, f);
      if last.Field? {
        AfterOneMore(ctx, ip, typename, sels, location, k);
      }
    }
  }

  /** One more field leaves every earlier step in place, up to what it asks. */
  lemma {:induction false} AfterOneMore(ctx: Context, ip: seq<string>, typename: string, sels: seq<Sel>, location: string, k: nat)
    requires sels != [] && sels[|sels| - 1].Field?
    requires k < |Children(ctx, ip, typename, sels[..|sels| - 1], location)|
    ensures var before := Children(ctx, ip, typename, sels[..|sels| - 1], location);
            var after := Children(ctx, ip, typename, sels, location);
            k < |after| && after[k].url == before[k].url && after[k].ip == before[k].ip
  {
  }

  lemma {:induction false} NewStepIs(ctx: Context, ip: seq<string>, typename: string, sels: seq<Sel>, location: string)
    requires Extractable(ctx, typename, sels, location) && sels != []
    requires Where(ctx.tum, typename, sels[|sels| - 1].name, location) != location
    ensures var f := sels[|sels| - 1];
            NewSteps(ctx, ip, typename, sels, location)
            == Ok([StepFor(ctx, ip, typename, [f], Where(ctx.tum, typename, f.name, location))])
    decreases Size(sels), Hop(ctx, typename, sels, location), 0
  {
    var f := sels[|sels| - 1];
    var url := Where(ctx.tum, typename, f.name, location);
    RemoteField(ctx, typename, sels, location, f);
    Alone(ctx, typename, sels, location);
    AloneIsSmaller(ctx, typename, sels, location);
    GatherIsDivision(ctx, ip, typename, [f], url);
    assert Extract(ctx, ip, typename, [f], url)
        == Ok(Extracted(Sent(typename, Local(ctx, typename, [f], url)), Kids(ctx, ip, [f], url))) by {
      ChildrenOfGroup(ctx, ip, typename, [f], url);
      LocalHasId(ctx, typename, [f], url);
      assert !HasFieldNamed([f], ID);
    }
  }

  /** A remote field on its own can be extracted at its service. */
  lemma Alone(ctx: Context, typename: string, sels: seq<Sel>, location: string)
    requires Extractable(ctx, typename, sels, location) && sels != []
    requires Where(ctx.tum, typename, sels[|sels| - 1].name, location) != location
    ensures var f := sels[|sels| - 1];
            var url := Where(ctx.tum, typename, f.name, location);
            Extractable(ctx, typename, [f], url) && AllAt(ctx.tum, typename, [f], url)
  {
    var f := sels[|sels| - 1];
    RemoteField(ctx, typename, sels, location, f);
    PlannableSub(ctx, typename, sels, f);
    PlannableAlone(ctx, typename, f);
  }

  lemma {:induction false} PlannableAlone(ctx: Context, typename: string, f: Sel)
    requires typename in ctx.types && PlannableField(ctx, typename, f)
    ensures Plannable(ctx, typename, [f])
  {
    assert [f][0] == f;
  }

  /** ... and is a smaller problem than the set it ends, although the same field is passed on again. */
  lemma {:induction false} AloneIsSmaller(ctx: Context, typename: string, sels: seq<Sel>, location: string)
    requires sels != [] && sels[|sels| - 1].Field?
    requires Where(ctx.tum, typename, sels[|sels| - 1].name, location) != location
    ensures var f := sels[|sels| - 1];
            var url := Where(ctx.tum, typename, f.name, location);
            Size([f]) < Size(sels) ||
            (Size([f]) == Size(sels) && Hop(ctx, typename, [f], url) < Hop(ctx, typename, sels, location))
  {
    var f := sels[|sels| - 1];
    SizeOfOne(f);
    GetURLSettles(ctx.tum, typename, f.name, location);
    if |sels| > 1 {
      assert Size(sels[..|sels| - 1]) > 0;
    } else {
      assert sels == [f];
    }
  }
}
