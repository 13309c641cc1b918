/**
 * The root steps of a plan are the root requests of the run, whatever order the services were visited in.
 * Planning a sanitized query succeeds, and the run it starts is healthy.
 */
module RootPlan {
  import opened Prelude
  import opened Schema
  import opened Selection
  import opened SequentialPlanner
  import opened Evaluation
  import opened Division
  import opened DivisionProofs
  import opened DivisionShape
  import opened Progress
  import opened RoundProofs
  import opened InvariantProofs
  import opened Dedup
  import opened Scheduler
  import opened Runs

  /** A root selection whose fields all belong to services: no node field, no introspection. */
  ghost predicate Owned(sels: seq<Sel>) {
    forall i :: 0 <= i < |sels| ==> sels[i].Field? && sels[i].name != NODE && !IsBuiltin(sels[i].name)
  }

  /** At the root, routing is the division's grouping. */
  lemma {:induction false} RoutedIsGroup(tum: TypeURLMap, typename: string, sels: seq<Sel>, loc: string)
    requires IsRoot(typename) && Owned(sels) && Routable(tum, typename, "", sels)
    ensures RoutedTo(tum, typename, "", sels, loc) == Group(tum, typename, sels, "", loc)
  {
    if sels != [] {
      var front, f := sels[..|sels| - 1], sels[|sels| - 1];
      assert forall i :: 0 <= i < |front| ==> front[i] == sels[i];
      RoutedIsGroup(tum, typename, front, loc);
      assert HasRoute(tum, typename, "", f);
      SameWhere(tum, typename, f, loc);
    }
  }

  lemma SameWhere(tum: TypeURLMap, typename: string, f: Sel, loc: string)
    requires IsRoot(typename) && HasRoute(tum, typename, "", f) && !IsBuiltin(f.name)
    ensures RoutesTo(tum, typename, "", f, loc) <==> Where(tum, typename, f.name, "") == loc
  {
  }

  /** Every root field has an owner. */
  lemma RootRoutable(ctx: Context, store: Store, root: Place)
    requires Setting(ctx, store, root) && Owned(root.sels)
    ensures Routable(ctx.tum, root.typename, "", root.sels)
    ensures forall f :: f in root.sels ==> f.Field? && Where(ctx.tum, root.typename, f.name, "") != ""
  {
    forall i | 0 <= i < |root.sels|
      ensures HasRoute(ctx.tum, root.typename, "", root.sels[i])
      ensures Where(ctx.tum, root.typename, root.sels[i].name, "") != ""
    {
      var f := root.sels[i];
      assert TypedField(ctx, root.typename, f);
      assert IsBuiltin(TYPENAME);
      assert FieldOk(ctx, root.typename, f.name);
    }
  }

  /** The step planned for one service is the division's step for it. */
  lemma {:induction false} RootStep(ctx: Context, store: Store, root: Place, url: string)
    requires Setting(ctx, store, root) && url != "" && Group(ctx.tum, root.typename, root.sels, "", url) != []
    ensures StepOf(ctx, [], root.typename, Group(ctx.tum, root.typename, root.sels, "", url), url)
            == Ok(StepAt(ctx, [], (root.typename, root.sels), "", url))
  {
    var g := GroupPlace(ctx, root, url);
    GroupPlaceOk(ctx, store, root, url);
    assert url != INTERNAL_SERVICE;
    GatherIsDivision(ctx, [], g.typename, g.sels, url);
    ChildrenOfGroup(ctx, [], g.typename, g.sels, url);
  }

  /** The planned root steps, in terms of the division. */
  lemma RootStepsAre(ctx: Context, store: Store, root: Place, locs: seq<string>, steps: seq<Step>)
    requires Setting(ctx, store, root) && Owned(root.sels)
    requires StepsOf(ctx, [], root.typename, "", root.sels, locs, steps)
    ensures forall i :: 0 <= i < |locs| ==>
              && locs[i] != ""
              && Group(ctx.tum, root.typename, root.sels, "", locs[i]) != []
              && steps[i] == StepAt(ctx, [], (root.typename, root.sels), "", locs[i])
    ensures forall url :: url != "" && Group(ctx.tum, root.typename, root.sels, "", url) != [] ==> url in locs
  {
    RootRoutable(ctx, store, root);
    forall url
      ensures RoutedTo(ctx.tum, root.typename, "", root.sels, url) == Group(ctx.tum, root.typename, root.sels, "", url)
    {
      RoutedIsGroup(ctx.tum, root.typename, root.sels, url);
    }
    forall i | 0 <= i < |locs|
      ensures locs[i] != ""
      ensures Group(ctx.tum, root.typename, root.sels, "", locs[i]) != []
      ensures steps[i] == StepAt(ctx, [], (root.typename, root.sels), "", locs[i])
    {
      assert locs[i] in locs;
      var group := Group(ctx.tum, root.typename, root.sels, "", locs[i]);
      assert group[0] in group;
      RootStep(ctx, store, root, locs[i]);
    }
  }

  lemma RootRequestsPlanned(ctx: Context, store: Store, root: Place, locs: seq<string>, steps: seq<Step>)
    requires Setting(ctx, store, root) && Owned(root.sels)
    requires StepsOf(ctx, [], root.typename, "", root.sels, locs, steps)
    ensures RootRequests(ctx, root, ToSet(RootRequestsOf(steps)))
    ensures Distinct(RootRequestsOf(steps))
  {
    RootStepsAre(ctx, store, root, locs, steps);
    var ers := RootRequestsOf(steps);
    assert forall i :: 0 <= i < |ers| ==> ers[i].step.url == locs[i] && ers[i].ip == [];
    forall r
      ensures r in ToSet(ers) <==>
              && r.ip == []
              && r.step.url != root.location
              && Group(ctx.tum, root.typename, root.sels, root.location, r.step.url) != []
              && r.step == StepAt(ctx, [], (root.typename, root.sels), root.location, r.step.url)
    {
      if r.ip == [] && r.step.url != "" && Group(ctx.tum, root.typename, root.sels, "", r.step.url) != []
         && r.step == StepAt(ctx, [], (root.typename, root.sels), "", r.step.url) {
        var i :| 0 <= i < |locs| && locs[i] == r.step.url;
        assert ers[i] == r;
      }
    }
  }

  /** The start of a planned run is healthy. */
  lemma PlannedHealthy(ctx: Context, store: Store, root: Place, locs: seq<string>, steps: seq<Step>)
    requires Setting(ctx, store, root) && Owned(root.sels)
    requires StepsOf(ctx, [], root.typename, "", root.sels, locs, steps)
    ensures Healthy(ctx, store, root, Moment(map[], RootRequestsOf(steps)))
  {
    RootRequestsPlanned(ctx, store, root, locs, steps);
    RootRoutable(ctx, store, root);
    StartInv(ctx, store, root, ToSet(RootRequestsOf(steps)));
  }

  /** Every step that follows, at whatever depth, has an insertion point that strictly extends that of the step it follows. */
  ghost predicate Deepening(s: Step) {
    forall i :: 0 <= i < |s.thens| ==> s.ip < s.thens[i].ip && Deepening(s.thens[i])
  }

  ghost predicate AllDeepening(steps: seq<Step>, ip: seq<string>) {
    forall i :: 0 <= i < |steps| ==> ip <= steps[i].ip && Deepening(steps[i])
  }

  /** Each step of a division sits at or below its insertion point, and those that follow it strictly below. */
  lemma {:induction false} ChildrenDeepen(ctx: Context, ip: seq<string>, typename: string, sels: seq<Sel>, location: string)
    ensures AllDeepening(Children(ctx, ip, typename, sels, location), ip)
    decreases Size(sels), 2
  {
    if sels != [] {
      var front, f := sels[..|sels| - 1], sels[|sels| - 1];
      ChildrenDeepen(ctx, ip, typename, front, location);
      if f.Field? {
        var url := Where(ctx.tum, typename, f.name, location);
        if url == location {
          ChildrenDeepen(ctx, ip + [f.alias], f.typ.name, f.sub, location);
        } else {
          StepDeepens(ctx, ip, typename, Group(ctx.tum, typename, sels, location, url), url);
        }
      }
    }
  }

  lemma {:induction false} StepDeepens(ctx: Context, ip: seq<string>, typename: string, group: seq<Sel>, url: string)
    ensures Deepening(StepFor(ctx, ip, typename, group, url))
    decreases Size(group), 1
  {
    KidsDeepen(ctx, ip, group, url);
  }

  lemma {:induction false} KidsDeepen(ctx: Context, ip: seq<string>, sels: seq<Sel>, url: string)
    ensures AllDeepening(Kids(ctx, ip, sels, url), ip)
    ensures forall i :: 0 <= i < |Kids(ctx, ip, sels, url)| ==> ip < Kids(ctx, ip, sels, url)[i].ip
    decreases Size(sels), 0
  {
    if sels != [] {
      var f := sels[|sels| - 1];
      KidsDeepen(ctx, ip, sels[..|sels| - 1], url);
      if f.Field? {
        ChildrenDeepen(ctx, ip + [f.alias], f.typ.name, f.sub, url);
      }
    }
  }

  lemma {:induction false} LevelDeepens(steps: seq<Step>, d: nat, s: Step)
    requires AllDeepening(steps, []) && s in Level(steps, d)
    ensures Deepening(s)
  {
    if d == 0 {
      LevelZero(steps);
    } else {
      LevelBelow(steps, d - 1, s);
      var t :| t in Level(steps, d - 1) && s in t.thens;
      LevelDeepens(steps, d - 1, t);
    }
  }

  /** The queries of each level of a plan have different digests. */
  ghost predicate ToldApart(digest: seq<Sel> -> Digest, steps: seq<Step>) {
    forall d: nat, s, t :: s in Level(steps, d) && t in Level(steps, d) && digest(s.sel) == digest(t.sel) ==> s.sel == t.sel
  }

  /** In a whole plan, at every depth, a child step's insertion point strictly extends its parent's. */
  lemma {:induction false} PlanDeepens(ctx: Context, store: Store, root: Place, locs: seq<string>, steps: seq<Step>,
                                       d: nat, s: Step, c: Step)
    requires Setting(ctx, store, root) && Owned(root.sels)
    requires StepsOf(ctx, [], root.typename, "", root.sels, locs, steps)
    requires s in Level(steps, d) && c in s.thens
    ensures s.ip < c.ip
  {
    RootStepsAre(ctx, store, root, locs, steps);
    forall i | 0 <= i < |steps|
      ensures Deepening(steps[i])
    {
      StepDeepens(ctx, [], root.typename, Group(ctx.tum, root.typename, root.sels, "", locs[i]), locs[i]);
    }
    LevelDeepens(steps, d, s);
    var i :| 0 <= i < |s.thens| && s.thens[i] == c;
  }

  lemma PlannedWell(ctx: Context, store: Store, root: Place, digest: seq<Sel> -> Digest, locs: seq<string>, steps: seq<Step>)
    requires Setting(ctx, store, root) && Owned(root.sels) && ToldApart(digest, steps)
    requires StepsOf(ctx, [], root.typename, "", root.sels, locs, steps)
    ensures WellPlanned(digest, steps)
  {
    RootStepsAre(ctx, store, root, locs, steps);
    assert forall i :: 0 <= i < |steps| ==> IsRoot(steps[i].parentType);
    forall d: nat, s, c | s in Level(steps, d) && c in s.thens
      ensures |c.ip| > |s.ip|
    {
      PlanDeepens(ctx, store, root, locs, steps, d, s, c);
    }
  }

  /**
   * createQueryPlanSteps at the root, on a sanitized query over object types: it succeeds, and the run it starts is
   * healthy; there are no steps only for an empty query.
   */
  lemma PlanningSucceeds(ctx: Context, store: Store, root: Place, r: Result<seq<Step>>, locs: seq<string>)
    requires Setting(ctx, store, root) && Owned(root.sels)
    requires Planned(ctx, [], root.typename, "", root.sels, r, locs)
    ensures r.Ok? && StepsOf(ctx, [], root.typename, "", root.sels, locs, r.value)
    ensures Healthy(ctx, store, root, Moment(map[], RootRequestsOf(r.value)))
    ensures r.value == [] ==> root.sels == []
  {
    RootRoutable(ctx, store, root);
    forall url | RoutedTo(ctx.tum, root.typename, "", root.sels, url) != []
      ensures StepOf(ctx, [], root.typename, RoutedTo(ctx.tum, root.typename, "", root.sels, url), url).Ok?
    {
      RoutedIsGroup(ctx.tum, root.typename, root.sels, url);
      var group := Group(ctx.tum, root.typename, root.sels, "", url);
      assert group[0] in group;
      RootStep(ctx, store, root, url);
    }
    assert r.Ok?;
    PlannedHealthy(ctx, store, root, locs, r.value);
    if root.sels != [] {
      var url := Where(ctx.tum, root.typename, root.sels[0].name, "");
      assert root.sels[0] in Group(ctx.tum, root.typename, root.sels, "", url);
      RootStepsAre(ctx, store, root, locs, r.value);
      assert url in locs;
    }
  }
}
