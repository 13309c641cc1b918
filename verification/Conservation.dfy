/**
 * Nothing of a query is lost, doubled or moved by planning it.
 * The fields of a selection, composite ones included, are counted with all their parts and their place in the response:
 * those that stay with a step and those that its followers fetch are exactly those the query asks for.
 * This is about the plan alone; that the answers are right as well is the subject of the run invariant.
 */
module Conservation {
  import opened Prelude
  import opened Schema
  import opened Selection
  import opened Asking
  import opened Planner
  import opened Division
  import opened DivisionProofs
  import opened DivisionShape
  import opened SequentialPlanner
  import opened Evaluation
  import opened Progress
  import opened RoundProofs
  import opened RootPlan

  /** `node(id: $id) { ... on typename { ... } }`. */
  predicate AsksNode(sels: seq<Sel>, typename: string) {
    && |sels| == 1 && sels[0].Field? && sels[0].alias == "" && sels[0].name == "node" && sels[0].args == ["id"]
    && |sels[0].sub| == 1 && sels[0].sub[0].Inline? && sels[0].sub[0].cond == typename
  }

  /** What a step asks of its object: the node query's wrapping taken off. */
  function Bare(s: Step): seq<Sel> {
    if !IsRoot(s.parentType) && AsksNode(s.sel, s.parentType) then s.sel[0].sub[0].sub else s.sel
  }

  /** The fields a step and all steps after it fetch, at their places in the response. */
  function Fetched(s: Step): multiset<Ask>
    decreases s, 1
  {
    Asks(s.ip, Bare(s)) + AllFetched(s.thens)
  }

  function AllFetched(steps: seq<Step>): multiset<Ask>
    decreases steps, 0
  {
    if steps == [] then multiset{} else AllFetched(steps[..|steps| - 1]) + Fetched(steps[|steps| - 1])
  }

  lemma {:induction false} AllFetchedAppend(a: seq<Step>, b: seq<Step>)
    ensures AllFetched(a + b) == AllFetched(a) + AllFetched(b)
  {
    if b == [] {
      assert a + b == a;
    } else {
      assert (a + b)[..|a + b| - 1] == a + b[..|b| - 1];
      AllFetchedAppend(a, b[..|b| - 1]);
    }
  }

  lemma {:induction false} FetchedOne(s: Step)
    ensures AllFetched([s]) == Fetched(s)
  {
    assert [s][..0] == [];
  }

  /** One step replaced. */
  lemma {:induction false} FetchedUpdate(steps: seq<Step>, i: nat, s: Step)
    requires i < |steps|
    ensures AllFetched(steps[i := s]) + Fetched(steps[i]) == AllFetched(steps) + Fetched(s)
  {
    var a, b := steps[..i], steps[i + 1..];
    assert steps == a + [steps[i]] + b && steps[i := s] == a + [s] + b;
    AllFetchedAppend(a + [steps[i]], b);
    AllFetchedAppend(a + [s], b);
    AllFetchedAppend(a, [steps[i]]);
    AllFetchedAppend(a, [s]);
    FetchedOne(steps[i]);
    FetchedOne(s);
  }

  lemma {:induction false} BareOfStep(ctx: Context, ip: seq<string>, typename: string, group: seq<Sel>, url: string)
    ensures Bare(StepFor(ctx, ip, typename, group, url)) == Local(ctx, typename, group, url)
  {
    var s := StepFor(ctx, ip, typename, group, url);
    if IsRoot(typename) {
      assert s.sel == Local(ctx, typename, group, url);
    }
  }

  /** A composite field keeps something of its selection wherever it is answered. */
  lemma {:induction false} KeepsSomething(ctx: Context, typename: string, f: Sel, location: string)
    requires Sound(ctx.tum) && location != INTERNAL_SERVICE && f.Field? && f.sub != [] && PlannableField(ctx, typename, f)
    ensures Local(ctx, f.typ.name, f.sub, location) != []
  {
    if ImplementsNode(ctx.tum, f.typ.name) {
      LocalHasId(ctx, f.typ.name, f.sub, location);
      var i :| 0 <= i < |f.sub| && f.sub[i].Field? && f.sub[i].name == ID;
      assert HasFieldNamed(f.sub, ID);
    } else {
      var last := f.sub[|f.sub| - 1];
      assert PlannableField(ctx, f.typ.name, last);
      if Where(ctx.tum, f.typ.name, last.name, location) != location {
        OnlyNodesSplit(ctx.tum, f.typ.name, last.name, location);
      }
    }
  }

  /** Fields that can be planned, whatever set they come from. */
  ghost predicate PlannableFields(ctx: Context, typename: string, sels: seq<Sel>) {
    forall f :: f in sels ==> PlannableField(ctx, typename, f)
  }

  /** A field answered at a location: it, what stays below it and what the steps below it fetch is what it asks for. */
  lemma {:induction false} FieldConserved(ctx: Context, ip: seq<string>, typename: string, f: Sel, location: string)
    requires Sound(ctx.tum) && location != INTERNAL_SERVICE && PlannableField(ctx, typename, f)
    ensures AsksOf(ip, f) == AsksOf(ip, WithSub(f, Local(ctx, f.typ.name, f.sub, location)))
                               + AllFetched(Children(ctx, ip + [f.alias], f.typ.name, f.sub, location))
    decreases Size(f.sub), 4
  {
    if f.sub == [] {
      assert WithSub(f, Local(ctx, f.typ.name, f.sub, location)) == f;
    } else {
      KeepsSomething(ctx, typename, f, location);
      Conserved(ctx, ip + [f.alias], f.typ.name, f.sub, location);
    }
  }

  /** One more field answered at a location. */
  lemma {:induction false} OneMoreConserved(ctx: Context, ip: seq<string>, f: Sel, location: string,
                                        all: multiset<Ask>, kept: seq<Sel>, steps: seq<Step>)
    requires f.Field?
    requires all == Asks(ip, kept) + AllFetched(steps)
    requires AsksOf(ip, f) == AsksOf(ip, WithSub(f, Local(ctx, f.typ.name, f.sub, location)))
                                + AllFetched(Children(ctx, ip + [f.alias], f.typ.name, f.sub, location))
    ensures all + AsksOf(ip, f)
            == Asks(ip, kept + [WithSub(f, Local(ctx, f.typ.name, f.sub, location))])
               + AllFetched(steps + Children(ctx, ip + [f.alias], f.typ.name, f.sub, location))
  {
    AsksSnoc(ip, kept, WithSub(f, Local(ctx, f.typ.name, f.sub, location)));
    AllFetchedAppend(steps, Children(ctx, ip + [f.alias], f.typ.name, f.sub, location));
  }

  lemma {:induction false} KidsConserved(ctx: Context, ip: seq<string>, typename: string, group: seq<Sel>, url: string)
    requires Sound(ctx.tum) && url != INTERNAL_SERVICE && PlannableFields(ctx, typename, group) && AllAt(ctx.tum, typename, group, url)
    ensures Asks(ip, group) == Asks(ip, Local(ctx, typename, group, url)) + AllFetched(Kids(ctx, ip, group, url))
    decreases Size(group), 0
  {
    if group != [] {
      var front, f := group[..|group| - 1], group[|group| - 1];
      SubSize(group);
      KidsConserved(ctx, ip, typename, front, url);
      FieldConserved(ctx, ip, typename, f, url);
      OneMoreConserved(ctx, ip, f, url, Asks(ip, front), Local(ctx, typename, front, url), Kids(ctx, ip, front, url));
    }
  }

  /** A step fetches, with all steps after it, exactly what the fields it was made for ask. */
  lemma {:induction false} GroupConserved(ctx: Context, ip: seq<string>, typename: string, group: seq<Sel>, url: string)
    requires Sound(ctx.tum) && url != INTERNAL_SERVICE && PlannableFields(ctx, typename, group) && AllAt(ctx.tum, typename, group, url)
    ensures Fetched(StepFor(ctx, ip, typename, group, url)) == Asks(ip, group)
    decreases Size(group), 1, 0
  {
    KidsConserved(ctx, ip, typename, group, url);
    BareOfStep(ctx, ip, typename, group, url);
  }

  lemma {:induction false} GroupFields(ctx: Context, typename: string, sels: seq<Sel>, location: string, url: string)
    requires Sound(ctx.tum) && Plannable(ctx, typename, sels) && location != INTERNAL_SERVICE && url != location
    ensures var group := Group(ctx.tum, typename, sels, location, url);
            && PlannableFields(ctx, typename, group)
            && AllAt(ctx.tum, typename, group, url)
            && (group != [] ==> url != INTERNAL_SERVICE)
  {
    var group := Group(ctx.tum, typename, sels, location, url);
    forall f | f in group
      ensures PlannableField(ctx, typename, f) && Where(ctx.tum, typename, f.name, url) == url && url != INTERNAL_SERVICE
    {
      PlannableSub(ctx, typename, sels, f);
      OnlyNodesSplit(ctx.tum, typename, f.name, location);
    }
    assert group != [] ==> group[0] in group;
  }

  /**
   * Plan conservation: the fields of a query are exactly those that stay and those its steps fetch, each once
   * and each at its place in the response, including fields merged into a step that was already there.
   */
  lemma {:induction false} Conserved(ctx: Context, ip: seq<string>, typename: string, sels: seq<Sel>, location: string)
    requires Sound(ctx.tum) && location != INTERNAL_SERVICE && Plannable(ctx, typename, sels)
    ensures Asks(ip, sels) == Asks(ip, Local(ctx, typename, sels, location)) + AllFetched(Children(ctx, ip, typename, sels, location))
    decreases Size(sels), 3
  {
    if sels != [] {
      var front, f := sels[..|sels| - 1], sels[|sels| - 1];
      PlannablePrefix(ctx, typename, sels);
      PlannableSub(ctx, typename, sels, f);
      Conserved(ctx, ip, typename, front, location);
      if Where(ctx.tum, typename, f.name, location) == location {
        SubSize(sels);
        FieldConserved(ctx, ip, typename, f, location);
        OneMoreConserved(ctx, ip, f, location, Asks(ip, front), Local(ctx, typename, front, location), Children(ctx, ip, typename, front, location));
      } else {
        RemoteConserved(ctx, ip, typename, sels, location);
        assert Local(ctx, typename, sels, location) == Local(ctx, typename, front, location);
      }
    }
  }

  lemma {:induction false} RemoteConserved(ctx: Context, ip: seq<string>, typename: string, sels: seq<Sel>, location: string)
    requires Sound(ctx.tum) && location != INTERNAL_SERVICE && Plannable(ctx, typename, sels) && sels != []
    requires Where(ctx.tum, typename, sels[|sels| - 1].name, location) != location
    ensures AllFetched(Children(ctx, ip, typename, sels, location))
            == AllFetched(Children(ctx, ip, typename, sels[..|sels| - 1], location)) + AsksOf(ip, sels[|sels| - 1])
    decreases Size(sels), 2
  {
    var front := sels[..|sels| - 1];
    var url := Where(ctx.tum, typename, sels[|sels| - 1].name, location);
    PlannablePrefix(ctx, typename, sels);
    GroupLeaves(ctx, ip, typename, sels, location, url);
    GroupLeaves(ctx, ip, typename, front, location, url);
    StepGrows(ctx, ip, typename, sels, location, url);
    GroupSnoc(ctx.tum, ip, typename, sels, location, url);
    Balance(AllFetched(Children(ctx, ip, typename, sels, location)), Asks(ip, Group(ctx.tum, typename, front, location, url)),
            AllFetched(Children(ctx, ip, typename, front, location)), Asks(ip, Group(ctx.tum, typename, sels, location, url)),
            AsksOf(ip, sels[|sels| - 1]));
  }

  lemma GroupSnoc(tum: TypeURLMap, ip: seq<string>, typename: string, sels: seq<Sel>, location: string, url: string)
    requires sels != [] && sels[|sels| - 1].Field? && Where(tum, typename, sels[|sels| - 1].name, location) == url
    ensures Asks(ip, Group(tum, typename, sels, location, url))
            == Asks(ip, Group(tum, typename, sels[..|sels| - 1], location, url)) + AsksOf(ip, sels[|sels| - 1])
  {
    AsksSnoc(ip, Group(tum, typename, sels[..|sels| - 1], location, url), sels[|sels| - 1]);
  }

  lemma Balance(a: multiset<Ask>, b: multiset<Ask>, c: multiset<Ask>, d: multiset<Ask>, e: multiset<Ask>)
    requires a + b == c + d && d == b + e
    ensures a == c + e
  {
    assert c + d == c + e + b;
    assert a + b - b == a && c + e + b - b == c + e;
  }

  lemma {:induction false} GroupLeaves(ctx: Context, ip: seq<string>, typename: string, sels: seq<Sel>,
                                       location: string, url: string)
    requires Sound(ctx.tum) && location != INTERNAL_SERVICE && Plannable(ctx, typename, sels) && url != location
    ensures Fetched(StepFor(ctx, ip, typename, Group(ctx.tum, typename, sels, location, url), url))
            == Asks(ip, Group(ctx.tum, typename, sels, location, url))
    decreases Size(sels), 1, 1
  {
    var group := Group(ctx.tum, typename, sels, location, url);
    GroupFields(ctx, typename, sels, location, url);
    if group == [] {
      NothingFetched(ctx, ip, typename, url);
    } else {
      GroupConserved(ctx, ip, typename, group, url);
    }
  }

  /** The step of a remote field takes the place of the one for the fields before it, if there is one. */
  lemma {:induction false} StepGrows(ctx: Context, ip: seq<string>, typename: string, sels: seq<Sel>, location: string,
                                     url: string)
    requires sels != [] && sels[|sels| - 1].Field? && Where(ctx.tum, typename, sels[|sels| - 1].name, location) == url != location
    ensures AllFetched(Children(ctx, ip, typename, sels, location))
              + Fetched(StepFor(ctx, ip, typename, Group(ctx.tum, typename, sels[..|sels| - 1], location, url), url))
            == AllFetched(Children(ctx, ip, typename, sels[..|sels| - 1], location))
              + Fetched(StepFor(ctx, ip, typename, Group(ctx.tum, typename, sels, location, url), url))
  {
    var front, f := sels[..|sels| - 1], sels[|sels| - 1];
    var steps := Children(ctx, ip, typename, front, location);
    var before := Group(ctx.tum, typename, front, location, url);
    var s := StepFor(ctx, ip, typename, Group(ctx.tum, typename, sels, location, url), url);
    var i := FindStep(steps, url, ip);
    if i < |steps| {
      JoinedStep(ctx, ip, typename, front, location, steps[i]);
      FetchedUpdate(steps, i, s);
    } else {
      NoneBefore(ctx, ip, typename, front, location, url);
      NothingFetched(ctx, ip, typename, url);
      AllFetchedAppend(steps, [s]);
      FetchedOne(s);
    }
  }

  lemma {:induction false} NoneBefore(ctx: Context, ip: seq<string>, typename: string, sels: seq<Sel>, location: string,
                                      url: string)
    requires url != location
    requires FindStep(Children(ctx, ip, typename, sels, location), url, ip) == |Children(ctx, ip, typename, sels, location)|
    ensures Group(ctx.tum, typename, sels, location, url) == []
  {
    var group := Group(ctx.tum, typename, sels, location, url);
    if group != [] {
      assert group[0] in group;
      var k := HasStep(ctx, ip, typename, sels, location, group[0]);
    }
  }

  lemma {:induction false} NothingFetched(ctx: Context, ip: seq<string>, typename: string, url: string)
    ensures Fetched(StepFor(ctx, ip, typename, [], url)) == multiset{}
  {
    BareOfStep(ctx, ip, typename, [], url);
  }

  lemma {:induction false} FetchedWithout(steps: seq<Step>, k: nat)
    requires k < |steps|
    ensures AllFetched(steps) == AllFetched(Without(steps, k)) + Fetched(steps[k])
  {
    var front, last := steps[..|steps| - 1], steps[|steps| - 1];
    if k == |steps| - 1 {
      assert Without(steps, k) == front;
    } else {
      FetchedWithout(front, k);
      assert Without(steps, k) == Without(front, k) + [last];
      AllFetchedAppend(Without(front, k), [last]);
      FetchedOne(last);
    }
  }

  /** The order of the steps does not matter. */
  lemma {:induction false} FetchedPermuted(a: seq<Step>, b: seq<Step>)
    requires multiset(a) == multiset(b)
    ensures AllFetched(a) == AllFetched(b)
    decreases |a|
  {
    if a == [] {
      assert |multiset(b)| == 0;
    } else {
      var front, last := a[..|a| - 1], a[|a| - 1];
      assert a == front + [last];
      var k := LastIn(a, b);
      FetchedPermuted(front, Without(b, k));
      FetchedWithout(b, k);
    }
  }

  lemma {:induction false} NothingStays(ctx: Context, typename: string, sels: seq<Sel>, location: string)
    requires forall f :: f in sels && f.Field? ==> Where(ctx.tum, typename, f.name, location) != location
    ensures Local(ctx, typename, sels, location) == []
  {
    if sels != [] {
      NothingStays(ctx, typename, sels[..|sels| - 1], location);
    }
  }

  lemma {:induction false} ChildIsRootStep(ctx: Context, store: Store, root: Place, locs: seq<string>, steps: seq<Step>, s: Step)
    requires Setting(ctx, store, root) && Owned(root.sels)
    requires StepsOf(ctx, [], root.typename, "", root.sels, locs, steps)
    requires s in Children(ctx, [], root.typename, root.sels, "")
    ensures s in steps
  {
    RootRoutable(ctx, store, root);
    RootStepsAre(ctx, store, root, locs, steps);
    var path := StepHasPlace(ctx, [], root.typename, root.sels, "", s);
    assert path == [];
    var i :| 0 <= i < |locs| && locs[i] == s.url;
    assert s == steps[i];
  }

  lemma {:induction false} RootStepIsChild(ctx: Context, store: Store, root: Place, locs: seq<string>, steps: seq<Step>, i: nat)
    requires Setting(ctx, store, root) && Owned(root.sels) && i < |steps|
    requires StepsOf(ctx, [], root.typename, "", root.sels, locs, steps)
    ensures steps[i] in Children(ctx, [], root.typename, root.sels, "") && steps[i].url == locs[i]
  {
    RootStepsAre(ctx, store, root, locs, steps);
    StepHere(ctx, [], root.typename, root.sels, "", locs[i]);
  }

  lemma {:induction false} StepHere(ctx: Context, ip: seq<string>, typename: string, sels: seq<Sel>, location: string,
                                    url: string)
    requires url != location && Group(ctx.tum, typename, sels, location, url) != []
    ensures StepAt(ctx, ip, (typename, sels), location, url) in Children(ctx, ip, typename, sels, location)
  {
    var first := Group(ctx.tum, typename, sels, location, url)[0];
    assert first in Group(ctx.tum, typename, sels, location, url);
    var steps := Children(ctx, ip, typename, sels, location);
    var k := HasStep(ctx, ip, typename, sels, location, first);
    JoinedStep(ctx, ip, typename, sels, location, steps[k]);
  }

  /** The root steps are the steps of the division at the root. */
  lemma {:induction false} RootStepsAreChildren(ctx: Context, store: Store, root: Place, locs: seq<string>, steps: seq<Step>)
    requires Setting(ctx, store, root) && Owned(root.sels)
    requires StepsOf(ctx, [], root.typename, "", root.sels, locs, steps)
    ensures multiset(steps) == multiset(Children(ctx, [], root.typename, root.sels, ""))
  {
    var children := Children(ctx, [], root.typename, root.sels, "");
    forall i, j | 0 <= i < j < |children|
      ensures children[i] != children[j]
    {
      StepsDiffer(ctx, [], root.typename, root.sels, "", i, j);
    }
    forall i | 0 <= i < |steps|
      ensures steps[i] in children && steps[i].url == locs[i]
    {
      RootStepIsChild(ctx, store, root, locs, steps, i);
    }
    forall s | s in children
      ensures s in steps
    {
      ChildIsRootStep(ctx, store, root, locs, steps, s);
    }
    SameBag(steps, children);
  }

  /** A whole plan fetches exactly the fields of the query, each once and at its place. */
  lemma {:induction false} PlanConserves(ctx: Context, store: Store, root: Place, locs: seq<string>, steps: seq<Step>)
    requires Setting(ctx, store, root) && Owned(root.sels)
    requires StepsOf(ctx, [], root.typename, "", root.sels, locs, steps)
    ensures AllFetched(steps) == Asks([], root.sels)
  {
    RootRoutable(ctx, store, root);
    NothingStays(ctx, root.typename, root.sels, "");
    Conserved(ctx, [], root.typename, root.sels, "");
    RootStepsAreChildren(ctx, store, root, locs, steps);
    FetchedPermuted(steps, Children(ctx, [], root.typename, root.sels, ""));
  }
}
