/** Requests that nobody answers: skipped by the parent-type function, or answered with a null node. */
module NullNodes {
  import opened Prelude
  import opened Points
  import opened Json
  import opened Schema
  import opened Selection
  import opened InsertionPoints
  import opened MergeMaps
  import opened Stitching
  import opened Requests
  import opened Service
  import opened RoundProofs
  import opened DepthExecutor
  import opened Scheduler
  import opened StitchOrder
  import opened Runs

  /** A node query whose answer is `{"node": null}`. */
  ghost predicate NullNode(env: Env, r: Request) {
    && !IsRoot(r.step.parentType)
    && Alone(env.services, env.parentTypeOf, env.variables, r).Ok?
    && var response := Alone(env.services, env.parentTypeOf, env.variables, r).value;
       NODE in response && response[NODE] == JNull
  }

  /** The steps after a request are for objects below its own. */
  predicate GoesDeeper(r: Request) {
    forall i :: 0 <= i < |r.step.thens| ==> |r.step.thens[i].ip| > |r.ip|
  }

  /** An object known to be of another type than the step is for is not asked for: it counts as a null node. */
  lemma SkippedIsNull(env: Env, r: Request, t: string)
    requires !IsRoot(r.step.parentType) && r.ip != [] && Decode(r.ip[|r.ip| - 1]).Ok? && Decode(r.ip[|r.ip| - 1]).value.id != ""
    requires env.parentTypeOf(JScalar(Decode(r.ip[|r.ip| - 1]).value.id)) == Some(t) && t != r.step.parentType
    ensures NullNode(env, r)
  {
    assert GetVariables(env.variables, r).value[ID] == JScalar(Decode(r.ip[|r.ip| - 1]).value.id);
  }

  /** A node query fails when its answer has no node, or one that is neither null nor an object. */
  lemma NodeRequired(env: Env, r: Request)
    requires !IsRoot(r.step.parentType) && SingleIn(env, r).Ok?
    ensures var response := Alone(env.services, env.parentTypeOf, env.variables, r);
            response.Ok? && NODE in response.value && (response.value[NODE].JNull? || response.value[NODE].JObj?)
  {
    var response := Alone(env.services, env.parentTypeOf, env.variables, r);
    assert response.Ok? && Unwrap(r.step.parentType, response.value).Ok?;
  }

  lemma {:induction false} NothingBelow(ip: seq<string>, sent: seq<Sel>, thens: seq<Step>)
    requires forall i :: 0 <= i < |thens| ==> |thens[i].ip| > |ip|
    ensures NextRequests(ip, sent, thens, map[]) == Ok([])
  {
    if thens != [] {
      var child := thens[|thens| - 1];
      NothingBelow(ip, sent, thens[..|thens| - 1]);
      NoPoints(child.ip, sent, ip);
      var none: seq<Request> := [];
      assert none + RequestsAt(child, []) == none;
    }
  }

  lemma {:induction false} NoPoints(targets: seq<string>, sels: seq<Sel>, ip: seq<string>)
    requires |targets| > |ip|
    ensures Find(targets, sels, map[], [ip]) == Ok([])
  {
    assert Find(targets, sels, map[], [ip]) == Walk(targets, |ip|, sels, map[], [ip]);
  }

  /** It succeeds with nothing to stitch and nothing to ask next. */
  lemma NullSucceeds(env: Env, r: Request)
    requires NullNode(env, r) && GoesDeeper(r)
    ensures SingleIn(env, r) == Ok(Outcome(map[], []))
  {
    NothingBelow(r.ip, r.step.sel, r.step.thens);
  }

  /** Stitching nothing at an object that is there changes nothing. */
  lemma {:induction false} NullStitched(tree: Object, ip: seq<string>, at: seq<Pt>)
    requires Denotes(ip, at) && Reach(tree, at).Some?
    ensures Stitch(tree, ip, map[]) == Ok(tree)
  {
    ReachesWhatIsThere(tree, ip, at);
    var o := Reach(tree, at).value;
    assert MergeInto(o, map[]) == o;
    SameAt(tree, at);
  }

  lemma {:induction false} SameAt(tree: Object, at: seq<Pt>)
    requires Reach(tree, at).Some?
    ensures WithAt(tree, at, Reach(tree, at).value) == tree
    decreases |at|
  {
    if at != [] {
      SameAt(Child(tree, at[0]).value, at[1..]);
      WithChildSame(tree, at[0]);
    }
  }

  /** The results that hold something. */
  function Telling(pieces: seq<Piece>): seq<Piece> {
    if pieces == [] then []
    else
      var last := pieces[|pieces| - 1];
      Telling(pieces[..|pieces| - 1]) + if last.result.result == map[] then [] else [last]
  }

  /** The results of null nodes leave no trace in the tree, wherever they arrive among the others. */
  lemma {:induction false} NullsFallAway(source: Object, pieces: seq<Piece>)
    requires Fits(source, pieces)
    ensures MergeAll(source, Results(pieces)).Ok?
    ensures MergeAll(source, Results(pieces)) == MergeAll(source, Results(Telling(pieces)))
  {
    if pieces == [] {
      assert Results(pieces) == [] == Results(Telling(pieces));
    } else {
      var front, last := pieces[..|pieces| - 1], pieces[|pieces| - 1];
      assert pieces == front + [last];
      MergeSnoc(source, front, last);
      NullsFallAway(source, front);
      ResultsFront(front, last);
      MergeAllSnoc(source, Results(front), last.result);
      var before := MergeAll(source, Results(front)).value;
      if last.result.result == map[] {
        assert Denotes(pieces[|front|].result.ip, pieces[|front|].at);
        NullStitched(before, last.result.ip, last.at);
        assert Telling(front) + [] == Telling(front);
      } else {
        ResultsFront(Telling(front), last);
        MergeAllSnoc(source, Results(Telling(front)), last.result);
      }
    }
  }

  /** What a request adds to the tree, and where. */
  ghost function PieceOf(env: Env, r: Request): Piece {
    Piece(ExecutionResult(r.ip, if SingleIn(env, r).Ok? then SingleIn(env, r).value.result else map[]), AddressOf(r.ip))
  }

  ghost function PiecesOf(env: Env, ers: seq<Request>): (pieces: seq<Piece>)
    ensures |pieces| == |ers|
  {
    seq(|ers|, i requires 0 <= i < |ers| => PieceOf(env, ers[i]))
  }

  /** Requests for objects that are there, whose answers do not get in each other's way. */
  ghost predicate Apart(env: Env, tree: Object, pending: seq<Request>) {
    && Distinct(pending)
    && (forall r :: r in pending ==> Denotes(r.ip, AddressOf(r.ip)) && Reach(tree, AddressOf(r.ip)).Some?)
    && forall r, s :: r in pending && s in pending && r != s ==>
         Separate(AddressOf(r.ip), PieceOf(env, r).result.result, AddressOf(s.ip), PieceOf(env, s).result.result)
  }

  lemma ApartFits(env: Env, tree: Object, pending: seq<Request>, order: seq<Request>)
    requires Apart(env, tree, pending) && multiset(order) == multiset(pending)
    ensures Fits(tree, PiecesOf(env, order))
  {
    DistinctBag(pending);
    BagDistinct(order, ToSet(pending));
    forall i | 0 <= i < |order|
      ensures order[i] in pending
    {
      assert order[i] in multiset(order);
    }
  }

  /**
   * Null nodes never fail a round. If every pending request either succeeds alone or gets a null node, the round cannot
   * get stuck; in every order of arrival the tree becomes what the other requests alone make of it.
   */
  lemma RoundSurvives(env: Env, m: Moment)
    requires Apart(env, m.tree, m.pending)
    requires forall r :: r in m.pending ==> SingleIn(env, r).Ok? || (NullNode(env, r) && GoesDeeper(r))
    ensures !Stuck(env, m)
    ensures forall order, resp :: multiset(order) == multiset(m.pending) && Executed(env, order, resp) ==>
              && MergeAll(m.tree, resp.results).Ok?
              && MergeAll(m.tree, resp.results) == MergeAll(m.tree, Results(Telling(PiecesOf(env, order))))
  {
    forall r | r in m.pending
      ensures SingleIn(env, r).Ok?
    {
      if NullNode(env, r) && GoesDeeper(r) {
        NullSucceeds(env, r);
      }
    }
    forall order, resp | multiset(order) == multiset(m.pending) && Executed(env, order, resp)
      ensures MergeAll(m.tree, resp.results).Ok?
      ensures MergeAll(m.tree, resp.results) == MergeAll(m.tree, Results(Telling(PiecesOf(env, order))))
    {
      ApartFits(env, m.tree, m.pending, order);
      ExecutedResults(env, order, resp);
      assert resp.results == Results(PiecesOf(env, order));
      NullsFallAway(m.tree, PiecesOf(env, order));
    }
  }
}
