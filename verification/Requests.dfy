/** Execution requests and where they come from (executor/depth_executor_next_execution_requests.go). */
module Requests {
  import opened Prelude
  import opened Json
  import opened Selection
  import opened InsertionPoints

  /** A plan step to be executed at one realized insertion point. */
  datatype Request = Request(step: Step, ip: seq<string>)

  function RequestsAt(child: Step, points: seq<seq<string>>): seq<Request> {
    seq(|points|, i requires 0 <= i < |points| => Request(child, points[i]))
  }

  /** The requests of the steps in thens: each at every insertion point found in the result. */
  function NextRequests(ip: seq<string>, sent: seq<Sel>, thens: seq<Step>, result: Object): Result<seq<Request>> {
    if thens == [] then Ok([])
    else
      var before :- NextRequests(ip, sent, thens[..|thens| - 1], result);
      var child := thens[|thens| - 1];
      var points :- Find(child.ip, sent, result, [ip]);
      Ok(before + RequestsAt(child, points))
  }

  /** Every insertion point of every step gets its request. */
  lemma {:induction false} InNext(ip: seq<string>, sent: seq<Sel>, thens: seq<Step>, result: Object, child: Step,
                                  points: seq<seq<string>>, i: nat)
    requires child in thens && Find(child.ip, sent, result, [ip]) == Ok(points) && i < |points|
    requires NextRequests(ip, sent, thens, result).Ok?
    ensures Request(child, points[i]) in NextRequests(ip, sent, thens, result).value
  {
    var before, last := thens[..|thens| - 1], thens[|thens| - 1];
    if child == last {
      assert RequestsAt(last, points)[i] == Request(child, points[i]);
    } else {
      assert child in before;
      InNext(ip, sent, before, result, child, points, i);
    }
  }
}
