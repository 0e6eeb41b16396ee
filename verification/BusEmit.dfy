/** Fan-out of one message to all of its routes (emit_message in include/solar/bus/runtime.hpp).

    What each route answers is an input: BusRoutes says which answers a route gives.
 */
module BusEmit {
  import opened Basics
  import opened BusRoutes

  /** What emitting came to: refused before any route was tried, or tried on all of them. */
  datatype Outcome =
    | Refused(invalidContext: bool)
    | Delivered
    | Failed(status: Status, reason: Option<Reason>, route: nat, totals: Totals)

  datatype Totals = Totals(attempted: nat, accepted: nat, rejected: nat, dropped: nat)

  /** One subscription: whether it takes this type of message, and its answer if asked. */
  datatype Route = Route(takes: bool, answer: Attempt)

  ghost function Tally(routes: seq<Route>, counts: Attempt -> bool): nat
  {
    if routes == [] then 0
    else
      var last := routes[|routes| - 1];
      Tally(routes[..|routes| - 1], counts) + if last.takes && counts(last.answer) then 1 else 0
  }

  ghost function TotalsOf(routes: seq<Route>): Totals
  {
    Totals(Tally(routes, (a: Attempt) => true), Tally(routes, (a: Attempt) => a.accepted),
           Tally(routes, (a: Attempt) => a.failed), Tally(routes, (a: Attempt) => a.dropped))
  }

  lemma TotalsPrefix(routes: seq<Route>, n: nat)
    requires n < |routes|
    ensures var t, t', r := TotalsOf(routes[..n]), TotalsOf(routes[..n + 1]), routes[n];
            && t'.attempted == t.attempted + (if r.takes then 1 else 0)
            && t'.accepted == t.accepted + (if r.takes && r.answer.accepted then 1 else 0)
            && t'.rejected == t.rejected + (if r.takes && r.answer.failed then 1 else 0)
            && t'.dropped == t.dropped + (if r.takes && r.answer.dropped then 1 else 0)
  {
    assert routes[..n + 1][..n] == routes[..n];
  }

  ghost predicate Fails(r: Route)
  {
    r.takes && r.answer.failed
  }

  /** Every matching route is tried whatever the others answered, and the totals count all of them;
      the reported cause is that of the first route that failed. */
  method EmitMessage(routes: seq<Route>, mode: EmitMode, inIsr: bool, running: bool) returns (r: Outcome)
    ensures r.Refused? <==> (mode != Isr && inIsr) || !running
    ensures r.Refused? ==> (r.invalidContext <==> mode != Isr && inIsr)
    ensures r.Failed? <==> !r.Refused? && (exists i :: 0 <= i < |routes| && Fails(routes[i]))
    ensures r.Failed? ==>
              && r.totals == TotalsOf(routes)
              && r.route < |routes| && Fails(routes[r.route])
              && (forall i :: 0 <= i < r.route ==> !Fails(routes[i]))
              && r.status == routes[r.route].answer.status && r.reason == routes[r.route].answer.reason
  {
    if mode != Isr && inIsr {
      return Refused(true);
    }
    if !running {
      return Refused(false);
    }
    var totals := Totals(0, 0, 0, 0);
    var failed := false;
    var cause := Attempt(false, false, false, Ok, None);
    var first := 0;
    for i := 0 to |routes|
      invariant totals == TotalsOf(routes[..i])
      invariant failed <==> exists j :: 0 <= j < i && Fails(routes[j])
      invariant failed ==> first < i && Fails(routes[first]) && cause == routes[first].answer
                           && forall j :: 0 <= j < first ==> !Fails(routes[j])
    {
      TotalsPrefix(routes, i);
      if routes[i].takes {
        var answer := routes[i].answer;
        totals := Totals(totals.attempted + 1,
                         totals.accepted + if answer.accepted then 1 else 0,
                         totals.rejected + if answer.failed then 1 else 0,
                         totals.dropped + if answer.dropped then 1 else 0);
        if answer.failed && !failed {
          failed, cause, first := true, answer, i;
        }
      }
    }
    assert routes[..|routes|] == routes;
    r := if failed then Failed(cause.status, cause.reason, first, totals) else Delivered;
  }

  /** Each attempted route is accepted, rejected, or silently dropped; only a failing inline handler
      is counted both as accepted and as rejected. */
  lemma {:induction false} TotalsPartition(routes: seq<Route>)
    requires forall i :: 0 <= i < |routes| && routes[i].takes ==> Possible(routes[i].answer)
    ensures var t := TotalsOf(routes);
            t.attempted + Tally(routes, (a: Attempt) => a.failed && a.accepted)
              == t.accepted + t.rejected + Tally(routes, (a: Attempt) => a.dropped && !a.accepted)
  {
    if routes != [] {
      TotalsPartition(routes[..|routes| - 1]);
    }
  }
}
