/**
 * Floors, requests and the routes a cabin takes between floors, shared by
 * both controllers. A cabin moving from one floor to another reaches every
 * floor in between, one per transit; a queue of requests served in order
 * strings those runs together.
 */
module Floors {

  /**
   * A queued request: the target floor and the direction the requester
   * announced (1 up, -1 down). The direction is recorded but never used to
   * choose how the cabin moves.
   */
  datatype Request = Request(floor: int, direction: int)

  function Dist(a: int, b: int): nat {
    if a <= b then b - a else a - b
  }

  /** 1 when `to` lies above `from`, -1 when below, 0 on the same floor. */
  function Heading(from: int, to: int): int {
    if to > from then 1 else if to < from then -1 else 0
  }

  predicate Between(x: int, a: int, b: int) {
    (a <= x <= b) || (b <= x <= a)
  }

  /** The floors reached, one per transit, going from `from` to `to`; `from` itself is not in it. */
  function Interval(from: int, to: int): (path: seq<int>)
    ensures |path| == Dist(from, to)
    decreases Dist(from, to)
  {
    if from == to then [] else
    var next := from + Heading(from, to);
    [next] + Interval(next, to)
  }

  /** The i-th floor reached is i + 1 floors away from the start, on the target's side. */
  lemma {:induction false} IntervalAt(from: int, to: int, i: nat)
    requires i < Dist(from, to)
    ensures to > from ==> Interval(from, to)[i] == from + i + 1
    ensures to < from ==> Interval(from, to)[i] == from - i - 1
    decreases Dist(from, to)
  {
    if i > 0 {
      IntervalAt(from + Heading(from, to), to, i - 1);
    }
  }

  /** The last floor of a trip; the start when nothing was travelled. */
  function End(start: int, path: seq<int>): int {
    if path == [] then start else path[|path| - 1]
  }

  /** The floor the cabin stood on just before reaching `path[i]`. */
  function Before(start: int, path: seq<int>, i: nat): int
    requires i < |path|
  {
    if i == 0 then start else path[i - 1]
  }

  /** Consecutive floors of `[start] + path` are exactly one floor apart. */
  predicate UnitSteps(start: int, path: seq<int>) {
    forall i :: 0 <= i < |path| ==> Dist(Before(start, path, i), path[i]) == 1
  }

  /** Every floor of `path` lies within `[lo, hi]`. */
  predicate Within(path: seq<int>, lo: int, hi: int) {
    forall i :: 0 <= i < |path| ==> lo <= path[i] <= hi
  }

  /**
   * Moving between two floors: one floor per transit, always towards the
   * target (strictly monotonic), never past it, and ending on it.
   */
  lemma IntervalShape(from: int, to: int)
    ensures UnitSteps(from, Interval(from, to))
    ensures End(from, Interval(from, to)) == to
    ensures forall i, j :: 0 <= i < j < |Interval(from, to)| ==>
              (to > from ==> Interval(from, to)[i] < Interval(from, to)[j]) &&
              (to < from ==> Interval(from, to)[i] > Interval(from, to)[j])
    ensures forall i :: 0 <= i < |Interval(from, to)| ==> Between(Interval(from, to)[i], from, to)
  {
    var p := Interval(from, to);
    forall i | 0 <= i < |p|
      ensures to > from ==> p[i] == from + i + 1
      ensures to < from ==> p[i] == from - i - 1
    {
      IntervalAt(from, to, i);
    }
  }

  /** A run between two floors ends on the target. */
  lemma IntervalEnd(from: int, to: int)
    ensures End(from, Interval(from, to)) == to
  {
    if from != to {
      IntervalAt(from, to, Dist(from, to) - 1);
    }
  }

  /** One more transit upwards extends the run by the floor reached. */
  lemma {:induction false} IntervalExtendUp(from: int, to: int)
    requires from <= to
    ensures Interval(from, to + 1) == Interval(from, to) + [to + 1]
    decreases Dist(from, to)
  {
    if from < to {
      IntervalExtendUp(from + 1, to);
      assert [from + 1] + (Interval(from + 1, to) + [to + 1]) == ([from + 1] + Interval(from + 1, to)) + [to + 1];
    }
  }

  /** One more transit downwards extends the run by the floor reached. */
  lemma {:induction false} IntervalExtendDown(from: int, to: int)
    requires to <= from
    ensures Interval(from, to - 1) == Interval(from, to) + [to - 1]
    decreases Dist(from, to)
  {
    if to < from {
      IntervalExtendDown(from - 1, to);
      assert [from - 1] + (Interval(from - 1, to) + [to - 1]) == ([from - 1] + Interval(from - 1, to)) + [to - 1];
    }
  }

  /** The floor the cabin rests on after serving every request in order. */
  function LastFloor(start: int, requests: seq<Request>): int {
    if requests == [] then start else requests[|requests| - 1].floor
  }

  /** Every floor reached while serving `requests` in order, each one completely, from `start`. */
  function Route(start: int, requests: seq<Request>): seq<int>
    decreases |requests|
  {
    if requests == [] then []
    else Interval(start, requests[0].floor) + Route(requests[0].floor, requests[1..])
  }

  /** Serving a queue costs exactly as many transits as the floors between consecutive stops. */
  function Distance(start: int, requests: seq<Request>): nat
    decreases |requests|
  {
    if requests == [] then 0
    else Dist(start, requests[0].floor) + Distance(requests[0].floor, requests[1..])
  }

  /** Serving the head of a queue completely leaves the route and the final floor of the rest. */
  lemma ServeHead(start: int, requests: seq<Request>, trail: seq<int>)
    requires requests != []
    ensures trail + Interval(start, requests[0].floor) + Route(requests[0].floor, requests[1..])
            == trail + Route(start, requests)
    ensures LastFloor(requests[0].floor, requests[1..]) == LastFloor(start, requests)
  {
    var head, rest := Interval(start, requests[0].floor), Route(requests[0].floor, requests[1..]);
    assert Route(start, requests) == head + rest;
    assert trail + head + rest == trail + (head + rest);
  }

  /** All requests ask for floors in `[lo, hi]`. */
  predicate AllWithin(requests: seq<Request>, lo: int, hi: int) {
    forall i :: 0 <= i < |requests| ==> lo <= requests[i].floor <= hi
  }

  lemma AllWithinAppend(requests: seq<Request>, r: Request, lo: int, hi: int)
    requires AllWithin(requests, lo, hi) && lo <= r.floor <= hi
    ensures AllWithin(requests + [r], lo, hi)
  {
    var q := requests + [r];
    forall i | 0 <= i < |q| ensures lo <= q[i].floor <= hi {
      if i < |requests| { assert q[i] == requests[i]; }
    }
  }

  /** What was added after `a + b` in `d`, counted from the end of `a`, is `b` followed by the rest. */
  lemma SuffixAfter(a: seq<int>, b: seq<int>, d: seq<int>)
    requires |a + b| <= |d| && d[..|a + b|] == a + b
    ensures d[|a|..] == b + d[|a + b|..]
  {
    assert d == (a + b) + d[|a + b|..];
  }

  /** Two paths within a range, one after the other, stay within it. */
  lemma WithinAppend(p: seq<int>, q: seq<int>, lo: int, hi: int)
    requires Within(p, lo, hi) && Within(q, lo, hi)
    ensures Within(p + q, lo, hi)
  {
    forall i | 0 <= i < |p + q| ensures lo <= (p + q)[i] <= hi {
      if i >= |p| { assert (p + q)[i] == q[i - |p|]; }
    }
  }

  /** The head of an in-range queue is in range, and so is the rest. */
  lemma AllWithinTail(requests: seq<Request>, lo: int, hi: int)
    requires requests != [] && AllWithin(requests, lo, hi)
    ensures lo <= requests[0].floor <= hi && AllWithin(requests[1..], lo, hi)
  {
    forall i | 0 <= i < |requests[1..]| ensures lo <= requests[1..][i].floor <= hi {
      assert requests[1..][i] == requests[i + 1];
    }
  }

  /** A queue of one request is served by a single run to its floor. */
  lemma RouteSingle(start: int, r: Request)
    ensures Route(start, [r]) == Interval(start, r.floor)
  {
    assert [r][1..] == [];
    assert Interval(start, r.floor) + [] == Interval(start, r.floor);
  }

  lemma {:induction false} UnitStepsAppend(start: int, p: seq<int>, q: seq<int>)
    requires UnitSteps(start, p) && UnitSteps(End(start, p), q)
    ensures UnitSteps(start, p + q)
  {
    var r := p + q;
    forall i | 0 <= i < |r|
      ensures Dist(Before(start, r, i), r[i]) == 1
    {
      if i < |p| {
        assert r[i] == p[i] && Before(start, r, i) == Before(start, p, i);
      } else {
        var k := i - |p|;
        assert r[i] == q[k];
        assert Before(start, r, i) == Before(End(start, p), q, k);
      }
    }
  }

  /** Serving a queue takes exactly as many transits as there are floors between consecutive stops. */
  lemma {:induction false} RouteLength(start: int, requests: seq<Request>)
    ensures |Route(start, requests)| == Distance(start, requests)
    decreases |requests|
  {
    if requests != [] {
      RouteLength(requests[0].floor, requests[1..]);
    }
  }

  /** The route of a queue moves one floor per transit and ends on the last request's floor. */
  lemma RouteSteps(start: int, requests: seq<Request>)
    ensures UnitSteps(start, Route(start, requests))
    ensures End(start, Route(start, requests)) == LastFloor(start, requests)
  {
    RouteUnitSteps(start, requests);
    RouteEnd(start, requests);
  }

  /** A run between two floors moves one floor per transit. */
  lemma IntervalSteps(from: int, to: int)
    ensures UnitSteps(from, Interval(from, to))
  {
    var p := Interval(from, to);
    forall i | 0 <= i < |p| ensures Dist(Before(from, p, i), p[i]) == 1 {
      IntervalAt(from, to, i);
      if i > 0 {
        IntervalAt(from, to, i - 1);
      }
    }
  }

  lemma {:induction false} RouteUnitSteps(start: int, requests: seq<Request>)
    ensures UnitSteps(start, Route(start, requests))
    decreases |requests|
  {
    if requests != [] {
      var target := requests[0].floor;
      IntervalSteps(start, target);
      IntervalEnd(start, target);
      RouteUnitSteps(target, requests[1..]);
      UnitStepsAppend(start, Interval(start, target), Route(target, requests[1..]));
    }
  }

  lemma {:induction false} RouteEnd(start: int, requests: seq<Request>)
    ensures End(start, Route(start, requests)) == LastFloor(start, requests)
    decreases |requests|
  {
    if requests != [] {
      var target := requests[0].floor;
      var head, rest := Interval(start, target), Route(target, requests[1..]);
      IntervalEnd(start, target);
      RouteEnd(target, requests[1..]);
      if rest == [] {
        assert head + rest == head;
      } else {
        assert End(start, head + rest) == End(target, rest);
      }
    }
  }

  /** The route stays within any floor range that holds the start and every requested floor. */
  lemma {:induction false} RouteWithin(start: int, requests: seq<Request>, lo: int, hi: int)
    requires lo <= start <= hi && AllWithin(requests, lo, hi)
    ensures Within(Route(start, requests), lo, hi)
    decreases |requests|
  {
    if requests != [] {
      var target := requests[0].floor;
      var head, rest := Interval(start, target), Route(target, requests[1..]);
      AllWithinTail(requests, lo, hi);
      IntervalShape(start, target);
      RouteWithin(target, requests[1..], lo, hi);
      forall i | 0 <= i < |head + rest| ensures lo <= (head + rest)[i] <= hi {
        if i < |head| {
          assert (head + rest)[i] == head[i] && Between(head[i], start, target);
        } else {
          assert (head + rest)[i] == rest[i - |head|];
        }
      }
    }
  }
}
