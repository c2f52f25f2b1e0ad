/**
 * The final controller (lift_final.py): the cabin moves one floor per
 * transit and, after every transit, reads the person detector; a negative
 * reading stops the cabin on the floor just reached, abandons the rest of
 * that request and raises `stoppedDueToNoPerson`. The queue is still drained
 * to the end: the flag is never consulted while draining.
 *
 * The detector runs on its own thread in the source. Here its readings are
 * an input `presence`, indexed by a logical clock that counts floor transits:
 * `t in presence` holds when a person was seen right after transit number `t`.
 */
module FinalLift {
  import opened Floors
  import opened Operator
  import PersonDetection

  type Presence = iset<nat>

  /** What one call of `move` does: the floors reached, and whether it stopped for lack of a person. */
  datatype Trip = Trip(path: seq<int>, aborted: bool)

  /** The transits of `move(target)` from `from`, the first of them at clock `clock`. */
  function Travel(from: int, target: int, presence: Presence, clock: nat): Trip
    decreases Dist(from, target)
  {
    if from == target then Trip([], false)
    else
      var next := from + Heading(from, target);
      if clock !in presence then Trip([next], true)
      else
        var rest := Travel(next, target, presence, clock + 1);
        Trip([next] + rest.path, rest.aborted)
  }

  /**
   * The floors `move` reaches are a prefix of the full run to the target: at
   * least one floor whenever the target is elsewhere (the detector is read
   * only after a transit), and the whole run unless the trip was aborted.
   */
  lemma {:induction false} TravelShape(from: int, target: int, presence: Presence, clock: nat)
    ensures var trip := Travel(from, target, presence, clock);
      && |trip.path| <= Dist(from, target)
      && trip.path == Interval(from, target)[..|trip.path|]
      && (from != target ==> |trip.path| > 0)
      && (!trip.aborted ==> |trip.path| == Dist(from, target))
    decreases Dist(from, target)
  {
    if from != target {
      var next := from + Heading(from, target);
      assert Interval(from, target) == [next] + Interval(next, target);
      if clock in presence {
        var rest := Travel(next, target, presence, clock + 1);
        TravelShape(next, target, presence, clock + 1);
        assert [next] + rest.path == Interval(from, target)[..1 + |rest.path|];
      }
    }
  }

  /** With a person seen after every transit, `move` reaches the target. */
  lemma {:induction false} TravelCompletes(from: int, target: int, presence: Presence, clock: nat)
    requires forall t: nat :: clock <= t < clock + Dist(from, target) ==> t in presence
    ensures Travel(from, target, presence, clock) == Trip(Interval(from, target), false)
    decreases Dist(from, target)
  {
    if from != target {
      var next := from + Heading(from, target);
      assert clock in presence;
      TravelCompletes(next, target, presence, clock + 1);
    }
  }

  /**
   * The first negative reading ends `move`: if no person is seen after
   * transit `k` (the floor `k + 1` away from the start) and one was seen
   * after every earlier transit, the cabin stands on that floor and the trip
   * is aborted.
   */
  lemma {:induction false} TravelStopsAtFirstAbsence(from: int, target: int, presence: Presence, clock: nat, k: nat)
    requires k < Dist(from, target)
    requires clock + k !in presence
    requires forall t: nat :: clock <= t < clock + k ==> t in presence
    ensures Travel(from, target, presence, clock) == Trip(Interval(from, target)[..k + 1], true)
    decreases k
  {
    var next := from + Heading(from, target);
    assert Interval(from, target) == [next] + Interval(next, target);
    if k > 0 {
      assert clock in presence;
      assert clock + 1 + (k - 1) == clock + k;
      TravelStopsAtFirstAbsence(next, target, presence, clock + 1, k - 1);
      assert [next] + Interval(next, target)[..k] == Interval(from, target)[..k + 1];
    }
  }

  /** A trip known to have reached `done` followed by the trip `rest`. */
  function Glue(done: seq<int>, rest: Trip): Trip {
    Trip(done + rest.path, rest.aborted)
  }

  /**
   * One transit of `move` with a person seen after it: a trip known to be
   * `done` followed by the rest of the travel from `from` is `done`, the floor
   * reached, and the rest of the travel from there.
   */
  lemma TravelAdvance(from: int, target: int, next: int, presence: Presence, clock: nat, done: seq<int>, whole: Trip)
    requires from != target && next == from + Heading(from, target) && clock in presence
    requires whole == Glue(done, Travel(from, target, presence, clock))
    ensures whole == Glue(done + [next], Travel(next, target, presence, clock + 1))
  {
    var rest := Travel(next, target, presence, clock + 1);
    assert done + ([next] + rest.path) == (done + [next]) + rest.path;
  }

  /** One transit of `move` with nobody seen after it: the trip ends, aborted, on the floor reached. */
  lemma TravelHalt(from: int, target: int, next: int, presence: Presence, clock: nat, done: seq<int>, whole: Trip)
    requires from != target && next == from + Heading(from, target) && clock !in presence
    requires whole == Glue(done, Travel(from, target, presence, clock))
    ensures whole == Trip(done + [next], true)
  {
  }

  /** The cabin's observable state for the drain: where it is, whether it was stopped for safety, and where it has been. */
  datatype Cabin = Cabin(floor: int, halted: bool, path: seq<int>)

  /** Serving one popped request: move towards its floor (the clock is the number of transits so far), then stop. */
  function Serve(c: Cabin, r: Request, presence: Presence): Cabin {
    var trip := Travel(c.floor, r.floor, presence, |c.path|);
    Cabin(End(c.floor, trip.path), c.halted || trip.aborted, c.path + trip.path)
  }

  /**
   * `process_requests`: serve the queue from its head until it is empty.
   * The path only grows, and a raised halt flag stays raised.
   */
  function Drain(c: Cabin, requests: seq<Request>, presence: Presence): (d: Cabin)
    ensures |c.path| <= |d.path| && d.path[..|c.path|] == c.path
    ensures c.halted ==> d.halted
    decreases |requests|
  {
    if requests == [] then c
    else Drain(Serve(c, requests[0], presence), requests[1..], presence)
  }

  /** Requests are served strictly in insertion order: draining `a + b` is draining `a`, then `b`. */
  lemma {:induction false} DrainAppend(c: Cabin, a: seq<Request>, b: seq<Request>, presence: Presence)
    ensures Drain(c, a + b, presence) == Drain(Drain(c, a, presence), b, presence)
    decreases |a|
  {
    if a == [] {
      assert a + b == b;
    } else {
      assert (a + b)[0] == a[0] && (a + b)[1..] == a[1..] + b;
      DrainAppend(Serve(c, a[0], presence), a[1..], b, presence);
    }
  }

  /**
   * The halt flag never changes how the queue is served: draining with the
   * flag raised moves the cabin exactly as draining with it lowered, and the
   * flag afterwards is the old flag or a new abort.
   */
  lemma {:induction false} DrainIgnoresHalt(floor: int, halted: bool, path: seq<int>, requests: seq<Request>, presence: Presence)
    ensures var d, e := Drain(Cabin(floor, halted, path), requests, presence), Drain(Cabin(floor, false, path), requests, presence);
            d.floor == e.floor && d.path == e.path && d.halted == (halted || e.halted)
    decreases |requests|
  {
    if requests != [] {
      var trip := Travel(floor, requests[0].floor, presence, |path|);
      var next := End(floor, trip.path);
      DrainIgnoresHalt(next, halted || trip.aborted, path + trip.path, requests[1..], presence);
      DrainIgnoresHalt(next, trip.aborted, path + trip.path, requests[1..], presence);
    }
  }

  /**
   * With a person seen after every transit of the drain, the final controller
   * behaves as the first one: every request is served completely, the cabin
   * ends on the last request's floor, and the flag is untouched.
   */
  lemma {:induction false} DrainAllPresent(c: Cabin, requests: seq<Request>, presence: Presence)
    requires forall t: nat :: |c.path| <= t < |c.path| + Distance(c.floor, requests) ==> t in presence
    ensures Drain(c, requests, presence) == Cabin(LastFloor(c.floor, requests), c.halted, c.path + Route(c.floor, requests))
    decreases |requests|
  {
    if requests != [] {
      var target, rest := requests[0].floor, requests[1..];
      var n, a := |c.path|, Dist(c.floor, target);
      PresentSplit(presence, n, a, Distance(target, rest));
      TravelCompletes(c.floor, target, presence, n);
      IntervalEnd(c.floor, target);
      var s := Cabin(target, c.halted, c.path + Interval(c.floor, target));
      assert Serve(c, requests[0], presence) == s;
      DrainAllPresent(s, rest, presence);
      ServeHead(c.floor, requests, c.path);
    }
  }

  /** Readings present over `a + b` transits are present over the first `a` and over the `b` after them. */
  lemma PresentSplit(presence: Presence, n: nat, a: nat, b: nat)
    requires forall t: nat :: n <= t < n + (a + b) ==> t in presence
    ensures forall t: nat :: n <= t < n + a ==> t in presence
    ensures forall t: nat :: n + a <= t < n + a + b ==> t in presence
  {
  }

  /** A single `move` between two floors of `[lo, hi]` reaches only floors of `[lo, hi]`. */
  lemma {:induction false} TravelWithin(from: int, target: int, presence: Presence, clock: nat, lo: int, hi: int)
    requires lo <= from <= hi && lo <= target <= hi
    ensures var trip := Travel(from, target, presence, clock);
            Within(trip.path, lo, hi) && lo <= End(from, trip.path) <= hi
    decreases Dist(from, target)
  {
    if from != target {
      var next := from + Heading(from, target);
      if clock in presence {
        var rest := Travel(next, target, presence, clock + 1);
        TravelWithin(next, target, presence, clock + 1, lo, hi);
        assert End(from, [next] + rest.path) == End(next, rest.path);
      }
    }
  }

  /**
   * Aborts never carry the cabin outside the floors involved: starting in
   * `[lo, hi]` with every request in `[lo, hi]`, each floor reached and the
   * final floor are in `[lo, hi]`.
   */
  lemma {:induction false} DrainWithin(c: Cabin, requests: seq<Request>, presence: Presence, lo: int, hi: int)
    requires lo <= c.floor <= hi && AllWithin(requests, lo, hi)
    ensures var d := Drain(c, requests, presence);
            lo <= d.floor <= hi && Within(d.path[|c.path|..], lo, hi)
    decreases |requests|
  {
    if requests == [] {
      assert c.path[|c.path|..] == [];
    } else {
      var trip := Travel(c.floor, requests[0].floor, presence, |c.path|);
      var s := Serve(c, requests[0], presence);
      AllWithinTail(requests, lo, hi);
      TravelWithin(c.floor, requests[0].floor, presence, |c.path|, lo, hi);
      DrainWithin(s, requests[1..], presence, lo, hi);
      var d := Drain(s, requests[1..], presence);
      SuffixAfter(c.path, trip.path, d.path);
      WithinAppend(trip.path, d.path[|s.path|..], lo, hi);
    }
  }

  /**
   * The example of a safety stop: from floor 3 towards floor 8, a person is
   * seen after the first transit (floor 4) but not after the second, so the
   * cabin stops on floor 5 and the request is abandoned.
   */
  lemma AbortAtFifthFloor(presence: Presence)
    requires 0 in presence && 1 !in presence
    ensures Drain(Cabin(3, false, []), [Request(8, 1)], presence) == Cabin(5, true, [4, 5])
  {
    TravelStopsAtFirstAbsence(3, 8, presence, 0, 1);
    assert Interval(3, 8)[..2] == [4, 5];
  }

  /** From floor 5 to floor 1 with a person seen after each transit from clock 2 on, the cabin passes 4, 3 and 2. */
  lemma ServeDownFromFifth(presence: Presence)
    requires 2 in presence && 3 in presence && 4 in presence && 5 in presence
    ensures Serve(Cabin(5, true, [4, 5]), Request(1, -1), presence) == Cabin(1, true, [4, 5, 4, 3, 2, 1])
  {
    TravelCompletes(5, 1, presence, 2);
    assert Interval(5, 1) == [4, 3, 2, 1];
  }

  /**
   * After that stop the drain goes on: a second queued request for floor 1
   * is served from floor 5 with the flag still raised.
   */
  lemma DrainContinuesAfterAbort(presence: Presence)
    requires 0 in presence && 1 !in presence
    requires 2 in presence && 3 in presence && 4 in presence && 5 in presence
    ensures Drain(Cabin(3, false, []), [Request(8, 1), Request(1, -1)], presence)
            == Cabin(1, true, [4, 5, 4, 3, 2, 1])
  {
    var first, second := [Request(8, 1)], [Request(1, -1)];
    AbortAtFifthFloor(presence);
    DrainAppend(Cabin(3, false, []), first, second, presence);
    assert first + second == [Request(8, 1), Request(1, -1)];
    ServeDownFromFifth(presence);
    assert Drain(Cabin(5, true, [4, 5]), second, presence) == Drain(Cabin(1, true, [4, 5, 4, 3, 2, 1]), [], presence);
  }

  /** Even with nobody in the cabin from the start, a request elsewhere moves it one floor. */
  lemma DepartsBeforeChecking(from: int, target: int, clock: nat)
    requires from != target
    ensures Travel(from, target, iset{}, clock) == Trip([from + Heading(from, target)], true)
  {
  }

  class Lift {
    const numFloors: int
    var currentFloor: int
    /** 1 going up, -1 going down, 0 stopped. */
    var direction: int
    var requests: seq<Request>
    var stoppedDueToNoPerson: bool
    /** Floor transits so far; the detector is read at this clock after each transit. */
    var clock: nat
    /** Every floor reached, in order. */
    ghost var visited: seq<int>

    ghost predicate Valid()
      reads this
    {
      |visited| == clock
    }

    ghost function State(): Cabin
      reads this
    {
      Cabin(currentFloor, stoppedDueToNoPerson, visited)
    }

    constructor (numFloors: int)
      ensures Valid() && this.numFloors == numFloors
      ensures currentFloor == 1 && direction == 0 && requests == [] && !stoppedDueToNoPerson
      ensures visited == []
    {
      this.numFloors := numFloors;
      currentFloor := 1;
      direction := 0;
      requests := [];
      stoppedDueToNoPerson := false;
      clock := 0;
      visited := [];
    }

    /**
     * Moves towards `floor` one transit at a time, reading the detector after
     * each; the first negative reading stops the cabin where it is and
     * raises the flag. The caller has already pointed the cabin at the floor.
     */
    method Move(floor: int, presence: Presence)
      requires Valid()
      requires floor > currentFloor ==> direction == 1
      requires floor < currentFloor ==> direction == -1
      modifies this
      ensures Valid()
      ensures var trip := Travel(old(currentFloor), floor, presence, old(clock));
        && visited == old(visited) + trip.path
        && currentFloor == End(old(currentFloor), trip.path)
        && stoppedDueToNoPerson == (old(stoppedDueToNoPerson) || trip.aborted)
        && direction == (if trip.aborted then 0 else old(direction))
      ensures requests == old(requests)
    {
      ghost var start, whole := currentFloor, Travel(currentFloor, floor, presence, clock);
      assert whole == Glue([], whole);
      ghost var done: seq<int> := [];
      while floor != currentFloor
        invariant Valid() && requests == old(requests)
        invariant direction == old(direction) && stoppedDueToNoPerson == old(stoppedDueToNoPerson)
        invariant floor > currentFloor ==> direction == 1
        invariant floor < currentFloor ==> direction == -1
        invariant visited == old(visited) + done
        invariant currentFloor == End(start, done)
        invariant whole == Glue(done, Travel(currentFloor, floor, presence, clock))
        decreases Dist(currentFloor, floor)
      {
        ghost var from, before := currentFloor, done;
        var present := Transit(floor, presence);
        done := done + [currentFloor];
        if !present {
          TravelHalt(from, floor, currentFloor, presence, clock - 1, before, whole);
          Stop();
          stoppedDueToNoPerson := true;
          break;
        }
        TravelAdvance(from, floor, currentFloor, presence, clock - 1, before, whole);
      }
      assert whole.path == done;
    }

    /**
     * One pass of `move`'s loop up to the detector check: one floor in the
     * current direction, announced, then the detector's reading for it.
     */
    method Transit(floor: int, presence: Presence) returns (present: bool)
      requires Valid() && floor != currentFloor
      requires floor > currentFloor ==> direction == 1
      requires floor < currentFloor ==> direction == -1
      modifies this
      ensures Valid()
      ensures currentFloor == old(currentFloor) + Heading(old(currentFloor), floor)
      ensures visited == old(visited) + [currentFloor] && clock == old(clock) + 1
      ensures present == (old(clock) in presence)
      ensures direction == old(direction) && requests == old(requests)
      ensures stoppedDueToNoPerson == old(stoppedDueToNoPerson)
    {
      if direction == 1 {
        currentFloor := currentFloor + 1;
      } else if direction == -1 {
        currentFloor := currentFloor - 1;
      }
      visited := visited + [currentFloor];
      present := clock in presence;
      clock := clock + 1;
    }

    method Stop()
      modifies this
      ensures Valid() == old(Valid())
      ensures direction == 0
      ensures currentFloor == old(currentFloor) && requests == old(requests)
      ensures stoppedDueToNoPerson == old(stoppedDueToNoPerson)
      ensures clock == old(clock) && visited == old(visited)
    {
      direction := 0;
    }

    /**
     * Drains the queue from its head, serving each request in turn from
     * wherever the previous one left the cabin, aborted or not; the cabin
     * ends stopped with nothing queued.
     */
    method ProcessRequests(presence: Presence)
      requires Valid()
      modifies this
      ensures Valid()
      ensures requests == []
      ensures direction == if old(requests) == [] then old(direction) else 0
      ensures State() == Drain(old(State()), old(requests), presence)
    {
      while requests != []
        invariant Valid()
        invariant |requests| <= |old(requests)|
        invariant |requests| == |old(requests)| ==> requests == old(requests) && direction == old(direction)
        invariant |requests| < |old(requests)| ==> direction == 0
        invariant Drain(State(), requests, presence) == Drain(old(State()), old(requests), presence)
        decreases |requests|
      {
        var request := requests[0];
        requests := requests[1..];
        var floor := request.floor;
        if floor == currentFloor {
          Stop();
        } else if floor > currentFloor {
          direction := 1;
          Move(floor, presence);
          Stop();
        } else {
          direction := -1;
          Move(floor, presence);
          Stop();
        }
      }
    }

    /** Appends the request at the tail of the queue; the floor is not checked. */
    method AddRequest(floor: int, direction: int)
      modifies this
      ensures Valid() == old(Valid())
      ensures requests == old(requests) + [Request(floor, direction)]
      ensures currentFloor == old(currentFloor) && this.direction == old(this.direction)
      ensures stoppedDueToNoPerson == old(stoppedDueToNoPerson)
      ensures clock == old(clock) && visited == old(visited)
    {
      requests := requests + [Request(floor, direction)];
    }

    /** Forgets every queued request, stops the cabin and lowers the flag; the cabin stays where it is. */
    method ResetLift()
      modifies this
      ensures Valid() == old(Valid())
      ensures requests == [] && direction == 0 && !stoppedDueToNoPerson
      ensures currentFloor == old(currentFloor) && clock == old(clock) && visited == old(visited)
    {
      requests := [];
      direction := 0;
      stoppedDueToNoPerson := false;
    }
  }

  /**
   * One pass of `main`'s loop. A floor of the building is queued and the
   * queue drained at once; afterwards a raised flag is answered by a reset,
   * except after quitting or after an out-of-range floor, which skip that
   * check. Starting idle inside the building, the lift ends idle inside it.
   * Quitting stops the detector's frame loop; nothing else touches it.
   */
  method MainStep(lift: Lift, detector: PersonDetection.ObjectDetection, input: string, presence: Presence) returns (quit: bool)
    requires lift.Valid()
    modifies lift, detector
    ensures lift.Valid()
    ensures quit <==> IsQuit(input)
    ensures detector.stopped == (old(detector.stopped) || quit)
    ensures detector.personDetected == old(detector.personDetected)
    ensures var cmd := Classify(input, old(lift.currentFloor));
      cmd.Go? ==>
        var d := Drain(old(lift.State()), old(lift.requests) + [Request(cmd.floor, cmd.direction)], presence);
        && lift.currentFloor == d.floor && lift.visited == d.path
        && lift.requests == [] && lift.direction == 0 && !lift.stoppedDueToNoPerson
    ensures var cmd := Classify(input, old(lift.currentFloor));
      cmd.InvalidInput? && old(lift.stoppedDueToNoPerson) ==>
        && lift.requests == [] && lift.direction == 0 && !lift.stoppedDueToNoPerson
        && lift.currentFloor == old(lift.currentFloor) && lift.visited == old(lift.visited)
    ensures var cmd := Classify(input, old(lift.currentFloor));
      (cmd.Quit? || cmd.InvalidFloor? || (cmd.InvalidInput? && !old(lift.stoppedDueToNoPerson))) ==>
        && lift.requests == old(lift.requests) && lift.direction == old(lift.direction)
        && lift.stoppedDueToNoPerson == old(lift.stoppedDueToNoPerson)
        && lift.currentFloor == old(lift.currentFloor) && lift.visited == old(lift.visited)
    ensures old(lift.requests) == [] && old(lift.direction) == 0 && !old(lift.stoppedDueToNoPerson)
            && 1 <= old(lift.currentFloor) <= NumFloors ==>
      && lift.requests == [] && lift.direction == 0 && !lift.stoppedDueToNoPerson
      && 1 <= lift.currentFloor <= NumFloors
      && Within(lift.visited[|old(lift.visited)|..], 1, NumFloors)
  {
    var cmd := Classify(input, lift.currentFloor);
    if cmd.Quit? {
      detector.StopDetection();
      return true;
    }
    quit := false;
    if cmd.InvalidFloor? {
      return;
    }
    if cmd.Go? {
      ghost var before := lift.State();
      ghost var request := Request(cmd.floor, cmd.direction);
      ghost var queue := lift.requests + [request];
      lift.AddRequest(cmd.floor, cmd.direction);
      lift.ProcessRequests(presence);
      if lift.requests == [] && 1 <= before.floor <= NumFloors && queue == [request] {
        assert AllWithin(queue, 1, NumFloors);
        DrainWithin(before, queue, presence, 1, NumFloors);
      }
    }
    if lift.stoppedDueToNoPerson {
      lift.ResetLift();
    }
  }
}
