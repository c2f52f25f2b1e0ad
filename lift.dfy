/**
 * The first controller (lift.py): no safety signal. Every request in the
 * queue is served completely, in the order it was added, one floor per call
 * of `Move`.
 */
module BasicLift {
  import opened Floors
  import opened Operator

  class Lift {
    const numFloors: int
    var currentFloor: int
    /** 1 going up, -1 going down, 0 stopped. */
    var direction: int
    var requests: seq<Request>
    /** Every floor announced by `Move`, in order. */
    ghost var visited: seq<int>

    constructor (numFloors: int)
      ensures this.numFloors == numFloors
      ensures currentFloor == 1 && direction == 0 && requests == [] && visited == []
    {
      this.numFloors := numFloors;
      currentFloor := 1;
      direction := 0;
      requests := [];
      visited := [];
    }

    /** One transit: a floor up, a floor down, or none, as the direction says. */
    method Move()
      modifies this
      ensures currentFloor == old(currentFloor) + (if direction == 1 then 1 else if direction == -1 then -1 else 0)
      ensures direction == old(direction) && requests == old(requests)
      ensures visited == old(visited) + [currentFloor]
    {
      if direction == 1 {
        currentFloor := currentFloor + 1;
      } else if direction == -1 {
        currentFloor := currentFloor - 1;
      }
      visited := visited + [currentFloor];
    }

    method Stop()
      modifies this
      ensures direction == 0
      ensures currentFloor == old(currentFloor) && requests == old(requests) && visited == old(visited)
    {
      direction := 0;
    }

    /** Appends the request at the tail of the queue; the floor is not checked. */
    method AddRequest(floor: int, direction: int)
      modifies this
      ensures requests == old(requests) + [Request(floor, direction)]
      ensures currentFloor == old(currentFloor) && this.direction == old(this.direction) && visited == old(visited)
    {
      requests := requests + [Request(floor, direction)];
    }

    /**
     * Drains the queue from its head. Each request is served completely and
     * in the order it was added. The cabin ends on the last request's floor,
     * stopped, with nothing queued, having travelled exactly the route of the
     * queue.
     */
    method ProcessRequests()
      modifies this
      ensures requests == []
      ensures direction == if old(requests) == [] then old(direction) else 0
      ensures currentFloor == LastFloor(old(currentFloor), old(requests))
      ensures visited == old(visited) + Route(old(currentFloor), old(requests))
    {
      while requests != []
        invariant |requests| <= |old(requests)|
        invariant |requests| == |old(requests)| ==> requests == old(requests) && direction == old(direction)
        invariant |requests| < |old(requests)| ==> direction == 0
        invariant LastFloor(currentFloor, requests) == LastFloor(old(currentFloor), old(requests))
        invariant visited + Route(currentFloor, requests) == old(visited) + Route(old(currentFloor), old(requests))
        decreases |requests|
      {
        ghost var start, before, queue := currentFloor, visited, requests;
        ServeNext();
        ServeHead(start, queue, before);
      }
    }

    /**
     * One pass of the draining loop: pops the head request and moves the
     * cabin floor by floor until it stands on the requested floor, then
     * stops. A request for the cabin's own floor only stops it.
     */
    method ServeNext()
      requires requests != []
      modifies this
      ensures requests == old(requests)[1..]
      ensures direction == 0
      ensures currentFloor == old(requests)[0].floor
      ensures visited == old(visited) + Interval(old(currentFloor), old(requests)[0].floor)
    {
      ghost var start, before := currentFloor, visited;
      var request := requests[0];
      requests := requests[1..];
      var floor := request.floor;
      if floor == currentFloor {
        Stop();
      } else if floor > currentFloor {
        direction := 1;
        while currentFloor < floor
          invariant start <= currentFloor <= floor
          invariant direction == 1 && requests == old(requests)[1..]
          invariant visited == before + Interval(start, currentFloor)
          decreases floor - currentFloor
        {
          IntervalExtendUp(start, currentFloor);
          Move();
        }
        Stop();
      } else {
        direction := -1;
        while currentFloor > floor
          invariant floor <= currentFloor <= start
          invariant direction == -1 && requests == old(requests)[1..]
          invariant visited == before + Interval(start, currentFloor)
          decreases currentFloor - floor
        {
          IntervalExtendDown(start, currentFloor);
          Move();
        }
        Stop();
      }
    }
  }

  /**
   * One pass of `main`'s loop: read a line, and for a floor of the building
   * queue it and drain the queue at once. Starting from an empty queue the
   * cabin goes straight to the requested floor; and the cabin never leaves
   * the building when it starts inside it with only in-range floors queued.
   */
  method MainStep(lift: Lift, input: string) returns (quit: bool)
    modifies lift
    ensures quit <==> IsQuit(input)
    ensures var cmd := Classify(input, old(lift.currentFloor));
      cmd.Go? ==>
        && lift.requests == [] && lift.direction == 0 && lift.currentFloor == cmd.floor
        && lift.visited == old(lift.visited) + Route(old(lift.currentFloor), old(lift.requests) + [Request(cmd.floor, cmd.direction)])
    ensures var cmd := Classify(input, old(lift.currentFloor));
      cmd.Go? && old(lift.requests) == [] ==> lift.visited == old(lift.visited) + Interval(old(lift.currentFloor), cmd.floor)
    ensures !Classify(input, old(lift.currentFloor)).Go? ==>
      && lift.requests == old(lift.requests) && lift.direction == old(lift.direction)
      && lift.currentFloor == old(lift.currentFloor) && lift.visited == old(lift.visited)
    ensures 1 <= old(lift.currentFloor) <= NumFloors && AllWithin(old(lift.requests), 1, NumFloors) ==>
      && 1 <= lift.currentFloor <= NumFloors
      && Within(lift.visited[|old(lift.visited)|..], 1, NumFloors)
  {
    var cmd := Classify(input, lift.currentFloor);
    quit := cmd.Quit?;
    if cmd.Go? {
      ghost var start, before, request := lift.currentFloor, lift.visited, Request(cmd.floor, cmd.direction);
      ghost var queue := lift.requests + [request];
      lift.AddRequest(cmd.floor, cmd.direction);
      lift.ProcessRequests();
      assert lift.visited[|before|..] == Route(start, queue);
      if queue == [request] {
        RouteSingle(start, request);
      }
      if 1 <= start <= NumFloors && AllWithin(queue[..|queue| - 1], 1, NumFloors) {
        assert queue[..|queue| - 1] == old(lift.requests);
        AllWithinAppend(old(lift.requests), request, 1, NumFloors);
        RouteWithin(start, queue, 1, NumFloors);
      }
    }
  }
}
