/**
 * The elevator simulation: requests, the FIFO of waiting requests, the
 * elevator's three-state trip machine, and the per-tick rules of the game
 * (arrival, dispatch, one move), with the player's override and cancel.
 */
module Elevators {
  import opened JavaLang
  import opened Decimal

  const IDLE: int := 1
  const TO_SOURCE: int := 2
  const TO_DESTINATION: int := 3

  const NUM_FLOORS: int := 10

  // ---------------------------------------------------------------------------
  // Values: what a request and the elevator hold, independent of object identity
  // ---------------------------------------------------------------------------

  /** The three fields of a request. */
  datatype Job = Job(source: int, destination: int, timeEntered: int)

  /** The elevator's floor, state and current request. */
  datatype Car = Car(floor: int, state: int, job: Option<Job>)

  /** The floor the elevator heads for: the source, the destination, or (otherwise) where it is. */
  function Target(c: Car): int
    requires c.job.Some?
  {
    if c.state == TO_SOURCE then c.job.value.source
    else if c.state == TO_DESTINATION then c.job.value.destination
    else c.floor
  }

  /** One call of Elevator.shift, on values. */
  function Step(c: Car): Car
  {
    if c.job.None? then c
    else if c.floor == Target(c) then
      if c.state == TO_SOURCE then c.(state := TO_DESTINATION) else Car(c.floor, IDLE, None)
    else c.(floor := if c.floor < Target(c) then c.floor + 1 else c.floor - 1)
  }

  /** Whether this shift is the one that reaches the request's source floor (and counts it as served). */
  predicate PicksUp(c: Car)
  {
    c.job.Some? && c.state == TO_SOURCE && c.floor == c.job.value.source
  }

  function Steps(c: Car, n: nat): Car
    decreases n
  {
    if n == 0 then c else Steps(Step(c), n - 1)
  }

  function Distance(a: int, b: int): nat { if a <= b then b - a else a - b }

  /** Shifts that take a car heading for the source to IDLE: travel, turn, travel, arrive. */
  function TripLength(c: Car): nat
    requires c.job.Some?
  {
    Distance(c.floor, c.job.value.source) + Distance(c.job.value.source, c.job.value.destination) + 2
  }

  /** A shift moves at most one floor, keeps the state in 1..3, and only ever drops the request. */
  lemma StepBounded(c: Car)
    requires c.state in {IDLE, TO_SOURCE, TO_DESTINATION}
    ensures Distance(Step(c).floor, c.floor) <= 1
    ensures Step(c).state in {IDLE, TO_SOURCE, TO_DESTINATION}
    ensures Step(c).job == c.job || Step(c).job == None
  {
  }

  lemma {:induction false} DriveTo(c: Car, target: int)
    requires c.job.Some? && c.state != IDLE && Target(c) == target
    ensures Steps(c, Distance(c.floor, target)) == c.(floor := target)
    decreases Distance(c.floor, target)
  {
    if c.floor != target {
      var next := Step(c);
      assert Target(next) == target;
      DriveTo(next, target);
    }
  }

  lemma {:induction false} StepsAdd(c: Car, m: nat, n: nat)
    ensures Steps(c, m + n) == Steps(Steps(c, m), n)
    decreases m
  {
    if m > 0 {
      StepsAdd(Step(c), m - 1, n);
    }
  }

  /**
   * Left alone, an elevator heading for a request's source delivers it:
   * after TripLength shifts it is IDLE at the destination with no request.
   */
  lemma TripCompletes(c: Car)
    requires c.job.Some? && c.state == TO_SOURCE
    ensures Steps(c, TripLength(c)) == Car(c.job.value.destination, IDLE, None)
  {
    var j := c.job.value;
    var d1 := Distance(c.floor, j.source);
    var d2 := Distance(j.source, j.destination);
    DriveTo(c, j.source);
    var atSource := c.(floor := j.source);
    var turned := atSource.(state := TO_DESTINATION);
    assert Steps(atSource, 1) == turned;
    DriveTo(turned, j.destination);
    var atDest := turned.(floor := j.destination);
    assert Steps(atDest, 1) == Car(j.destination, IDLE, None);
    StepsAdd(c, d1, 1);
    StepsAdd(c, d1 + 1, d2);
    StepsAdd(c, d1 + 1 + d2, 1);
  }

  // ---------------------------------------------------------------------------
  // Request
  // ---------------------------------------------------------------------------

  class Request {
    var sourceFloor: int
    var destinationFloor: int
    var timeEntered: int

    /** The no-argument constructor: every field 0. */
    constructor ()
      ensures sourceFloor == 0 && destinationFloor == 0 && timeEntered == 0
    {
      sourceFloor, destinationFloor, timeEntered := 0, 0, 0;
    }

    /**
     * The constructor for a building of `floors` floors. Its two random draws
     * (int)(Math.random() * floors + 1) are the parameters `source` and `destination`.
     */
    constructor Drawn(floors: int, source: int, destination: int)
      requires 1 <= source <= floors && 1 <= destination <= floors
      ensures sourceFloor == source && destinationFloor == destination && timeEntered == 0
    {
      sourceFloor, destinationFloor, timeEntered := source, destination, 0;
    }

    function AsJob(): Job
      reads this
    {
      Job(sourceFloor, destinationFloor, timeEntered)
    }

    method SetSourceFloor(floor: int)
      modifies this
      ensures AsJob() == old(AsJob()).(source := floor)
    {
      sourceFloor := floor;
    }

    method SetDestinationFloor(floor: int)
      modifies this
      ensures AsJob() == old(AsJob()).(destination := floor)
    {
      destinationFloor := floor;
    }

    method SetTimeEntered(time: int)
      modifies this
      ensures AsJob() == old(AsJob()).(timeEntered := time)
    {
      timeEntered := time;
    }
  }

  // ---------------------------------------------------------------------------
  // RequestQueue
  // ---------------------------------------------------------------------------

  class RequestQueue {
    var items: seq<Request>

    constructor ()
      ensures items == []
    {
      items := [];
    }

    method Enqueue(r: Request)
      modifies this
      ensures items == old(items) + [r]
    {
      items := items + [r];
    }

    /** The head, removed; an empty queue throws NoSuchElementException (None) and stays empty. */
    method Dequeue() returns (r: Option<Request>)
      modifies this
      ensures old(items) == [] ==> r == None && items == []
      ensures old(items) != [] ==> r == Some(old(items)[0]) && items == old(items)[1..]
    {
      if items != [] {
        r := Some(items[0]);
        items := items[1..];
      } else {
        r := None;
      }
    }
  }

  /** A sequence of queue operations, and what they return, on the queue's contents. */
  datatype QueueOp<T> = Enqueue(x: T) | Dequeue

  function Replay<T>(q: seq<T>, ops: seq<QueueOp<T>>): (seq<T>, seq<T>)
    decreases |ops|
  {
    if ops == [] then ([], q)
    else match ops[0]
      case Enqueue(x) => Replay(q + [x], ops[1..])
      case Dequeue =>
        if q == [] then Replay(q, ops[1..])
        else var (out, rest) := Replay(q[1..], ops[1..]); ([q[0]] + out, rest)
  }

  function Enqueued<T>(ops: seq<QueueOp<T>>): seq<T>
  {
    if ops == [] then [] else (if ops[0].Enqueue? then [ops[0].x] else []) + Enqueued(ops[1..])
  }

  /**
   * First in, first out: whatever the operations, the dequeued elements followed
   * by what is left are the initial contents followed by the enqueued elements.
   */
  lemma {:induction false} FifoOrder<T>(q: seq<T>, ops: seq<QueueOp<T>>)
    ensures Replay(q, ops).0 + Replay(q, ops).1 == q + Enqueued(ops)
    decreases |ops|
  {
    if ops != [] {
      match ops[0]
      case Enqueue(x) =>
        FifoOrder(q + [x], ops[1..]);
        assert q + [x] + Enqueued(ops[1..]) == q + Enqueued(ops);
      case Dequeue =>
        if q == [] {
          FifoOrder(q, ops[1..]);
        } else {
          FifoOrder(q[1..], ops[1..]);
          var (out, rest) := Replay(q[1..], ops[1..]);
          assert Replay(q, ops) == ([q[0]] + out, rest);
          assert [q[0]] + out + rest == [q[0]] + (out + rest);
          assert q == [q[0]] + q[1..];
        }
    }
  }

  // ---------------------------------------------------------------------------
  // Elevator
  // ---------------------------------------------------------------------------

  class Elevator {
    var currentFloor: int
    var elevatorState: int
    var request: Request?

    ghost predicate Valid()
      reads this
    {
      elevatorState in {IDLE, TO_SOURCE, TO_DESTINATION}
    }

    function AsCar(): Car
      reads this, request
    {
      Car(currentFloor, elevatorState, if request == null then None else Some(request.AsJob()))
    }

    constructor ()
      ensures Valid() && AsCar() == Car(1, IDLE, None)
    {
      currentFloor := 1;
      elevatorState := IDLE;
      request := null;
    }

    method SetCurrentFloor(floor: int)
      modifies this
      ensures currentFloor == floor && elevatorState == old(elevatorState) && request == old(request)
    {
      currentFloor := floor;
    }

    method SetRequest(r: Request?)
      modifies this
      ensures request == r && currentFloor == old(currentFloor) && elevatorState == old(elevatorState)
    {
      request := r;
    }

    /** setElevatorState: only IDLE, TO_SOURCE and TO_DESTINATION are accepted; anything else throws (ok false). */
    method SetElevatorState(state: int) returns (ok: bool)
      modifies this
      ensures ok <==> state in {IDLE, TO_SOURCE, TO_DESTINATION}
      ensures elevatorState == (if ok then state else old(elevatorState))
      ensures currentFloor == old(currentFloor) && request == old(request)
      ensures old(Valid()) ==> Valid()
    {
      if !(state == IDLE || state == TO_SOURCE || state == TO_DESTINATION) {
        return false;
      }
      elevatorState := state;
      ok := true;
    }

    /** Elevator.shift: one step of the trip; stats[0] is total wait, stats[1] served requests. */
    method Shift(currentTime: int, stats: array<int>)
      requires stats.Length >= 2
      modifies this, stats
      ensures AsCar() == Step(old(AsCar()))
      ensures request == old(request) || request == null
      ensures old(Valid()) ==> Valid()
      ensures stats[0] == old(stats[0]) + (if PicksUp(old(AsCar())) then currentTime - old(request.timeEntered) else 0)
      ensures stats[1] == old(stats[1]) + (if PicksUp(old(AsCar())) then 1 else 0)
      ensures forall i :: 2 <= i < stats.Length ==> stats[i] == old(stats[i])
    {
      if request == null {
        return;
      }
      var targetFloor := if elevatorState == TO_SOURCE then request.sourceFloor
                         else if elevatorState == TO_DESTINATION then request.destinationFloor
                         else currentFloor;
      if currentFloor == targetFloor {
        if elevatorState == TO_SOURCE {
          elevatorState := TO_DESTINATION;
          stats[0] := stats[0] + (currentTime - request.timeEntered);
          stats[1] := stats[1] + 1;
        } else {
          request := null;
          elevatorState := IDLE;
        }
      } else {
        currentFloor := currentFloor + (if currentFloor < targetFloor then 1 else -1);
      }
    }
  }

  // ---------------------------------------------------------------------------
  // The game's simulation state and its discrete rules
  // ---------------------------------------------------------------------------

  class Simulation {
    const requestQueue: RequestQueue
    const elevator: Elevator
    var currentTime: int
    const stats: array<int>

    ghost predicate Valid()
      reads this, elevator
    {
      stats.Length == 2 && elevator.Valid()
    }

    /** The simulation objects as start() creates them. */
    constructor ()
      ensures Valid() && fresh(requestQueue) && fresh(elevator) && fresh(stats)
      ensures requestQueue.items == [] && elevator.AsCar() == Car(1, IDLE, None)
      ensures currentTime == 0 && stats[..] == [0, 0]
    {
      requestQueue := new RequestQueue();
      elevator := new Elevator();
      currentTime := 0;
      stats := new int[2](_ => 0);
    }

    /**
     * gameTick. The random arrival is the parameter `arrival`: None when no
     * request arrives, else the two floors drawn for the new request, which is
     * returned in `newRequest`.
     */
    method GameTick(arrival: Option<(int, int)>) returns (ghost newRequest: Request?)
      requires Valid()
      requires arrival.Some? ==> 1 <= arrival.value.0 <= NUM_FLOORS && 1 <= arrival.value.1 <= NUM_FLOORS
      modifies this, requestQueue, elevator, stats
      ensures Valid()
      ensures currentTime == old(currentTime) + 1
      ensures arrival.None? ==> newRequest == null
      ensures arrival.Some? ==>
        (newRequest != null && fresh(newRequest) && newRequest.AsJob() == Job(arrival.value.0, arrival.value.1, currentTime))
      ensures
        var waiting := old(requestQueue.items) + (if newRequest != null then [newRequest] else []);
        var dispatch := old(elevator.elevatorState) == IDLE && waiting != [];
        var before := if dispatch then Car(old(elevator.currentFloor), TO_SOURCE, Some(waiting[0].AsJob()))
                      else old(elevator.AsCar());
        && requestQueue.items == (if dispatch then waiting[1..] else waiting)
        && elevator.AsCar() == Step(before)
        && stats[0] == old(stats[0]) + (if PicksUp(before) then currentTime - before.job.value.timeEntered else 0)
        && stats[1] == old(stats[1]) + (if PicksUp(before) then 1 else 0)
    {
      currentTime := currentTime + 1;
      newRequest := null;
      if arrival.Some? {
        var r := new Request.Drawn(NUM_FLOORS, arrival.value.0, arrival.value.1);
        r.SetTimeEntered(currentTime);
        requestQueue.Enqueue(r);
        newRequest := r;
      }
      if elevator.elevatorState == IDLE && requestQueue.items != [] {
        var req := requestQueue.Dequeue();
        elevator.SetRequest(req.value);
        var _ := elevator.SetElevatorState(TO_SOURCE);
      }
      elevator.Shift(currentTime, stats);
    }

    /**
     * overrideElevatorFloor on the trimmed text of the field: a floor 1..NUM_FLOORS
     * puts the elevator there, IDLE, with no request; anything else changes nothing.
     * Returns the status text.
     */
    method OverrideElevatorFloor(text: string) returns (status: string)
      requires Valid()
      modifies elevator
      ensures Valid()
      ensures var parsed := ParseInt(Trim(text));
        if parsed.Some? && 1 <= parsed.value <= NUM_FLOORS then
          elevator.AsCar() == Car(parsed.value, IDLE, None) &&
          status == "Elevator floor overridden to " + IntToString(parsed.value)
        else
          elevator.AsCar() == old(elevator.AsCar()) && elevator.request == old(elevator.request) &&
          status == (if parsed.None? then "Invalid input. Enter a valid floor number." else "Invalid floor. Enter 1-10")
    {
      var input := Trim(text);
      var parsed := ParseInt(input);
      if parsed.None? {
        return "Invalid input. Enter a valid floor number.";
      }
      var floor := parsed.value;
      if floor < 1 || floor > NUM_FLOORS {
        return "Invalid floor. Enter 1-" + IntToString(NUM_FLOORS);
      }
      elevator.SetCurrentFloor(floor);
      var _ := elevator.SetElevatorState(IDLE);
      elevator.SetRequest(null);
      status := "Elevator floor overridden to " + IntToString(floor);
    }

    /** cancelCurrentRequest: with a request, drop it and go IDLE; without one, change nothing. */
    method CancelCurrentRequest() returns (status: string)
      requires Valid()
      modifies elevator
      ensures Valid()
      ensures old(elevator.request) != null ==>
        elevator.AsCar() == Car(old(elevator.currentFloor), IDLE, None) &&
        status == "Current elevator request canceled."
      ensures old(elevator.request) == null ==>
        elevator.AsCar() == old(elevator.AsCar()) && status == "No active elevator request to cancel."
    {
      if elevator.request != null {
        elevator.SetRequest(null);
        var _ := elevator.SetElevatorState(IDLE);
        status := "Current elevator request canceled.";
      } else {
        status := "No active elevator request to cancel.";
      }
    }
  }
}
