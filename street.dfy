/** A street: its record fields, its queue of cars (index 0 is the car
    nearest the street end) and, for a street with more than one lane, the
    per-tick loop over the queue with the overtaking manoeuvre. */
module Streets {
  import opened Sequences
  import opened Cars

  /** Gap between two cars that are placed on a street at load time. */
  const SAVE_DISTANCE := 10
  /** Meters an overtaking car jumps, and the least room the manoeuvre needs. */
  const OVERTAKE := 20
  const TWO_CARS_IN_FRONT := 2
  const CAR_IN_FRONT := 1

  /** The record fields of a street. */
  datatype Layout = Layout(id: int, startNode: int, endNode: int, length: int, speedLimit: int)

  /** The street methods that the loop calls but whose bodies are not part of
      this model: `calculateDistance(i, cars)` is the gap of the car at index
      `i` to the car ahead, `NO_CAR_IN_FRONT` the value for "none"; `turnCar`
      decides whether the car leaves the street (given whether the end junction
      shows green for the street) and `turn` gives its fields once it has left. */
  datatype StreetDynamics = StreetDynamics(
    car: CarDynamics,
    noCarInFront: int,
    calculateDistance: (seq<CarState>, int) -> int,
    turnCar: (seq<CarState>, int, Layout, bool) -> bool,
    turn: (CarState, Layout) -> Motion)

  /** The first car of a queue has no car in front of it. */
  ghost predicate HeadIsFree(dyn: StreetDynamics) {
    forall q :: dyn.calculateDistance(q, 0) == dyn.noCarInFront
  }

  /** A car of a queue together with its field values. */
  datatype Slot = Slot(car: Car, state: CarState)

  function States(q: seq<Slot>): (r: seq<CarState>)
    ensures |r| == |q| && forall j :: 0 <= j < |q| ==> r[j] == q[j].state
  {
    seq(|q|, j requires 0 <= j < |q| => q[j].state)
  }

  function Refs(q: seq<Slot>): (r: seq<Car>)
    ensures |r| == |q| && forall j :: 0 <= j < |q| ==> r[j] == q[j].car
  {
    seq(|q|, j requires 0 <= j < |q| => q[j].car)
  }

  /** Every car of `q` currently has the field values recorded for it. */
  ghost predicate Current(q: seq<Slot>)
    reads set j | 0 <= j < |q| :: q[j].car
  {
    forall j :: 0 <= j < |q| ==> q[j].car.State() == q[j].state
  }

  /** The field values of a list of cars. */
  function CarStates(cs: seq<Car>): (r: seq<CarState>)
    reads cs
    ensures |r| == |cs| && forall j :: 0 <= j < |cs| ==> r[j] == cs[j].State()
  {
    seq(|cs|, j requires 0 <= j < |cs| reads cs => cs[j].State())
  }

  /** `resetSpeedInTraffic(hasOvertaken)` applied to a car state. */
  function Settle(s: CarState, hasOvertaken: bool, dyn: StreetDynamics): CarState {
    WithMotion(s, dyn.car.resetSpeedInTraffic(s, hasOvertaken))
  }

  /** The 20 m jump of an overtaking car, before it drives again. */
  function Jump(s: CarState): (r: CarState)
    ensures r.motion.position == s.motion.position + OVERTAKE
    ensures r.motion.remaining == s.motion.remaining - OVERTAKE
  {
    s.(motion := s.motion.(position := s.motion.position + OVERTAKE, remaining := s.motion.remaining - OVERTAKE))
  }

  /** The guard of the overtaking manoeuvre for the car at index `i`: at least
      20 m left to drive, a car directly ahead, at least 20 m to the street end
      and, from index 2 on, the car ahead has no car in front or one at least
      20 m away. */
  predicate MayOvertake(q: seq<Slot>, i: nat, layout: Layout, dyn: StreetDynamics)
    requires i < |q| && HeadIsFree(dyn)
    ensures MayOvertake(q, i, layout, dyn) ==> i >= 1
  {
    var s := q[i].state;
    var distanceFirstCar := dyn.calculateDistance(States(q), i);
    var distanceSecondCar :=
      if i >= TWO_CARS_IN_FRONT then dyn.calculateDistance(States(q), i - CAR_IN_FRONT) else dyn.noCarInFront;
    s.motion.remaining >= OVERTAKE
    && distanceFirstCar != dyn.noCarInFront
    && layout.length - s.motion.position >= OVERTAKE
    && (distanceSecondCar == dyn.noCarInFront || distanceSecondCar >= OVERTAKE)
  }

  /** The queue after the car at index `i` overtook: it jumped 20 m, changed
      places with the car in front of it and drove again with its remaining
      meters against the gap to its new front car. */
  function Overtaken(q: seq<Slot>, i: nat, layout: Layout, dyn: StreetDynamics): (r: seq<Slot>)
    requires i < |q| && HeadIsFree(dyn) && MayOvertake(q, i, layout, dyn)
    ensures |r| == |q|
    ensures r[i - 1].car == q[i].car && r[i].car == q[i - 1].car
    ensures RemoveAt(r, i - 1) == RemoveAt(q, i)
  {
    var jumped := Jump(q[i].state);
    var swapped := MoveForward(q[i := Slot(q[i].car, jumped)], i);
    var gap := dyn.calculateDistance(States(swapped), i - CAR_IN_FRONT);
    swapped[i - 1 := Slot(q[i].car, WithMotion(jumped, dyn.car.drive(jumped, gap, layout.length, jumped.motion.remaining)))]
  }

  /** The queue after the car at index `i` accelerated against the speed limit
      and drove its new speed against the gap to the car ahead; nothing else
      changes. */
  function Driven(q: seq<Slot>, i: nat, layout: Layout, dyn: StreetDynamics): (r: seq<Slot>)
    requires i < |q|
    ensures |r| == |q| && Refs(r) == Refs(q)
    ensures forall j :: 0 <= j < |q| && j != i ==> r[j] == q[j]
  {
    var s := q[i].state;
    var accelerated := WithMotion(s, dyn.car.accelerate(s, layout.speedLimit));
    var qa := q[i := Slot(q[i].car, accelerated)];
    var gap := dyn.calculateDistance(States(qa), i);
    qa[i := Slot(q[i].car, WithMotion(accelerated, dyn.car.drive(accelerated, gap, layout.length, accelerated.motion.speed)))]
  }

  /** What one turn of the loop does to the queue. */
  datatype StepResult = StepResult(queue: seq<Slot>, next: nat, hasOvertaken: bool, turned: seq<Slot>)

  /** One turn of the loop at index `i`. A car that already moved is skipped.
      Otherwise it accelerates against the speed limit and drives against the
      gap ahead; then it overtakes, or else it turns off the street, or else
      it stays; in every case `resetSpeedInTraffic(hasOvertaken)` follows. */
  function Advance(q: seq<Slot>, i: nat, hasOvertaken: bool, layout: Layout, green: bool, dyn: StreetDynamics)
    : (r: StepResult)
    requires i < |q| && HeadIsFree(dyn)
    ensures hasOvertaken ==> r.hasOvertaken
    ensures
      || (Refs(r.queue) == Refs(q) && r.next == i + 1 && r.turned == [])
      || (i >= 1 && Refs(r.queue) == MoveForward(Refs(q), i) && r.next == i + 1 && r.turned == [] && r.hasOvertaken)
      || (Refs(r.queue) == RemoveAt(Refs(q), i) && r.next == i && Refs(r.turned) == [q[i].car]
          && r.hasOvertaken == hasOvertaken)
  {
    if q[i].state.motion.moved then StepResult(q, i + 1, hasOvertaken, [])
    else Resolve(Driven(q, i, layout, dyn), i, hasOvertaken, layout, green, dyn)
  }

  /** The rest of a turn of the loop, once the car at index `i` has driven:
      it overtakes, or else it turns off the street, or else it stays; then
      `resetSpeedInTraffic(hasOvertaken)`. */
  function Resolve(qd: seq<Slot>, i: nat, hasOvertaken: bool, layout: Layout, green: bool, dyn: StreetDynamics)
    : (r: StepResult)
    requires i < |qd| && HeadIsFree(dyn)
    ensures hasOvertaken ==> r.hasOvertaken
    ensures
      || (Refs(r.queue) == Refs(qd) && r.next == i + 1 && r.turned == [])
      || (i >= 1 && Refs(r.queue) == MoveForward(Refs(qd), i) && r.next == i + 1 && r.turned == [] && r.hasOvertaken)
      || (Refs(r.queue) == RemoveAt(Refs(qd), i) && r.next == i && Refs(r.turned) == [qd[i].car]
          && r.hasOvertaken == hasOvertaken)
  {
    var c := qd[i].car;
    var driven := qd[i].state;
    if MayOvertake(qd, i, layout, dyn) then
      var qo := Overtaken(qd, i, layout, dyn);
      assert Refs(qo) == MoveForward(Refs(qd), i) by {
        assert RemoveAt(Refs(qo), i - 1) == RemoveAt(Refs(qd), i) by {
          assert RemoveAt(qo, i - 1) == RemoveAt(qd, i);
        }
      }
      var qs := qo[i - 1 := Slot(c, Settle(qo[i - 1].state, true, dyn))];
      assert Refs(qs) == Refs(qo);
      StepResult(qs, i + 1, true, [])
    else Leave(qd, i, hasOvertaken, layout, green, dyn)
  }

  /** A driven car that did not overtake: it turns off the street, or else it
      stays; then `resetSpeedInTraffic(hasOvertaken)`. */
  function Leave(qd: seq<Slot>, i: nat, hasOvertaken: bool, layout: Layout, green: bool, dyn: StreetDynamics)
    : (r: StepResult)
    requires i < |qd|
    ensures r.hasOvertaken == hasOvertaken
    ensures
      || (Refs(r.queue) == Refs(qd) && r.next == i + 1 && r.turned == [])
      || (Refs(r.queue) == RemoveAt(Refs(qd), i) && r.next == i && Refs(r.turned) == [qd[i].car])
  {
    var c := qd[i].car;
    var driven := qd[i].state;
    if dyn.turnCar(States(qd), i, layout, green) then
      var left := WithMotion(driven, dyn.turn(driven, layout));
      StepResult(RemoveAt(qd, i), i, hasOvertaken, [Slot(c, Settle(left, hasOvertaken, dyn))])
    else
      var qs := qd[i := Slot(c, Settle(driven, hasOvertaken, dyn))];
      assert Refs(qs) == Refs(qd);
      StepResult(qs, i + 1, hasOvertaken, [])
  }

  /** What one call of the street's `update` does to the queue. */
  datatype TickResult = TickResult(queue: seq<Slot>, turned: seq<Slot>, hasOvertaken: bool)

  /** The loop from index `i` on, with the cars that turned off so far. */
  function Process(q: seq<Slot>, i: nat, hasOvertaken: bool, turned: seq<Slot>,
                   layout: Layout, green: bool, dyn: StreetDynamics): TickResult
    requires i <= |q| && HeadIsFree(dyn)
    decreases |q| - i
  {
    if i == |q| then TickResult(q, turned, hasOvertaken)
    else
      var r := Advance(q, i, hasOvertaken, layout, green, dyn);
      Process(r.queue, r.next, r.hasOvertaken, turned + r.turned, layout, green, dyn)
  }

  /** One call of `update` on a street with an overtaking lane. */
  function Tick(q: seq<Slot>, layout: Layout, green: bool, dyn: StreetDynamics): TickResult
    requires HeadIsFree(dyn)
  {
    Process(q, 0, false, [], layout, green, dyn)
  }

  lemma AdvanceConserves(q: seq<Slot>, i: nat, hasOvertaken: bool, layout: Layout, green: bool, dyn: StreetDynamics)
    requires i < |q| && HeadIsFree(dyn)
    ensures var r := Advance(q, i, hasOvertaken, layout, green, dyn);
      multiset(Refs(r.queue)) + multiset(Refs(r.turned)) == multiset(Refs(q))
  {
    var r := Advance(q, i, hasOvertaken, layout, green, dyn);
    if Refs(r.queue) == RemoveAt(Refs(q), i) && r.next == i {
      RemoveAtMultiset(Refs(q), i);
    } else if Refs(r.queue) != Refs(q) {
      MoveForwardMultiset(Refs(q), i);
    }
  }

  lemma {:induction false} ProcessConserves(q: seq<Slot>, i: nat, hasOvertaken: bool, turned: seq<Slot>,
                                            layout: Layout, green: bool, dyn: StreetDynamics)
    requires i <= |q| && HeadIsFree(dyn)
    ensures var r := Process(q, i, hasOvertaken, turned, layout, green, dyn);
      multiset(Refs(r.queue)) + multiset(Refs(r.turned)) == multiset(Refs(q)) + multiset(Refs(turned))
    decreases |q| - i
  {
    if i < |q| {
      var r := Advance(q, i, hasOvertaken, layout, green, dyn);
      AdvanceConserves(q, i, hasOvertaken, layout, green, dyn);
      ProcessConserves(r.queue, r.next, r.hasOvertaken, turned + r.turned, layout, green, dyn);
      ConservedStep(q, turned, r.queue, r.turned,
                    Process(r.queue, r.next, r.hasOvertaken, turned + r.turned, layout, green, dyn));
    }
  }

  /** One turn of the loop followed by the rest of it conserves the cars when
      each of the two does. */
  lemma ConservedStep(q: seq<Slot>, turned: seq<Slot>, rq: seq<Slot>, rt: seq<Slot>, out: TickResult)
    requires multiset(Refs(rq)) + multiset(Refs(rt)) == multiset(Refs(q))
    requires multiset(Refs(out.queue)) + multiset(Refs(out.turned))
          == multiset(Refs(rq)) + multiset(Refs(turned + rt))
    ensures multiset(Refs(out.queue)) + multiset(Refs(out.turned)) == multiset(Refs(q)) + multiset(Refs(turned))
  {
    assert Refs(turned + rt) == Refs(turned) + Refs(rt);
  }

  /** No car is lost or duplicated by a tick: the cars still queued and the
      cars that turned off together are exactly the cars queued before. */
  lemma TickConservesCars(q: seq<Slot>, layout: Layout, green: bool, dyn: StreetDynamics)
    requires HeadIsFree(dyn)
    ensures var r := Tick(q, layout, green, dyn);
      multiset(Refs(r.queue)) + multiset(Refs(r.turned)) == multiset(Refs(q))
      && |r.queue| + |r.turned| == |q|
  {
    var r := Tick(q, layout, green, dyn);
    ProcessConserves(q, 0, false, [], layout, green, dyn);
    assert Refs([]) == [];
    calc {
      |r.queue| + |r.turned|;
      |multiset(Refs(r.queue))| + |multiset(Refs(r.turned))|;
      |multiset(Refs(r.queue)) + multiset(Refs(r.turned))|;
      |multiset(Refs(q))|;
      |q|;
    }
  }

  lemma AdvanceKeepsMoved(q: seq<Slot>, i: nat, hasOvertaken: bool, layout: Layout, green: bool,
                          dyn: StreetDynamics, x: Slot)
    requires i < |q| && HeadIsFree(dyn)
    requires x in q && x.state.motion.moved
    ensures x in Advance(q, i, hasOvertaken, layout, green, dyn).queue
  {
    var j :| 0 <= j < |q| && q[j] == x;
    if !q[i].state.motion.moved {
      assert j != i;
      var qd := Driven(q, i, layout, dyn);
      assert qd[j] == x;
      if MayOvertake(qd, i, layout, dyn) {
        var qo := Overtaken(qd, i, layout, dyn);
        if j < i - 1 {
          assert RemoveAt(qo, i - 1)[j] == RemoveAt(qd, i)[j];
          assert qo[j] == x;
        } else if j == i - 1 {
          assert RemoveAt(qo, i - 1)[i - 1] == RemoveAt(qd, i)[i - 1];
          assert qo[i] == x;
        } else {
          assert RemoveAt(qo, i - 1)[j - 1] == RemoveAt(qd, i)[j - 1];
          assert qo[j] == x;
        }
      } else if dyn.turnCar(States(qd), i, layout, green) {
        if j < i {
          assert RemoveAt(qd, i)[j] == x;
        } else {
          assert RemoveAt(qd, i)[j - 1] == x;
        }
      }
    }
  }

  lemma {:induction false} ProcessKeepsMoved(q: seq<Slot>, i: nat, hasOvertaken: bool, turned: seq<Slot>,
                                             layout: Layout, green: bool, dyn: StreetDynamics, x: Slot)
    requires i <= |q| && HeadIsFree(dyn)
    requires x in q && x.state.motion.moved
    ensures x in Process(q, i, hasOvertaken, turned, layout, green, dyn).queue
    decreases |q| - i
  {
    if i < |q| {
      var r := Advance(q, i, hasOvertaken, layout, green, dyn);
      AdvanceKeepsMoved(q, i, hasOvertaken, layout, green, dyn, x);
      ProcessKeepsMoved(r.queue, r.next, r.hasOvertaken, turned + r.turned, layout, green, dyn, x);
    }
  }

  /** A car that already moved in this tick keeps its field values and stays
      on the street. */
  lemma TickKeepsMovedCars(q: seq<Slot>, layout: Layout, green: bool, dyn: StreetDynamics, x: Slot)
    requires HeadIsFree(dyn)
    requires x in q && x.state.motion.moved
    ensures x in Tick(q, layout, green, dyn).queue
  {
    ProcessKeepsMoved(q, 0, false, [], layout, green, dyn, x);
  }

  /** Once a car has overtaken, the flag stays set for the rest of the loop. */
  lemma {:induction false} OvertakenFlagSticks(q: seq<Slot>, i: nat, turned: seq<Slot>,
                                               layout: Layout, green: bool, dyn: StreetDynamics)
    requires i <= |q| && HeadIsFree(dyn)
    ensures Process(q, i, true, turned, layout, green, dyn).hasOvertaken
    decreases |q| - i
  {
    if i < |q| {
      var r := Advance(q, i, true, layout, green, dyn);
      OvertakenFlagSticks(r.queue, r.next, turned + r.turned, layout, green, dyn);
    }
  }

  /** A queue whose every car already moved is left as it is. */
  lemma {:induction false} AllMovedIsFixed(q: seq<Slot>, i: nat, hasOvertaken: bool, turned: seq<Slot>,
                                           layout: Layout, green: bool, dyn: StreetDynamics)
    requires i <= |q| && HeadIsFree(dyn)
    requires forall j :: i <= j < |q| ==> q[j].state.motion.moved
    ensures Process(q, i, hasOvertaken, turned, layout, green, dyn) == TickResult(q, turned, hasOvertaken)
    decreases |q| - i
  {
    if i < |q| {
      AllMovedIsFixed(q, i + 1, hasOvertaken, turned + [], layout, green, dyn);
      assert turned + [] == turned;
    }
  }

  lemma StatesOfSlots(q: seq<Slot>, cs: seq<Car>, states: seq<CarState>)
    requires |q| == |cs| == |states|
    requires forall j :: 0 <= j < |q| ==> q[j] == Slot(cs[j], states[j])
    ensures States(q) == states && Refs(q) == cs
  {
  }

  /** A list of cars with their current field values. */
  /** The queue `resetCarMoves` leaves: the same cars, each with its per-tick
      fields reset. */
  function Reset(q: seq<Slot>, dyn: StreetDynamics): seq<Slot> {
    seq(|q|, j requires 0 <= j < |q| => Slot(q[j].car, WithMotion(q[j].state, dyn.car.resetMoveParameters(q[j].state))))
  }

  ghost function SlotsOf(cs: seq<Car>): (q: seq<Slot>)
    reads cs
    ensures |q| == |cs| && forall j :: 0 <= j < |cs| ==> q[j] == Slot(cs[j], cs[j].State())
  {
    seq(|cs|, j requires 0 <= j < |cs| reads cs => Slot(cs[j], cs[j].State()))
  }

  class Street {
    var startNode: int
    var endNode: int
    var length: int
    var speedLimit: int
    const streetId: int
    /** Built from a street tuple whose lane code is not 1. */
    const fastTrack: bool
    var cars: seq<Car>

    function Record(): Layout
      reads this
    {
      Layout(streetId, startNode, endNode, length, speedLimit)
    }

    /** The queue with the cars' field values. */
    ghost function Slots(): (q: seq<Slot>)
      reads this, cars
    {
      SlotsOf(cars)
    }

    ghost predicate Valid()
      reads this
    {
      Distinct(cars)
    }

    /** The queue `update` leaves, given whether the end junction shows green
        for this street: a street with an overtaking lane runs its loop, a
        single-lane street keeps its queue. */
    ghost function Next(green: bool, dyn: StreetDynamics): seq<Slot>
      requires HeadIsFree(dyn)
      reads this, cars
    {
      if fastTrack then Tick(Slots(), Record(), green, dyn).queue else Slots()
    }

    constructor (startNode: int, endNode: int, length: int, speedLimit: int, streetId: int, fastTrack: bool)
      ensures Record() == Layout(streetId, startNode, endNode, length, speedLimit)
      ensures this.fastTrack == fastTrack && cars == [] && Valid()
    {
      this.startNode := startNode;
      this.endNode := endNode;
      this.length := length;
      this.speedLimit := speedLimit;
      this.streetId := streetId;
      this.fastTrack := fastTrack;
      this.cars := [];
    }

    method SetStartNode(node: int)
      modifies this
      ensures Record() == old(Record()).(startNode := node) && cars == old(cars)
    {
      startNode := node;
    }

    method SetEndNode(node: int)
      modifies this
      ensures Record() == old(Record()).(endNode := node) && cars == old(cars)
    {
      endNode := node;
    }

    method SetLength(length: int)
      modifies this
      ensures Record() == old(Record()).(length := length) && cars == old(cars)
    {
      this.length := length;
    }

    method SetSpeedLimit(speedLimit: int)
      modifies this
      ensures Record() == old(Record()).(speedLimit := speedLimit) && cars == old(cars)
    {
      this.speedLimit := speedLimit;
    }

    method SetCars(cars: seq<Car>)
      modifies this
      ensures Record() == old(Record()) && this.cars == cars
    {
      this.cars := cars;
    }

    /** Checks the distances of the queue; the body is empty. */
    method ValidateDistance() {
    }

    /** Fills the street; the body is empty. */
    method FillStreet() {
    }

    /** Appends a car at the back of the queue. */
    method Enqueue(car: Car)
      modifies this
      ensures Record() == old(Record()) && cars == old(cars) + [car]
    {
      cars := cars + [car];
    }

    /** The overtaking manoeuvre for `car`, which must be on this street. */
    method OvertakeVehicle(car: Car, dyn: StreetDynamics) returns (overtaken: bool)
      requires Valid() && car in cars && HeadIsFree(dyn)
      modifies this, car
      ensures Valid() && Record() == old(Record())
      ensures var q := old(Slots());
        var i := IndexOf(old(cars), car);
        && overtaken == MayOvertake(q, i, old(Record()), dyn)
        && Slots() == if overtaken then Overtaken(q, i, old(Record()), dyn) else q
      ensures forall c :: c in cars <==> c in old(cars)
    {
      ghost var q := Slots();
      ghost var i := IndexOf(cars, car);
      StatesOfSlots(q, cars, CarStates(cars));
      if car.remainingMeters < OVERTAKE {
        return false;
      }
      var currentCarIndex := IndexOf(cars, car);
      var metersToGo := length - car.currentPosition;
      var distanceFirstCar := dyn.calculateDistance(CarStates(cars), currentCarIndex);
      var distanceSecondCar := dyn.noCarInFront;
      if currentCarIndex >= TWO_CARS_IN_FRONT {
        distanceSecondCar := dyn.calculateDistance(CarStates(cars), currentCarIndex - CAR_IN_FRONT);
      }
      if distanceFirstCar == dyn.noCarInFront || metersToGo < OVERTAKE {
        return false;
      }
      if distanceSecondCar == dyn.noCarInFront || distanceSecondCar >= OVERTAKE {
        assert MayOvertake(q, i, Record(), dyn);
        Swap(car, currentCarIndex, dyn);
        return true;
      }
      return false;
    }

    /** The successful manoeuvre: jump 20 m, move one place forward, drive again. */
    method Swap(car: Car, currentCarIndex: nat, dyn: StreetDynamics)
      requires Valid() && 1 <= currentCarIndex < |cars| && cars[currentCarIndex] == car && HeadIsFree(dyn)
      requires MayOvertake(Slots(), currentCarIndex, Record(), dyn)
      modifies this, car
      ensures Valid() && Record() == old(Record())
      ensures Slots() == Overtaken(old(Slots()), currentCarIndex, old(Record()), dyn)
      ensures forall c :: c in cars <==> c in old(cars)
    {
      ghost var q := Slots();
      ghost var i := currentCarIndex;
      ghost var layout := Record();
      ghost var jumped := Jump(q[i].state);
      JumpForward(car, currentCarIndex);
      ghost var swapped := Slots();
      IndexOfDistinct(cars, currentCarIndex - CAR_IN_FRONT);
      var index := IndexOf(cars, car);
      StatesOfSlots(swapped, cars, CarStates(cars));
      var m := dyn.car.drive(car.State(), dyn.calculateDistance(CarStates(cars), index), length, car.remainingMeters);
      assert m == dyn.car.drive(jumped, dyn.calculateDistance(States(swapped), i - 1), layout.length, jumped.motion.remaining);
      ApplyAt(index, m);
    }

    /** The first two steps of the manoeuvre: the car at index `i` jumps
        20 m and moves one place forward. */
    method JumpForward(car: Car, i: nat)
      requires Valid() && 1 <= i < |cars| && cars[i] == car
      modifies this, car
      ensures Valid() && Record() == old(Record()) && forall c :: c in cars <==> c in old(cars)
      ensures Slots() == MoveForward(old(Slots())[i := Slot(car, Jump(old(car.State())))], i)
      ensures cars[i - 1] == car
    {
      JumpAhead(i);
      DistinctMoveForward(cars, i);
      ghost var jumpedQueue := Slots();
      cars := MoveForward(cars, i);
      assert forall j :: 0 <= j < |cars| ==> Slots()[j] == MoveForward(jumpedQueue, i)[j];
    }

    /** `setCurrentPosition(position + 20)` and `setRemainingMeters(remaining - 20)`
        on the car at index `i`. */
    method JumpAhead(i: nat)
      requires Valid() && i < |cars|
      modifies cars[i]
      ensures Slots() == old(Slots())[i := Slot(cars[i], Jump(old(cars[i].State())))]
    {
      var car := cars[i];
      car.SetCurrentPosition(car.currentPosition + OVERTAKE);
      car.SetRemainingMeters(car.remainingMeters - OVERTAKE);
      assert forall j :: 0 <= j < |cars| && j != i ==> Slots()[j] == old(Slots())[j];
    }

    /** One of the unseen car methods applied to the car at index `i`. */
    method ApplyAt(i: nat, m: Motion)
      requires Valid() && i < |cars|
      modifies cars[i]
      ensures Slots() == old(Slots())[i := Slot(cars[i], WithMotion(old(cars[i].State()), m))]
    {
      var car := cars[i];
      car.Apply(m);
      assert forall j :: 0 <= j < |cars| && j != i ==> Slots()[j] == old(Slots())[j];
    }

    /** The unseen `turnCar`: when the car leaves, it gets its new fields and is
        removed from this queue. */
    method TurnCar(car: Car, green: bool, dyn: StreetDynamics) returns (turned: bool)
      requires Valid() && car in cars
      modifies this, car
      ensures Valid() && Record() == old(Record())
      ensures var q := old(Slots());
        var i := IndexOf(old(cars), car);
        && turned == dyn.turnCar(States(q), i, old(Record()), green)
        && (turned ==> Slots() == RemoveAt(q, i)
                       && car.State() == WithMotion(q[i].state, dyn.turn(q[i].state, old(Record()))))
        && (!turned ==> Slots() == q)
      ensures forall c :: c in cars ==> c in old(cars) && (turned ==> c != car)
    {
      ghost var q := Slots();
      var i := IndexOf(cars, car);
      StatesOfSlots(q, cars, CarStates(cars));
      turned := dyn.turnCar(CarStates(cars), i, Record(), green);
      if turned {
        car.Apply(dyn.turn(car.State(), Record()));
        DistinctRemoveAt(cars, i);
        cars := RemoveAt(cars, i);
        assert Slots() == RemoveAt(q, i);
      }
    }

    /** `accelerate(speedLimit)` and `drive(calculateDistance(i, cars), length,
        currentSpeed)` on the car at index `i`. */
    method AccelerateAndDrive(i: nat, dyn: StreetDynamics)
      requires Valid() && i < |cars|
      modifies cars[i]
      ensures Slots() == Driven(old(Slots()), i, Record(), dyn)
    {
      ghost var q := Slots();
      var car := cars[i];
      ghost var s := q[i].state;
      ApplyAt(i, dyn.car.accelerate(car.State(), speedLimit));
      ghost var accelerated := WithMotion(s, dyn.car.accelerate(s, speedLimit));
      ghost var qa := q[i := Slot(car, accelerated)];
      StatesOfSlots(qa, cars, CarStates(cars));
      ApplyAt(i, dyn.car.drive(car.State(), dyn.calculateDistance(CarStates(cars), i), length, car.currentSpeed));
    }

    /** One turn of the loop at index `i`. */
    method AdvanceCar(i: nat, hasOvertaken: bool, green: bool, dyn: StreetDynamics)
      returns (next: nat, overtakenSoFar: bool, ghost turned: seq<Slot>)
      requires Valid() && i < |cars| && HeadIsFree(dyn)
      modifies this, cars[i]
      ensures Valid() && Record() == old(Record())
      ensures var r := Advance(old(Slots()), i, hasOvertaken, old(Record()), green, dyn);
        Slots() == r.queue && next == r.next && overtakenSoFar == r.hasOvertaken && turned == r.turned
      ensures Current(turned) && forall t :: t in turned ==> t.car !in cars
      ensures forall c :: c in cars ==> c in old(cars)
    {
      var car := cars[i];
      if car.isMoved {
        return i + 1, hasOvertaken, [];
      }
      AccelerateAndDrive(i, dyn);
      next, overtakenSoFar, turned := ResolveCar(i, hasOvertaken, green, dyn);
    }

    /** The car at index `i` has driven: overtake, or else turn off, then
        `resetSpeedInTraffic`. */
    method ResolveCar(i: nat, hasOvertaken: bool, green: bool, dyn: StreetDynamics)
      returns (next: nat, overtakenSoFar: bool, ghost turned: seq<Slot>)
      requires Valid() && i < |cars| && HeadIsFree(dyn)
      modifies this, cars[i]
      ensures Valid() && Record() == old(Record())
      ensures var r := Resolve(old(Slots()), i, hasOvertaken, old(Record()), green, dyn);
        Slots() == r.queue && next == r.next && overtakenSoFar == r.hasOvertaken && turned == r.turned
      ensures Current(turned) && forall t :: t in turned ==> t.car !in cars
      ensures forall c :: c in cars ==> c in old(cars)
    {
      ghost var qd := Slots();
      ghost var L := Record();
      var car := cars[i];
      IndexOfDistinct(cars, i);
      var overtaken := OvertakeVehicle(car, dyn);
      if overtaken {
        // the car is now one place further ahead
        ghost var qo := Overtaken(qd, i, L, dyn);
        assert Resolve(qd, i, hasOvertaken, L, green, dyn)
          == StepResult(qo[i - 1 := Slot(car, Settle(qo[i - 1].state, true, dyn))], i + 1, true, []);
        assert cars[i - 1] == car;
        ApplyAt(i - 1, dyn.car.resetSpeedInTraffic(car.State(), true));
        return i + 1, true, [];
      }
      next, overtakenSoFar, turned := TurnOrStay(i, hasOvertaken, green, dyn);
    }

    /** The car at index `i` has driven and not overtaken: turn off, then
        `resetSpeedInTraffic`. */
    method TurnOrStay(i: nat, hasOvertaken: bool, green: bool, dyn: StreetDynamics)
      returns (next: nat, overtakenSoFar: bool, ghost turned: seq<Slot>)
      requires Valid() && i < |cars|
      modifies this, cars[i]
      ensures Valid() && Record() == old(Record())
      ensures var r := Leave(old(Slots()), i, hasOvertaken, old(Record()), green, dyn);
        Slots() == r.queue && next == r.next && overtakenSoFar == r.hasOvertaken && turned == r.turned
      ensures Current(turned) && forall t :: t in turned ==> t.car !in cars
      ensures forall c :: c in cars ==> c in old(cars)
    {
      ghost var qd := Slots();
      ghost var L := Record();
      var car := cars[i];
      IndexOfDistinct(cars, i);
      var turnedOff := TurnCar(car, green, dyn);
      if turnedOff {
        ghost var left := WithMotion(qd[i].state, dyn.turn(qd[i].state, L));
        assert Leave(qd, i, hasOvertaken, L, green, dyn)
          == StepResult(RemoveAt(qd, i), i, hasOvertaken, [Slot(car, Settle(left, hasOvertaken, dyn))]);
        car.Apply(dyn.car.resetSpeedInTraffic(car.State(), hasOvertaken));
        assert Slots() == RemoveAt(qd, i);
        return i, hasOvertaken, [Slot(car, car.State())];
      }
      assert Leave(qd, i, hasOvertaken, L, green, dyn)
        == StepResult(qd[i := Slot(car, Settle(qd[i].state, hasOvertaken, dyn))], i + 1, hasOvertaken, []);
      ApplyAt(i, dyn.car.resetSpeedInTraffic(car.State(), hasOvertaken));
      return i + 1, hasOvertaken, [];
    }

    /** One tick of the street. A street with an overtaking lane runs the loop
        over its queue; a single-lane street's `update` is empty. Cars that
        turned off are returned with their new field values. */
    method Update(green: bool, dyn: StreetDynamics) returns (ghost turned: seq<Slot>)
      requires Valid() && HeadIsFree(dyn)
      modifies this, cars
      ensures Valid() && Record() == old(Record())
      ensures fastTrack ==>
        var r := Tick(old(Slots()), old(Record()), green, dyn);
        Slots() == r.queue && turned == r.turned
      ensures !fastTrack ==> Slots() == old(Slots()) && turned == []
      ensures Slots() == old(Next(green, dyn))
      ensures Current(turned)
      ensures forall c :: c in cars ==> c in old(cars)
    {
      turned := [];
      if !fastTrack {
        return;
      }
      turned := Overtaking(green, dyn);
    }

    /** The loop of `update` on a street with an overtaking lane: every car
        in turn accelerates, drives and tries to overtake. */
    method Overtaking(green: bool, dyn: StreetDynamics) returns (ghost turned: seq<Slot>)
      requires Valid() && HeadIsFree(dyn)
      modifies this, cars
      ensures Valid() && Record() == old(Record())
      ensures var r := Tick(old(Slots()), old(Record()), green, dyn);
        Slots() == r.queue && turned == r.turned
      ensures Current(turned)
      ensures forall c :: c in cars ==> c in old(cars)
    {
      turned := [];
      ghost var q0 := Slots();
      ghost var cars0 := cars;
      var hasOvertaken := false;
      var i: nat := 0;
      while i < |cars|
        invariant Valid() && Record() == old(Record()) && i <= |cars|
        invariant Process(Slots(), i, hasOvertaken, turned, Record(), green, dyn) == Tick(q0, Record(), green, dyn)
        invariant Current(turned) && forall t :: t in turned ==> t.car !in cars
        invariant forall c :: c in cars ==> c in cars0
        decreases |cars| - i
      {
        assert cars[i] in cars0;
        i, hasOvertaken, turned := OvertakingStep(i, hasOvertaken, green, dyn, q0, cars0, turned);
      }
    }

    /** One turn of the loop of `update`, stated as the loop invariant it
        keeps: what is left of the loop still ends in the tick of the queue
        the loop started from. */
    method OvertakingStep(i: nat, hasOvertaken: bool, green: bool, dyn: StreetDynamics,
                          ghost q0: seq<Slot>, ghost cars0: seq<Car>, ghost turned: seq<Slot>)
      returns (next: nat, overtakenSoFar: bool, ghost turned': seq<Slot>)
      requires Valid() && i < |cars| && HeadIsFree(dyn)
      requires Process(Slots(), i, hasOvertaken, turned, Record(), green, dyn) == Tick(q0, Record(), green, dyn)
      requires Current(turned) && forall t :: t in turned ==> t.car !in cars
      requires forall c :: c in cars ==> c in cars0
      modifies this, cars[i]
      ensures Valid() && Record() == old(Record()) && next <= |cars| && |cars| - next < old(|cars|) - i
      ensures Process(Slots(), next, overtakenSoFar, turned', Record(), green, dyn) == Tick(q0, Record(), green, dyn)
      ensures Current(turned') && forall t :: t in turned' ==> t.car !in cars
      ensures forall c :: c in cars ==> c in cars0
    {
      ghost var q := Slots();
      ghost var r := Advance(q, i, hasOvertaken, Record(), green, dyn);
      assert Process(q, i, hasOvertaken, turned, Record(), green, dyn)
          == Process(r.queue, r.next, r.hasOvertaken, turned + r.turned, Record(), green, dyn);
      assert forall j :: 0 <= j < |turned| ==> turned[j].car != cars[i];
      ghost var step;
      next, overtakenSoFar, step := AdvanceCar(i, hasOvertaken, green, dyn);
      turned' := turned + step;
    }

    /** `update` as the network sees it: the street keeps its record, its
        queue becomes the one `Next` gives, and no car joins it. */
    method Run(green: bool, dyn: StreetDynamics)
      requires Valid() && HeadIsFree(dyn)
      modifies this, cars
      ensures Valid() && Record() == old(Record())
      ensures Slots() == old(Next(green, dyn))
      ensures forall c :: c in cars ==> c in old(cars)
    {
      ghost var turned := Update(green, dyn);
    }

    /** The end-of-tick reset of every queued car's per-tick fields. */
    method ResetCarMoves(dyn: StreetDynamics)
      requires Valid()
      modifies cars
      ensures Valid() && cars == old(cars)
      ensures forall j :: 0 <= j < |cars| ==>
        cars[j].State() == WithMotion(old(cars[j].State()), dyn.car.resetMoveParameters(old(cars[j].State())))
      ensures Slots() == Reset(old(Slots()), dyn)
    {
      for j := 0 to |cars|
        invariant forall k :: 0 <= k < j ==>
          cars[k].State() == WithMotion(old(cars[k].State()), dyn.car.resetMoveParameters(old(cars[k].State())))
        invariant forall k :: j <= k < |cars| ==> cars[k].State() == old(cars[k].State())
      {
        var car := cars[j];
        car.Apply(dyn.car.resetMoveParameters(car.State()));
      }
    }
  }
}
