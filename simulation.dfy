/** The session around one street network: the execution state the shell
    asks about, loading the input files and running ticks. */
module Simulations {
  import opened Errors
  import opened Cars
  import opened Streets
  import opened Nodes
  import opened Loading
  import opened TextParsing
  import opened Sequences
  import opened Network

  /** The message of a load or a run that went through. */
  const READY := "READY"

  datatype ExecutionState = Exited | Running | Reading

  /** How often `simulate` calls `update`: its loop runs while the counter
      is below the argument, so never for a negative one. */
  function TickCount(numberOfTicks: int): (r: nat)
    ensures numberOfTicks <= 0 ==> r == 0
    ensures numberOfTicks >= 0 ==> r == numberOfTicks
  {
    if numberOfTicks < 0 then 0 else numberOfTicks
  }

  /** The outcome of loading the three files: the first file that does not
      read, else the outcome of building the network from their tuples. */
  function ReadOutcome(carLines: seq<string>, streetLines: seq<string>, crossingLines: seq<string>): Outcome {
    var f := FilesOutcome(carLines, streetLines, crossingLines);
    if f.Fail? then f
    else
      FilesShaped(carLines, streetLines, crossingLines);
      LoadOutcome(Tuples(CarFile, carLines).value, Tuples(StreetFile, streetLines).value,
                  Tuples(CrossingFile, crossingLines).value)
  }

  class Simulation {
    var executionState: ExecutionState
    const streetNetwork: StreetNetwork

    /** A new session is reading its files. */
    constructor (streetNetwork: StreetNetwork)
      ensures executionState == Reading && this.streetNetwork == streetNetwork
    {
      executionState := Reading;
      this.streetNetwork := streetNetwork;
    }

    predicate IsActive()
      reads this
    {
      executionState == Running
    }

    predicate IsReading()
      reads this
    {
      executionState == Reading
    }

    /** Any state becomes exited, which is neither active nor reading. */
    method Quit()
      modifies this
      ensures executionState == Exited && !IsActive() && !IsReading()
    {
      executionState := Exited;
    }

    /** The position report of the first car with the id, or the error that
        it is not in the simulation. */
    method ShowCar(carId: int) returns (r: Result<string>)
      ensures r.Success? <==> carId in CarIdsOf(streetNetwork.cars)
      ensures r.Success? ==>
        var car := streetNetwork.cars[IndexOf(CarIdsOf(streetNetwork.cars), carId)];
        ParseReport(r.value) == Some((carId, car.currentStreet, car.currentSpeed, car.currentPosition))
      ensures r.Failure? ==> r.error == CarNotInSimulation
    {
      r := streetNetwork.GetCurrentCar(carId);
    }

    /** Reads the three files into the network, then builds the network
        from their tuples. Only when both go through is the session
        running, with the network those tuples describe; otherwise the
        error of the first failing step is returned and the execution
        state is as it was. */
    method ReadFiles(carLines: seq<string>, streetLines: seq<string>, crossingLines: seq<string>)
      returns (r: Result<string>)
      modifies this, streetNetwork
      ensures r.Success? <==> ReadOutcome(carLines, streetLines, crossingLines) == Pass
      ensures r.Failure? ==>
        ReadOutcome(carLines, streetLines, crossingLines) == Fail(r.error) && executionState == old(executionState)
      ensures r.Success? ==>
        && r.value == READY && executionState == Running
        && streetNetwork.carParameters == Tuples(CarFile, carLines).value
        && streetNetwork.streetParameters == Tuples(StreetFile, streetLines).value
        && streetNetwork.crossingParameters == Tuples(CrossingFile, crossingLines).value
        && Shaped(streetNetwork.carParameters, streetNetwork.streetParameters, streetNetwork.crossingParameters)
        && streetNetwork.Loaded(streetNetwork.carParameters, streetNetwork.streetParameters, streetNetwork.crossingParameters)
        && streetNetwork.Valid()
    {
      var o := streetNetwork.ReadFiles(carLines, streetLines, crossingLines);
      if o.Fail? {
        return Failure(o.error);
      }
      FilesShaped(carLines, streetLines, crossingLines);
      var previous := executionState;
      executionState := Running;
      o := streetNetwork.Load();
      if o.Fail? {
        executionState := previous;
        return Failure(o.error);
      }
      return Success(READY);
    }

    /** Runs `update` of the network once per tick asked for, none for a
        negative count. The junctions end where that many of their own
        ticks leave them, the queues where that many network ticks leave
        them, and the network stays ready to tick with its streets and
        junction wiring as they were. */
    method Simulate(numberOfTicks: int, dyn: StreetDynamics) returns (r: string)
      requires streetNetwork.Valid() && HeadIsFree(dyn)
      modifies streetNetwork.streets, streetNetwork.cars, streetNetwork.nodes, Lights(streetNetwork.nodes)
      ensures r == READY && streetNetwork.Valid()
      ensures Layouts(streetNetwork.streets) == old(Layouts(streetNetwork.streets))
      ensures Signals(streetNetwork.nodes) == StepAllN(old(Signals(streetNetwork.nodes)), TickCount(numberOfTicks))
      ensures QueueSlots(streetNetwork.streets) ==
        Ticks(old(QueueSlots(streetNetwork.streets)), Layouts(streetNetwork.streets), LanesOf(streetNetwork.streets),
              old(Signals(streetNetwork.nodes)), dyn, TickCount(numberOfTicks))
    {
      var network := streetNetwork;
      ghost var layouts, lanes := Layouts(network.streets), LanesOf(network.streets);
      ghost var signals, queues := Signals(network.nodes), QueueSlots(network.streets);
      ghost var sigs, trace := [signals], [queues];
      var i := 0;
      while i < numberOfTicks
        invariant 0 <= i <= TickCount(numberOfTicks) && |sigs| == i + 1 && |trace| == i + 1
        invariant network.Valid() && Layouts(network.streets) == layouts
        invariant sigs[0] == signals && trace[0] == queues
        invariant Signals(network.nodes) == sigs[i] && QueueSlots(network.streets) == trace[i]
        invariant SignalRun(sigs) && TrafficRun(trace, sigs, layouts, lanes, dyn)
      {
        network.Update(dyn);
        SignalRunExtend(sigs, Signals(network.nodes));
        TrafficRunExtend(trace, sigs, layouts, lanes, dyn, QueueSlots(network.streets), Signals(network.nodes));
        sigs := sigs + [Signals(network.nodes)];
        trace := trace + [QueueSlots(network.streets)];
        i := i + 1;
      }
      assert i == TickCount(numberOfTicks);
      SignalRunIsStepAllN(sigs, i);
      TrafficRunIsTicks(trace, sigs, layouts, lanes, dyn, i);
      return READY;
    }
  }

  /** The session is never both active and reading. */
  lemma NeverActiveAndReading(s: Simulation)
    ensures !(s.IsActive() && s.IsReading())
  {
  }
}
