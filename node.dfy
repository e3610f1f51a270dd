/** Junctions: a node holds its incoming and outgoing streets; an
    intersection additionally owns a traffic light and rotates a green index
    over its incoming streets, a roundabout never changes. */
module Nodes {
  import opened Errors
  import opened TrafficLights
  import opened Streets

  const MAXIMUM_STREETS := 4
  const START_STREET := 0
  /** The green marker of a roundabout. */
  const ALL_STREETS_GREEN := -1

  /** `changeCurrentGreenStreet` with `n` incoming streets: the next index,
      wrapping from the last to the first; an index past the end is kept. */
  function ChangeGreen(green: int, n: int): (r: int)
    ensures 0 <= green < n ==> 0 <= r < n && r == (green + 1) % n
    ensures green >= n ==> r == green
    ensures green >= 0 ==> r >= 0
  {
    if green < n - 1 then green + 1
    else if green == n - 1 then START_STREET
    else green
  }

  /** The field values of a junction; incoming and outgoing streets are given
      by their ids, and `signal` is the light of an intersection (`None` for a
      roundabout). */
  datatype Junction = Junction(id: int, incoming: seq<int>, outgoing: seq<int>, green: int, signal: Option<Signal>)

  /** The ids of a list of streets. */
  function Ids(streets: seq<Street>): (r: seq<int>)
    ensures |r| == |streets| && forall k :: 0 <= k < |streets| ==> r[k] == streets[k].streetId
  {
    seq(|streets|, k requires 0 <= k < |streets| => streets[k].streetId)
  }

  /** One `update`: an intersection updates its light, asks whether the green
      phase is over and then moves the green index; a roundabout does nothing. */
  function Step(j: Junction): (r: Junction)
    ensures r.id == j.id && r.incoming == j.incoming && r.outgoing == j.outgoing
    ensures j.signal.None? ==> r == j
    ensures j.signal.Some? ==> r.signal.Some? && r.signal.value.duration == j.signal.value.duration
  {
    match j.signal
    case None => j
    case Some(s) =>
      var (over, next) := Cycle(s);
      j.(green := if over then ChangeGreen(j.green, |j.incoming|) else j.green, signal := Some(next))
  }

  /** `k` calls of `update`. */
  function StepN(j: Junction, k: nat): Junction
    decreases k
  {
    if k == 0 then j else Step(StepN(j, k - 1))
  }

  /** `hasStreetGreen(streetId)`. A roundabout lets every street drive; at an
      intersection the street at the green index has green, if that index is
      within the list. A negative index at an intersection would fail the list
      access, so it is excluded. */
  function Green(j: Junction, streetId: int): (r: bool)
    requires j.signal.None? || j.green >= 0
    ensures j.signal.None? ==> r
    ensures j.signal.Some? ==> (r <==> j.green < |j.incoming| && j.incoming[j.green] == streetId)
  {
    j.signal.None? || (|j.incoming| - 1 >= j.green && j.incoming[j.green] == streetId)
  }

  /** A roundabout stays as it is, however many ticks pass. */
  lemma {:induction false} RoundaboutNeverChanges(j: Junction, k: nat)
    requires j.signal.None?
    ensures StepN(j, k) == j
    decreases k
  {
    if k > 0 {
      RoundaboutNeverChanges(j, k - 1);
    }
  }

  /** An intersection whose light starts a phase: after `k` ticks the light is
      `SignalAfter(d, k)`, id and street lists are unchanged and a green index
      inside the list stays inside it. */
  lemma {:induction false} IntersectionAfter(j: Junction, d: int, k: nat)
    requires j.signal == Some(Signal(d, d))
    ensures var r := StepN(j, k);
      && r.id == j.id && r.incoming == j.incoming && r.outgoing == j.outgoing
      && r.signal == Some(SignalAfter(d, k))
      && (j.green >= 0 ==> r.green >= 0)
      && (0 <= j.green < |j.incoming| ==> 0 <= r.green < |j.incoming|)
    decreases k
  {
    if k > 0 {
      IntersectionAfter(j, d, k - 1);
    }
  }

  /** With green-phase duration d >= 1 the green index moves on exactly at
      the ticks d, 2d, 3d, ... and stays put on every other tick. */
  lemma GreenMovesOnMultiples(j: Junction, d: int, k: nat)
    requires j.signal == Some(Signal(d, d)) && d >= 1
    ensures StepN(j, k + 1).green
         == if (k + 1) % d == 0 then ChangeGreen(StepN(j, k).green, |j.incoming|) else StepN(j, k).green
  {
    IntersectionAfter(j, d, k);
    ExpiresOnMultiples(d, k + 1);
  }

  /** One more tick adds one to the quotient exactly at a multiple of d. */
  lemma QuotientStep(k: nat, d: int)
    requires d >= 1 && k >= 1
    ensures k / d == (k - 1) / d + (if k % d == 0 then 1 else 0)
  {
    DivisionStep(d, k - 1);
    var q, r := (k - 1) / d, (k - 1) % d;
    if r == d - 1 {
      assert k == (q + 1) * d + 0;
      QuotientUnique(k, q + 1, 0, d);
    } else {
      QuotientUnique(k, q, r + 1, d);
    }
  }

  /** The quotient is the unique q with x == q * d + r and 0 <= r < d. */
  lemma QuotientUnique(x: int, q: int, r: int, d: int)
    requires d >= 1 && 0 <= r < d && x == q * d + r
    ensures x / d == q
  {
    ModUnique(x, q, r, d);
    assert (x / d - q) * d == 0;
  }

  /** Adding one after reducing is adding one before reducing. */
  lemma ModAddOne(a: int, n: int)
    requires n >= 1
    ensures (a % n + 1) % n == (a + 1) % n
  {
    var q, r := a / n, a % n;
    if r == n - 1 {
      ModUnique(a + 1, q + 1, 0, n);
      ModUnique(r + 1, 1, 0, n);
    } else {
      ModUnique(a + 1, q, r + 1, n);
      ModUnique(r + 1, 0, r + 1, n);
    }
  }

  /** The green index of an intersection with duration d >= 1 and n incoming
      streets, starting a phase at index g in [0, n): after k ticks it is
      (g + k / d) mod n, one step around the streets per completed phase. */
  lemma {:induction false} GreenIndexAfter(j: Junction, d: int, k: nat)
    requires j.signal == Some(Signal(d, d)) && d >= 1 && 0 <= j.green < |j.incoming|
    ensures StepN(j, k).green == (j.green + k / d) % |j.incoming|
    decreases k
  {
    var n := |j.incoming|;
    if k == 0 {
      ModUnique(j.green, 0, j.green, n);
    } else {
      GreenIndexAfter(j, d, k - 1);
      GreenTick(j, d, k);
      GreenIndexStep(j.green, n, d, k, StepN(j, k - 1).green, StepN(j, k).green);
    }
  }

  /** Tick k moves a green index inside the street list one step around the
      list exactly when k is a multiple of d. */
  lemma GreenTick(j: Junction, d: int, k: nat)
    requires j.signal == Some(Signal(d, d)) && d >= 1 && k >= 1 && 0 <= j.green < |j.incoming|
    ensures 0 <= StepN(j, k - 1).green < |j.incoming|
    ensures StepN(j, k).green
         == if k % d == 0 then (StepN(j, k - 1).green + 1) % |j.incoming| else StepN(j, k - 1).green
  {
    GreenMovesOnMultiples(j, d, k - 1);
    IntersectionAfter(j, d, k - 1);
  }

  /** The arithmetic of one tick: an index that is g + (k - 1) / d around n
      streets and moves on one exactly at a multiple of d is g + k / d. */
  lemma GreenIndexStep(g: int, n: int, d: int, k: nat, before: int, after: int)
    requires d >= 1 && k >= 1 && 0 <= g < n
    requires before == (g + (k - 1) / d) % n
    requires after == if k % d == 0 then (before + 1) % n else before
    ensures after == (g + k / d) % n
  {
    QuotientStep(k, d);
    if k % d == 0 {
      ModAddOne(g + (k - 1) / d, n);
    }
  }

  /** With distinct incoming ids exactly one incoming street of an
      intersection has green: the one at the green index. */
  lemma OnlyTheGreenIndex(j: Junction, p: nat)
    requires j.signal.Some? && 0 <= j.green && p < |j.incoming|
    requires Sequences.Distinct(j.incoming)
    ensures Green(j, j.incoming[p]) <==> p == j.green
  {
  }

  class Node {
    var nodeId: int
    var incomingStreets: seq<Street>
    var outgoingStreets: seq<Street>
    var currentGreenStreet: int
    /** The light of an intersection; `null` for a roundabout. */
    const light: TrafficLight?

    /** The node's field values. */
    function Snapshot(): Junction
      reads this, light
    {
      Junction(nodeId, Ids(incomingStreets), Ids(outgoingStreets), currentGreenStreet,
               if light == null then None else Some(light.Value()))
    }

    /** A roundabout keeps the marker -1; an intersection has a green index
        that is not negative. */
    ghost predicate Valid()
      reads this
    {
      if light == null then currentGreenStreet == ALL_STREETS_GREEN else currentGreenStreet >= 0
    }

    /** A roundabout with the given id and no streets yet. */
    constructor Roundabout(nodeId: int)
      ensures Snapshot() == Junction(nodeId, [], [], ALL_STREETS_GREEN, None)
      ensures Valid()
    {
      this.nodeId := nodeId;
      this.incomingStreets := [];
      this.outgoingStreets := [];
      this.currentGreenStreet := ALL_STREETS_GREEN;
      this.light := null;
    }

    /** An intersection with the given id, no streets yet, green index 0 and a
        fresh light with the given green-phase duration. */
    constructor Intersection(nodeId: int, greenPhaseDuration: int)
      ensures Snapshot() == Junction(nodeId, [], [], START_STREET,
                                     Some(Signal(greenPhaseDuration, greenPhaseDuration)))
      ensures light != null && fresh(light)
      ensures Valid()
    {
      this.nodeId := nodeId;
      this.incomingStreets := [];
      this.outgoingStreets := [];
      this.currentGreenStreet := START_STREET;
      this.light := new TrafficLight(greenPhaseDuration);
    }

    /** The degree check for one of the street lists: it fails with the
        node's id when the list has fewer than 1 or more than 4 entries. */
    function ValidateCorrespondingStreets(streets: seq<Street>): (r: Outcome)
      reads this
      ensures r.Pass? <==> 1 <= |streets| <= MAXIMUM_STREETS
      ensures r.Fail? ==> r.error == InvalidNumberOfStreets(nodeId)
    {
      if |streets| < 1 || |streets| > 4 then Fail(InvalidNumberOfStreets(nodeId)) else Pass
    }

    method SetNodeId(nodeId: int)
      modifies this
      ensures this.nodeId == nodeId && incomingStreets == old(incomingStreets)
      ensures outgoingStreets == old(outgoingStreets) && currentGreenStreet == old(currentGreenStreet)
    {
      this.nodeId := nodeId;
    }

    method SetIncomingStreets(streets: seq<Street>)
      modifies this
      ensures incomingStreets == streets && nodeId == old(nodeId)
      ensures outgoingStreets == old(outgoingStreets) && currentGreenStreet == old(currentGreenStreet)
    {
      incomingStreets := streets;
    }

    method SetOutgoingStreets(streets: seq<Street>)
      modifies this
      ensures outgoingStreets == streets && nodeId == old(nodeId)
      ensures incomingStreets == old(incomingStreets) && currentGreenStreet == old(currentGreenStreet)
    {
      outgoingStreets := streets;
    }

    /** `getIncomingStreets().add(street)`: the getter hands out the live list. */
    method AddIncomingStreet(street: Street)
      modifies this
      ensures incomingStreets == old(incomingStreets) + [street] && nodeId == old(nodeId)
      ensures outgoingStreets == old(outgoingStreets) && currentGreenStreet == old(currentGreenStreet)
    {
      incomingStreets := incomingStreets + [street];
    }

    /** `getOutgoingStreets().add(street)`. */
    method AddOutgoingStreet(street: Street)
      modifies this
      ensures outgoingStreets == old(outgoingStreets) + [street] && nodeId == old(nodeId)
      ensures incomingStreets == old(incomingStreets) && currentGreenStreet == old(currentGreenStreet)
    {
      outgoingStreets := outgoingStreets + [street];
    }

    /** Whether cars on the street with this id may leave through this node. */
    function HasStreetGreen(streetId: int): (r: bool)
      reads this, light
      requires Valid()
      ensures r == Green(Snapshot(), streetId)
    {
      light == null
      || (|incomingStreets| - 1 >= currentGreenStreet && incomingStreets[currentGreenStreet].streetId == streetId)
    }

    /** Moves the green index to the next incoming street. */
    method ChangeCurrentGreenStreet()
      modifies this
      ensures currentGreenStreet == ChangeGreen(old(currentGreenStreet), |incomingStreets|)
      ensures nodeId == old(nodeId) && incomingStreets == old(incomingStreets)
      ensures outgoingStreets == old(outgoingStreets)
    {
      if currentGreenStreet < |incomingStreets| - 1 {
        currentGreenStreet := currentGreenStreet + 1;
      } else if currentGreenStreet == |incomingStreets| - 1 {
        currentGreenStreet := START_STREET;
      }
    }

    /** One tick of the node. */
    method Update()
      requires Valid()
      modifies this, light
      ensures Valid() && Snapshot() == Step(old(Snapshot()))
      ensures nodeId == old(nodeId) && incomingStreets == old(incomingStreets)
      ensures outgoingStreets == old(outgoingStreets)
    {
      if light != null {
        light.Update();
        var over := light.IsGreenPhaseOver();
        if over {
          ChangeCurrentGreenStreet();
        }
      }
    }
  }
}
