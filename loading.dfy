/** Loading a street network from the integer tuples of the three input
    files, stated on the tuples alone: the order in which `init` runs its
    checks, the error each check reports, and what a load that passes every
    check guarantees. */
module Loading {
  import opened Errors
  import opened TrafficLights
  import opened Streets
  import opened Nodes
  import opened Cars

  // Positions within the tuples.
  const ID := 0
  const GREEN_TIME := 1
  const START_NODE := 0
  const END_NODE := 1
  const LENGTH := 2
  const STREET_TYPE := 3
  const SPEED_LIMIT := 4
  const STREET := 1
  const PREFERED_SPEED := 2
  const ACCELERATION := 3
  /** Lane code of a street without an overtaking lane. */
  const SINGLE_LANE := 1
  /** Green time of a crossing that is a roundabout. */
  const ROUNDABOUT := 0

  /** Every tuple has the entries that `init` reads from it. */
  predicate Shaped(cars: seq<seq<int>>, streets: seq<seq<int>>, crossings: seq<seq<int>>) {
    && (forall k :: 0 <= k < |cars| ==> |cars[k]| >= 4)
    && (forall k :: 0 <= k < |streets| ==> |streets[k]| >= 5)
    && (forall k :: 0 <= k < |crossings| ==> |crossings[k]| >= 2)
  }

  /** Entry `c` of every tuple. */
  function Column(ts: seq<seq<int>>, c: nat): (r: seq<int>)
    requires forall k :: 0 <= k < |ts| ==> |ts[k]| > c
    ensures |r| == |ts| && forall k :: 0 <= k < |ts| ==> r[k] == ts[k][c]
  {
    seq(|ts|, k requires 0 <= k < |ts| => ts[k][c])
  }

  /** 0, 1, ..., n - 1: the ids that `initStreets` gives the streets. */
  function Indices(n: nat): (r: seq<int>)
    ensures |r| == n && forall k :: 0 <= k < n ==> r[k] == k
  {
    seq(n, k requires 0 <= k < n => k)
  }

  // ---- positions of a value ----

  /** The positions in `xs` that hold `x`, in ascending order. */
  function Where(xs: seq<int>, x: int): (r: seq<nat>)
    ensures forall j :: 0 <= j < |r| ==> r[j] < |xs| && xs[r[j]] == x
    ensures forall j, l :: 0 <= j < l < |r| ==> r[j] < r[l]
    decreases |xs|
  {
    if xs == [] then []
    else Where(xs[..|xs| - 1], x) + (if xs[|xs| - 1] == x then [|xs| - 1] else [])
  }

  /** How often `x` occurs in `xs`. */
  function Count(xs: seq<int>, x: int): nat {
    |Where(xs, x)|
  }

  /** Every occurrence of `x` is listed. */
  lemma {:induction false} WhereComplete(xs: seq<int>, x: int, i: nat)
    requires i < |xs| && xs[i] == x
    ensures i in Where(xs, x)
    decreases |xs|
  {
    if i < |xs| - 1 {
      WhereComplete(xs[..|xs| - 1], x, i);
    }
  }

  /** One more element adds its position when it is `x`. */
  lemma WhereStep(xs: seq<int>, x: int, i: nat)
    requires i < |xs|
    ensures Where(xs[..i + 1], x) == Where(xs[..i], x) + (if xs[i] == x then [i] else [])
  {
    assert xs[..i + 1][..i] == xs[..i];
  }

  /** The positions found in a prefix begin the positions found in the whole. */
  lemma {:induction false} WherePrefix(xs: seq<int>, x: int, n: nat)
    requires n <= |xs|
    ensures Where(xs[..n], x) <= Where(xs, x)
    decreases |xs| - n
  {
    if n < |xs| {
      WherePrefix(xs, x, n + 1);
      WhereStep(xs, x, n);
    } else {
      assert xs[..n] == xs;
    }
  }

  // ---- the first failing check ----

  /** The first failure of a run of checks, or `Pass` when all pass. */
  function FirstFail(cs: seq<Outcome>): (r: Outcome)
    decreases |cs|
  {
    if cs == [] then Pass
    else
      var o := FirstFail(cs[..|cs| - 1]);
      if o.Fail? then o else cs[|cs| - 1]
  }

  /** The run passes exactly when every check passes; a failing run reports
      the first failing check. */
  lemma {:induction false} FirstFailMeaning(cs: seq<Outcome>)
    ensures FirstFail(cs) == Pass <==> forall k :: 0 <= k < |cs| ==> cs[k] == Pass
    ensures FirstFail(cs).Fail? ==>
      exists k :: 0 <= k < |cs| && cs[k] == FirstFail(cs) && forall j :: 0 <= j < k ==> cs[j] == Pass
    decreases |cs|
  {
    if cs != [] {
      var init := cs[..|cs| - 1];
      FirstFailMeaning(init);
      assert forall k :: 0 <= k < |init| ==> init[k] == cs[k];
      if FirstFail(init).Pass? && cs[|cs| - 1].Fail? {
        assert forall j :: 0 <= j < |cs| - 1 ==> cs[j] == Pass;
      }
    }
  }

  /** Every check before index `i` passed. */
  predicate PassedBefore(cs: seq<Outcome>, i: nat) {
    i <= |cs| && forall j :: 0 <= j < i ==> cs[j] == Pass
  }

  lemma PassedStep(cs: seq<Outcome>, i: nat)
    requires PassedBefore(cs, i) && i < |cs| && cs[i] == Pass
    ensures PassedBefore(cs, i + 1)
  {
  }

  /** A run whose checks pass up to `i` and fail at `i` reports check `i`. */
  lemma FirstFailAt(cs: seq<Outcome>, i: nat)
    requires i < |cs| && cs[i].Fail? && forall j :: 0 <= j < i ==> cs[j] == Pass
    ensures FirstFail(cs) == cs[i]
  {
    FirstFailMeaning(cs);
    var k :| 0 <= k < |cs| && cs[k] == FirstFail(cs) && forall j :: 0 <= j < k ==> cs[j] == Pass;
    assert !(k < i) && !(i < k);
  }

  /** Running the checks one more step. */
  lemma FirstFailStep(cs: seq<Outcome>, i: nat)
    requires i < |cs|
    ensures FirstFail(cs[..i + 1]) == if FirstFail(cs[..i]).Fail? then FirstFail(cs[..i]) else cs[i]
  {
    assert cs[..i + 1][..i] == cs[..i];
  }

  // ---- initCars ----

  /** The car a car tuple becomes: the tuple's id, street, preferred speed
      and acceleration, standing still, not yet placed (position -1) and not
      yet moved. */
  function CarFor(t: seq<int>): (c: CarState)
    requires |t| >= 4
    ensures c.id == t[ID] && c.motion.street == t[STREET] && c.motion.position == -1
  {
    CarState(t[ID], t[ACCELERATION], t[PREFERED_SPEED], Motion(0, t[STREET], -1, 0, false))
  }

  // ---- initNodes ----

  /** The node a crossing tuple becomes: green time 0 gives a roundabout,
      any other value an intersection whose light has that green time. */
  function NodeFor(t: seq<int>): (j: Junction)
    requires |t| >= 2
    ensures j.id == t[ID] && j.incoming == [] && j.outgoing == []
    ensures j.signal.None? <==> t[GREEN_TIME] == ROUNDABOUT
  {
    if t[GREEN_TIME] == ROUNDABOUT then Junction(t[ID], [], [], ALL_STREETS_GREEN, None)
    else Junction(t[ID], [], [], START_STREET, Some(Signal(t[GREEN_TIME], t[GREEN_TIME])))
  }

  // ---- initStreets ----

  /** The check of street tuple `i`: equal endpoints, then an endpoint that
      is not the id of a node. */
  function StreetCheck(i: int, t: seq<int>, ids: seq<int>): (r: Outcome)
    requires |t| >= 2
    ensures r == Pass <==> t[START_NODE] != t[END_NODE] && t[START_NODE] in ids && t[END_NODE] in ids
  {
    if t[START_NODE] == t[END_NODE] then Fail(InvalidStreetNode(i))
    else if t[START_NODE] !in ids || t[END_NODE] !in ids then Fail(StreetWithIllegalNode(i))
    else Pass
  }

  function StreetChecks(streets: seq<seq<int>>, ids: seq<int>): (r: seq<Outcome>)
    requires forall k :: 0 <= k < |streets| ==> |streets[k]| >= 2
    ensures |r| == |streets| && forall k :: 0 <= k < |streets| ==> r[k] == StreetCheck(k, streets[k], ids)
  {
    seq(|streets|, k requires 0 <= k < |streets| => StreetCheck(k, streets[k], ids))
  }

  /** The street a street tuple becomes; its id is its index. */
  function LayoutFor(i: int, t: seq<int>): Layout
    requires |t| >= 5
  {
    Layout(i, t[START_NODE], t[END_NODE], t[LENGTH], t[SPEED_LIMIT])
  }

  // ---- validateNodes ----

  /** The degree check of the node with id `x`: between 1 and 4 incoming and
      between 1 and 4 outgoing streets. */
  function DegreeCheck(x: int, starts: seq<int>, ends: seq<int>): (r: Outcome)
    ensures r == Pass <==> 1 <= Count(ends, x) <= MAXIMUM_STREETS && 1 <= Count(starts, x) <= MAXIMUM_STREETS
    ensures r.Fail? ==> r.error == InvalidNumberOfStreets(x)
  {
    if 1 <= Count(ends, x) <= MAXIMUM_STREETS && 1 <= Count(starts, x) <= MAXIMUM_STREETS then Pass
    else Fail(InvalidNumberOfStreets(x))
  }

  function DegreeChecks(ids: seq<int>, starts: seq<int>, ends: seq<int>): (r: seq<Outcome>)
    ensures |r| == |ids| && forall k :: 0 <= k < |ids| ==> r[k] == DegreeCheck(ids[k], starts, ends)
  {
    seq(|ids|, k requires 0 <= k < |ids| => DegreeCheck(ids[k], starts, ends))
  }

  // ---- addCarsToStreet ----

  /** How many cars fit on a street of this length when they are placed
      `SAVE_DISTANCE` apart from the street end at position `length`. */
  function Capacity(length: int): nat {
    if length < 0 then 0 else length / SAVE_DISTANCE + 1
  }

  /** The `j`-th car of a street may be placed exactly when it is below
      the capacity. */
  lemma CapacityMeaning(length: int, j: nat)
    ensures length - SAVE_DISTANCE * j >= 0 <==> j < Capacity(length)
  {
    if length >= 0 {
      var q := length / SAVE_DISTANCE;
      assert length == SAVE_DISTANCE * q + length % SAVE_DISTANCE;
      if j <= q {
        assert SAVE_DISTANCE * j <= SAVE_DISTANCE * q;
      } else {
        assert SAVE_DISTANCE * j >= SAVE_DISTANCE * (q + 1);
      }
    }
  }

  /** The placement check of one street: it fails with the street id and
      the index before that of the first car that does not fit. */
  function StreetPlacement(id: int, length: int, carStreets: seq<int>): (r: Outcome)
    ensures r == Pass <==> Count(carStreets, id) <= Capacity(length)
  {
    var m := Where(carStreets, id);
    if |m| <= Capacity(length) then Pass
    else Fail(InvalidNumberOfCarsOnStreet(id, m[Capacity(length)] as int - 1))
  }

  function PlacementChecks(ids: seq<int>, lengths: seq<int>, carStreets: seq<int>): (r: seq<Outcome>)
    requires |ids| == |lengths|
    ensures |r| == |ids| && forall k :: 0 <= k < |ids| ==> r[k] == StreetPlacement(ids[k], lengths[k], carStreets)
  {
    seq(|ids|, k requires 0 <= k < |ids| => StreetPlacement(ids[k], lengths[k], carStreets))
  }

  /** Where `addCarsToStreet` puts car `k` of a network loaded from empty
      lists: at the length of its street minus 10 m for every earlier car
      on that street. A car whose street id is the id of no street is never
      placed and keeps the position -1 it was built with. */
  function PlacedPosition(cars: seq<seq<int>>, streets: seq<seq<int>>, k: nat): int
    requires Shaped(cars, streets, crossings := []) && k < |cars|
  {
    var s := cars[k][STREET];
    if 0 <= s < |streets| then streets[s][LENGTH] - SAVE_DISTANCE * Count(Column(cars, STREET)[..k], s)
    else -1
  }

  /** In a network that loads, every car on a street is placed on it, and
      two cars on the same street are at least 10 m apart, the earlier one
      in the car list nearer the street end. */
  lemma PlacedOnStreet(cars: seq<seq<int>>, streets: seq<seq<int>>, crossings: seq<seq<int>>, k: nat, l: nat)
    requires Shaped(cars, streets, crossings) && LoadOutcome(cars, streets, crossings) == Pass
    requires k < l < |cars| && 0 <= cars[k][STREET] < |streets|
    ensures 0 <= PlacedPosition(cars, streets, k) <= streets[cars[k][STREET]][LENGTH]
    ensures cars[l][STREET] == cars[k][STREET] ==>
      PlacedPosition(cars, streets, l) <= PlacedPosition(cars, streets, k) - SAVE_DISTANCE
  {
    var cs := Column(cars, STREET);
    var s := cars[k][STREET];
    var before := Where(cs[..k], s);
    WhereStep(cs, s, k);
    WherePrefix(cs, s, k + 1);
    assert |before| < Count(cs, s);
    LoadedStreetCapacity(cars, streets, crossings, s, |before|);
    if cars[l][STREET] == s {
      WherePrefix(cs[..l], s, k + 1);
      assert cs[..l][..k + 1] == cs[..k + 1];
      assert Count(cs[..l], s) >= |before| + 1;
    }
  }

  // ---- checkDuplicateCarIds and checkDuplicateNodeIds ----

  /** The first value that `HashSet.add` finds already present. */
  function FirstRepeat(xs: seq<int>): Option<int>
    decreases |xs|
  {
    if xs == [] then None
    else match FirstRepeat(xs[..|xs| - 1])
      case Some(x) => Some(x)
      case None => if xs[|xs| - 1] in xs[..|xs| - 1] then Some(xs[|xs| - 1]) else None
  }

  predicate NoRepeats(xs: seq<int>) {
    forall a, b :: 0 <= a < b < |xs| ==> xs[a] != xs[b]
  }

  /** No value is found twice exactly when the values are pairwise
      different; a value that is found occurs twice. */
  lemma {:induction false} FirstRepeatMeaning(xs: seq<int>)
    ensures FirstRepeat(xs).None? <==> NoRepeats(xs)
    ensures FirstRepeat(xs).Some? ==>
      exists a, b :: 0 <= a < b < |xs| && xs[a] == xs[b] == FirstRepeat(xs).value
    decreases |xs|
  {
    if xs != [] {
      var init := xs[..|xs| - 1];
      FirstRepeatMeaning(init);
      assert forall k :: 0 <= k < |init| ==> init[k] == xs[k];
      if FirstRepeat(init).None? && xs[|xs| - 1] in init {
        var a :| 0 <= a < |init| && init[a] == xs[|xs| - 1];
        assert xs[a] == xs[|xs| - 1];
      }
    }
  }

  /** One more value for the set of seen values. */
  lemma FirstRepeatStep(xs: seq<int>, i: nat)
    requires i < |xs| && FirstRepeat(xs[..i]).None?
    ensures FirstRepeat(xs[..i + 1]) == if xs[i] in xs[..i] then Some(xs[i]) else None
  {
    assert xs[..i + 1][..i] == xs[..i];
  }

  /** A value found in a prefix is the value found in the whole. */
  lemma {:induction false} FirstRepeatPrefix(xs: seq<int>, n: nat)
    requires n <= |xs| && FirstRepeat(xs[..n]).Some?
    ensures FirstRepeat(xs) == FirstRepeat(xs[..n])
    decreases |xs| - n
  {
    if n < |xs| {
      assert xs[..n + 1][..n] == xs[..n];
      FirstRepeatPrefix(xs, n + 1);
    } else {
      assert xs[..n] == xs;
    }
  }

  // ---- init ----

  /** The outcome of `init` on a network that is still empty: the street
      checks of `initStreets`, the degree checks of `validateNodes`, the
      placement checks of `addCarsToStreet`, then the duplicate car ids and
      the duplicate crossing ids. (`validateNodesExistsForStreets` never
      fails once `initStreets` has passed.) */
  function LoadOutcome(cars: seq<seq<int>>, streets: seq<seq<int>>, crossings: seq<seq<int>>): Outcome
    requires Shaped(cars, streets, crossings)
  {
    var t := TopologyOutcome(streets, crossings);
    if t.Fail? then t else TrafficOutcome(cars, streets, Column(crossings, ID))
  }

  /** The part of the outcome that the cars decide, with `ids` the node
      ids: the placement checks, then the duplicate car ids, then the
      duplicate node ids. */
  function TrafficOutcome(cars: seq<seq<int>>, streets: seq<seq<int>>, ids: seq<int>): Outcome
    requires Shaped(cars, streets, [])
  {
    var p := FirstFail(PlacementChecks(Indices(|streets|), Column(streets, LENGTH), Column(cars, STREET)));
    if p.Fail? then p
    else match FirstRepeat(Column(cars, ID))
      case Some(x) => Fail(DuplicatedCarId(x))
      case None =>
        match FirstRepeat(ids)
        case Some(x) => Fail(DuplicatedCrossingId(x))
        case None => Pass
  }

  /** The part of the outcome that the nodes and streets decide: the street
      checks, then the degree checks. */
  function TopologyOutcome(streets: seq<seq<int>>, crossings: seq<seq<int>>): Outcome
    requires Shaped([], streets, crossings)
  {
    var ids := Column(crossings, ID);
    var s := FirstFail(StreetChecks(streets, ids));
    if s.Fail? then s
    else FirstFail(DegreeChecks(ids, Column(streets, START_NODE), Column(streets, END_NODE)))
  }

  /** Every street has two different endpoints, both of them node ids. */
  predicate EndpointsOk(starts: seq<int>, ends: seq<int>, ids: seq<int>)
    requires |starts| == |ends|
  {
    forall i :: 0 <= i < |starts| ==> starts[i] != ends[i] && starts[i] in ids && ends[i] in ids
  }

  /** Every node is the end of 1..4 streets and the start of 1..4 streets. */
  predicate DegreesOk(ids: seq<int>, starts: seq<int>, ends: seq<int>) {
    forall k :: 0 <= k < |ids| ==>
      1 <= Count(ends, ids[k]) <= MAXIMUM_STREETS && 1 <= Count(starts, ids[k]) <= MAXIMUM_STREETS
  }

  /** Every street has room for the cars that name it. */
  predicate RoomOk(carStreets: seq<int>, lengths: seq<int>) {
    forall i :: 0 <= i < |lengths| ==> Count(carStreets, i) <= Capacity(lengths[i])
  }

  /** What a network that loads guarantees. */
  predicate WellFormed(cars: seq<seq<int>>, streets: seq<seq<int>>, crossings: seq<seq<int>>)
    requires Shaped(cars, streets, crossings)
  {
    var ids := Column(crossings, ID);
    var starts := Column(streets, START_NODE);
    var ends := Column(streets, END_NODE);
    && EndpointsOk(starts, ends, ids)
    && DegreesOk(ids, starts, ends)
    && RoomOk(Column(cars, STREET), Column(streets, LENGTH))
    && NoRepeats(Column(cars, ID))
    && NoRepeats(ids)
  }

  /** The street checks pass exactly when every street has two different
      endpoints that are node ids. */
  lemma StreetsPass(streets: seq<seq<int>>, ids: seq<int>)
    requires forall k :: 0 <= k < |streets| ==> |streets[k]| >= 5
    ensures FirstFail(StreetChecks(streets, ids)) == Pass <==>
      EndpointsOk(Column(streets, START_NODE), Column(streets, END_NODE), ids)
  {
    var sc := StreetChecks(streets, ids);
    var starts, ends := Column(streets, START_NODE), Column(streets, END_NODE);
    FirstFailMeaning(sc);
    forall i | 0 <= i < |streets|
      ensures sc[i] == Pass <==> starts[i] != ends[i] && starts[i] in ids && ends[i] in ids
    {
      assert sc[i] == StreetCheck(i, streets[i], ids);
    }
  }

  /** The degree checks pass exactly when every node has 1..4 streets in and out. */
  lemma DegreesPass(ids: seq<int>, starts: seq<int>, ends: seq<int>)
    ensures FirstFail(DegreeChecks(ids, starts, ends)) == Pass <==> DegreesOk(ids, starts, ends)
  {
    FirstFailMeaning(DegreeChecks(ids, starts, ends));
  }

  /** The placement checks pass exactly when every street has room for its cars. */
  lemma PlacementsPass(carStreets: seq<int>, lengths: seq<int>)
    ensures FirstFail(PlacementChecks(Indices(|lengths|), lengths, carStreets)) == Pass <==> RoomOk(carStreets, lengths)
  {
    FirstFailMeaning(PlacementChecks(Indices(|lengths|), lengths, carStreets));
  }

  /** A load passes exactly when the tuples are well formed. */
  lemma LoadPasses(cars: seq<seq<int>>, streets: seq<seq<int>>, crossings: seq<seq<int>>)
    requires Shaped(cars, streets, crossings)
    ensures LoadOutcome(cars, streets, crossings) == Pass <==> WellFormed(cars, streets, crossings)
  {
    var ids := Column(crossings, ID);
    StreetsPass(streets, ids);
    DegreesPass(ids, Column(streets, START_NODE), Column(streets, END_NODE));
    PlacementsPass(Column(cars, STREET), Column(streets, LENGTH));
    FirstRepeatMeaning(Column(cars, ID));
    FirstRepeatMeaning(ids);
  }

  /** In a network that loads, the cars of a street of length L number at
      most L / 10 + 1, and none is placed behind the street start. */
  lemma LoadedStreetCapacity(cars: seq<seq<int>>, streets: seq<seq<int>>, crossings: seq<seq<int>>, i: nat, j: nat)
    requires Shaped(cars, streets, crossings) && LoadOutcome(cars, streets, crossings) == Pass
    requires i < |streets| && j < Count(Column(cars, STREET), i)
    ensures streets[i][LENGTH] >= 0 && Count(Column(cars, STREET), i) <= streets[i][LENGTH] / SAVE_DISTANCE + 1
    ensures streets[i][LENGTH] - SAVE_DISTANCE * j >= 0
  {
    LoadPasses(cars, streets, crossings);
    CapacityMeaning(streets[i][LENGTH], j);
  }
}
