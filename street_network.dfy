/** The street network: the nodes, streets and cars built from the three
    tuple lists, the checks that a load runs, the tick that updates streets,
    cars and nodes in a fixed order, and the position query for a car. */
module Network {
  import opened Errors
  import opened Sequences
  import opened Cars
  import opened Streets
  import opened Nodes
  import opened TrafficLights
  import opened Loading
  import opened TextParsing

  /** The elements at the given indices, in that order. */
  function Select<T>(xs: seq<T>, idx: seq<nat>): (r: seq<T>)
    requires forall j :: 0 <= j < |idx| ==> idx[j] < |xs|
    ensures |r| == |idx| && forall j :: 0 <= j < |idx| ==> r[j] == xs[idx[j]]
  {
    seq(|idx|, j requires 0 <= j < |idx| => xs[idx[j]])
  }

  /** The ids of a list of nodes. */
  function NodeIdsOf(ns: seq<Node>): (r: seq<int>)
    reads ns
    ensures |r| == |ns| && forall k :: 0 <= k < |ns| ==> r[k] == ns[k].nodeId
  {
    seq(|ns|, k requires 0 <= k < |ns| reads ns => ns[k].nodeId)
  }

  /** The start (`end == false`) or end node ids of a list of streets. */
  function EndpointsOf(ss: seq<Street>, end: bool): (r: seq<int>)
    reads ss
    ensures |r| == |ss| && forall k :: 0 <= k < |ss| ==> r[k] == if end then ss[k].endNode else ss[k].startNode
  {
    seq(|ss|, k requires 0 <= k < |ss| reads ss => if end then ss[k].endNode else ss[k].startNode)
  }

  // ---- what holds of the lists ----

  /** Different nodes, each with a green marker that fits its kind, and
      different intersections with different lights. */
  ghost predicate NodesOk(nodes: seq<Node>)
    reads nodes
  {
    Distinct(nodes) && GreensFit(nodes, Greens(nodes)) && LightsApart(nodes)
  }

  /** The green markers `gs` fit the nodes: -1 for a roundabout, an index
      that is not negative for an intersection (the nodes' `Valid`). */
  predicate GreensFit(ns: seq<Node>, gs: seq<int>) {
    |gs| == |ns| && forall k :: 0 <= k < |ns| ==> if ns[k].light == null then gs[k] == ALL_STREETS_GREEN else gs[k] >= 0
  }

  predicate LightsApart(ns: seq<Node>) {
    forall a, b :: 0 <= a < |ns| && 0 <= b < |ns| && a != b && ns[a].light != null ==> ns[a].light != ns[b].light
  }

  /** The kind of node crossing tuple `t` gives: a light exactly when the
      green time is not 0, and then with that green time. */
  predicate Lit(n: Node, t: seq<int>) {
    |t| >= 2 && (n.light == null <==> t[GREEN_TIME] == ROUNDABOUT)
    && (n.light != null ==> n.light.greenPhaseDuration == t[GREEN_TIME])
  }

  /** The first green marker of the node of crossing tuple `t`. */
  function GreenFor(t: seq<int>): int
    requires |t| >= 2
  {
    if t[GREEN_TIME] == ROUNDABOUT then ALL_STREETS_GREEN else START_STREET
  }

  /** The node `initNodes` builds from crossing tuple `t`: the tuple's id,
      no streets yet, the green marker of a roundabout or the first street
      of an intersection, and a light with the tuple's green time exactly
      when that time is not 0. */
  ghost predicate Made(n: Node, t: seq<int>)
    reads n
  {
    && Lit(n, t) && n.nodeId == t[ID] && n.currentGreenStreet == GreenFor(t)
    && n.incomingStreets == [] && n.outgoingStreets == []
  }

  /** The nodes `initNodes` builds from the crossing tuples `ts`, in order. */
  ghost predicate AllMade(ns: seq<Node>, ts: seq<seq<int>>)
    reads ns
  {
    |ns| == |ts| && forall k :: 0 <= k < |ns| ==> Made(ns[k], ts[k])
  }

  lemma AllMadeStep(ns: seq<Node>, ts: seq<seq<int>>, n: Node, i: nat)
    requires i < |ts| && AllMade(ns, ts[..i]) && Made(n, ts[i])
    ensures AllMade(ns + [n], ts[..i + 1])
  {
    assert forall k :: 0 <= k < |ns| ==> (ns + [n])[k] == ns[k];
  }

  /** One more tuple adds its entry to a column. */
  lemma ColumnStep(ts: seq<seq<int>>, c: nat, i: nat)
    requires i < |ts| && forall k :: 0 <= k < |ts| ==> |ts[k]| > c
    ensures Column(ts[..i + 1], c) == Column(ts[..i], c) + [ts[i][c]]
  {
  }

  /** A street as `initStreets` builds it from tuple `t` with index `i`: the
      tuple's fields, an empty queue, and an overtaking lane unless the lane
      code is 1. */
  ghost predicate Built(s: Street, i: int, t: seq<int>)
    reads s
  {
    |t| >= 5 && s.Record() == LayoutFor(i, t) && s.cars == [] && s.fastTrack == (t[STREET_TYPE] != SINGLE_LANE)
  }

  /** The streets `initStreets` builds from the tuples `ts`, in order. */
  ghost predicate AllBuilt(ss: seq<Street>, ts: seq<seq<int>>)
    reads ss
  {
    |ss| == |ts| && forall k :: 0 <= k < |ss| ==> Built(ss[k], k, ts[k])
  }

  lemma AllBuiltStep(ss: seq<Street>, ts: seq<seq<int>>, s: Street, i: nat)
    requires i < |ts| && AllBuilt(ss, ts[..i]) && Built(s, |ss|, ts[i])
    ensures AllBuilt(ss + [s], ts[..i + 1])
  {
    assert forall k :: 0 <= k < |ss| ==> (ss + [s])[k] == ss[k];
  }

  /** One pass of `initStreets`: appending the freshly built street `s` to
      `ss` extends what the loop has built and keeps the list free of
      repetitions. */
  lemma StreetsBuiltStep(ss0: seq<Street>, ss: seq<Street>, s: Street, ts: seq<seq<int>>, i: nat)
    requires i < |ts| && |ss| == |ss0| + i && ss[..|ss0|] == ss0
    requires AllBuilt(ss[|ss0|..], ts[..i]) && Built(s, i, ts[i]) && s !in ss
    requires Distinct(ss0) ==> Distinct(ss)
    ensures (ss + [s])[..|ss0|] == ss0 && AllBuilt((ss + [s])[|ss0|..], ts[..i + 1])
    ensures Distinct(ss0) ==> Distinct(ss + [s])
  {
    assert (ss + [s])[|ss0|..] == ss[|ss0|..] + [s];
    AllBuiltStep(ss[|ss0|..], ts, s, i);
    if Distinct(ss0) {
      DistinctAppend(ss, s);
    }
  }

  /** One more tuple adds its car. */
  lemma CarsForStep(ts: seq<seq<int>>, i: nat)
    requires i < |ts| && forall k :: 0 <= k < |ts| ==> |ts[k]| >= 4
    ensures CarsFor(ts[..i + 1]) == CarsFor(ts[..i]) + [CarFor(ts[i])]
  {
  }

  // ---- the street lists of the nodes ----

  ghost function Outgoing(ns: seq<Node>): (r: seq<seq<Street>>)
    reads ns
    ensures |r| == |ns| && forall k :: 0 <= k < |ns| ==> r[k] == ns[k].outgoingStreets
  {
    seq(|ns|, k requires 0 <= k < |ns| reads ns => ns[k].outgoingStreets)
  }

  ghost function Incoming(ns: seq<Node>): (r: seq<seq<Street>>)
    reads ns
    ensures |r| == |ns| && forall k :: 0 <= k < |ns| ==> r[k] == ns[k].incomingStreets
  {
    seq(|ns|, k requires 0 <= k < |ns| reads ns => ns[k].incomingStreets)
  }

  ghost function Greens(ns: seq<Node>): (r: seq<int>)
    reads ns
    ensures |r| == |ns| && forall k :: 0 <= k < |ns| ==> r[k] == ns[k].currentGreenStreet
  {
    seq(|ns|, k requires 0 <= k < |ns| reads ns => ns[k].currentGreenStreet)
  }

  /** The lists with ids `ids` after every element of `ss` whose key is the
      list's id has been appended, in order: the street lists of the nodes
      after `addStreetsToNode` (the key of a street is its start or its end
      id), the queues of the streets after `addCarsToStreet` (the key of a
      car is its street id). */
  function Wire<T>(lists: seq<seq<T>>, ids: seq<int>, ss: seq<T>, keys: seq<int>): (r: seq<seq<T>>)
    requires |lists| == |ids| && |keys| <= |ss|
    ensures |r| == |lists| && forall k :: 0 <= k < |lists| ==> r[k] == lists[k] + Select(ss, Where(keys, ids[k]))
  {
    seq(|lists|, k requires 0 <= k < |lists| => lists[k] + Select(ss, Where(keys, ids[k])))
  }

  /** The lists after `s` with key `key` has been appended. */
  function Extend<T>(lists: seq<seq<T>>, ids: seq<int>, s: T, key: int): (r: seq<seq<T>>)
    requires |lists| == |ids|
    ensures |r| == |lists| && forall k :: 0 <= k < |lists| ==> r[k] == lists[k] + (if ids[k] == key then [s] else [])
  {
    seq(|lists|, k requires 0 <= k < |lists| => lists[k] + (if ids[k] == key then [s] else []))
  }

  /** Wiring no street changes no list. */
  lemma WireNone<T>(lists: seq<seq<T>>, ids: seq<int>, ss: seq<T>, keys: seq<int>)
    requires |lists| == |ids| && |keys| <= |ss|
    ensures Wire(lists, ids, ss, keys[..0]) == lists
  {
    var r := Wire(lists, ids, ss, keys[..0]);
    forall k | 0 <= k < |lists|
      ensures r[k] == lists[k]
    {
      assert Where(keys[..0], ids[k]) == [];
      assert Select(ss, []) == [];
      assert lists[k] + [] == lists[k];
    }
  }

  /** Wiring one more street is extending by it. */
  lemma WireStep<T>(lists: seq<seq<T>>, ids: seq<int>, ss: seq<T>, keys: seq<int>, i: nat)
    requires |lists| == |ids| && i < |keys| == |ss|
    ensures Extend(Wire(lists, ids, ss, keys[..i]), ids, ss[i], keys[i]) == Wire(lists, ids, ss, keys[..i + 1])
  {
    var before := Wire(lists, ids, ss, keys[..i]);
    var after := Wire(lists, ids, ss, keys[..i + 1]);
    var r := Extend(before, ids, ss[i], keys[i]);
    forall k | 0 <= k < |lists|
      ensures r[k] == after[k]
    {
      WhereStep(keys, ids[k], i);
      var w := Where(keys[..i], ids[k]);
      var extra: seq<nat> := if ids[k] == keys[i] then [i] else [];
      assert Select(ss, w + extra) == Select(ss, w) + Select(ss, extra);
    }
  }

  // ---- the checks after wiring ----

  /** `validateCorrespondingStreets` on the incoming, then on the outgoing
      list of a node. */
  function NodeDegree(n: Node): (r: Outcome)
    reads n
    ensures r == Pass <==> 1 <= |n.incomingStreets| <= MAXIMUM_STREETS && 1 <= |n.outgoingStreets| <= MAXIMUM_STREETS
    ensures r.Fail? ==> r.error == InvalidNumberOfStreets(n.nodeId)
  {
    var o := n.ValidateCorrespondingStreets(n.incomingStreets);
    if o.Fail? then o else n.ValidateCorrespondingStreets(n.outgoingStreets)
  }

  function NodeDegrees(ns: seq<Node>): (r: seq<Outcome>)
    reads ns
    ensures |r| == |ns| && forall k :: 0 <= k < |ns| ==> r[k] == NodeDegree(ns[k])
  {
    seq(|ns|, k requires 0 <= k < |ns| reads ns => NodeDegree(ns[k]))
  }

  /** The check of one street in `validateNodesExistsForStreets`. */
  function StreetExists(s: Street, ids: seq<int>): (r: Outcome)
    reads s
    ensures r == Pass <==> s.startNode in ids && s.endNode in ids
    ensures r.Fail? ==> r.error == StreetWithIllegalNode(s.streetId)
  {
    if s.startNode in ids && s.endNode in ids then Pass else Fail(StreetWithIllegalNode(s.streetId))
  }

  function ExistenceChecks(ss: seq<Street>, ids: seq<int>): (r: seq<Outcome>)
    reads ss
    ensures |r| == |ss| && forall k :: 0 <= k < |ss| ==> r[k] == StreetExists(ss[k], ids)
  {
    seq(|ss|, k requires 0 <= k < |ss| reads ss => StreetExists(ss[k], ids))
  }

  /** Streets that `initStreets` built without failing name only existing
      nodes, so `validateNodesExistsForStreets` never fails after it. */
  lemma ExistenceAfterInitStreets(ss: seq<Street>, ts: seq<seq<int>>, ids: seq<int>)
    requires forall k :: 0 <= k < |ts| ==> |ts[k]| >= 5
    requires Layouts(ss) == LayoutsFor(ts) && FirstFail(StreetChecks(ts, ids)) == Pass
    ensures FirstFail(ExistenceChecks(ss, ids)) == Pass
  {
    FirstFailMeaning(StreetChecks(ts, ids));
    FirstFailMeaning(ExistenceChecks(ss, ids));
  }

  // ---- the queues and car positions of addCarsToStreet ----

  /** The ids of a list of streets. */
  function StreetIdsOf(ss: seq<Street>): (r: seq<int>)
    ensures |r| == |ss| && forall k :: 0 <= k < |ss| ==> r[k] == ss[k].streetId
  {
    seq(|ss|, k requires 0 <= k < |ss| => ss[k].streetId)
  }

  /** The ids of a list of cars. */
  function CarIdsOf(cs: seq<Car>): (r: seq<int>)
    ensures |r| == |cs| && forall k :: 0 <= k < |cs| ==> r[k] == cs[k].carId
  {
    seq(|cs|, k requires 0 <= k < |cs| => cs[k].carId)
  }

  /** The lengths of a list of streets. */
  function LengthsOf(ss: seq<Street>): (r: seq<int>)
    reads ss
    ensures |r| == |ss| && forall k :: 0 <= k < |ss| ==> r[k] == ss[k].length
  {
    seq(|ss|, k requires 0 <= k < |ss| reads ss => ss[k].length)
  }

  /** The record fields of a list of streets. */
  function Layouts(ss: seq<Street>): (r: seq<Layout>)
    reads ss
    ensures |r| == |ss| && forall k :: 0 <= k < |ss| ==> r[k] == ss[k].Record()
  {
    seq(|ss|, k requires 0 <= k < |ss| reads ss => ss[k].Record())
  }

  /** The car queues of a list of streets. */
  ghost function Queues(ss: seq<Street>): (r: seq<seq<Car>>)
    reads ss
    ensures |r| == |ss| && forall k :: 0 <= k < |ss| ==> r[k] == ss[k].cars
  {
    seq(|ss|, k requires 0 <= k < |ss| reads ss => ss[k].cars)
  }

  /** When only the queue of street `i` changed since the layouts were
      `l0`, the lengths `n0` and the queues `q0`, the layouts and lengths are
      kept and the queues differ at index `i` alone. */
  lemma QueueReplaced(ss: seq<Street>, i: nat, l0: seq<Layout>, n0: seq<int>, q0: seq<seq<Car>>)
    requires i < |ss| == |l0| == |n0| == |q0|
    requires forall k :: 0 <= k < |ss| ==> ss[k].Record() == l0[k] && ss[k].length == n0[k]
    requires forall k :: 0 <= k < |ss| && k != i ==> ss[k].cars == q0[k]
    ensures Layouts(ss) == l0 && LengthsOf(ss) == n0 && Queues(ss) == q0[i := ss[i].cars]
  {
    assert forall k :: 0 <= k < |ss| ==> Queues(ss)[k] == q0[i := ss[i].cars][k];
  }

  /** The street id that each car state names. */
  function StreetsOf(states: seq<CarState>): (r: seq<int>)
    ensures |r| == |states| && forall k :: 0 <= k < |states| ==> r[k] == states[k].motion.street
  {
    seq(|states|, k requires 0 <= k < |states| => states[k].motion.street)
  }

  /** A car state with its position set to `p`. */
  function At(s: CarState, p: int): CarState {
    s.(motion := s.motion.(position := p))
  }

  /** The list positions of the cars that `addCarsToStreet` queues on the
      street with id `id` and length `length`: the cars naming it, in list
      order, as many as the street has room for. */
  function Admitted(cs: seq<int>, id: int, length: int): (r: seq<nat>)
    ensures r <= Where(cs, id) && |r| <= Capacity(length)
    ensures Count(cs, id) <= Capacity(length) ==> r == Where(cs, id)
  {
    var w := Where(cs, id);
    if |w| <= Capacity(length) then w else w[..Capacity(length)]
  }

  /** The state of car `k` once the inner loop of `addCarsToStreet` for the
      street with id `id` and length `length` has passed it: the j-th car
      naming the street (from 0) stands 10 j metres before the street end,
      if that is not before the street start; any other car is untouched. */
  function PlaceOne(states: seq<CarState>, k: nat, id: int, length: int): CarState
    requires k < |states|
  {
    var j := Count(StreetsOf(states)[..k], id);
    if states[k].motion.street == id && j < Capacity(length) then At(states[k], length - SAVE_DISTANCE * j)
    else states[k]
  }

  /** The car states once the inner loop has passed the first `n` cars.
      Placing changes no car's street. */
  function PlaceUpTo(states: seq<CarState>, id: int, length: int, n: nat): (r: seq<CarState>)
    requires n <= |states|
    ensures |r| == |states| && StreetsOf(r) == StreetsOf(states)
  {
    var r := seq(|states|, k requires 0 <= k < |states| => if k < n then PlaceOne(states, k, id, length) else states[k]);
    assert forall k :: 0 <= k < |states| ==> StreetsOf(r)[k] == StreetsOf(states)[k];
    r
  }

  /** The car states after the whole inner loop for one street. */
  function Place(states: seq<CarState>, id: int, length: int): (r: seq<CarState>) {
    PlaceUpTo(states, id, length, |states|)
  }

  /** The car states after the inner loops for the streets with ids `ids`
      and lengths `lengths`, in that order. */
  function PlaceAll(states: seq<CarState>, ids: seq<int>, lengths: seq<int>): (r: seq<CarState>)
    requires |ids| == |lengths|
    ensures |r| == |states| && StreetsOf(r) == StreetsOf(states)
    decreases |ids|
  {
    if ids == [] then states
    else
      var n := |ids| - 1;
      Place(PlaceAll(states, ids[..n], lengths[..n]), ids[n], lengths[n])
  }

  /** One more car passed. */
  lemma PlaceStep(states: seq<CarState>, id: int, length: int, i: nat)
    requires i < |states|
    ensures PlaceUpTo(states, id, length, i + 1) == PlaceUpTo(states, id, length, i)[i := PlaceOne(states, i, id, length)]
  {
  }

  /** Selecting one more index appends its element. */
  lemma SelectStep<T>(xs: seq<T>, idx: seq<nat>, i: nat)
    requires i < |xs| && forall j :: 0 <= j < |idx| ==> idx[j] < |xs|
    ensures Select(xs, idx + [i]) == Select(xs, idx) + [xs[i]]
  {
  }

  /** Once the street is full, the remaining cars are not placed. */
  lemma PlaceRest(states: seq<CarState>, id: int, length: int, i: nat)
    requires i <= |states| && Count(StreetsOf(states)[..i], id) >= Capacity(length)
    ensures PlaceUpTo(states, id, length, i) == Place(states, id, length)
  {
    var cs := StreetsOf(states);
    forall k | i <= k < |states|
      ensures PlaceOne(states, k, id, length) == states[k]
    {
      WherePrefix(cs[..k], id, i);
      assert cs[..k][..i] == cs[..i];
    }
  }

  /** The car at `i` names the street and finds it full: the placement
      fails there, the cars before it are the ones queued, and no later car
      is placed. */
  lemma StreetFull(states: seq<CarState>, id: int, length: int, i: nat)
    requires i < |states| && states[i].motion.street == id
    requires Count(StreetsOf(states)[..i], id) == Capacity(length)
    ensures StreetPlacement(id, length, StreetsOf(states)) == Fail(InvalidNumberOfCarsOnStreet(id, i - 1))
    ensures Admitted(StreetsOf(states), id, length) == Where(StreetsOf(states)[..i], id)
    ensures PlaceUpTo(states, id, length, i) == Place(states, id, length)
  {
    var cs := StreetsOf(states);
    var w := Where(cs, id);
    WhereStep(cs, id, i);
    WherePrefix(cs, id, i + 1);
    PlaceRest(states, id, length, i);
    assert w[..Capacity(length)] == Where(cs[..i], id) && w[Capacity(length)] == i;
  }

  /** The loop invariant of the inner loop of `addCarsToStreet` after `i`
      cars: the street has room for the cars so far that name it, they are
      queued after the queue `q0` it had, `pos` is where the next one goes
      and the car states are those of the first `i` cars placed. */
  ghost predicate Placing(s0: seq<CarState>, q0: seq<Car>, id: int, length: int, i: nat, pos: int,
                          queue: seq<Car>, states: seq<CarState>, cars: seq<Car>)
  {
    var cs := StreetsOf(s0);
    && i <= |s0| == |cars|
    && Count(cs[..i], id) <= Capacity(length)
    && pos == length - SAVE_DISTANCE * Count(cs[..i], id)
    && queue == q0 + Select(cars, Where(cs[..i], id))
    && states == PlaceUpTo(s0, id, length, i)
  }

  lemma PlacingStart(s0: seq<CarState>, q0: seq<Car>, id: int, length: int, cars: seq<Car>)
    requires |s0| == |cars|
    ensures Placing(s0, q0, id, length, 0, length, q0, s0, cars)
  {
    assert StreetsOf(s0)[..0] == [];
    assert Select(cars, []) == [];
  }

  /** The next car either names another street or finds room and is placed
      at `pos` at the back of the queue. */
  lemma PlacingStep(s0: seq<CarState>, q0: seq<Car>, id: int, length: int, i: nat, pos: int,
                    queue: seq<Car>, states: seq<CarState>, cars: seq<Car>)
    requires Placing(s0, q0, id, length, i, pos, queue, states, cars) && i < |cars|
    requires s0[i].motion.street == id ==> pos >= 0
    ensures states[i] == s0[i]
    ensures s0[i].motion.street == id ==>
      Placing(s0, q0, id, length, i + 1, pos - SAVE_DISTANCE, queue + [cars[i]], states[i := At(states[i], pos)], cars)
    ensures s0[i].motion.street != id ==> Placing(s0, q0, id, length, i + 1, pos, queue, states, cars)
  {
    var cs := StreetsOf(s0);
    WhereStep(cs, id, i);
    PlaceStep(s0, id, length, i);
    CapacityMeaning(length, Count(cs[..i], id));
    SelectStep(cars, Where(cs[..i], id), i);
  }

  /** The loop stops at the end of the list, or at a car for which the
      street is full. */
  lemma PlacingEnd(s0: seq<CarState>, q0: seq<Car>, id: int, length: int, i: nat, pos: int,
                   queue: seq<Car>, states: seq<CarState>, cars: seq<Car>)
    requires Placing(s0, q0, id, length, i, pos, queue, states, cars)
    requires i < |cars| ==> s0[i].motion.street == id && pos < 0
    ensures StreetPlacement(id, length, StreetsOf(s0)) == if i < |cars| then Fail(InvalidNumberOfCarsOnStreet(id, i - 1)) else Pass
    ensures queue == q0 + Select(cars, Admitted(StreetsOf(s0), id, length))
    ensures states == Place(s0, id, length)
  {
    var cs := StreetsOf(s0);
    if i < |cars| {
      CapacityMeaning(length, Count(cs[..i], id));
      StreetFull(s0, id, length, i);
    } else {
      assert cs[..i] == cs;
    }
  }

  /** With different street ids, every car ends up as the inner loop of
      its own street leaves it, and a car naming no street is untouched. */
  lemma {:induction false} PlaceAllMeaning(states: seq<CarState>, ids: seq<int>, lengths: seq<int>, k: nat, j: nat)
    requires |ids| == |lengths| && NoRepeats(ids) && k < |states|
    ensures j < |ids| && ids[j] == states[k].motion.street ==>
      PlaceAll(states, ids, lengths)[k] == PlaceOne(states, k, ids[j], lengths[j])
    ensures states[k].motion.street !in ids ==> PlaceAll(states, ids, lengths)[k] == states[k]
    decreases |ids|
  {
    if ids != [] {
      var n := |ids| - 1;
      var prev := PlaceAll(states, ids[..n], lengths[..n]);
      var s := states[k].motion.street;
      assert StreetsOf(prev)[k] == s;
      if j < n && ids[j] == s {
        PlaceAllMeaning(states, ids[..n], lengths[..n], k, j);
        assert ids[n] != s;
      } else if j == n && ids[j] == s {
        PlaceAllMeaning(states, ids[..n], lengths[..n], k, j);
        assert s !in ids[..n];
      } else {
        PlaceAllMeaning(states, ids[..n], lengths[..n], k, j);
      }
    }
  }

  /** The queues once the streets before index `n` have been filled. */
  function FillUpTo(q0: seq<seq<Car>>, ids: seq<int>, cars: seq<Car>, cs: seq<int>, n: nat): (r: seq<seq<Car>>)
    requires |ids| == |q0| && |cs| <= |cars|
  {
    seq(|q0|, k requires 0 <= k < |q0| => if k < n then q0[k] + Select(cars, Where(cs, ids[k])) else q0[k])
  }

  /** The loop invariant of `addCarsToStreet` after `i` streets, none of
      which failed: their queues are filled and the cars placed on them. */
  ghost predicate Filling(s0: seq<CarState>, q0: seq<seq<Car>>, ids: seq<int>, lengths: seq<int>, cars: seq<Car>,
                          i: nat, queues: seq<seq<Car>>, states: seq<CarState>)
  {
    && |ids| == |lengths| == |q0| && i <= |ids| && |s0| == |cars|
    && queues == FillUpTo(q0, ids, cars, StreetsOf(s0), i)
    && states == PlaceAll(s0, ids[..i], lengths[..i])
  }

  lemma FillingStart(s0: seq<CarState>, q0: seq<seq<Car>>, ids: seq<int>, lengths: seq<int>, cars: seq<Car>)
    requires |ids| == |lengths| == |q0| && |s0| == |cars|
    ensures Filling(s0, q0, ids, lengths, cars, 0, q0, s0)
  {
    assert ids[..0] == [];
  }

  /** The loop invariant of `addCarsToStreet` after `i` streets: they
      all passed, and either the loop goes on with their queues filled and
      their cars placed, or street `i` failed with `r`. */
  ghost predicate Filled(s0: seq<CarState>, q0: seq<seq<Car>>, ids: seq<int>, lengths: seq<int>, cars: seq<Car>,
                         i: nat, r: Outcome, queues: seq<seq<Car>>, states: seq<CarState>)
  {
    && |ids| == |lengths| && i <= |ids|
    && (forall k :: 0 <= k < i ==> StreetPlacement(ids[k], lengths[k], StreetsOf(s0)) == Pass)
    && (r.Pass? ==> Filling(s0, q0, ids, lengths, cars, i, queues, states))
    && (r.Fail? ==> i < |ids| && r == StreetPlacement(ids[i], lengths[i], StreetsOf(s0)))
  }

  /** One more street: it passes and is filled, or it fails. */
  lemma FillingStep(s0: seq<CarState>, q0: seq<seq<Car>>, ids: seq<int>, lengths: seq<int>, cars: seq<Car>,
                    i: nat, queues: seq<seq<Car>>, states: seq<CarState>, r: Outcome, queue: seq<Car>, states': seq<CarState>)
    requires Filling(s0, q0, ids, lengths, cars, i, queues, states) && i < |ids|
    requires Filled(s0, q0, ids, lengths, cars, i, Pass, queues, states)
    requires r == StreetPlacement(ids[i], lengths[i], StreetsOf(states))
    requires queue == queues[i] + Select(cars, Admitted(StreetsOf(states), ids[i], lengths[i]))
    requires states' == Place(states, ids[i], lengths[i])
    ensures Filled(s0, q0, ids, lengths, cars, if r.Pass? then i + 1 else i, r, queues[i := queue], states')
  {
    assert StreetsOf(states) == StreetsOf(s0);
    if r.Pass? {
      FillingPasses(s0, q0, ids, lengths, cars, i, queues, states, queue, states');
    }
  }

  /** A street that passes is filled and its cars placed. */
  lemma FillingPasses(s0: seq<CarState>, q0: seq<seq<Car>>, ids: seq<int>, lengths: seq<int>, cars: seq<Car>,
                      i: nat, queues: seq<seq<Car>>, states: seq<CarState>, queue: seq<Car>, states': seq<CarState>)
    requires Filled(s0, q0, ids, lengths, cars, i, Pass, queues, states) && i < |ids|
    requires StreetPlacement(ids[i], lengths[i], StreetsOf(s0)) == Pass
    requires queue == queues[i] + Select(cars, Where(StreetsOf(s0), ids[i]))
    requires states' == Place(states, ids[i], lengths[i])
    ensures Filled(s0, q0, ids, lengths, cars, i + 1, Pass, queues[i := queue], states')
  {
    FillUpToStep(q0, ids, cars, StreetsOf(s0), i, queues, queue);
    PlaceAllStep(s0, ids, lengths, i);
  }

  /** Filling street `i` extends the queues filled before it. */
  lemma FillUpToStep(q0: seq<seq<Car>>, ids: seq<int>, cars: seq<Car>, cs: seq<int>, i: nat,
                     queues: seq<seq<Car>>, queue: seq<Car>)
    requires |ids| == |q0| && |cs| <= |cars| && i < |ids|
    requires queues == FillUpTo(q0, ids, cars, cs, i)
    requires queue == queues[i] + Select(cars, Where(cs, ids[i]))
    ensures queues[i := queue] == FillUpTo(q0, ids, cars, cs, i + 1)
  {
    var next := FillUpTo(q0, ids, cars, cs, i + 1);
    forall k | 0 <= k < |q0|
      ensures queues[i := queue][k] == next[k]
    {
      if k != i {
        assert queues[i := queue][k] == queues[k];
      }
    }
  }

  /** Placing one more street after the streets before index `i`. */
  lemma PlaceAllStep(s0: seq<CarState>, ids: seq<int>, lengths: seq<int>, i: nat)
    requires |ids| == |lengths| && i < |ids|
    ensures PlaceAll(s0, ids[..i + 1], lengths[..i + 1]) == Place(PlaceAll(s0, ids[..i], lengths[..i]), ids[i], lengths[i])
  {
    assert ids[..i + 1][..i] == ids[..i] && lengths[..i + 1][..i] == lengths[..i];
  }

  /** When the loop stops, the outcome is that of the first failing street,
      and when none failed the queues are wired and the cars placed. */
  lemma FillingEnd(s0: seq<CarState>, q0: seq<seq<Car>>, ids: seq<int>, lengths: seq<int>, cars: seq<Car>,
                   i: nat, r: Outcome, queues: seq<seq<Car>>, states: seq<CarState>)
    requires Filled(s0, q0, ids, lengths, cars, i, r, queues, states)
    requires r.Pass? ==> i == |ids|
    ensures r == FirstFail(PlacementChecks(ids, lengths, StreetsOf(s0)))
    ensures r.Pass? ==> queues == Wire(q0, ids, cars, StreetsOf(s0))
    ensures r.Pass? ==> states == PlaceAll(s0, ids, lengths)
  {
    var checks := PlacementChecks(ids, lengths, StreetsOf(s0));
    if r.Fail? {
      FirstFailAt(checks, i);
    } else {
      FilledAll(s0, q0, ids, lengths, cars, queues, states);
    }
  }

  /** When every street passed, the queues are wired and the cars placed. */
  lemma FilledAll(s0: seq<CarState>, q0: seq<seq<Car>>, ids: seq<int>, lengths: seq<int>, cars: seq<Car>,
                  queues: seq<seq<Car>>, states: seq<CarState>)
    requires Filled(s0, q0, ids, lengths, cars, |ids|, Pass, queues, states)
    ensures FirstFail(PlacementChecks(ids, lengths, StreetsOf(s0))) == Pass
    ensures queues == Wire(q0, ids, cars, StreetsOf(s0)) && states == PlaceAll(s0, ids, lengths)
  {
    AllPlacementsPass(ids, lengths, StreetsOf(s0));
    FillUpToAll(q0, ids, cars, StreetsOf(s0));
    assert ids[..|ids|] == ids && lengths[..|ids|] == lengths;
  }

  /** When every street's placement check passes, no check fails. */
  lemma AllPlacementsPass(ids: seq<int>, lengths: seq<int>, cs: seq<int>)
    requires |ids| == |lengths|
    requires forall k :: 0 <= k < |ids| ==> StreetPlacement(ids[k], lengths[k], cs) == Pass
    ensures FirstFail(PlacementChecks(ids, lengths, cs)) == Pass
  {
    FirstFailMeaning(PlacementChecks(ids, lengths, cs));
  }

  /** Once every street is filled, the queues are the wired ones. */
  lemma FillUpToAll(q0: seq<seq<Car>>, ids: seq<int>, cars: seq<Car>, cs: seq<int>)
    requires |ids| == |q0| && |cs| <= |cars|
    ensures FillUpTo(q0, ids, cars, cs, |ids|) == Wire(q0, ids, cars, cs)
  {
  }

  /** The outcome of reading the three files: the first file, in the order
      cars, streets, crossings, that is rejected. */
  function FilesOutcome(carLines: seq<string>, streetLines: seq<string>, crossingLines: seq<string>): Outcome {
    match (Tuples(CarFile, carLines), Tuples(StreetFile, streetLines), Tuples(CrossingFile, crossingLines))
    case (Failure(e), _, _) => Fail(e)
    case (_, Failure(e), _) => Fail(e)
    case (_, _, Failure(e)) => Fail(e)
    case _ => Pass
  }

  /** Files that read without failure give tuples of the forms their lines
      have, one car and one street per line, so every tuple has the entries
      that `init` reads. */
  lemma FilesShaped(carLines: seq<string>, streetLines: seq<string>, crossingLines: seq<string>)
    requires FilesOutcome(carLines, streetLines, crossingLines) == Pass
    ensures Tuples(CarFile, carLines).Success? && Tuples(StreetFile, streetLines).Success?
    ensures Tuples(CrossingFile, crossingLines).Success?
    ensures Shaped(Tuples(CarFile, carLines).value, Tuples(StreetFile, streetLines).value,
                   Tuples(CrossingFile, crossingLines).value)
    ensures |Tuples(CarFile, carLines).value| == |carLines| && |Tuples(StreetFile, streetLines).value| == |streetLines|
  {
    TuplesShape(CarFile, carLines);
    TuplesShape(StreetFile, streetLines);
    TuplesShape(CrossingFile, crossingLines);
  }

  // ---- what a first load builds ----

  /** `n` empty lists. */
  function Empties<T>(n: nat): (r: seq<seq<T>>)
    ensures |r| == n && forall k :: 0 <= k < n ==> r[k] == []
  {
    seq(n, k => [])
  }

  /** The first green markers of the nodes of the crossing tuples `ts`. */
  function GreensFor(ts: seq<seq<int>>): (r: seq<int>)
    requires forall k :: 0 <= k < |ts| ==> |ts[k]| >= 2
    ensures |r| == |ts| && forall k :: 0 <= k < |ts| ==> r[k] == GreenFor(ts[k])
  {
    seq(|ts|, k requires 0 <= k < |ts| => GreenFor(ts[k]))
  }

  /** The record fields of the streets of the street tuples `ts`. */
  function LayoutsFor(ts: seq<seq<int>>): (r: seq<Layout>)
    requires forall k :: 0 <= k < |ts| ==> |ts[k]| >= 5
    ensures |r| == |ts| && forall k :: 0 <= k < |ts| ==> r[k] == LayoutFor(k, ts[k])
  {
    seq(|ts|, k requires 0 <= k < |ts| => LayoutFor(k, ts[k]))
  }

  /** The overtaking-lane flags of a list of streets. */
  function LanesOf(ss: seq<Street>): (r: seq<bool>)
    ensures |r| == |ss| && forall k :: 0 <= k < |ss| ==> r[k] == ss[k].fastTrack
  {
    seq(|ss|, k requires 0 <= k < |ss| => ss[k].fastTrack)
  }

  /** The overtaking-lane flags of the street tuples `ts`: every lane code but 1. */
  function LanesFor(ts: seq<seq<int>>): (r: seq<bool>)
    requires forall k :: 0 <= k < |ts| ==> |ts[k]| >= 5
    ensures |r| == |ts| && forall k :: 0 <= k < |ts| ==> r[k] == (ts[k][STREET_TYPE] != SINGLE_LANE)
  {
    seq(|ts|, k requires 0 <= k < |ts| => ts[k][STREET_TYPE] != SINGLE_LANE)
  }

  /** The cars of the car tuples `ts`, before placing. */
  function CarsFor(ts: seq<seq<int>>): (r: seq<CarState>)
    requires forall k :: 0 <= k < |ts| ==> |ts[k]| >= 4
    ensures |r| == |ts| && forall k :: 0 <= k < |ts| ==> r[k] == CarFor(ts[k])
  {
    seq(|ts|, k requires 0 <= k < |ts| => CarFor(ts[k]))
  }

  /** The cars of a network loaded from the car tuples `cars` and the street
      tuples `streets`: each at the position where `addCarsToStreet` places it. */
  function LoadedCars(cars: seq<seq<int>>, streets: seq<seq<int>>): (r: seq<CarState>)
    requires Shaped(cars, streets, crossings := [])
    ensures |r| == |cars|
  {
    seq(|cars|, k requires 0 <= k < |cars| => At(CarFor(cars[k]), PlacedPosition(cars, streets, k)))
  }

  /** The nodes `initNodes` built, read off as lists: their ids, first green
      markers and lights come from the tuples, and their street lists are
      still empty. */
  lemma MadeParts(ns: seq<Node>, ts: seq<seq<int>>)
    requires AllMade(ns, ts)
    ensures NodeIdsOf(ns) == Column(ts, ID) && Greens(ns) == GreensFor(ts)
    ensures Outgoing(ns) == Empties(|ts|) && Incoming(ns) == Empties(|ts|)
    ensures forall k :: 0 <= k < |ns| ==> Lit(ns[k], ts[k])
  {
  }

  /** The streets `initStreets` built, read off as lists. */
  lemma BuiltParts(ss: seq<Street>, ts: seq<seq<int>>)
    requires AllBuilt(ss, ts)
    ensures EndpointsOf(ss, false) == Column(ts, START_NODE) && EndpointsOf(ss, true) == Column(ts, END_NODE)
    ensures StreetIdsOf(ss) == Indices(|ts|) && LengthsOf(ss) == Column(ts, LENGTH)
    ensures Layouts(ss) == LayoutsFor(ts) && LanesOf(ss) == LanesFor(ts)
    ensures Queues(ss) == Empties(|ts|)
  {
    forall k | 0 <= k < |ss|
      ensures ss[k].streetId == k && ss[k].startNode == ts[k][START_NODE] && ss[k].endNode == ts[k][END_NODE]
      ensures ss[k].length == ts[k][LENGTH]
    {
      assert ss[k].Record() == LayoutFor(k, ts[k]);
    }
  }

  /** Streets with the record fields of the street tuples `ts` have the
      tuple indices as ids and the tuples' lengths. */
  lemma LaidOut(ss: seq<Street>, ts: seq<seq<int>>)
    requires forall k :: 0 <= k < |ts| ==> |ts[k]| >= 5
    requires Layouts(ss) == LayoutsFor(ts)
    ensures StreetIdsOf(ss) == Indices(|ts|) && LengthsOf(ss) == Column(ts, LENGTH)
  {
    forall k | 0 <= k < |ss|
      ensures ss[k].streetId == k && ss[k].length == ts[k][LENGTH]
    {
      assert Layouts(ss)[k] == LayoutFor(k, ts[k]);
    }
  }

  /** The degree checks of nodes whose street lists were wired from empty
      are the degree checks of their ids against the street endpoints. */
  lemma DegreesWired(ns: seq<Node>, ids: seq<int>, ss: seq<Street>, starts: seq<int>, ends: seq<int>)
    requires NodeIdsOf(ns) == ids && |starts| == |ends| == |ss|
    requires Outgoing(ns) == Wire(Empties(|ns|), ids, ss, starts)
    requires Incoming(ns) == Wire(Empties(|ns|), ids, ss, ends)
    ensures NodeDegrees(ns) == DegreeChecks(ids, starts, ends)
  {
    forall k | 0 <= k < |ns|
      ensures NodeDegrees(ns)[k] == DegreeChecks(ids, starts, ends)[k]
    {
      assert ns[k].incomingStreets == Incoming(ns)[k] == [] + Select(ss, Where(ends, ids[k]));
      assert ns[k].outgoingStreets == Outgoing(ns)[k] == [] + Select(ss, Where(starts, ids[k]));
    }
  }

  /** When every street has room for its cars, placing the cars of the car
      tuples street by street puts each at `PlacedPosition`. */
  lemma LoadedPlacement(cars: seq<seq<int>>, streets: seq<seq<int>>)
    requires Shaped(cars, streets, crossings := [])
    requires FirstFail(PlacementChecks(Indices(|streets|), Column(streets, LENGTH), Column(cars, STREET))) == Pass
    ensures PlaceAll(CarsFor(cars), Indices(|streets|), Column(streets, LENGTH)) == LoadedCars(cars, streets)
  {
    var states, ids, lengths := CarsFor(cars), Indices(|streets|), Column(streets, LENGTH);
    FirstFailMeaning(PlacementChecks(ids, lengths, Column(cars, STREET)));
    forall k | 0 <= k < |cars|
      ensures PlaceAll(states, ids, lengths)[k] == LoadedCars(cars, streets)[k]
    {
      PlacedCar(cars, streets, k);
    }
  }

  /** Car `k` of the car tuples, when its street has room for all cars
      naming it, ends up at `PlacedPosition`. */
  lemma PlacedCar(cars: seq<seq<int>>, streets: seq<seq<int>>, k: nat)
    requires Shaped(cars, streets, crossings := []) && k < |cars|
    requires 0 <= cars[k][STREET] < |streets| ==>
      Count(Column(cars, STREET), cars[k][STREET]) <= Capacity(streets[cars[k][STREET]][LENGTH])
    ensures PlaceAll(CarsFor(cars), Indices(|streets|), Column(streets, LENGTH))[k] == LoadedCars(cars, streets)[k]
  {
    var states, ids, lengths := CarsFor(cars), Indices(|streets|), Column(streets, LENGTH);
    var s := cars[k][STREET];
    assert StreetsOf(states) == Column(cars, STREET);
    if 0 <= s < |streets| {
      PlaceAllMeaning(states, ids, lengths, k, s);
      PlacedCarOnStreet(cars, streets, k);
    } else {
      assert s !in ids;
      PlaceAllMeaning(states, ids, lengths, k, 0);
    }
  }

  /** A car on a street with room for all cars naming it is where the inner
      loop of that street leaves it: at `PlacedPosition`. */
  lemma PlacedCarOnStreet(cars: seq<seq<int>>, streets: seq<seq<int>>, k: nat)
    requires Shaped(cars, streets, crossings := []) && k < |cars| && 0 <= cars[k][STREET] < |streets|
    requires Count(Column(cars, STREET), cars[k][STREET]) <= Capacity(streets[cars[k][STREET]][LENGTH])
    ensures PlaceOne(CarsFor(cars), k, cars[k][STREET], streets[cars[k][STREET]][LENGTH]) == LoadedCars(cars, streets)[k]
  {
    var cs, s := Column(cars, STREET), cars[k][STREET];
    assert StreetsOf(CarsFor(cars)) == cs;
    WhereStep(cs, s, k);
    WherePrefix(cs, s, k + 1);
  }

  /** The street queues hold cars of the car list `cars`, none twice, and
      no car on two streets. */
  predicate QueuesOk(qs: seq<seq<Car>>, cars: seq<Car>) {
    && (forall k :: 0 <= k < |qs| ==> Distinct(qs[k]))
    && (forall k, c :: 0 <= k < |qs| && c in qs[k] ==> c in cars)
    && (forall a, b, c :: 0 <= a < |qs| && 0 <= b < |qs| && a != b && c in qs[a] ==> c !in qs[b])
  }

  /** Selecting increasing positions of a list without repetitions gives
      a list without repetitions. */
  lemma SelectDistinct<T>(xs: seq<T>, idx: seq<nat>)
    requires Distinct(xs) && forall j :: 0 <= j < |idx| ==> idx[j] < |xs|
    requires forall j, l :: 0 <= j < l < |idx| ==> idx[j] < idx[l]
    ensures Distinct(Select(xs, idx))
  {
    var r := Select(xs, idx);
    forall a, b | 0 <= a < b < |r|
      ensures r[a] != r[b]
    {
      assert idx[a] < idx[b];
    }
  }

  /** Queues wired from empty lists, one per street id, from a car list
      without repetitions: each car joins at most the one street whose id
      its key names. */
  lemma WiredQueuesOk(cars: seq<Car>, ids: seq<int>, keys: seq<int>)
    requires Distinct(cars) && NoRepeats(ids) && |keys| == |cars|
    ensures QueuesOk(Wire(Empties(|ids|), ids, cars, keys), cars)
  {
    var qs := Wire(Empties(|ids|), ids, cars, keys);
    forall k | 0 <= k < |qs|
      ensures Distinct(qs[k]) && forall c :: c in qs[k] ==> c in cars && keys[IndexOf(cars, c)] == ids[k]
    {
      var w := Where(keys, ids[k]);
      assert qs[k] == [] + Select(cars, w) == Select(cars, w);
      SelectDistinct(cars, w);
      forall c | c in qs[k]
        ensures c in cars && keys[IndexOf(cars, c)] == ids[k]
      {
        var j :| 0 <= j < |qs[k]| && qs[k][j] == c;
        IndexOfDistinct(cars, w[j]);
      }
    }
  }

  /** The outcome of the traffic stages, stated over the car states the
      tuples give: the traffic part of the load outcome. */
  lemma TrafficFreshOutcome(cp: seq<seq<int>>, sp: seq<seq<int>>, carIds: seq<int>, nodeIds: seq<int>, r: Outcome)
    requires Shaped(cp, sp, []) && carIds == [] + Column(cp, ID)
    requires r == var p := FirstFail(PlacementChecks(Indices(|sp|), Column(sp, LENGTH), StreetsOf([] + CarsFor(cp))));
      if p.Fail? then p
      else match FirstRepeat(carIds)
        case Some(x) => Fail(DuplicatedCarId(x))
        case None => match FirstRepeat(nodeIds)
          case Some(x) => Fail(DuplicatedCrossingId(x))
          case None => Pass
    ensures r == TrafficOutcome(cp, sp, nodeIds)
  {
    var cs := CarsFor(cp);
    assert [] + cs == cs && carIds == Column(cp, ID);
    CarsForStreets(cp);
  }

  /** The cars the tuples give stand on the streets of the tuples' street
      column. */
  lemma CarsForStreets(cp: seq<seq<int>>)
    requires forall k :: 0 <= k < |cp| ==> |cp[k]| >= 4
    ensures StreetsOf(CarsFor(cp)) == Column(cp, STREET)
  {
    assert forall k :: 0 <= k < |cp| ==> StreetsOf(CarsFor(cp))[k] == Column(cp, STREET)[k];
  }

  /** The traffic stages on the streets of the street tuples `sp`, with
      empty queues and no cars before: the outcome is the traffic part of
      the load outcome, and a pass places the cars as the tuples say. */
  lemma TrafficFresh(cp: seq<seq<int>>, sp: seq<seq<int>>, cars: seq<Car>, carIds: seq<int>, nodeIds: seq<int>,
                     r: Outcome, states: seq<CarState>, queues: seq<seq<Car>>)
    requires Shaped(cp, sp, []) && Distinct(cars) && carIds == [] + Column(cp, ID) && |cars| == |cp|
    requires r == var p := FirstFail(PlacementChecks(Indices(|sp|), Column(sp, LENGTH), StreetsOf([] + CarsFor(cp))));
      if p.Fail? then p
      else match FirstRepeat(carIds)
        case Some(x) => Fail(DuplicatedCarId(x))
        case None => match FirstRepeat(nodeIds)
          case Some(x) => Fail(DuplicatedCrossingId(x))
          case None => Pass
    requires r.Pass? ==> states == PlaceAll([] + CarsFor(cp), Indices(|sp|), Column(sp, LENGTH))
    requires r.Pass? ==> queues == Wire(Empties(|sp|), Indices(|sp|), cars, StreetsOf([] + CarsFor(cp)))
    ensures r == TrafficOutcome(cp, sp, nodeIds)
    ensures r.Pass? ==>
      && states == LoadedCars(cp, sp)
      && queues == Wire(Empties(|sp|), Indices(|sp|), cars, Column(cp, STREET))
      && QueuesOk(queues, cars)
  {
    TrafficFreshOutcome(cp, sp, carIds, nodeIds, r);
    if r.Pass? {
      var cs := CarsFor(cp);
      assert [] + cs == cs;
      CarsForStreets(cp);
      TrafficPlaced(cp, sp, cars);
    }
  }

  /** Once placement passes, the cars stand where the tuples say and the
      wired queues are valid. */
  lemma TrafficPlaced(cp: seq<seq<int>>, sp: seq<seq<int>>, cars: seq<Car>)
    requires Shaped(cp, sp, []) && Distinct(cars) && |cars| == |cp|
    requires FirstFail(PlacementChecks(Indices(|sp|), Column(sp, LENGTH), Column(cp, STREET))) == Pass
    ensures PlaceAll(CarsFor(cp), Indices(|sp|), Column(sp, LENGTH)) == LoadedCars(cp, sp)
    ensures QueuesOk(Wire(Empties(|sp|), Indices(|sp|), cars, Column(cp, STREET)), cars)
  {
    LoadedPlacement(cp, sp);
    WiredQueuesOk(cars, Indices(|sp|), Column(cp, STREET));
  }

  // ---- the tick ----

  /** The lights of the intersections among the nodes. */
  function Lights(ns: seq<Node>): set<TrafficLight> {
    set k | 0 <= k < |ns| && ns[k].light != null :: ns[k].light
  }

  /** The field values of a list of nodes. */
  ghost function Signals(ns: seq<Node>): (r: seq<Junction>)
    reads ns, Lights(ns)
    ensures |r| == |ns| && forall k :: 0 <= k < |ns| ==> r[k] == ns[k].Snapshot()
  {
    seq(|ns|, k requires 0 <= k < |ns| reads ns, Lights(ns) => ns[k].Snapshot())
  }

  /** Every junction can answer `hasStreetGreen`: a roundabout, or an
      intersection whose green index is not negative. */
  predicate Answerable(js: seq<Junction>) {
    forall k :: 0 <= k < |js| ==> js[k].signal.None? || js[k].green >= 0
  }

  /** The answer a street gets from its end junction: the first junction
      with the end node's id, asked whether the street `streetId` has green.
      When no junction has that id the street gets no green. */
  function EndGreen(js: seq<Junction>, endNode: int, streetId: int): (r: bool)
    requires Answerable(js)
  {
    var ids := seq(|js|, k requires 0 <= k < |js| => js[k].id);
    endNode in ids && Green(js[IndexOf(ids, endNode)], streetId)
  }

  /** A street ending at a roundabout always has green; a street ending at
      an intersection has green exactly when it is the street at the green
      index, and a street whose end node is missing never has. */
  lemma EndGreenMeaning(js: seq<Junction>, endNode: int, streetId: int, k: nat)
    requires Answerable(js) && k < |js| && js[k].id == endNode
    requires forall j :: 0 <= j < k ==> js[j].id != endNode
    ensures EndGreen(js, endNode, streetId) <==>
      js[k].signal.None? || (js[k].green < |js[k].incoming| && js[k].incoming[js[k].green] == streetId)
  {
    var ids := seq(|js|, j requires 0 <= j < |js| => js[j].id);
    assert ids[k] == endNode;
    assert IndexOf(ids, endNode) == k;
  }

  /** The cars queued on a list of streets. */
  ghost function Queued(ss: seq<Street>): set<Car>
    reads ss
  {
    set k, j | 0 <= k < |ss| && 0 <= j < |ss[k].cars| :: ss[k].cars[j]
  }

  /** The queues of a list of streets, with the field values of their cars. */
  ghost function QueueSlots(ss: seq<Street>): (r: seq<seq<Slot>>)
    reads ss, Queued(ss)
    ensures |r| == |ss| && forall k :: 0 <= k < |ss| ==> r[k] == ss[k].Slots()
  {
    seq(|ss|, k requires 0 <= k < |ss| reads ss, Queued(ss) => ss[k].Slots())
  }

  /** One `update` of every street: street `k`, with queue `qs[k]`, record
      `layouts[k]` and an overtaking lane when `lanes[k]`, asks its end
      junction among `js` whether it has green and runs its tick. */
  function Move(q: seq<Slot>, layout: Layout, lane: bool, js: seq<Junction>, dyn: StreetDynamics): seq<Slot>
    requires Answerable(js) && HeadIsFree(dyn)
  {
    if lane then Tick(q, layout, EndGreen(js, layout.endNode, layout.id), dyn).queue else q
  }

  function Moves(qs: seq<seq<Slot>>, layouts: seq<Layout>, lanes: seq<bool>, js: seq<Junction>,
                 dyn: StreetDynamics): (r: seq<seq<Slot>>)
    requires |layouts| == |qs| && |lanes| == |qs| && Answerable(js) && HeadIsFree(dyn)
    ensures |r| == |qs|
  {
    seq(|qs|, k requires 0 <= k < |qs| => Move(qs[k], layouts[k], lanes[k], js, dyn))
  }

  /** The queues `resetCarMoves` leaves on every street. */
  function ResetAll(qs: seq<seq<Slot>>, dyn: StreetDynamics): (r: seq<seq<Slot>>)
    ensures |r| == |qs|
  {
    seq(|qs|, k requires 0 <= k < |qs| => Reset(qs[k], dyn))
  }

  /** One `update` of every junction. */
  function StepAll(js: seq<Junction>): (r: seq<Junction>)
    ensures |r| == |js| && forall k :: 0 <= k < |js| ==> r[k] == Step(js[k])
  {
    seq(|js|, k requires 0 <= k < |js| => Step(js[k]))
  }

  /** `n` ticks of every junction. */
  function StepAllN(js: seq<Junction>, n: nat): seq<Junction>
    decreases n
  {
    if n == 0 then js else StepAll(StepAllN(js, n - 1))
  }

  /** After `n` ticks of the network each junction stands where `n` calls
      of its own `update` leave it: its id and street lists are unchanged,
      a roundabout is as it was, and an intersection's light is
      `SignalAfter(d, n)`. */
  lemma {:induction false} StepAllNMeaning(js: seq<Junction>, n: nat)
    ensures |StepAllN(js, n)| == |js|
    ensures forall k :: 0 <= k < |js| ==> StepAllN(js, n)[k] == StepN(js[k], n)
    decreases n
  {
    if n > 0 {
      StepAllNMeaning(js, n - 1);
    }
  }

  /** A tick keeps every junction answerable. */
  lemma StepAllAnswerable(js: seq<Junction>)
    requires Answerable(js)
    ensures Answerable(StepAll(js))
  {
  }

  /** Ticks keep every junction answerable. */
  lemma {:induction false} StepAllNAnswerable(js: seq<Junction>, n: nat)
    requires Answerable(js)
    ensures Answerable(StepAllN(js, n))
    decreases n
  {
    if n > 0 {
      StepAllNAnswerable(js, n - 1);
      StepAllAnswerable(StepAllN(js, n - 1));
    }
  }

  /** The street queues after `n` ticks of the network, from queues `qs` and
      junctions `js`: each tick moves the traffic with the junctions as that
      tick finds them, then resets the queued cars. */
  function Ticks(qs: seq<seq<Slot>>, layouts: seq<Layout>, lanes: seq<bool>, js: seq<Junction>,
                 dyn: StreetDynamics, n: nat): (r: seq<seq<Slot>>)
    requires |layouts| == |qs| && |lanes| == |qs| && Answerable(js) && HeadIsFree(dyn)
    ensures |r| == |qs|
    decreases n
  {
    if n == 0 then qs
    else
      var before := Ticks(qs, layouts, lanes, js, dyn, n - 1);
      StepAllNAnswerable(js, n - 1);
      ResetAll(Moves(before, layouts, lanes, StepAllN(js, n - 1), dyn), dyn)
  }

  /** `a` ticks of the junctions followed by `b` more are `a + b` ticks. */
  lemma {:induction false} StepAllNAdd(js: seq<Junction>, a: nat, b: nat)
    ensures StepAllN(StepAllN(js, a), b) == StepAllN(js, a + b)
    decreases b
  {
    if b > 0 {
      StepAllNAdd(js, a, b - 1);
    }
  }

  /** `resetCarMoves` keeps every car where it is in the queue. */
  lemma ResetKeepsCars(q: seq<Slot>, dyn: StreetDynamics)
    ensures Refs(Reset(q, dyn)) == Refs(q)
  {
    assert forall j :: 0 <= j < |q| ==> Refs(Reset(q, dyn))[j] == q[j].car;
  }

  /** Junctions recorded tick by tick: each entry is one tick of the one
      before. */
  predicate SignalRun(sigs: seq<seq<Junction>>) {
    forall t :: 0 <= t < |sigs| - 1 ==> sigs[t + 1] == StepAll(sigs[t])
  }

  /** Entry `t` of a junction record is `t` ticks of its first entry. */
  lemma {:induction false} SignalRunIsStepAllN(sigs: seq<seq<Junction>>, t: nat)
    requires SignalRun(sigs) && t < |sigs|
    ensures sigs[t] == StepAllN(sigs[0], t)
    decreases t
  {
    if t > 0 {
      SignalRunIsStepAllN(sigs, t - 1);
    }
  }

  /** Queues recorded tick by tick, next to the junctions of each tick:
      each entry is the traffic of the entry before moved with that tick's
      junctions, then reset. */
  predicate TrafficRun(trace: seq<seq<seq<Slot>>>, sigs: seq<seq<Junction>>, layouts: seq<Layout>, lanes: seq<bool>,
                       dyn: StreetDynamics)
    requires HeadIsFree(dyn)
  {
    && |trace| == |sigs|
    && (forall t :: 0 <= t < |trace| ==> |trace[t]| == |layouts| && Answerable(sigs[t]))
    && |lanes| == |layouts|
    && forall t :: 0 <= t < |trace| - 1 ==> trace[t + 1] == ResetAll(Moves(trace[t], layouts, lanes, sigs[t], dyn), dyn)
  }

  /** One more tick of the last junctions extends a junction record. */
  lemma SignalRunExtend(sigs: seq<seq<Junction>>, next: seq<Junction>)
    requires SignalRun(sigs) && |sigs| > 0 && next == StepAll(sigs[|sigs| - 1])
    ensures SignalRun(sigs + [next])
  {
    var s := sigs + [next];
    assert forall t :: 0 <= t < |sigs| ==> s[t] == sigs[t];
  }

  /** The last queues moved with the last junctions, then reset, extend a
      queue record, next to the junctions of the next tick. */
  lemma TrafficRunExtend(trace: seq<seq<seq<Slot>>>, sigs: seq<seq<Junction>>, layouts: seq<Layout>, lanes: seq<bool>,
                         dyn: StreetDynamics, queues: seq<seq<Slot>>, next: seq<Junction>)
    requires HeadIsFree(dyn) && TrafficRun(trace, sigs, layouts, lanes, dyn) && |trace| > 0
    requires Answerable(next) && |queues| == |layouts|
    requires queues == ResetAll(Moves(trace[|trace| - 1], layouts, lanes, sigs[|sigs| - 1], dyn), dyn)
    ensures TrafficRun(trace + [queues], sigs + [next], layouts, lanes, dyn)
  {
    var s, q := sigs + [next], trace + [queues];
    assert forall t :: 0 <= t < |trace| ==> q[t] == trace[t] && s[t] == sigs[t];
  }

  /** Entry `t` of a queue record whose junctions tick as the network's do
      is `t` ticks of its first entry. */
  lemma {:induction false} TrafficRunIsTicks(trace: seq<seq<seq<Slot>>>, sigs: seq<seq<Junction>>, layouts: seq<Layout>,
                                             lanes: seq<bool>, dyn: StreetDynamics, t: nat)
    requires HeadIsFree(dyn) && TrafficRun(trace, sigs, layouts, lanes, dyn) && SignalRun(sigs) && t < |trace|
    ensures trace[t] == Ticks(trace[0], layouts, lanes, sigs[0], dyn, t)
    decreases t
  {
    if t > 0 {
      TrafficRunIsTicks(trace, sigs, layouts, lanes, dyn, t - 1);
      SignalRunIsStepAllN(sigs, t - 1);
      StepAllNAnswerable(sigs[0], t - 1);
      var step := t - 1;
      assert trace[step + 1] == ResetAll(Moves(trace[step], layouts, lanes, sigs[step], dyn), dyn);
      assert Ticks(trace[0], layouts, lanes, sigs[0], dyn, t) ==
        ResetAll(Moves(trace[step], layouts, lanes, StepAllN(sigs[0], step), dyn), dyn);
    }
  }

  /** Queues from which one queue lost cars, keeping no car twice, still
      hold cars of the car list once each. */
  lemma QueuesShrink(qs: seq<seq<Car>>, qs': seq<seq<Car>>, cars: seq<Car>, i: nat)
    requires QueuesOk(qs, cars) && |qs'| == |qs| && i < |qs|
    requires forall k :: 0 <= k < |qs| && k != i ==> qs'[k] == qs[k]
    requires Distinct(qs'[i]) && forall c :: c in qs'[i] ==> c in qs[i]
    ensures QueuesOk(qs', cars)
  {
  }

  /** A list followed by a list with one of its values has a repeat. */
  lemma KnownIdRepeats(ids: seq<int>, xs: seq<int>, k: nat)
    requires k < |xs| && xs[k] in ids
    ensures !NoRepeats(ids + xs)
  {
    var s := ids + xs;
    var j :| 0 <= j < |ids| && ids[j] == xs[k];
    assert s[j] == s[|ids| + k];
  }

  class StreetNetwork {
    var streets: seq<Street>
    var cars: seq<Car>
    var nodes: seq<Node>
    var carParameters: seq<seq<int>>
    var streetParameters: seq<seq<int>>
    var crossingParameters: seq<seq<int>>

    /** An empty network with empty tuple lists. */
    constructor ()
      ensures streets == [] && cars == [] && nodes == []
      ensures carParameters == [] && streetParameters == [] && crossingParameters == []
    {
      streets, cars, nodes := [], [], [];
      carParameters, streetParameters, crossingParameters := [], [], [];
    }

    /** `getNodeFromID`: the first node with the id, or the illegal-node
        error for the street that asked. */
    method GetNodeFromID(nodeId: int, streetId: int) returns (r: Result<Node>)
      ensures r.Success? <==> nodeId in NodeIdsOf(nodes)
      ensures r.Success? ==> r.value == nodes[IndexOf(NodeIdsOf(nodes), nodeId)]
      ensures r.Failure? ==> r.error == StreetWithIllegalNode(streetId)
    {
      for k := 0 to |nodes|
        invariant forall j :: 0 <= j < k ==> nodes[j].nodeId != nodeId
      {
        if nodes[k].nodeId == nodeId {
          return Success(nodes[k]);
        }
      }
      return Failure(StreetWithIllegalNode(streetId));
    }

    // ---- initNodes ----

    /** `nodes.add(node)` for a node that is new to the network. */
    method AppendNode(node: Node)
      requires node !in nodes && node.Valid()
      requires node.light != null ==> forall k :: 0 <= k < |nodes| ==> nodes[k].light != node.light
      modifies this
      ensures nodes == old(nodes) + [node] && NodeIdsOf(nodes) == old(NodeIdsOf(nodes)) + [node.nodeId]
      ensures old(NodesOk(nodes)) ==> NodesOk(nodes)
      ensures streets == old(streets) && cars == old(cars)
      ensures carParameters == old(carParameters) && streetParameters == old(streetParameters)
      ensures crossingParameters == old(crossingParameters)
    {
      nodes := nodes + [node];
      assert forall a :: 0 <= a < |nodes| - 1 ==> nodes[a] == old(nodes)[a];
    }

    /** The node of one crossing tuple, appended to the nodes. */
    method AddCrossing(t: seq<int>) returns (ghost node: Node)
      requires |t| >= 2
      modifies this
      ensures nodes == old(nodes) + [node] && NodeIdsOf(nodes) == old(NodeIdsOf(nodes)) + [t[ID]]
      ensures fresh(node) && Made(node, t)
      ensures old(NodesOk(nodes)) ==> NodesOk(nodes)
      ensures streets == old(streets) && cars == old(cars)
      ensures carParameters == old(carParameters) && streetParameters == old(streetParameters)
      ensures crossingParameters == old(crossingParameters)
    {
      var n: Node;
      if t[GREEN_TIME] == ROUNDABOUT {
        n := new Node.Roundabout(t[ID]);
      } else {
        n := new Node.Intersection(t[ID], t[GREEN_TIME]);
      }
      AppendNode(n);
      node := n;
    }

    /** `initNodes`: one node per crossing tuple, in order, appended to the
        nodes already present: a roundabout for green time 0, an
        intersection with its own light otherwise. */
    method InitNodes()
      requires forall k :: 0 <= k < |crossingParameters| ==> |crossingParameters[k]| >= 2
      modifies this
      ensures |old(nodes)| <= |nodes| && nodes[..|old(nodes)|] == old(nodes)
      ensures AllMade(nodes[|old(nodes)|..], crossingParameters)
      ensures forall k :: |old(nodes)| <= k < |nodes| ==> fresh(nodes[k])
      ensures NodeIdsOf(nodes) == old(NodeIdsOf(nodes)) + Column(crossingParameters, ID)
      ensures old(NodesOk(nodes)) ==> NodesOk(nodes)
      ensures streets == old(streets) && cars == old(cars)
      ensures carParameters == old(carParameters) && streetParameters == old(streetParameters)
      ensures crossingParameters == old(crossingParameters)
    {
      var params := crossingParameters;
      ghost var n := |nodes|;
      for i := 0 to |params|
        invariant streets == old(streets) && cars == old(cars)
        invariant carParameters == old(carParameters) && streetParameters == old(streetParameters)
        invariant crossingParameters == params
        invariant |nodes| == n + i && nodes[..n] == old(nodes)
        invariant AllMade(nodes[n..], params[..i])
        invariant forall k :: n <= k < |nodes| ==> fresh(nodes[k])
        invariant NodeIdsOf(nodes) == old(NodeIdsOf(nodes)) + Column(params[..i], ID)
        invariant old(NodesOk(nodes)) ==> NodesOk(nodes)
      {
        ghost var done, before := nodes[n..], nodes;
        ghost var node := AddCrossing(params[i]);
        AppendSlices(before, node, n);
        AllMadeStep(done, params, node, i);
        ColumnStep(params, ID, i);
      }
      assert params[..|params|] == params;
    }
    // ---- initStreets ----

    /** `streets.add(street)`. */
    method AppendStreet(street: Street)
      modifies this
      ensures streets == old(streets) + [street]
      ensures nodes == old(nodes) && cars == old(cars)
      ensures carParameters == old(carParameters) && streetParameters == old(streetParameters)
      ensures crossingParameters == old(crossingParameters)
    {
      streets := streets + [street];
    }

    /** One pass of the `initStreets` loop: equal endpoints fail with the
        tuple's index, an endpoint that names no node fails in
        `getNodeFromID`; otherwise the street is built, with id `i`, as a
        street with an overtaking lane unless the lane code is 1. */
    method AddStreet(i: int, t: seq<int>) returns (r: Outcome, ghost street: Street?)
      requires |t| >= 5
      modifies this
      ensures r == StreetCheck(i, t, NodeIdsOf(nodes))
      ensures r.Pass? ==> street != null && fresh(street) && streets == old(streets) + [street] && Built(street, i, t)
      ensures r.Fail? ==> streets == old(streets)
      ensures nodes == old(nodes) && cars == old(cars)
      ensures carParameters == old(carParameters) && streetParameters == old(streetParameters)
      ensures crossingParameters == old(crossingParameters)
    {
      r, street := Pass, null;
      if t[START_NODE] == t[END_NODE] {
        r := Fail(InvalidStreetNode(i));
      } else {
        var from := GetNodeFromID(t[START_NODE], i);
        if from.Failure? {
          r := Fail(from.error);
        } else {
          var to := GetNodeFromID(t[END_NODE], i);
          if to.Failure? {
            r := Fail(to.error);
          } else {
            var s := new Street(t[START_NODE], t[END_NODE], t[LENGTH], t[SPEED_LIMIT], i, t[STREET_TYPE] != SINGLE_LANE);
            AppendStreet(s);
            street := s;
          }
        }
      }
    }

    /** `initStreets`: the streets of the street tuples in order, each with
        its index as id, appended to the streets already present, until the
        first tuple whose check fails. */
    method InitStreets() returns (r: Outcome)
      requires forall k :: 0 <= k < |streetParameters| ==> |streetParameters[k]| >= 5
      modifies this
      ensures nodes == old(nodes) && cars == old(cars)
      ensures carParameters == old(carParameters) && streetParameters == old(streetParameters)
      ensures crossingParameters == old(crossingParameters)
      ensures r == FirstFail(StreetChecks(streetParameters, NodeIdsOf(nodes)))
      ensures |old(streets)| <= |streets| && streets[..|old(streets)|] == old(streets)
      ensures r.Pass? ==> AllBuilt(streets[|old(streets)|..], streetParameters)
      ensures forall k :: |old(streets)| <= k < |streets| ==> fresh(streets[k])
      ensures Distinct(old(streets)) ==> Distinct(streets)
    {
      var params := streetParameters;
      ghost var n := |streets|;
      ghost var ids := NodeIdsOf(nodes);
      ghost var checks := StreetChecks(params, ids);
      for i := 0 to |params|
        invariant nodes == old(nodes) && cars == old(cars) && NodeIdsOf(nodes) == ids
        invariant carParameters == old(carParameters) && streetParameters == params
        invariant crossingParameters == old(crossingParameters)
        invariant |streets| == n + i && streets[..n] == old(streets)
        invariant AllBuilt(streets[n..], params[..i])
        invariant forall k :: n <= k < |streets| ==> fresh(streets[k])
        invariant PassedBefore(checks, i)
        invariant Distinct(old(streets)) ==> Distinct(streets)
      {
        ghost var before := streets;
        var o, s := AddStreet(i, params[i]);
        if o.Fail? {
          FirstFailAt(checks, i);
          return o;
        }
        PassedStep(checks, i);
        StreetsBuiltStep(old(streets), before, s, params, i);
      }
      FirstFailMeaning(checks);
      assert params[..|params|] == params;
      return Pass;
    }
    // ---- addStreetsToNode ----

    /** One pass of the inner loop of `addStreetsToNode`. */
    static method WireNode(node: Node, street: Street)
      modifies node
      ensures node.outgoingStreets == old(node.outgoingStreets) + (if node.nodeId == street.startNode then [street] else [])
      ensures node.incomingStreets == old(node.incomingStreets) + (if node.nodeId == street.endNode then [street] else [])
      ensures node.nodeId == old(node.nodeId) && node.currentGreenStreet == old(node.currentGreenStreet)
    {
      if node.nodeId == street.startNode {
        node.AddOutgoingStreet(street);
      }
      if node.nodeId == street.endNode {
        node.AddIncomingStreet(street);
      }
    }

    /** The inner loop of `addStreetsToNode` for one street: the street is
        appended to the outgoing list of every node with its start id and
        to the incoming list of every node with its end id. */
    method AttachStreet(street: Street)
      requires Distinct(nodes)
      modifies nodes
      ensures Outgoing(nodes) == Extend(old(Outgoing(nodes)), NodeIdsOf(nodes), street, street.startNode)
      ensures Incoming(nodes) == Extend(old(Incoming(nodes)), NodeIdsOf(nodes), street, street.endNode)
      ensures NodeIdsOf(nodes) == old(NodeIdsOf(nodes)) && Greens(nodes) == old(Greens(nodes))
    {
      for j := 0 to |nodes|
        invariant forall k :: 0 <= k < j ==>
          nodes[k].outgoingStreets == old(nodes[k].outgoingStreets) + (if nodes[k].nodeId == street.startNode then [street] else [])
        invariant forall k :: 0 <= k < j ==>
          nodes[k].incomingStreets == old(nodes[k].incomingStreets) + (if nodes[k].nodeId == street.endNode then [street] else [])
        invariant forall k :: j <= k < |nodes| ==>
          nodes[k].outgoingStreets == old(nodes[k].outgoingStreets) && nodes[k].incomingStreets == old(nodes[k].incomingStreets)
        invariant forall k :: 0 <= k < |nodes| ==>
          nodes[k].nodeId == old(nodes[k].nodeId) && nodes[k].currentGreenStreet == old(nodes[k].currentGreenStreet)
      {
        WireNode(nodes[j], street);
      }
    }

    /** `addStreetsToNode`: every node's outgoing list gains, in list
        order, the streets that start at its id, and its incoming list the
        streets that end there; nothing else changes in the nodes. */
    method AddStreetsToNode()
      requires Distinct(nodes)
      modifies nodes
      ensures Outgoing(nodes) == Wire(old(Outgoing(nodes)), NodeIdsOf(nodes), streets, old(EndpointsOf(streets, false)))
      ensures Incoming(nodes) == Wire(old(Incoming(nodes)), NodeIdsOf(nodes), streets, old(EndpointsOf(streets, true)))
      ensures NodeIdsOf(nodes) == old(NodeIdsOf(nodes)) && Greens(nodes) == old(Greens(nodes))
    {
      ghost var ids := NodeIdsOf(nodes);
      ghost var outs := Outgoing(nodes);
      ghost var ins := Incoming(nodes);
      ghost var starts := EndpointsOf(streets, false);
      ghost var ends := EndpointsOf(streets, true);
      WireNone(outs, ids, streets, starts);
      WireNone(ins, ids, streets, ends);
      for i := 0 to |streets|
        invariant streets == old(streets) && nodes == old(nodes)
        invariant NodeIdsOf(nodes) == ids && Greens(nodes) == old(Greens(nodes))
        invariant EndpointsOf(streets, false) == starts && EndpointsOf(streets, true) == ends
        invariant Outgoing(nodes) == Wire(outs, ids, streets, starts[..i])
        invariant Incoming(nodes) == Wire(ins, ids, streets, ends[..i])
      {
        AttachStreet(streets[i]);
        WireStep(outs, ids, streets, starts, i);
        WireStep(ins, ids, streets, ends, i);
      }
      assert starts[..|streets|] == starts && ends[..|streets|] == ends;
    }
    // ---- validateNodes ----

    /** `validateNodes`: the first node whose incoming or outgoing list has
        fewer than 1 or more than 4 streets fails the load with its id. */
    method ValidateNodes() returns (r: Outcome)
      ensures r == FirstFail(NodeDegrees(nodes))
      ensures Outgoing(nodes) == old(Outgoing(nodes)) && Incoming(nodes) == old(Incoming(nodes))
      ensures NodeIdsOf(nodes) == old(NodeIdsOf(nodes)) && Greens(nodes) == old(Greens(nodes))
      ensures Layouts(streets) == old(Layouts(streets)) && Queues(streets) == old(Queues(streets))
    {
      ghost var checks := NodeDegrees(nodes);
      for i := 0 to |nodes|
        invariant PassedBefore(checks, i)
      {
        var node := nodes[i];
        var o := node.ValidateCorrespondingStreets(node.incomingStreets);
        if o.Pass? {
          o := node.ValidateCorrespondingStreets(node.outgoingStreets);
        }
        if o.Fail? {
          FirstFailAt(checks, i);
          return o;
        }
        PassedStep(checks, i);
      }
      FirstFailMeaning(checks);
      return Pass;
    }

    // ---- validateNodesExistsForStreets ----

    /** `validateNodesExistsForStreets`: the first street whose start or end
        id is the id of no node fails the load with the street's id. */
    method ValidateNodesExistsForStreets() returns (r: Outcome)
      ensures r == FirstFail(ExistenceChecks(streets, NodeIdsOf(nodes)))
      ensures Outgoing(nodes) == old(Outgoing(nodes)) && Incoming(nodes) == old(Incoming(nodes))
      ensures NodeIdsOf(nodes) == old(NodeIdsOf(nodes)) && Greens(nodes) == old(Greens(nodes))
      ensures Layouts(streets) == old(Layouts(streets)) && Queues(streets) == old(Queues(streets))
    {
      ghost var ids := NodeIdsOf(nodes);
      ghost var checks := ExistenceChecks(streets, ids);
      for i := 0 to |streets|
        invariant PassedBefore(checks, i)
      {
        var street := streets[i];
        var startNodeExists, endNodeExists := false, false;
        for j := 0 to |nodes|
          invariant startNodeExists <==> street.startNode in ids[..j]
          invariant endNodeExists <==> street.endNode in ids[..j]
        {
          assert ids[..j + 1] == ids[..j] + [nodes[j].nodeId];
          if street.startNode == nodes[j].nodeId {
            startNodeExists := true;
          }
          if street.endNode == nodes[j].nodeId {
            endNodeExists := true;
          }
        }
        assert ids[..|nodes|] == ids;
        if !startNodeExists || !endNodeExists {
          FirstFailAt(checks, i);
          return Fail(StreetWithIllegalNode(street.streetId));
        }
        PassedStep(checks, i);
      }
      FirstFailMeaning(checks);
      return Pass;
    }
    // ---- initCars ----

    /** `cars.add(new Car(...))` for one car tuple. */
    method AddCar(t: seq<int>) returns (ghost car: Car)
      requires |t| >= 4
      modifies this`cars
      ensures cars == old(cars) + [car] && fresh(car)
      ensures CarStates(cars) == old(CarStates(cars)) + [CarFor(t)]
      ensures CarIdsOf(cars) == old(CarIdsOf(cars)) + [t[ID]]
    {
      var c := new Car(t[ID], t[STREET], t[PREFERED_SPEED], t[ACCELERATION]);
      cars := cars + [c];
      car := c;
    }

    /** `initCars`: one car per car tuple, in order, appended to the cars
        already present. */
    method InitCars()
      requires forall k :: 0 <= k < |carParameters| ==> |carParameters[k]| >= 4
      modifies this`cars
      ensures unchanged(nodes)
      ensures |old(cars)| <= |cars| && cars[..|old(cars)|] == old(cars)
      ensures CarStates(cars) == old(CarStates(cars)) + CarsFor(carParameters)
      ensures CarIdsOf(cars) == old(CarIdsOf(cars)) + Column(carParameters, ID)
      ensures forall k :: |old(cars)| <= k < |cars| ==> fresh(cars[k])
      ensures Distinct(old(cars)) ==> Distinct(cars)
    {
      ghost var n, s0, ids0 := |cars|, CarStates(cars), CarIdsOf(cars);
      for i := 0 to |carParameters|
        invariant |cars| == n + i && cars[..n] == old(cars)
        invariant CarStates(cars) == s0 + CarsFor(carParameters[..i])
        invariant CarIdsOf(cars) == ids0 + Column(carParameters[..i], ID)
        invariant forall k :: n <= k < |cars| ==> fresh(cars[k])
        invariant Distinct(old(cars)) ==> Distinct(cars)
      {
        ghost var before := cars;
        ghost var car := AddCar(carParameters[i]);
        if Distinct(old(cars)) {
          DistinctAppend(before, car);
        }
        CarsForStep(carParameters, i);
        ColumnStep(carParameters, ID, i);
      }
      assert carParameters[..|carParameters|] == carParameters;
    }
    // ---- addCarsToStreet ----

    /** `setCurrentPosition` on car `i`; no other car changes. */
    method PositionCar(i: nat, position: int)
      requires i < |cars| && Distinct(cars)
      modifies cars[i]
      ensures CarStates(cars) == old(CarStates(cars))[i := At(old(cars[i].State()), position)]
    {
      cars[i].SetCurrentPosition(position);
      assert forall k :: 0 <= k < |cars| && k != i ==> cars[k] != cars[i];
    }

    /** Car `i` is set to `position` and queued at the back of `street`. */
    method AdmitCar(street: Street, i: nat, position: int)
      requires i < |cars| && Distinct(cars)
      modifies street, cars[i]
      ensures street.Record() == old(street.Record()) && street.cars == old(street.cars) + [cars[i]]
      ensures CarStates(cars) == old(CarStates(cars))[i := At(old(cars[i].State()), position)]
    {
      PositionCar(i, position);
      street.Enqueue(cars[i]);
    }

    /** The inner loop of `addCarsToStreet` for one street: the cars naming
        the street are queued on it in list order, the j-th 10 j metres
        before its end; the first car for which that would be before the
        street start fails the load, reporting the street id and the list
        position before that car's. */
    method PlaceCars(street: Street) returns (r: Outcome)
      requires Distinct(cars)
      modifies street, cars
      ensures street.Record() == old(street.Record())
      ensures r == StreetPlacement(street.streetId, street.length, StreetsOf(old(CarStates(cars))))
      ensures street.cars == old(street.cars) + Select(cars, Admitted(StreetsOf(old(CarStates(cars))), street.streetId, street.length))
      ensures CarStates(cars) == Place(old(CarStates(cars)), street.streetId, street.length)
    {
      ghost var s0 := CarStates(cars);
      ghost var q0 := street.cars;
      var id := street.streetId;
      var length := street.length;
      var streetPosition := length;
      var i := 0;
      PlacingStart(s0, q0, id, length, cars);
      while i < |cars| && (cars[i].currentStreet != id || streetPosition >= 0)
        invariant 0 <= i <= |cars| && street.Record() == old(street.Record())
        invariant Placing(s0, q0, id, length, i, streetPosition, street.cars, CarStates(cars), cars)
      {
        ghost var queue, states := street.cars, CarStates(cars);
        PlacingStep(s0, q0, id, length, i, streetPosition, queue, states, cars);
        if cars[i].currentStreet == id {
          AdmitCar(street, i, streetPosition);
          streetPosition := streetPosition - SAVE_DISTANCE;
        }
        i := i + 1;
      }
      r := if i < |cars| then Fail(InvalidNumberOfCarsOnStreet(id, i - 1)) else Pass;
      PlacingEnd(s0, q0, id, length, i, streetPosition, street.cars, CarStates(cars), cars);
    }
    /** The inner loop of `addCarsToStreet` for the street at index `i`. */
    method PlaceCarsAt(i: nat) returns (r: Outcome)
      requires i < |streets| && Distinct(streets) && Distinct(cars)
      modifies streets[i], cars
      ensures Layouts(streets) == old(Layouts(streets)) && LengthsOf(streets) == old(LengthsOf(streets))
      ensures r == StreetPlacement(streets[i].streetId, streets[i].length, StreetsOf(old(CarStates(cars))))
      ensures Queues(streets) == old(Queues(streets))[i := old(streets[i].cars) +
        Select(cars, Admitted(StreetsOf(old(CarStates(cars))), streets[i].streetId, streets[i].length))]
      ensures CarStates(cars) == Place(old(CarStates(cars)), streets[i].streetId, streets[i].length)
    {
      ghost var l0, n0, q0 := Layouts(streets), LengthsOf(streets), Queues(streets);
      r := PlaceCars(streets[i]);
      assert forall k :: 0 <= k < |streets| && k != i ==> streets[k] != streets[i];
      QueueReplaced(streets, i, l0, n0, q0);
    }

    /** One turn of the loop of `addCarsToStreet`: the street at index `i`
        is filled, and the streets filled so far are one more when it
        passes. */
    method FillStreetAt(i: nat, ghost s0: seq<CarState>, ghost q0: seq<seq<Car>>,
                        ghost ids: seq<int>, ghost lengths: seq<int>) returns (r: Outcome)
      requires i < |streets| && Distinct(streets) && Distinct(cars)
      requires ids == StreetIdsOf(streets) && lengths == LengthsOf(streets)
      requires Filled(s0, q0, ids, lengths, cars, i, Pass, Queues(streets), CarStates(cars))
      modifies streets[i], cars
      ensures Layouts(streets) == old(Layouts(streets))
      ensures StreetIdsOf(streets) == ids && LengthsOf(streets) == lengths
      ensures Filled(s0, q0, ids, lengths, cars, if r.Pass? then i + 1 else i, r, Queues(streets), CarStates(cars))
    {
      ghost var queues, states := Queues(streets), CarStates(cars);
      r := PlaceCarsAt(i);
      FillingStep(s0, q0, ids, lengths, cars, i, queues, states, r, Queues(streets)[i], CarStates(cars));
    }

    /** `addCarsToStreet`: street by street, the cars naming the street are
        queued on it and given their starting positions; the first street
        that has no room for its cars fails the load. When none fails,
        every street's queue gains exactly the cars naming it, in list
        order, and every car stands where its street's loop put it. */
    method AddCarsToStreet() returns (r: Outcome)
      requires Distinct(streets) && Distinct(cars)
      modifies streets, cars
      ensures Layouts(streets) == old(Layouts(streets)) && LengthsOf(streets) == old(LengthsOf(streets))
      ensures r == FirstFail(PlacementChecks(StreetIdsOf(streets), LengthsOf(streets), StreetsOf(old(CarStates(cars)))))
      ensures r.Pass? ==> Queues(streets) == Wire(old(Queues(streets)), StreetIdsOf(streets), cars, StreetsOf(old(CarStates(cars))))
      ensures r.Pass? ==> CarStates(cars) == PlaceAll(old(CarStates(cars)), StreetIdsOf(streets), LengthsOf(streets))
    {
      ghost var s0, q0 := CarStates(cars), Queues(streets);
      ghost var l0, ids, lengths := Layouts(streets), StreetIdsOf(streets), LengthsOf(streets);
      FillingStart(s0, q0, ids, lengths, cars);
      r := Pass;
      var i := 0;
      while i < |streets| && r.Pass?
        invariant 0 <= i <= |streets| && streets == old(streets) && cars == old(cars)
        invariant Layouts(streets) == l0 && StreetIdsOf(streets) == ids && LengthsOf(streets) == lengths
        invariant Filled(s0, q0, ids, lengths, cars, i, r, Queues(streets), CarStates(cars))
        decreases |streets| - i, r.Pass?
      {
        r := FillStreetAt(i, s0, q0, ids, lengths);
        if r.Pass? {
          i := i + 1;
        }
      }
      FillingEnd(s0, q0, ids, lengths, cars, i, r, Queues(streets), CarStates(cars));
    }
    // ---- checkDuplicateCarIds and checkDuplicateNodeIds ----

    /** `checkDuplicateCarIds`: the ids go into a set in list order, and the
        first id already in the set fails the load. */
    method CheckDuplicateCarIds() returns (r: Outcome)
      ensures r == match FirstRepeat(CarIdsOf(cars)) case Some(x) => Fail(DuplicatedCarId(x)) case None => Pass
      ensures Layouts(streets) == old(Layouts(streets)) && LengthsOf(streets) == old(LengthsOf(streets))
      ensures CarStates(cars) == old(CarStates(cars)) && Queues(streets) == old(Queues(streets))
    {
      ghost var ids := CarIdsOf(cars);
      var seen: set<int> := {};
      for i := 0 to |cars|
        invariant forall x :: x in seen <==> x in ids[..i]
        invariant FirstRepeat(ids[..i]).None?
      {
        var id := cars[i].carId;
        FirstRepeatStep(ids, i);
        if id in seen {
          FirstRepeatPrefix(ids, i + 1);
          return Fail(DuplicatedCarId(id));
        }
        assert ids[..i + 1] == ids[..i] + [id];
        seen := seen + {id};
      }
      assert ids[..|cars|] == ids;
      return Pass;
    }

    /** `checkDuplicateNodeIds`: the same for the node ids. */
    method CheckDuplicateNodeIds() returns (r: Outcome)
      ensures r == match FirstRepeat(NodeIdsOf(nodes)) case Some(x) => Fail(DuplicatedCrossingId(x)) case None => Pass
      ensures Layouts(streets) == old(Layouts(streets)) && LengthsOf(streets) == old(LengthsOf(streets))
      ensures CarStates(cars) == old(CarStates(cars)) && Queues(streets) == old(Queues(streets))
    {
      ghost var ids := NodeIdsOf(nodes);
      var seen: set<int> := {};
      for i := 0 to |nodes|
        invariant forall x :: x in seen <==> x in ids[..i]
        invariant FirstRepeat(ids[..i]).None?
      {
        var id := nodes[i].nodeId;
        FirstRepeatStep(ids, i);
        if id in seen {
          FirstRepeatPrefix(ids, i + 1);
          return Fail(DuplicatedCrossingId(id));
        }
        assert ids[..i + 1] == ids[..i] + [id];
        seen := seen + {id};
      }
      assert ids[..|nodes|] == ids;
      return Pass;
    }
    // ---- getCurrentCar ----

    /** `getCurrentCar`: the position report of the first car with the id,
        or `CAR_NOT_IN_SIMULATION` when no car has it. The report reads
        back as that car's id, street, speed and position. */
    method GetCurrentCar(carId: int) returns (r: Result<string>)
      ensures r.Success? <==> carId in CarIdsOf(cars)
      ensures r.Success? ==>
        var car := cars[IndexOf(CarIdsOf(cars), carId)];
        ParseReport(r.value) == Some((carId, car.currentStreet, car.currentSpeed, car.currentPosition))
      ensures r.Failure? ==> r.error == CarNotInSimulation
    {
      ghost var ids := CarIdsOf(cars);
      for i := 0 to |cars|
        invariant carId !in ids[..i]
      {
        if cars[i].carId == carId {
          assert IndexOf(ids, carId) == i;
          return Success(cars[i].ToString());
        }
        assert ids[..i + 1] == ids[..i] + [cars[i].carId];
      }
      assert ids[..|cars|] == ids;
      return Failure(CarNotInSimulation);
    }

    // ---- readFiles ----

    /** `readFiles`: the car, street and crossing files are validated in
        that order, and each field is assigned as soon as its file has
        passed, so a failing file leaves the fields after it as they were.
        The contents of the three files are given as their lines. */
    method ReadFiles(carLines: seq<string>, streetLines: seq<string>, crossingLines: seq<string>) returns (r: Outcome)
      modifies this
      ensures streets == old(streets) && cars == old(cars) && nodes == old(nodes)
      ensures r == FilesOutcome(carLines, streetLines, crossingLines)
      ensures carParameters == (if Tuples(CarFile, carLines).Success? then Tuples(CarFile, carLines).value else old(carParameters))
      ensures streetParameters == (if Tuples(CarFile, carLines).Success? && Tuples(StreetFile, streetLines).Success?
                                   then Tuples(StreetFile, streetLines).value else old(streetParameters))
      ensures crossingParameters == (if r.Pass? then Tuples(CrossingFile, crossingLines).value else old(crossingParameters))
    {
      var cs := ValidateCars(carLines);
      if cs.Failure? {
        return Fail(cs.error);
      }
      carParameters := cs.value;
      var ss := ValidateStreets(streetLines);
      if ss.Failure? {
        return Fail(ss.error);
      }
      streetParameters := ss.value;
      var xs := ValidateCrossings(crossingLines);
      if xs.Failure? {
        return Fail(xs.error);
      }
      crossingParameters := xs.value;
      return Pass;
    }
    // ---- init ----

    /** What every operation keeps: different nodes with fitting green
        markers and different lights, and no street or car listed twice. */
    ghost predicate Sound()
      reads this, nodes
    {
      NodesOk(nodes) && Distinct(streets) && Distinct(cars)
    }

    /** A network the tick can run on: sound, and every queued car is a car
        of the network, queued once on one street. */
    ghost predicate Valid()
      reads this, nodes, streets
    {
      Sound() && QueuesOk(Queues(streets), cars)
    }

    /** The nodes are those a first load builds from the crossing tuples
        `xp`, wired to the streets of the street tuples `sp`: one node per
        crossing tuple, with the tuple's id and kind, and each node's lists
        hold, in street order, the streets that start and that end at its
        id. */
    ghost predicate Junctions(sp: seq<seq<int>>, xp: seq<seq<int>>)
      requires Shaped([], sp, xp)
      reads this`nodes, this`streets, nodes
    {
      var ids := Column(xp, ID);
      && |streets| == |sp| && NodeIdsOf(nodes) == ids && Greens(nodes) == GreensFor(xp)
      && (forall k :: 0 <= k < |nodes| ==> Lit(nodes[k], xp[k]))
      && Outgoing(nodes) == Wire(Empties(|xp|), ids, streets, Column(sp, START_NODE))
      && Incoming(nodes) == Wire(Empties(|xp|), ids, streets, Column(sp, END_NODE))
    }

    /** The nodes and streets are those a first load builds from the street
        tuples `sp` and the crossing tuples `xp`: one street per tuple with
        the tuple's fields, and the nodes above. */
    ghost predicate Topology(sp: seq<seq<int>>, xp: seq<seq<int>>)
      requires Shaped([], sp, xp)
      reads this, nodes, streets
    {
      Layouts(streets) == LayoutsFor(sp) && LanesOf(streets) == LanesFor(sp) && Junctions(sp, xp)
    }

    /** The network a first load builds from the three tuple lists: the
        topology above, each street's queue holds, in car order, the cars
        whose street id is its id, and every car stands where
        `addCarsToStreet` puts it. */
    ghost predicate Loaded(cp: seq<seq<int>>, sp: seq<seq<int>>, xp: seq<seq<int>>)
      requires Shaped(cp, sp, xp)
      reads this, nodes, streets, cars
    {
      && CarStates(cars) == LoadedCars(cp, sp)
      && Topology(sp, xp)
      && Queues(streets) == Wire(Empties(|sp|), Indices(|sp|), cars, Column(cp, STREET))
    }

    /** `addStreetsToNode` within `init`. Beyond what `AddStreetsToNode`
        promises, this states that the network stays sound and its streets
        are untouched; proving that here keeps the frame reasoning out of
        the proof of `init`. */
    method WireNodes()
      requires Sound()
      modifies nodes
      ensures Sound()
      ensures NodeIdsOf(nodes) == old(NodeIdsOf(nodes)) && Greens(nodes) == old(Greens(nodes))
      ensures Layouts(streets) == old(Layouts(streets)) && Queues(streets) == old(Queues(streets))
      ensures Outgoing(nodes) == Wire(old(Outgoing(nodes)), NodeIdsOf(nodes), streets, old(EndpointsOf(streets, false)))
      ensures Incoming(nodes) == Wire(old(Incoming(nodes)), NodeIdsOf(nodes), streets, old(EndpointsOf(streets, true)))
    {
      AddStreetsToNode();
    }

    /** `validateNodes`, then `validateNodesExistsForStreets` if it passed. */
    method CheckNodes() returns (r: Outcome)
      ensures r == var d := FirstFail(NodeDegrees(nodes));
        if d.Fail? then d else FirstFail(ExistenceChecks(streets, NodeIdsOf(nodes)))
      ensures Outgoing(nodes) == old(Outgoing(nodes)) && Incoming(nodes) == old(Incoming(nodes))
      ensures NodeIdsOf(nodes) == old(NodeIdsOf(nodes)) && Greens(nodes) == old(Greens(nodes))
      ensures Layouts(streets) == old(Layouts(streets)) && Queues(streets) == old(Queues(streets))
    {
      r := ValidateNodes();
      if r.Pass? {
        r := ValidateNodesExistsForStreets();
      }
    }

    /** The stages of `init` after the streets exist: `addStreetsToNode`,
        `validateNodes` and `validateNodesExistsForStreets`, up to the first
        that fails. Only the street lists of the nodes change. */
    method WireTopology() returns (r: Outcome)
      requires Sound()
      modifies nodes
      ensures Sound() && unchanged(this)
      ensures NodeIdsOf(nodes) == old(NodeIdsOf(nodes)) && Greens(nodes) == old(Greens(nodes))
      ensures Layouts(streets) == old(Layouts(streets)) && Queues(streets) == old(Queues(streets))
      ensures Outgoing(nodes) == Wire(old(Outgoing(nodes)), NodeIdsOf(nodes), streets, old(EndpointsOf(streets, false)))
      ensures Incoming(nodes) == Wire(old(Incoming(nodes)), NodeIdsOf(nodes), streets, old(EndpointsOf(streets, true)))
      ensures r == var d := FirstFail(NodeDegrees(nodes));
        if d.Fail? then d else FirstFail(ExistenceChecks(streets, NodeIdsOf(nodes)))
    {
      WireNodes();
      r := CheckNodes();
    }

    /** The first two stages of `init`: `initNodes`, then `initStreets`.
        On lists that were empty they build the nodes and the streets of
        the tuples. */
    method BuildTopology() returns (r: Outcome)
      requires Shaped(carParameters, streetParameters, crossingParameters) && Sound()
      modifies this
      ensures cars == old(cars)
      ensures carParameters == old(carParameters) && streetParameters == old(streetParameters)
      ensures crossingParameters == old(crossingParameters)
      ensures Sound()
      ensures NodeIdsOf(nodes) == old(NodeIdsOf(nodes)) + Column(crossingParameters, ID)
      ensures r == FirstFail(StreetChecks(streetParameters, NodeIdsOf(nodes)))
      ensures |old(nodes)| <= |nodes| && nodes[..|old(nodes)|] == old(nodes)
      ensures forall k :: |old(nodes)| <= k < |nodes| ==> fresh(nodes[k])
      ensures |old(streets)| <= |streets| && streets[..|old(streets)|] == old(streets)
      ensures forall k :: |old(streets)| <= k < |streets| ==> fresh(streets[k])
      ensures old(nodes) == [] ==> AllMade(nodes, crossingParameters)
      ensures old(streets) == [] && r.Pass? ==> AllBuilt(streets, streetParameters)
    {
      ghost var n0, s0 := |nodes|, |streets|;
      InitNodes();
      assert n0 == 0 ==> nodes[0..] == nodes;
      r := InitStreets();
      assert s0 == 0 ==> streets[0..] == streets;
    }

    /** The first five stages of `init`: `initNodes`, `initStreets`,
        `addStreetsToNode`, `validateNodes` and
        `validateNodesExistsForStreets`, up to the first that fails. The
        crossing ids are appended to the node ids whatever the outcome; on
        lists that were empty the outcome is the topology part of the load
        outcome, and a pass leaves the topology of the tuples. */
    method InitTopology() returns (r: Outcome)
      requires Shaped(carParameters, streetParameters, crossingParameters) && Sound()
      modifies this, nodes
      ensures cars == old(cars)
      ensures carParameters == old(carParameters) && streetParameters == old(streetParameters)
      ensures crossingParameters == old(crossingParameters)
      ensures Sound()
      ensures NodeIdsOf(nodes) == old(NodeIdsOf(nodes)) + Column(crossingParameters, ID)
      ensures |old(streets)| <= |streets| && streets[..|old(streets)|] == old(streets)
      ensures forall k :: |old(streets)| <= k < |streets| ==> fresh(streets[k])
      ensures old(nodes) == [] && old(streets) == [] ==>
        && r == TopologyOutcome(streetParameters, crossingParameters)
        && (r.Pass? ==> Topology(streetParameters, crossingParameters) && Queues(streets) == Empties(|streetParameters|))
    {
      ghost var first := nodes == [] && streets == [];
      ghost var sp, xp := streetParameters, crossingParameters;
      ghost var ids0 := NodeIdsOf(nodes);
      r := BuildTopology();
      ghost var ids := NodeIdsOf(nodes);
      if first {
        assert ids0 == [] && ids == Column(xp, ID);
      }
      if r.Fail? {
        return;
      }
      if first {
        MadeParts(nodes, xp);
        BuiltParts(streets, sp);
      }
      r := WireTopology();
      if first {
        ExistenceAfterInitStreets(streets, sp, ids);
        DegreesWired(nodes, ids, streets, Column(sp, START_NODE), Column(sp, END_NODE));
      }
    }

    /** `initCars`, then `addCarsToStreet`: the cars of the car tuples are
        appended, then every car is queued on the street it names and
        given its starting position. */
    method PlaceTraffic() returns (r: Outcome)
      requires Shaped(carParameters, streetParameters, crossingParameters) && Sound()
      modifies this`cars, streets, cars
      ensures carParameters == old(carParameters) && streetParameters == old(streetParameters)
      ensures crossingParameters == old(crossingParameters)
      ensures unchanged(nodes) && Distinct(cars)
      ensures Layouts(streets) == old(Layouts(streets))
      ensures CarIdsOf(cars) == old(CarIdsOf(cars)) + Column(carParameters, ID)
      ensures r == FirstFail(PlacementChecks(StreetIdsOf(streets), LengthsOf(streets),
                                             StreetsOf(old(CarStates(cars)) + CarsFor(carParameters))))
      ensures r.Pass? ==> CarStates(cars) == PlaceAll(old(CarStates(cars)) + CarsFor(carParameters), StreetIdsOf(streets), LengthsOf(streets))
      ensures r.Pass? ==>
        Queues(streets) == Wire(old(Queues(streets)), StreetIdsOf(streets), cars,
                                StreetsOf(old(CarStates(cars)) + CarsFor(carParameters)))
    {
      InitCars();
      assert nodes == old(nodes) && unchanged(nodes);
      label Mid:
      r := FillStreets();
      assert nodes == old@Mid(nodes) && unchanged@Mid(nodes);
    }

    /** The last four stages of `init`: `initCars`, `addCarsToStreet`,
        `checkDuplicateCarIds` and `checkDuplicateNodeIds`, up to the first
        that fails. */
    method InitTraffic() returns (r: Outcome)
      requires Shaped(carParameters, streetParameters, crossingParameters) && Sound()
      modifies this`cars, streets, cars
      ensures carParameters == old(carParameters) && streetParameters == old(streetParameters)
      ensures crossingParameters == old(crossingParameters)
      ensures unchanged(nodes) && Distinct(cars)
      ensures Layouts(streets) == old(Layouts(streets))
      ensures CarIdsOf(cars) == old(CarIdsOf(cars)) + Column(carParameters, ID)
      ensures r == var p := FirstFail(PlacementChecks(StreetIdsOf(streets), LengthsOf(streets),
                                                      StreetsOf(old(CarStates(cars)) + CarsFor(carParameters))));
        if p.Fail? then p
        else match FirstRepeat(CarIdsOf(cars))
          case Some(x) => Fail(DuplicatedCarId(x))
          case None => match FirstRepeat(NodeIdsOf(nodes))
            case Some(x) => Fail(DuplicatedCrossingId(x))
            case None => Pass
      ensures r.Pass? ==> CarStates(cars) == PlaceAll(old(CarStates(cars)) + CarsFor(carParameters), StreetIdsOf(streets), LengthsOf(streets))
      ensures r.Pass? ==>
        Queues(streets) == Wire(old(Queues(streets)), StreetIdsOf(streets), cars,
                                StreetsOf(old(CarStates(cars)) + CarsFor(carParameters)))
    {
      r := PlaceTraffic();
      if r.Pass? {
        r := CheckIds();
      }
    }

    /** `checkDuplicateCarIds`, then `checkDuplicateNodeIds` if it passed. */
    method CheckIds() returns (r: Outcome)
      ensures r == match FirstRepeat(CarIdsOf(cars))
        case Some(x) => Fail(DuplicatedCarId(x))
        case None => match FirstRepeat(NodeIdsOf(nodes))
          case Some(x) => Fail(DuplicatedCrossingId(x))
          case None => Pass
      ensures Layouts(streets) == old(Layouts(streets)) && LengthsOf(streets) == old(LengthsOf(streets))
      ensures CarStates(cars) == old(CarStates(cars)) && Queues(streets) == old(Queues(streets))
    {
      r := CheckDuplicateCarIds();
      if r.Pass? {
        r := CheckDuplicateNodeIds();
      }
    }

    /** The traffic stages of `init` on a network that has the streets of
        the street tuples with empty queues and no cars yet: the outcome is
        the traffic part of the load outcome, and a pass queues and places
        the cars as the tuples say. A pass leaves no node id twice. */
    method LoadTraffic() returns (r: Outcome)
      requires Shaped(carParameters, streetParameters, crossingParameters) && Sound()
      modifies this`cars, streets, cars
      ensures carParameters == old(carParameters) && streetParameters == old(streetParameters)
      ensures crossingParameters == old(crossingParameters)
      ensures unchanged(nodes) && Distinct(cars)
      ensures Layouts(streets) == old(Layouts(streets))
      ensures r.Pass? ==> NoRepeats(NodeIdsOf(nodes))
      ensures old(cars) == [] && old(Layouts(streets)) == LayoutsFor(streetParameters)
              && old(Queues(streets)) == Empties(|streetParameters|) ==>
        && r == TrafficOutcome(carParameters, streetParameters, NodeIdsOf(nodes))
        && (r.Pass? ==>
              && CarStates(cars) == LoadedCars(carParameters, streetParameters)
              && Queues(streets) == Wire(Empties(|streetParameters|), Indices(|streetParameters|), cars,
                                         Column(carParameters, STREET))
              && QueuesOk(Queues(streets), cars))
    {
      ghost var first := cars == [] && Layouts(streets) == LayoutsFor(streetParameters)
                         && Queues(streets) == Empties(|streetParameters|);
      ghost var cp, sp := carParameters, streetParameters;
      ghost var s0, q0, ids0 := CarStates(cars), Queues(streets), CarIdsOf(cars);
      r := InitTraffic();
      if r.Pass? {
        FirstRepeatMeaning(NodeIdsOf(nodes));
      }
      if first {
        assert s0 == [] && ids0 == [];
        LaidOut(streets, sp);
        TrafficFresh(cp, sp, cars, CarIdsOf(cars), NodeIdsOf(nodes), r, CarStates(cars), Queues(streets));
      }
    }

    /** The traffic stages of `init` after a topology stage that passed:
        they keep the nodes, the streets' records and the topology, and on a
        network that had no cars yet their outcome and result are those of
        a first load. */
    method AddTraffic() returns (r: Outcome)
      requires Shaped(carParameters, streetParameters, crossingParameters) && Sound()
      modifies this`cars, streets, cars
      ensures carParameters == old(carParameters) && streetParameters == old(streetParameters)
      ensures crossingParameters == old(crossingParameters)
      ensures Sound() && NodeIdsOf(nodes) == old(NodeIdsOf(nodes))
      ensures r.Pass? ==> NoRepeats(NodeIdsOf(nodes))
      ensures old(Topology(streetParameters, crossingParameters)) ==> Topology(streetParameters, crossingParameters)
      ensures old(cars) == [] && old(Topology(streetParameters, crossingParameters))
              && old(Queues(streets)) == Empties(|streetParameters|) ==>
        && r == TrafficOutcome(carParameters, streetParameters, NodeIdsOf(nodes))
        && (r.Pass? ==>
              && CarStates(cars) == LoadedCars(carParameters, streetParameters)
              && Queues(streets) == Wire(Empties(|streetParameters|), Indices(|streetParameters|), cars,
                                         Column(carParameters, STREET))
              && QueuesOk(Queues(streets), cars))
    {
      r := LoadTraffic();
    }

    /** `init`: the nine stages, up to the first that fails. The crossing
        ids are appended to the node ids whatever the outcome, and a pass
        leaves no node id twice. On lists that were empty the outcome is
        the load outcome of the tuples, and a pass leaves the network those
        tuples describe, ready to tick. */
    method Init() returns (r: Outcome)
      requires Shaped(carParameters, streetParameters, crossingParameters) && Sound()
      modifies this, nodes, streets, cars
      ensures carParameters == old(carParameters) && streetParameters == old(streetParameters)
      ensures crossingParameters == old(crossingParameters)
      ensures Sound()
      ensures NodeIdsOf(nodes) == old(NodeIdsOf(nodes)) + Column(crossingParameters, ID)
      ensures r.Pass? ==> NoRepeats(NodeIdsOf(nodes))
      ensures old(nodes) == [] && old(streets) == [] && old(cars) == [] ==>
        && r == LoadOutcome(carParameters, streetParameters, crossingParameters)
        && (r.Pass? ==> Loaded(carParameters, streetParameters, crossingParameters) && Valid())
    {
      r := InitTopology();
      if r.Fail? {
        return;
      }
      r := AddTraffic();
    }

    /** `addCarsToStreet` within `init`. Beyond what `AddCarsToStreet`
        promises, this states that the network object and its nodes are
        unchanged; proving that here keeps the frame reasoning out of the
        proof of `init`. */
    method FillStreets() returns (r: Outcome)
      requires Distinct(streets) && Distinct(cars)
      modifies streets, cars
      ensures unchanged(this) && unchanged(nodes)
      ensures Layouts(streets) == old(Layouts(streets)) && LengthsOf(streets) == old(LengthsOf(streets))
      ensures r == FirstFail(PlacementChecks(StreetIdsOf(streets), LengthsOf(streets), StreetsOf(old(CarStates(cars)))))
      ensures r.Pass? ==> Queues(streets) == Wire(old(Queues(streets)), StreetIdsOf(streets), cars, StreetsOf(old(CarStates(cars))))
      ensures r.Pass? ==> CarStates(cars) == PlaceAll(old(CarStates(cars)), StreetIdsOf(streets), LengthsOf(streets))
    {
      r := AddCarsToStreet();
    }
    // ---- load and reload ----

    /** A load as evidently intended: the three lists are emptied first,
        then `init` runs. Whatever the network held before, the outcome is
        the load outcome of the tuples, and a pass leaves the network those
        tuples describe, ready to tick. */
    method Load() returns (r: Outcome)
      requires Shaped(carParameters, streetParameters, crossingParameters)
      modifies this
      ensures carParameters == old(carParameters) && streetParameters == old(streetParameters)
      ensures crossingParameters == old(crossingParameters)
      ensures Sound()
      ensures r == LoadOutcome(carParameters, streetParameters, crossingParameters)
      ensures r.Pass? ==> Loaded(carParameters, streetParameters, crossingParameters) && Valid()
    {
      nodes, streets, cars := [], [], [];
      r := Init();
    }

    /** `init` as written, on a network that already holds a node with the
        id of one of the crossing tuples, as every earlier `init` with the
        same crossing tuples leaves it, whether it passed or failed: the
        crossing ids are appended once more, so this `init` fails. */
    method InitAgain() returns (r: Outcome)
      requires Shaped(carParameters, streetParameters, crossingParameters) && Sound()
      requires exists k :: 0 <= k < |crossingParameters| && crossingParameters[k][ID] in NodeIdsOf(nodes)
      modifies this, nodes, streets, cars
      ensures r.Fail?
    {
      ghost var ids0 := NodeIdsOf(nodes);
      ghost var k :| 0 <= k < |crossingParameters| && crossingParameters[k][ID] in ids0;
      r := Init();
      KnownIdRepeats(ids0, Column(crossingParameters, ID), k);
    }

    // ---- update ----

    /** The answer the street gets from its end junction: the first node
        with the street's end node id is asked whether the street has
        green. */
    method AskEndNode(street: Street) returns (green: bool)
      requires Sound()
      ensures green == EndGreen(Signals(nodes), street.endNode, street.streetId)
    {
      var found := GetNodeFromID(street.endNode, street.streetId);
      green := found.Success? && found.value.HasStreetGreen(street.streetId);
      ghost var js := Signals(nodes);
      ghost var ids := seq(|js|, k requires 0 <= k < |js| => js[k].id);
      assert ids == NodeIdsOf(nodes);
    }

    /** The tick of street `i` with the given answer of its end junction.
        No other street's queue and no node changes. */
    method RunStreet(i: nat, green: bool, dyn: StreetDynamics)
      requires Valid() && i < |streets| && HeadIsFree(dyn)
      modifies streets[i], streets[i].cars
      ensures Valid() && unchanged(this) && Layouts(streets) == old(Layouts(streets))
      ensures unchanged(nodes) && unchanged(Lights(nodes))
      ensures streets[i].Slots() == old(streets[i].Next(green, dyn))
      ensures forall k :: 0 <= k < |streets| && k != i ==> streets[k].Slots() == old(streets[k].Slots())
    {
      ghost var qs := Queues(streets);
      assert QueuesOk(qs, cars);
      var street := streets[i];
      street.Run(green, dyn);
      assert unchanged(nodes);
      assert NodesOk(nodes);
      forall k | 0 <= k < |streets| && k != i
        ensures streets[k].cars == qs[k] && streets[k].Slots() == old(streets[k].Slots())
      {
        assert streets[k] != street;
        forall j | 0 <= j < |qs[k]|
          ensures qs[k][j].State() == old(qs[k][j].State())
        {
          assert qs[k][j] !in qs[i];
        }
      }
      QueuesShrink(qs, Queues(streets), cars, i);
    }

    /** One street's `update`: the street asks the first node with its end
        node's id whether it has green, then runs its tick. No other
        street's queue and no node changes. */
    method UpdateStreet(i: nat, dyn: StreetDynamics)
      requires Valid() && i < |streets| && HeadIsFree(dyn)
      modifies streets[i], streets[i].cars
      ensures Valid() && unchanged(this) && Layouts(streets) == old(Layouts(streets))
      ensures unchanged(nodes) && Signals(nodes) == old(Signals(nodes))
      ensures streets[i].Slots() == Move(old(streets[i].Slots()), streets[i].Record(), streets[i].fastTrack, Signals(nodes), dyn)
      ensures forall k :: 0 <= k < |streets| && k != i ==> streets[k].Slots() == old(streets[k].Slots())
    {
      var green := AskEndNode(streets[i]);
      RunStreet(i, green, dyn);
    }

    /** `updateStreets`: every street, in list order, runs its tick with the
        answer of its end junction. The nodes do not change, so every
        street is answered by the junctions as they were before. */
    method UpdateStreets(dyn: StreetDynamics)
      requires Valid() && HeadIsFree(dyn)
      modifies streets, cars
      ensures Valid() && unchanged(this) && Layouts(streets) == old(Layouts(streets))
      ensures unchanged(nodes) && Signals(nodes) == old(Signals(nodes))
      ensures QueueSlots(streets) == Moves(old(QueueSlots(streets)), Layouts(streets), LanesOf(streets), Signals(nodes), dyn)
    {
      ghost var before := QueueSlots(streets);
      ghost var moved := Moves(before, Layouts(streets), LanesOf(streets), Signals(nodes), dyn);
      for i := 0 to |streets|
        invariant unchanged(this) && Valid() && Layouts(streets) == old(Layouts(streets))
        invariant unchanged(nodes) && Signals(nodes) == old(Signals(nodes))
        invariant forall k :: 0 <= k < i ==> streets[k].Slots() == moved[k]
        invariant forall k :: i <= k < |streets| ==> streets[k].Slots() == before[k]
      {
        assert streets[i].cars == Queues(streets)[i];
        assert forall j :: 0 <= j < |streets[i].cars| ==> streets[i].cars[j] in old(cars);
        UpdateStreet(i, dyn);
      }
      assert forall k :: 0 <= k < |streets| ==> QueueSlots(streets)[k] == moved[k];
    }

    /** `resetCarMoves` of street `i`. No other street's queue and no node
        changes. */
    method ResetStreet(i: nat, dyn: StreetDynamics)
      requires Valid() && i < |streets|
      modifies streets[i].cars
      ensures Valid() && unchanged(this) && Queues(streets) == old(Queues(streets))
      ensures unchanged(nodes) && unchanged(Lights(nodes))
      ensures streets[i].Slots() == Reset(old(streets[i].Slots()), dyn)
      ensures forall k :: 0 <= k < |streets| && k != i ==> streets[k].Slots() == old(streets[k].Slots())
    {
      var street := streets[i];
      street.ResetCarMoves(dyn);
      forall k | 0 <= k < |streets| && k != i
        ensures streets[k].Slots() == old(streets[k].Slots())
      {
        var q := streets[k].cars;
        forall j | 0 <= j < |q|
          ensures q[j].State() == old(q[j].State())
        {
          assert q[j] in old(Queues(streets))[k];
        }
      }
    }

    /** `resetAllCarsOnStreets`: the per-tick fields of every queued car are
        reset, street by street; each queued car is reset once. */
    method ResetAllCarsOnStreets(dyn: StreetDynamics)
      requires Valid()
      modifies cars
      ensures Valid() && unchanged(this) && Queues(streets) == old(Queues(streets))
      ensures unchanged(nodes) && Signals(nodes) == old(Signals(nodes))
      ensures QueueSlots(streets) == ResetAll(old(QueueSlots(streets)), dyn)
    {
      for i := 0 to |streets|
        invariant unchanged(this) && Valid() && Queues(streets) == old(Queues(streets))
        invariant unchanged(nodes) && Signals(nodes) == old(Signals(nodes))
        invariant forall k :: 0 <= k < i ==> streets[k].Slots() == Reset(old(streets[k].Slots()), dyn)
        invariant forall k :: i <= k < |streets| ==> streets[k].Slots() == old(streets[k].Slots())
      {
        assert streets[i].cars == Queues(streets)[i];
        assert forall j :: 0 <= j < |streets[i].cars| ==> streets[i].cars[j] in old(cars);
        ResetStreet(i, dyn);
      }
      assert forall k :: 0 <= k < |streets| ==> QueueSlots(streets)[k] == ResetAll(old(QueueSlots(streets)), dyn)[k];
    }

    /** The `update` of node `i`. No other node and no street changes. */
    method UpdateNode(i: nat)
      requires Sound() && i < |nodes|
      modifies nodes[i], nodes[i].light
      ensures Sound() && unchanged(this) && unchanged(streets)
      ensures NodeIdsOf(nodes) == old(NodeIdsOf(nodes))
      ensures Outgoing(nodes) == old(Outgoing(nodes)) && Incoming(nodes) == old(Incoming(nodes))
      ensures Signals(nodes)[i] == Step(old(Signals(nodes)[i]))
      ensures forall k :: 0 <= k < |streets| ==> streets[k].Slots() == old(streets[k].Slots())
      ensures forall k :: 0 <= k < |nodes| && k != i ==> Signals(nodes)[k] == old(Signals(nodes)[k])
    {
      var node := nodes[i];
      node.Update();
    }

    /** `updateNodes`: every node, in list order, runs its tick. */
    method UpdateNodes()
      requires Sound()
      modifies nodes, Lights(nodes)
      ensures Sound() && unchanged(this) && unchanged(streets)
      ensures NodeIdsOf(nodes) == old(NodeIdsOf(nodes))
      ensures Outgoing(nodes) == old(Outgoing(nodes)) && Incoming(nodes) == old(Incoming(nodes))
      ensures Signals(nodes) == StepAll(old(Signals(nodes)))
      ensures QueueSlots(streets) == old(QueueSlots(streets))
    {
      for i := 0 to |nodes|
        invariant unchanged(this) && Sound() && unchanged(streets)
        invariant NodeIdsOf(nodes) == old(NodeIdsOf(nodes))
        invariant Outgoing(nodes) == old(Outgoing(nodes)) && Incoming(nodes) == old(Incoming(nodes))
        invariant forall k :: 0 <= k < i ==> Signals(nodes)[k] == Step(old(Signals(nodes)[k]))
        invariant forall k :: i <= k < |nodes| ==> Signals(nodes)[k] == old(Signals(nodes)[k])
        invariant forall k :: 0 <= k < |streets| ==> streets[k].Slots() == old(streets[k].Slots())
      {
        UpdateNode(i);
      }
    }

    /** The two traffic phases of `update`: every street runs its tick,
        then the per-tick fields of every queued car are reset. */
    method MoveTraffic(dyn: StreetDynamics)
      requires Valid() && HeadIsFree(dyn)
      modifies streets, cars
      ensures Valid() && unchanged(this) && Layouts(streets) == old(Layouts(streets))
      ensures unchanged(nodes) && Signals(nodes) == old(Signals(nodes))
      ensures NodeIdsOf(nodes) == old(NodeIdsOf(nodes))
      ensures Outgoing(nodes) == old(Outgoing(nodes)) && Incoming(nodes) == old(Incoming(nodes))
      ensures QueueSlots(streets) ==
        ResetAll(Moves(old(QueueSlots(streets)), Layouts(streets), LanesOf(streets), old(Signals(nodes)), dyn), dyn)
    {
      UpdateStreets(dyn);
      ResetAllCarsOnStreets(dyn);
    }

    /** `update`: first every street runs its tick, then the per-tick
        fields of every queued car are reset, then every node runs its
        tick, each phase in list order. The streets are answered by the
        junctions as they were before the tick. The tick keeps the network
        ready to tick and its streets' records; through the junction
        values it keeps the nodes' ids and the ids of their streets. */
    method Update(dyn: StreetDynamics)
      requires Valid() && HeadIsFree(dyn)
      modifies streets, cars, nodes, Lights(nodes)
      ensures Valid()
      ensures Layouts(streets) == old(Layouts(streets))
      ensures Signals(nodes) == StepAll(old(Signals(nodes)))
      ensures QueueSlots(streets) ==
        ResetAll(Moves(old(QueueSlots(streets)), Layouts(streets), LanesOf(streets), old(Signals(nodes)), dyn), dyn)
    {
      MoveTraffic(dyn);
      UpdateNodes();
    }
  }
}
