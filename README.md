# Traffic simulation core in Dafny

This project models the core of a small traffic simulator. The simulator
reads three text files:

- a car file, one line `id,street,preferredSpeed,acceleration` per car;
- a street file, one line `start-->end:<length>m,<lanes>x,<limit>max` per street;
- a crossing file, one line `id:<greenTime>t` per crossing.

From these files it builds a street network. Crossings become roundabouts
(green time 0) or intersections with a traffic light. Every street is
wired to its start and end node, and the cars are queued on their streets
10 m apart, counting back from the street end. Each tick of the
simulation runs three steps:

1. Every street with an overtaking lane moves its cars: it runs its loop
   of accelerate, drive, overtake or turn off. The update of a single-lane
   street is empty.
2. Every car's per-tick fields are reset.
3. Every intersection counts its light down and, when the green phase is
   over, moves its green index to the next incoming street.

The modules follow the program's packages:

- `TrafficLights`, `Nodes`, `Streets` and `Cars` hold the simulation
  entities. They are classes with the source's fields, next to datatypes
  that record their field values.
- `TextParsing` and `LineFormats` hold the input validation. `Decimal`
  holds integer parsing and printing.
- `Loading` holds the pure outcome of building a network from tuples.
- `Network` holds the `StreetNetwork` class and its tick.
- `Simulations` holds the session object.
- `Errors` holds the error messages as a datatype. `Sequences` holds list
  helpers.

Methods that change state are proved against specification functions:

- `Step` and `StepAll` for junctions;
- `Tick`, `Move` and `Ticks` for street queues;
- `Tuples` for the validators;
- `LoadOutcome` for `init`.

The properties are then proved about those functions. Examples are the
light's period, the green index after k ticks, conservation of cars in
a tick, the exact conditions under which a load passes, and the round
trip of the car report.

## Model

| member | source | states |
|---|---|---|
| TrafficLights.TrafficLight.constructor | Exercise/src/edu/kit/kastel/trafficsimulation/model/node/TrafficLight.java:14-17 | the remaining green time starts at the full duration and the duration is kept; a duration that is not negative gives the invariant 0 <= remaining <= duration |
| TrafficLights.TrafficLight.Update | Exercise/src/edu/kit/kastel/trafficsimulation/model/node/TrafficLight.java:27-32 | the remaining time drops by one while positive and stays at 0; the invariant is kept, so it never goes negative |
| TrafficLights.TrafficLight.IsGreenPhaseOver | Exercise/src/edu/kit/kastel/trafficsimulation/model/node/TrafficLight.java:19-25 | true iff the remaining time was 0; then the light is reset to the full duration, otherwise nothing changes; the invariant is kept |
| TrafficLights.TrafficLight.ResetRemainingGreenTime | Exercise/src/edu/kit/kastel/trafficsimulation/model/node/TrafficLight.java:34-36 | the remaining time becomes the full duration |
| TrafficLights.CountdownFromFull | Exercise/src/edu/kit/kastel/trafficsimulation/model/node/TrafficLight.java:27-32 | k <= d updates of a light with remaining time d leave d - k |
| TrafficLights.CountdownNeverNegative | Exercise/src/edu/kit/kastel/trafficsimulation/model/node/TrafficLight.java:27-32 | any number of updates keeps a remaining time that starts at 0 or above between 0 and its start value |
| TrafficLights.CycleInRange | Exercise/src/edu/kit/kastel/trafficsimulation/model/node/TrafficLight.java:19-32 | update followed by isGreenPhaseOver keeps 0 <= remaining <= duration and never changes the duration |
| TrafficLights.SignalAfterFormula | Exercise/src/edu/kit/kastel/trafficsimulation/model/node/TrafficLight.java:19-32 | with duration d >= 1, k ticks of a full light leave remaining time d - (k mod d) |
| TrafficLights.ExpiresOnMultiples | Exercise/src/edu/kit/kastel/trafficsimulation/model/node/TrafficLight.java:19-32 | with duration d >= 1 the green phase is over on tick k exactly when d divides k |
| Nodes.Node.Roundabout | Exercise/src/edu/kit/kastel/trafficsimulation/model/node/Roundabout.java:12-14 | a roundabout keeps the given id, starts with no streets, the green marker ALL_STREETS_GREEN = -1 and no light |
| Nodes.Node.Intersection | Exercise/src/edu/kit/kastel/trafficsimulation/model/node/Intersection.java:20-23 | an intersection keeps the given id, starts with no streets, green index START_STREET = 0 and a fresh light at full duration |
| Nodes.Node.ValidateCorrespondingStreets | Exercise/src/edu/kit/kastel/trafficsimulation/model/node/Node.java:30-34 | passes iff the list has between 1 and MAXIMUM_STREETS = 4 entries, otherwise fails with the node's id; reads only |
| Nodes.Node.SetNodeId | Exercise/src/edu/kit/kastel/trafficsimulation/model/node/Node.java:40-42 | sets the id; the street lists and the green index are unchanged |
| Nodes.Node.SetIncomingStreets | Exercise/src/edu/kit/kastel/trafficsimulation/model/node/Node.java:48-50 | replaces the incoming list only |
| Nodes.Node.SetOutgoingStreets | Exercise/src/edu/kit/kastel/trafficsimulation/model/node/Node.java:56-58 | replaces the outgoing list only |
| Nodes.Node.AddIncomingStreet | Exercise/src/edu/kit/kastel/trafficsimulation/model/StreetNetwork.java:182 | appending to the list the getter hands out appends to the node's own incoming list and changes nothing else |
| Nodes.Node.AddOutgoingStreet | Exercise/src/edu/kit/kastel/trafficsimulation/model/StreetNetwork.java:179 | appending to the list the getter hands out appends to the node's own outgoing list and changes nothing else |
| Nodes.Green | Exercise/src/edu/kit/kastel/trafficsimulation/model/node/Intersection.java:41-45 | a roundabout gives green to every street; an intersection gives green iff the green index is at most n - 1 and the incoming street there has the id |
| Nodes.Node.HasStreetGreen | Exercise/src/edu/kit/kastel/trafficsimulation/model/node/Intersection.java:41-45 | the answer of the node is `Green` of its field values |
| Nodes.ChangeGreen | Exercise/src/edu/kit/kastel/trafficsimulation/model/node/Intersection.java:50-56 | an index in [0, n) moves to (index + 1) mod n, an index at or past n is kept, and an index that is not negative stays so |
| Nodes.Node.ChangeCurrentGreenStreet | Exercise/src/edu/kit/kastel/trafficsimulation/model/node/Intersection.java:50-56 | the green index becomes `ChangeGreen` of the old index and the number of incoming streets; id and street lists are unchanged |
| Nodes.Step | Exercise/src/edu/kit/kastel/trafficsimulation/model/node/Intersection.java:28-34 | one update keeps id and street lists and the light's duration, and leaves a roundabout as it is |
| Nodes.Node.Update | Exercise/src/edu/kit/kastel/trafficsimulation/model/node/Intersection.java:28-34 | the node's new field values are `Step` of the old ones: the light counts down, then the green index moves iff the phase is over; id, lists and the node invariant are kept |
| Nodes.RoundaboutNeverChanges | Exercise/src/edu/kit/kastel/trafficsimulation/model/node/Roundabout.java:16-18 | any number of updates leaves a roundabout equal to what it was |
| Nodes.IntersectionAfter | Exercise/src/edu/kit/kastel/trafficsimulation/model/node/Intersection.java:28-34 | k updates of an intersection starting a phase leave its light at `SignalAfter(d, k)`, keep id and street lists, and keep a green index inside the list |
| Nodes.GreenMovesOnMultiples | Exercise/src/edu/kit/kastel/trafficsimulation/model/node/Intersection.java:29-33 | with duration d >= 1 the green index moves on tick k + 1 iff d divides k + 1 and stays otherwise |
| Nodes.GreenTick | Exercise/src/edu/kit/kastel/trafficsimulation/model/node/Intersection.java:29-33 | a green index inside the street list moves one step around the list on tick k exactly when d divides k |
| Nodes.GreenIndexAfter | Exercise/src/edu/kit/kastel/trafficsimulation/model/node/Intersection.java:28-56 | with duration d >= 1 and n incoming streets, the green index g is (g + k / d) mod n after k updates |
| Nodes.OnlyTheGreenIndex | Exercise/src/edu/kit/kastel/trafficsimulation/model/node/Intersection.java:41-45 | with distinct incoming ids, the incoming street at position p has green iff p is the green index, so at most one street is green |
| Cars.ReportRoundTrip | Exercise/src/edu/kit/kastel/trafficsimulation/model/Car.java:27-30 | the text "Car <id> on Street <street> with speed <speed> and position <position>" reads back as the four numbers in that order |
| Cars.ReportInjective | Exercise/src/edu/kit/kastel/trafficsimulation/model/Car.java:27-30 | two reports are equal only for equal numbers, so cars with different ids print different reports |
| Cars.Car.ToString | Exercise/src/edu/kit/kastel/trafficsimulation/model/Car.java:27-30 | the report of the car reads back as its id, street, speed and position |
| Cars.Car.constructor | Exercise/src/edu/kit/kastel/trafficsimulation/model/StreetNetwork.java:169-172 | a car built from a car tuple has its id, street, preferred speed and acceleration, stands still, is not yet placed (position -1) and has not moved |
| Cars.Car.SetCurrentPosition | Exercise/src/edu/kit/kastel/trafficsimulation/model/street/FastTrackStreet.java:56 | only the position of the car changes |
| Cars.Car.SetRemainingMeters | Exercise/src/edu/kit/kastel/trafficsimulation/model/street/FastTrackStreet.java:57 | only the remaining meters of the car change |
| Decimal.ReadIntString | Exercise/src/edu/kit/kastel/trafficsimulation/io/Messages.java:18 | an int printed with %s, followed by text that does not start with a digit, reads back as the same int |
| Decimal.ParseNatToString | Exercise/src/edu/kit/kastel/trafficsimulation/io/TextParsing.java:104-114 | Integer.parseInt of the decimal text of any natural number up to 2147483647 gives that number back |
| Streets.Street.constructor | Exercise/src/edu/kit/kastel/trafficsimulation/model/road/Street.java:26-32 | the street keeps start node, end node, length, speed limit and id, and starts with an empty queue |
| Streets.Street.SetStartNode | Exercise/src/edu/kit/kastel/trafficsimulation/model/road/Street.java:53-55 | only the start node changes; the id and queue stay |
| Streets.Street.SetEndNode | Exercise/src/edu/kit/kastel/trafficsimulation/model/road/Street.java:61-63 | only the end node changes; the id and queue stay |
| Streets.Street.SetLength | Exercise/src/edu/kit/kastel/trafficsimulation/model/road/Street.java:69-71 | only the length changes; the id and queue stay |
| Streets.Street.SetSpeedLimit | Exercise/src/edu/kit/kastel/trafficsimulation/model/road/Street.java:77-79 | only the speed limit changes; the id and queue stay |
| Streets.Street.SetCars | Exercise/src/edu/kit/kastel/trafficsimulation/model/road/Street.java:89-91 | only the queue changes |
| Streets.Street.Enqueue | Exercise/src/edu/kit/kastel/trafficsimulation/model/StreetNetwork.java:202 | the car joins the back of the queue and the record is unchanged |
| Streets.Overtaken | Exercise/src/edu/kit/kastel/trafficsimulation/model/street/FastTrackStreet.java:56-60 | after a successful overtake the queue has the same length, the car is one place further ahead with the car it passed behind it, and all other cars keep their relative order |
| Streets.Street.OvertakeVehicle | Exercise/src/edu/kit/kastel/trafficsimulation/model/street/FastTrackStreet.java:40-65 | returns true iff the guard holds (at least 20 m left to drive, a car directly ahead, at least 20 m to the street end, and from index 2 on the car ahead has no car in front or one at least 20 m away); then the queue becomes `Overtaken`, otherwise nothing changes |
| Streets.Street.Swap | Exercise/src/edu/kit/kastel/trafficsimulation/model/street/FastTrackStreet.java:56-61 | the car jumps 20 m, loses 20 remaining meters, moves one place forward and drives again against its new gap; the queue becomes `Overtaken` |
| Streets.Driven | Exercise/src/edu/kit/kastel/trafficsimulation/model/street/FastTrackStreet.java:74-75 | accelerating and driving change only the car at index i, and no car joins or leaves |
| Streets.Street.AccelerateAndDrive | Exercise/src/edu/kit/kastel/trafficsimulation/model/street/FastTrackStreet.java:74-75 | the queue becomes `Driven`: the car accelerates against the speed limit, then drives against the gap to the car ahead |
| Streets.Leave | Exercise/src/edu/kit/kastel/trafficsimulation/model/street/FastTrackStreet.java:77-79 | a car that did not overtake either turns off (it leaves the queue, the index stays) or stays (the index moves on); the flag is unchanged |
| Streets.Resolve | Exercise/src/edu/kit/kastel/trafficsimulation/model/street/FastTrackStreet.java:76-84 | after driving the car overtakes (it moves one place forward, the index moves on, the flag is set), turns off, or stays; a set flag stays set |
| Streets.Advance | Exercise/src/edu/kit/kastel/trafficsimulation/model/street/FastTrackStreet.java:72-87 | one turn of the loop: a car that already moved is skipped, otherwise it drives and then stays, overtakes or turns off as in `Resolve` |
| Streets.Street.TurnCar | Exercise/src/edu/kit/kastel/trafficsimulation/model/street/FastTrackStreet.java:77 | when the unseen turnCar says so, the car gets its new fields and leaves the queue; otherwise the queue is unchanged |
| Streets.Street.TurnOrStay | Exercise/src/edu/kit/kastel/trafficsimulation/model/street/FastTrackStreet.java:77-84 | the queue, loop index, flag and turned cars become those of `Leave` |
| Streets.Street.ResolveCar | Exercise/src/edu/kit/kastel/trafficsimulation/model/street/FastTrackStreet.java:76-84 | the queue, loop index, flag and turned cars become those of `Resolve` |
| Streets.Street.AdvanceCar | Exercise/src/edu/kit/kastel/trafficsimulation/model/street/FastTrackStreet.java:72-87 | the queue, loop index, flag and turned cars become those of `Advance` |
| Streets.Street.Update | Exercise/src/edu/kit/kastel/trafficsimulation/model/street/FastTrackStreet.java:67-90 | a street with an overtaking lane ends with the queue of its loop (`Tick`), a single-lane street keeps its queue; its own loop adds no car to the street |
| Streets.Street.Overtaking | Exercise/src/edu/kit/kastel/trafficsimulation/model/street/FastTrackStreet.java:69-89 | the while loop of `update`: the queue ends as `Tick` of the queue it started with, every turned car is reported with its fields, and the loop adds no car to the street |
| Streets.Street.OvertakingStep | Exercise/src/edu/kit/kastel/trafficsimulation/model/street/FastTrackStreet.java:72-87 | one turn of the loop keeps the loop's promise (the rest of the loop from the next index still ends at `Tick`) and shrinks the work left |
| Streets.Street.JumpForward | Exercise/src/edu/kit/kastel/trafficsimulation/model/street/FastTrackStreet.java:56-59 | the car jumps 20 m, loses 20 remaining meters and changes places with the car in front; the other cars stay |
| Streets.Street.Run | Exercise/src/edu/kit/kastel/trafficsimulation/model/StreetNetwork.java:257 | the street keeps its record, its queue becomes `Next` and its own tick adds no car to it |
| Streets.AdvanceConserves | Exercise/src/edu/kit/kastel/trafficsimulation/model/street/FastTrackStreet.java:72-87 | one turn of the loop loses and duplicates no car: queue plus turned cars is the old queue as a multiset |
| Streets.ProcessConserves | Exercise/src/edu/kit/kastel/trafficsimulation/model/street/FastTrackStreet.java:71-89 | the rest of the loop loses and duplicates no car |
| Streets.TickConservesCars | Exercise/src/edu/kit/kastel/trafficsimulation/model/street/FastTrackStreet.java:67-90 | after a tick the queued cars and the cars that turned off are exactly the cars queued before |
| Streets.AdvanceKeepsMoved | Exercise/src/edu/kit/kastel/trafficsimulation/model/street/FastTrackStreet.java:72-87 | a car that already moved is still queued, with the same fields, after one turn of the loop |
| Streets.ProcessKeepsMoved | Exercise/src/edu/kit/kastel/trafficsimulation/model/street/FastTrackStreet.java:71-89 | a car that already moved is still queued, with the same fields, after the rest of the loop |
| Streets.TickKeepsMovedCars | Exercise/src/edu/kit/kastel/trafficsimulation/model/street/FastTrackStreet.java:67-90 | a car that already moved in this tick is still in the queue after it, with its fields unchanged |
| Streets.OvertakenFlagSticks | Exercise/src/edu/kit/kastel/trafficsimulation/model/street/FastTrackStreet.java:69-84 | once a car has overtaken, the flag stays set for the rest of the loop |
| Streets.AllMovedIsFixed | Exercise/src/edu/kit/kastel/trafficsimulation/model/street/FastTrackStreet.java:73-87 | a queue whose remaining cars have all moved is left as it is |
| Streets.Street.ResetCarMoves | Exercise/src/edu/kit/kastel/trafficsimulation/model/StreetNetwork.java:263 | every queued car's per-tick fields are reset by the unseen resetMoveParameters; the queue is unchanged |
| LineFormats.StreetLineIsFormat | Exercise/src/edu/kit/kastel/trafficsimulation/io/TextParsing.java:18-19 | a line is accepted iff it is <digits>--><digits>:<L>m,<1|2>x,<S>max with the length and speed-limit fields of their formats |
| LineFormats.CarLineIsFormat | Exercise/src/edu/kit/kastel/trafficsimulation/io/TextParsing.java:20 | a line is accepted iff it is <digits>,<digits>,<P>,<A> with the preferred-speed and acceleration fields of their formats |
| LineFormats.CrossingLineSound | Exercise/src/edu/kit/kastel/trafficsimulation/io/TextParsing.java:21 | an accepted crossing line is <digits>:<c>t with c one of '0', '|', '1', '3'..'9' |
| LineFormats.CrossingLineComplete | Exercise/src/edu/kit/kastel/trafficsimulation/io/TextParsing.java:21 | every such text is accepted and cuts back into its id and character |
| LineFormats.LengthFieldValues | Exercise/src/edu/kit/kastel/trafficsimulation/io/TextParsing.java:18 | the length field is exactly the text without leading zero of a number in 10..10000 |
| LineFormats.SpeedLimitFieldValues | Exercise/src/edu/kit/kastel/trafficsimulation/io/TextParsing.java:19 | the speed-limit field is exactly the text without leading zero of a number in 5..40 |
| LineFormats.PreferredSpeedFieldValues | Exercise/src/edu/kit/kastel/trafficsimulation/io/TextParsing.java:20 | the preferred-speed field is exactly the text without leading zero of a number in 20..40 |
| LineFormats.AccelerationFieldValues | Exercise/src/edu/kit/kastel/trafficsimulation/io/TextParsing.java:20 | the acceleration field is exactly the text without leading zero of a number in 1..10 |
| TextParsing.SplitJoin | Exercise/src/edu/kit/kastel/trafficsimulation/io/TextParsing.java:100-102 | splitting fields joined with a separator gives the fields back when none holds the separator and the last is not empty |
| TextParsing.RemoveLastChar | Exercise/src/edu/kit/kastel/trafficsimulation/io/TextParsing.java:116-118 | the result followed by the last character is the input |
| TextParsing.ExtractNumbers | Exercise/src/edu/kit/kastel/trafficsimulation/io/TextParsing.java:126-137 | the five slots hold the first five maximal digit runs of the line, left to right; slots with no run stay null |
| TextParsing.StoreRun | Exercise/src/edu/kit/kastel/trafficsimulation/io/TextParsing.java:132-135 | the slot at the counter receives the digit run that starts at the current position, no other slot changes, and the runs stored so far followed by the runs still ahead are unchanged |
| TextParsing.ShortLineFailsConversion | Exercise/src/edu/kit/kastel/trafficsimulation/io/TextParsing.java:104-114 | a line with fewer than five digit runs leaves a null slot, and the conversion fails with TO_HIGH_NOT_NUMERIC |
| TextParsing.DigitRunsOfJoin | Exercise/src/edu/kit/kastel/trafficsimulation/io/TextParsing.java:126-137 | the digit runs of a text of digit fields separated by digit-free words are the fields, so a street line gives start, end, length, lanes and limit |
| TextParsing.ParseAll | Exercise/src/edu/kit/kastel/trafficsimulation/io/TextParsing.java:104-114 | conversion succeeds iff every field parses as an int, then the values are the fields' values in order; otherwise it fails with TO_HIGH_NOT_NUMERIC |
| TextParsing.StringArrayToInt | Exercise/src/edu/kit/kastel/trafficsimulation/io/TextParsing.java:104-114 | the loop returns `ParseAll` of the fields |
| TextParsing.ValidatePatternMatch | Exercise/src/edu/kit/kastel/trafficsimulation/io/TextParsing.java:92-98 | passes iff every line is of the file's format; otherwise fails with NO_VALID_STRING_LINE for the file |
| TextParsing.CrossingCut | Exercise/src/edu/kit/kastel/trafficsimulation/io/TextParsing.java:53-54 | a crossing line is cut at ':' into its id and its green-time character, the trailing 't' dropped |
| TextParsing.CutLine | Exercise/src/edu/kit/kastel/trafficsimulation/io/TextParsing.java:52-86 | the fields of a line are the comma pieces (cars), the first five digit runs (streets) or the crossing cut (crossings) |
| TextParsing.ConvertLines | Exercise/src/edu/kit/kastel/trafficsimulation/io/TextParsing.java:69-72 | the lines are cut and converted in file order, stopping at the first failure (`ConvertAll`) |
| TextParsing.ConvertFailurePersists | Exercise/src/edu/kit/kastel/trafficsimulation/io/TextParsing.java:104-114 | once a line fails to convert, the whole file fails with TO_HIGH_NOT_NUMERIC, whatever lines follow |
| TextParsing.InsertById | Exercise/src/edu/kit/kastel/trafficsimulation/io/TextParsing.java:139-147 | inserting keeps every tuple and adds x: a permutation |
| TextParsing.SortById | Exercise/src/edu/kit/kastel/trafficsimulation/io/TextParsing.java:139-147 | the sorted list is a permutation of the input |
| TextParsing.SortSorted | Exercise/src/edu/kit/kastel/trafficsimulation/io/TextParsing.java:139-147 | the sort orders the tuples by ascending id |
| TextParsing.SortStable | Exercise/src/edu/kit/kastel/trafficsimulation/io/TextParsing.java:139-147 | the tuples with one id keep their relative order, as List.sort does |
| TextParsing.Validate | Exercise/src/edu/kit/kastel/trafficsimulation/io/TextParsing.java:44-90 | the common pipeline returns `Tuples`: format check on every line, then conversion line by line, then the sort for crossings |
| TextParsing.ValidateCars | Exercise/src/edu/kit/kastel/trafficsimulation/io/TextParsing.java:61-74 | the car tuples of the lines, in file order, or the first error |
| TextParsing.ValidateStreets | Exercise/src/edu/kit/kastel/trafficsimulation/io/TextParsing.java:76-90 | the street tuples of the lines, in file order, or the first error |
| TextParsing.ValidateCrossings | Exercise/src/edu/kit/kastel/trafficsimulation/io/TextParsing.java:44-59 | the crossing tuples of the lines sorted by id, or the first error |
| TextParsing.CarLineTuple | Exercise/src/edu/kit/kastel/trafficsimulation/io/TextParsing.java:68-72 | an accepted car line that converts gives id, street, preferred speed in 20..40 and acceleration in 1..10 |
| TextParsing.StreetLineTuple | Exercise/src/edu/kit/kastel/trafficsimulation/io/TextParsing.java:83-87 | an accepted street line that converts gives start, end, length in 10..10000, lanes 1 or 2 and limit in 5..40 |
| TextParsing.CrossingLineTuple | Exercise/src/edu/kit/kastel/trafficsimulation/io/TextParsing.java:51-56 | an accepted crossing line that converts gives id and a green time of 0, 1 or 3..9, so 2 and 10 never occur |
| TextParsing.CrossingBarFails | Exercise/src/edu/kit/kastel/trafficsimulation/io/TextParsing.java:21 | a crossing line with green time '|' passes the format check and then fails conversion |
| TextParsing.ConvertAllTuples | Exercise/src/edu/kit/kastel/trafficsimulation/io/TextParsing.java:52-87 | every converted line is a tuple of its file's form |
| TextParsing.TuplesShape | Exercise/src/edu/kit/kastel/trafficsimulation/io/TextParsing.java:44-90 | every tuple a validator returns is of its file's form, one per line |
| TextParsing.CrossingsSorted | Exercise/src/edu/kit/kastel/trafficsimulation/io/TextParsing.java:57 | the crossing tuples are the converted lines as a permutation, sorted by id, stable |
| TextParsing.BadLineRejectsFile | Exercise/src/edu/kit/kastel/trafficsimulation/io/TextParsing.java:92-98 | one line not of the file's format rejects the whole file before any conversion |
| Loading.FirstFailMeaning | Exercise/src/edu/kit/kastel/trafficsimulation/model/StreetNetwork.java:73-83 | a run of checks passes iff every check passes, and a failing run reports its first failing check |
| Loading.NodeFor | Exercise/src/edu/kit/kastel/trafficsimulation/model/StreetNetwork.java:133-142 | a crossing tuple gives a node with its id and no streets, a roundabout iff the green time is 0, otherwise an intersection with that green time |
| Loading.CarFor | Exercise/src/edu/kit/kastel/trafficsimulation/model/StreetNetwork.java:169-172 | a car tuple gives a car with its id and street, not yet placed |
| Loading.StreetCheck | Exercise/src/edu/kit/kastel/trafficsimulation/model/StreetNetwork.java:148-163 | a street tuple passes iff its endpoints differ and both are node ids; equal endpoints fail with INVALID_STREET_NODE and the tuple index, an unknown endpoint with STREET_WITH_ILLEGAL_NODE |
| Loading.DegreeCheck | Exercise/src/edu/kit/kastel/trafficsimulation/model/StreetNetwork.java:188-193 | a node passes iff it is the end of 1..4 streets and the start of 1..4 streets; otherwise it fails with its id |
| Loading.CapacityMeaning | Exercise/src/edu/kit/kastel/trafficsimulation/model/StreetNetwork.java:195-211 | the j-th car of a street of length L can be placed iff j < `Capacity(L)` |
| Loading.StreetPlacement | Exercise/src/edu/kit/kastel/trafficsimulation/model/StreetNetwork.java:195-211 | a street passes iff at most `Capacity(L)` cars name it |
| Loading.FirstRepeatMeaning | Exercise/src/edu/kit/kastel/trafficsimulation/model/StreetNetwork.java:213-229 | no repeat is found iff the ids are pairwise different, and a found repeat is the first id already seen |
| Loading.LoadPasses | Exercise/src/edu/kit/kastel/trafficsimulation/model/StreetNetwork.java:73-83 | a load from an empty network passes iff endpoints differ and exist, every node has 1..4 streets in and out, every street has room for its cars, and car ids and node ids do not repeat |
| Loading.LoadedStreetCapacity | Exercise/src/edu/kit/kastel/trafficsimulation/model/StreetNetwork.java:195-211 | in a network that loads, a street of length L holds at most L / 10 + 1 cars |
| Loading.PlacedOnStreet | Exercise/src/edu/kit/kastel/trafficsimulation/model/StreetNetwork.java:195-211 | in a network that loads, every car naming a street stands between 0 and the street length, and a later car on the same street stands at least 10 m behind an earlier one |
| Network.ExistenceAfterInitStreets | Exercise/src/edu/kit/kastel/trafficsimulation/model/StreetNetwork.java:231-247 | after initStreets passed, validateNodesExistsForStreets cannot fail |
| Network.StreetFull | Exercise/src/edu/kit/kastel/trafficsimulation/model/StreetNetwork.java:195-211 | when the street is full the placement fails with the street id and the list position before the car's, and the cars queued are those before it |
| Network.PlaceAllMeaning | Exercise/src/edu/kit/kastel/trafficsimulation/model/StreetNetwork.java:195-211 | each car ends where the inner loop of its own street leaves it, and a car naming no street is untouched |
| Network.WiredQueuesOk | Exercise/src/edu/kit/kastel/trafficsimulation/model/StreetNetwork.java:195-211 | the queues built by the load hold cars of the car list, none twice and none on two streets |
| Network.FilesShaped | Exercise/src/edu/kit/kastel/trafficsimulation/model/StreetNetwork.java:106-111 | files that read give tuples with every entry init reads, one car and one street per line |
| Network.EndGreenMeaning | Exercise/src/edu/kit/kastel/trafficsimulation/model/StreetNetwork.java:154-160 | the street is asked by the first node with its end id: green always at a roundabout, at an intersection iff it is the street at the green index |
| Network.StepAllNMeaning | Exercise/src/edu/kit/kastel/trafficsimulation/model/StreetNetwork.java:249-253 | after n network ticks every junction stands where n of its own updates leave it |
| Network.StepAllNAdd | Exercise/src/edu/kit/kastel/trafficsimulation/model/simulation/Simulation.java:86-88 | a ticks of the junctions and then b more are a + b ticks |
| Network.ResetKeepsCars | Exercise/src/edu/kit/kastel/trafficsimulation/model/StreetNetwork.java:261-265 | resetting the cars keeps every queue: the same cars in the same order |
| Network.SignalRunIsStepAllN | Exercise/src/edu/kit/kastel/trafficsimulation/model/simulation/Simulation.java:86-88 | entry t of a record of junction states, each one tick of the one before, is t ticks of the first |
| Network.TrafficRunIsTicks | Exercise/src/edu/kit/kastel/trafficsimulation/model/simulation/Simulation.java:86-88 | entry t of a record of queues, each one network tick of the one before, is t ticks of the first |
| Network.StreetNetwork.constructor | Exercise/src/edu/kit/kastel/trafficsimulation/model/StreetNetwork.java:49-57 | an empty network with empty tuple lists |
| Network.StreetNetwork.GetNodeFromID | Exercise/src/edu/kit/kastel/trafficsimulation/model/StreetNetwork.java:120-127 | succeeds iff some node has the id, with the first such node; otherwise fails with STREET_WITH_ILLEGAL_NODE and the street id |
| Network.StreetNetwork.AddCrossing | Exercise/src/edu/kit/kastel/trafficsimulation/model/StreetNetwork.java:136-140 | one crossing tuple appends its node, built as the tuple says |
| Network.StreetNetwork.InitNodes | Exercise/src/edu/kit/kastel/trafficsimulation/model/StreetNetwork.java:133-142 | one node per crossing tuple is appended in order, as the tuple says; the node ids grow by the tuple ids |
| Network.StreetNetwork.AppendNode | Exercise/src/edu/kit/kastel/trafficsimulation/model/StreetNetwork.java:136-140 | the node is appended and its id joins the node ids; nothing else changes |
| Network.StreetNetwork.AddStreet | Exercise/src/edu/kit/kastel/trafficsimulation/model/StreetNetwork.java:150-161 | the outcome is `StreetCheck` of the tuple; on a pass a fresh street with the tuple's fields and index as id is appended, on a failure nothing is |
| Network.StreetNetwork.InitStreets | Exercise/src/edu/kit/kastel/trafficsimulation/model/StreetNetwork.java:148-163 | the streets of the tuples are appended in order up to the first failing check, whose outcome is returned |
| Network.StreetNetwork.AppendStreet | Exercise/src/edu/kit/kastel/trafficsimulation/model/StreetNetwork.java:153-160 | the street is appended; nothing else changes |
| Network.StreetNetwork.AttachStreet | Exercise/src/edu/kit/kastel/trafficsimulation/model/StreetNetwork.java:177-184 | the street is appended to the outgoing list of every node with its start id and the incoming list of every node with its end id |
| Network.StreetNetwork.WireNode | Exercise/src/edu/kit/kastel/trafficsimulation/model/StreetNetwork.java:177-183 | the street joins the node's outgoing list iff it starts at the node and its incoming list iff it ends there; id and green index are kept |
| Network.StreetNetwork.AddStreetsToNode | Exercise/src/edu/kit/kastel/trafficsimulation/model/StreetNetwork.java:175-186 | every node's lists gain, in street order, the streets starting and ending at its id; ids and green indices unchanged |
| Network.NodeDegree | Exercise/src/edu/kit/kastel/trafficsimulation/model/StreetNetwork.java:189-191 | a node passes iff both its lists have 1..4 entries, else fails with its id |
| Network.StreetNetwork.ValidateNodes | Exercise/src/edu/kit/kastel/trafficsimulation/model/StreetNetwork.java:188-193 | the outcome is that of the first node whose degree check fails; nothing changes |
| Network.StreetExists | Exercise/src/edu/kit/kastel/trafficsimulation/model/StreetNetwork.java:235-245 | a street passes iff both endpoints are node ids, else fails with its id |
| Network.StreetNetwork.ValidateNodesExistsForStreets | Exercise/src/edu/kit/kastel/trafficsimulation/model/StreetNetwork.java:231-247 | the outcome is that of the first street naming an unknown node; nothing changes |
| Network.StreetNetwork.AddCar | Exercise/src/edu/kit/kastel/trafficsimulation/model/StreetNetwork.java:170-171 | appends one fresh car built from the tuple |
| Network.StreetNetwork.InitCars | Exercise/src/edu/kit/kastel/trafficsimulation/model/StreetNetwork.java:168-173 | one car per car tuple is appended in order |
| Network.StreetNetwork.PositionCar | Exercise/src/edu/kit/kastel/trafficsimulation/model/StreetNetwork.java:201 | only car i changes, and only its position |
| Network.StreetNetwork.AdmitCar | Exercise/src/edu/kit/kastel/trafficsimulation/model/StreetNetwork.java:200-203 | car i gets the position and joins the back of the street's queue |
| Network.StreetNetwork.PlaceCars | Exercise/src/edu/kit/kastel/trafficsimulation/model/StreetNetwork.java:197-209 | the cars naming the street join its queue in list order, the j-th 10 j meters before its end, up to the first that does not fit, which fails the load |
| Network.StreetNetwork.PlaceCarsAt | Exercise/src/edu/kit/kastel/trafficsimulation/model/StreetNetwork.java:197-209 | the same for the street at an index; no other queue changes |
| Network.StreetNetwork.FillStreetAt | Exercise/src/edu/kit/kastel/trafficsimulation/model/StreetNetwork.java:196-210 | one turn of the street loop: a passing street extends the filled prefix by one and a failing one stops it with its own outcome; layouts are kept |
| Network.StreetNetwork.AddCarsToStreet | Exercise/src/edu/kit/kastel/trafficsimulation/model/StreetNetwork.java:195-211 | the outcome is that of the first street without room; on a pass every queue gains exactly the cars naming it in list order and every car stands where its street's loop put it |
| Network.StreetNetwork.CheckDuplicateCarIds | Exercise/src/edu/kit/kastel/trafficsimulation/model/StreetNetwork.java:213-220 | fails with the first car id already seen, else passes; nothing changes |
| Network.StreetNetwork.CheckDuplicateNodeIds | Exercise/src/edu/kit/kastel/trafficsimulation/model/StreetNetwork.java:222-229 | fails with the first node id already seen, else passes; nothing changes |
| Network.StreetNetwork.GetCurrentCar | Exercise/src/edu/kit/kastel/trafficsimulation/model/StreetNetwork.java:91-98 | succeeds iff a car has the id, with the report of the first such car; otherwise fails with CAR_NOT_IN_SIMULATION |
| Network.StreetNetwork.ReadFiles | Exercise/src/edu/kit/kastel/trafficsimulation/model/StreetNetwork.java:106-111 | validates cars, streets and crossings in that order; each field is set as soon as its file passed, and the first failure is returned |
| Network.StreetNetwork.BuildTopology | Exercise/src/edu/kit/kastel/trafficsimulation/model/StreetNetwork.java:74-75 | initNodes then initStreets: on empty lists they build exactly the nodes and the streets of the tuples |
| Network.StreetNetwork.WireNodes | Exercise/src/edu/kit/kastel/trafficsimulation/model/StreetNetwork.java:76 | addStreetsToNode inside init keeps the network sound |
| Network.StreetNetwork.CheckNodes | Exercise/src/edu/kit/kastel/trafficsimulation/model/StreetNetwork.java:77-78 | validateNodes, then validateNodesExistsForStreets if it passed |
| Network.StreetNetwork.WireTopology | Exercise/src/edu/kit/kastel/trafficsimulation/model/StreetNetwork.java:76-78 | the wiring and the two node checks, only the nodes' street lists change |
| Network.StreetNetwork.InitTopology | Exercise/src/edu/kit/kastel/trafficsimulation/model/StreetNetwork.java:74-78 | on empty lists the outcome is the topology part of the load outcome, and a pass leaves the nodes and streets of the tuples |
| Network.StreetNetwork.PlaceTraffic | Exercise/src/edu/kit/kastel/trafficsimulation/model/StreetNetwork.java:79-80 | initCars then addCarsToStreet: cars appended, queued and placed as the tuples say |
| Network.StreetNetwork.FillStreets | Exercise/src/edu/kit/kastel/trafficsimulation/model/StreetNetwork.java:80 | addCarsToStreet inside init leaves the nodes unchanged |
| Network.StreetNetwork.CheckIds | Exercise/src/edu/kit/kastel/trafficsimulation/model/StreetNetwork.java:81-82 | the duplicate car id check, then the duplicate node id check |
| Network.StreetNetwork.InitTraffic | Exercise/src/edu/kit/kastel/trafficsimulation/model/StreetNetwork.java:79-82 | the last four stages up to the first that fails |
| Network.StreetNetwork.LoadTraffic | Exercise/src/edu/kit/kastel/trafficsimulation/model/StreetNetwork.java:79-82 | on streets without cars the outcome is the traffic part of the load outcome and a pass places the cars as the tuples say |
| Network.StreetNetwork.AddTraffic | Exercise/src/edu/kit/kastel/trafficsimulation/model/StreetNetwork.java:79-82 | the traffic stages keep the topology and, on a network without cars, give the outcome and cars of a first load |
| Network.StreetNetwork.Init | Exercise/src/edu/kit/kastel/trafficsimulation/model/StreetNetwork.java:73-83 | the nine stages up to the first failure; the crossing ids are appended whatever the outcome; on an empty network the outcome is `LoadOutcome` and a pass leaves the network the tuples describe, ready to tick |
| Network.StreetNetwork.InitAgain | Exercise/src/edu/kit/kastel/trafficsimulation/model/StreetNetwork.java:73-83 | init as written fails on a network that already holds a node with a crossing id of the tuples (see Findings) |
| Network.StreetNetwork.Load | Exercise/src/edu/kit/kastel/trafficsimulation/model/StreetNetwork.java:73-83 | the corrected load: whatever the network held, the outcome is `LoadOutcome` of the tuples and a pass leaves the network they describe |
| Network.StreetNetwork.AskEndNode | Exercise/src/edu/kit/kastel/trafficsimulation/model/StreetNetwork.java:154-160 | the street's answer is `EndGreen` of the junctions: the first node with its end id is asked |
| Network.StreetNetwork.RunStreet | Exercise/src/edu/kit/kastel/trafficsimulation/model/StreetNetwork.java:257 | the street's queue becomes the one its update leaves; no other queue and no node changes (turned cars are not enqueued elsewhere, see Left out) |
| Network.StreetNetwork.UpdateStreet | Exercise/src/edu/kit/kastel/trafficsimulation/model/StreetNetwork.java:257 | one street's update with the answer of its end junction; no other queue and no node changes (turned cars are not enqueued elsewhere, see Left out) |
| Network.StreetNetwork.UpdateStreets | Exercise/src/edu/kit/kastel/trafficsimulation/model/StreetNetwork.java:255-259 | every street's queue becomes `Move` of its old queue with the junctions as they were, turned cars joining no queue (see Left out); the nodes do not change |
| Network.StreetNetwork.ResetStreet | Exercise/src/edu/kit/kastel/trafficsimulation/model/StreetNetwork.java:263 | one street's cars are reset; no other queue changes |
| Network.StreetNetwork.ResetAllCarsOnStreets | Exercise/src/edu/kit/kastel/trafficsimulation/model/StreetNetwork.java:261-265 | every queued car is reset once; the queues keep their cars |
| Network.StreetNetwork.UpdateNode | Exercise/src/edu/kit/kastel/trafficsimulation/model/StreetNetwork.java:251 | node i takes one `Step`; no other node and no street changes |
| Network.StreetNetwork.UpdateNodes | Exercise/src/edu/kit/kastel/trafficsimulation/model/StreetNetwork.java:249-253 | every node takes one `Step`, in list order; ids, street lists and queues are unchanged |
| Network.StreetNetwork.MoveTraffic | Exercise/src/edu/kit/kastel/trafficsimulation/model/StreetNetwork.java:64-65 | streets first, then the reset, turned cars joining no queue (see Left out); the junctions are unchanged |
| Network.StreetNetwork.Update | Exercise/src/edu/kit/kastel/trafficsimulation/model/StreetNetwork.java:63-67 | the queues become the moved-then-reset queues with the junctions as they were before the tick, turned cars joining no queue (see Left out), and then every junction takes one `Step`; the network stays ready to tick and the street records are unchanged |
| Simulations.Simulation.constructor | Exercise/src/edu/kit/kastel/trafficsimulation/model/simulation/Simulation.java:26-29 | a new session is READING |
| Simulations.NeverActiveAndReading | Exercise/src/edu/kit/kastel/trafficsimulation/model/simulation/Simulation.java:35-53 | isActive (RUNNING) and isReading (READING) are never both true |
| Simulations.Simulation.Quit | Exercise/src/edu/kit/kastel/trafficsimulation/model/simulation/Simulation.java:43-46 | any state becomes EXITED, neither active nor reading |
| Simulations.Simulation.ShowCar | Exercise/src/edu/kit/kastel/trafficsimulation/model/simulation/Simulation.java:60-63 | the network's getCurrentCar: the report of the first car with the id, or CAR_NOT_IN_SIMULATION |
| Simulations.Simulation.ReadFiles | Exercise/src/edu/kit/kastel/trafficsimulation/model/simulation/Simulation.java:71-77 | RUNNING and READY iff the files read and the network loads, with the network the tuples describe; otherwise the first error and the state as it was |
| Simulations.TickCount | Exercise/src/edu/kit/kastel/trafficsimulation/model/simulation/Simulation.java:86 | the loop runs max(n, 0) times |
| Simulations.Simulation.Simulate | Exercise/src/edu/kit/kastel/trafficsimulation/model/simulation/Simulation.java:84-91 | returns READY after exactly max(n, 0) network ticks: junctions at `StepAllN`, queues at `Ticks`, turned cars joining no queue (see Left out); simulate(0) changes nothing |

## Left out

- Reading the files from disk (`SimulationFileLoader`, `IOException`) is not modelled: the validators and `ReadFiles` take the lines as parameters.
- The regular expressions are not run through a regex engine: each format is a recogniser in `LineFormats`, proved equal to the text shape it describes.
- The command loop, the shell, `Main` and the command classes are not part of this model.
- Message texts other than the car report and `READY` are not modelled: the exception messages become the `Error` datatype, with the numbers each message carries.
- The car kinematics (`accelerate`, `drive`, `resetSpeedInTraffic`, the end-of-tick reset) and the street helpers (`calculateDistance`, `turnCar`, the turned car's new fields) are not part of this model. They are function-valued parameters (`CarDynamics`, `StreetDynamics`). The only assumption about them is `HeadIsFree`: the first car of a queue has no car in front of it.
- The `Car` constructor is not part of this model. A new car is assumed to have speed 0, position -1, remaining meters 0 and not to have moved.
- Streets.Street.TurnCar: a car that turns off leaves its queue with the fields the unseen `turn` gives it. It is not enqueued on another street, because the code that would do so is not part of this model.
- Streets.Street.Update: "no car joins the street" covers the street's own loop only. A car that turns off is enqueued on its next street by code outside this model.
- Streets.Street.Overtaking: the same limit as Streets.Street.Update; only the loop's own changes to the queue are stated.
- Streets.Street.Run: the same limit as Streets.Street.Update; only the street's own tick is stated.
- Network.StreetNetwork.RunStreet: a car that turns off joins no other street's queue. In the source it is appended to its next street during the same loop and is driven there on later ticks; that code is not part of this model.
- Network.StreetNetwork.UpdateStreet: the same limit as Network.StreetNetwork.RunStreet; "no other queue changes" holds only because turned cars are not enqueued.
- Network.StreetNetwork.UpdateStreets: each queue is `Move` of its own old queue only; the cars that turn onto a street in the source are missing from it.
- Network.StreetNetwork.MoveTraffic: the same limit as Network.StreetNetwork.UpdateStreets.
- Network.StreetNetwork.Update: the queues after a tick lack the cars that turned onto them, for the reason given for Network.StreetNetwork.RunStreet.
- Simulations.Simulation.Simulate: the queues at `Ticks` lack every car that turned off during the n ticks; from the first turn on they differ from the source's queues.
- Network.EndGreen: a street asks the first node whose id is its end node. Ids are unique after a load, so this node is the only one.
- `Roundabout.hasStreetGreen` is not part of this model. A roundabout is modelled as green for every street.
- Nodes.Green: an intersection with a negative green index would fail the list access in the source. This case is excluded by a `requires`, and `Node.Valid` keeps the index at 0 or above.
- The unused second `FastTrackStreet` stub in the `road` package, the duplicate `Simulation` class in the `model` package and `validateEmptyFile`, which is never called, are not modelled.
- Java `int` arithmetic is unbounded here, and wrap-around is not modelled. Every value read is at most 2147483647, because `Integer.parseInt` rejects larger ones, as `Decimal.ParseInt` models. The arithmetic of a tick lies in the unseen car methods.
- TextParsing.ExtractNumbers: Java has no null string in this model; a slot left null is the empty text `NULL_SLOT`, which `Integer.parseInt` rejects with the same `NumberFormatException`.
- TextParsing.SortById models `List.sort` by id as a stable insertion sort on values, not as an in-place sort.
- `Street.validateDistance` and `Street.fillStreet` have empty bodies and carry no contract.
- Simulations.Simulation.Simulate requires a network that is ready to tick (`Valid`), which every load that passed leaves. The source has no such precondition.
- Simulations.Simulation.ReadFiles sets the state to running before the build and restores the old state on failure. The source sets it after a successful build. The end states are the same; the order of the writes is not. It builds with `Load` rather than the as-written `init` (see Findings).
- Network.StreetNetwork.Update states the nodes' ids and street lists only through `Signals` and `StepAll`. `UpdateNodes` and `MoveTraffic` state them directly.
- Network.StreetNetwork.Init states the full outcome only when it starts from an empty network. On a network that already holds nodes, only the appended node ids are stated, and `InitAgain` states the failure.

## Findings

| source | as written | input that shows it | evidently intended | confidence | as-written member | corrected member |
|---|---|---|---|---|---|---|
| Exercise/src/edu/kit/kastel/trafficsimulation/model/StreetNetwork.java:73-83 | `init` appends nodes, streets and cars to the lists that the constructor (lines 37-39, 49-57) creates once and never clears | load any files whose crossing file has at least one line, then load the same files again: the second `init` finds the crossing id already present, so it fails with whichever comes first of the street, degree, placement, duplicated car id and duplicated crossing id errors, whether or not the first load passed | every load rebuilds the network from the new tuples alone | not executed | Network.StreetNetwork.InitAgain | Network.StreetNetwork.Load |

The system's description says that loading builds the network from the
files. The code appends to the network of the previous load instead, and
the model follows the code (`Init`). `Load` empties the three lists before
running `init`. `Simulations.Simulation.ReadFiles` uses `Load`.
