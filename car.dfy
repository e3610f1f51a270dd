/** A car of the simulation: its fixed parameters, the per-tick state that the
    streets change, and the text that the position query prints for it. */
module Cars {
  import opened Errors
  import opened Decimal

  /** The fields of a car that change while the simulation runs. */
  datatype Motion = Motion(speed: int, street: int, position: int, remaining: int, moved: bool)

  /** The field values of a car: id, acceleration and preferred speed never change. */
  datatype CarState = CarState(id: int, acceleration: int, desiredSpeed: int, motion: Motion)

  /** The car methods that the streets call but whose bodies are not part of
      this model. Each gives the car's new changing fields. */
  datatype CarDynamics = CarDynamics(
    accelerate: (CarState, int) -> Motion,          // accelerate(speedLimit)
    drive: (CarState, int, int, int) -> Motion,     // drive(distanceToCarAhead, streetLength, meters)
    resetSpeedInTraffic: (CarState, bool) -> Motion, // resetSpeedInTraffic(hasOvertaken)
    resetMoveParameters: CarState -> Motion)         // end-of-tick reset of the per-tick fields

  /** Sets the changing fields of a car state. */
  function WithMotion(s: CarState, m: Motion): (r: CarState)
    ensures r.id == s.id && r.acceleration == s.acceleration && r.desiredSpeed == s.desiredSpeed
    ensures r.motion == m
  {
    s.(motion := m)
  }

  const CAR_PREFIX := "Car "
  const STREET_INFIX := " on Street "
  const SPEED_INFIX := " with speed "
  const POSITION_INFIX := " and position "

  /** The literal `word`, the decimal text of `n`, then `rest`. */
  function Field(word: string, n: int, rest: string): string {
    word + IntToString(n) + rest
  }

  /** The position report "Car <id> on Street <street> with speed <speed> and position <position>". */
  function Report(id: int, street: int, speed: int, position: int): string {
    Field(CAR_PREFIX, id, Field(STREET_INFIX, street, Field(SPEED_INFIX, speed, Field(POSITION_INFIX, position, ""))))
  }

  /** Reads the literal `word` at the front of `s`. */
  function Expect(word: string, s: string): Option<string> {
    if |word| <= |s| && s[..|word|] == word then Some(s[|word|..]) else None
  }

  /** Reads the literal `word` and then an int at the front of `s`. */
  function ReadField(word: string, s: string): Option<(int, string)> {
    match Expect(word, s)
    case None => None
    case Some(rest) => ReadInt(rest)
  }

  /** Reads the four numbers back out of a position report. */
  function ParseReport(s: string): Option<(int, int, int, int)> {
    match ReadField(CAR_PREFIX, s)
    case None => None
    case Some((id, s1)) =>
      match ReadField(STREET_INFIX, s1)
      case None => None
      case Some((street, s2)) =>
        match ReadField(SPEED_INFIX, s2)
        case None => None
        case Some((speed, s3)) =>
          match ReadField(POSITION_INFIX, s3)
          case None => None
          case Some((position, s4)) =>
            if s4 == [] then Some((id, street, speed, position)) else None
  }

  lemma FieldRoundTrip(word: string, n: int, rest: string)
    requires rest == [] || !IsDigit(rest[0])
    ensures ReadField(word, Field(word, n, rest)) == Some((n, rest))
  {
    var s := Field(word, n, rest);
    assert s[..|word|] == word;
    assert s[|word|..] == IntToString(n) + rest;
    ReadIntString(n, rest);
  }

  /** The report can be read back: id, street, speed and position in that order. */
  lemma ReportRoundTrip(id: int, street: int, speed: int, position: int)
    ensures ParseReport(Report(id, street, speed, position)) == Some((id, street, speed, position))
  {
    var t4: string := [];
    var t3 := Field(POSITION_INFIX, position, t4);
    var t2 := Field(SPEED_INFIX, speed, t3);
    var t1 := Field(STREET_INFIX, street, t2);
    FieldRoundTrip(CAR_PREFIX, id, t1);
    FieldRoundTrip(STREET_INFIX, street, t2);
    FieldRoundTrip(SPEED_INFIX, speed, t3);
    FieldRoundTrip(POSITION_INFIX, position, t4);
  }

  /** Two reports are equal only for equal numbers; cars with different ids
      therefore never print the same report. */
  lemma ReportInjective(a: (int, int, int, int), b: (int, int, int, int))
    requires Report(a.0, a.1, a.2, a.3) == Report(b.0, b.1, b.2, b.3)
    ensures a == b
  {
    ReportRoundTrip(a.0, a.1, a.2, a.3);
    ReportRoundTrip(b.0, b.1, b.2, b.3);
  }

  class Car {
    const carId: int
    const acceleration: int
    const desiredSpeed: int
    var currentSpeed: int
    var currentStreet: int
    var currentPosition: int
    var remainingMeters: int
    var isMoved: bool

    /** The car's field values. */
    function State(): (s: CarState)
      reads this
      ensures s.id == carId && s.motion.street == currentStreet && s.motion.position == currentPosition
    {
      CarState(carId, acceleration, desiredSpeed,
               Motion(currentSpeed, currentStreet, currentPosition, remainingMeters, isMoved))
    }

    /** A car read from a car tuple: id, street, preferred speed, acceleration.
        It stands still, is not yet placed on its street and has not moved. */
    constructor (carId: int, street: int, desiredSpeed: int, acceleration: int)
      ensures State() == CarState(carId, acceleration, desiredSpeed, Motion(0, street, -1, 0, false))
    {
      this.carId := carId;
      this.acceleration := acceleration;
      this.desiredSpeed := desiredSpeed;
      this.currentSpeed := 0;
      this.currentStreet := street;
      this.currentPosition := -1;
      this.remainingMeters := 0;
      this.isMoved := false;
    }

    /** Overwrites the changing fields, as the unseen car methods do. */
    method Apply(m: Motion)
      modifies this
      ensures State() == WithMotion(old(State()), m)
    {
      currentSpeed, currentStreet, currentPosition, remainingMeters, isMoved :=
        m.speed, m.street, m.position, m.remaining, m.moved;
    }

    method SetCurrentPosition(position: int)
      modifies this
      ensures State() == old(State()).(motion := old(State()).motion.(position := position))
    {
      currentPosition := position;
    }

    method SetRemainingMeters(meters: int)
      modifies this
      ensures State() == old(State()).(motion := old(State()).motion.(remaining := meters))
    {
      remainingMeters := meters;
    }

    /** The position report of this car; it reads back as id, street, speed
        and position, and reading it changes nothing. */
    function ToString(): (s: string)
      reads this
      ensures ParseReport(s) == Some((carId, currentStreet, currentSpeed, currentPosition))
    {
      ReportRoundTrip(carId, currentStreet, currentSpeed, currentPosition);
      Report(carId, currentStreet, currentSpeed, currentPosition)
    }
  }
}
