/** Failure values of the simulator: one tag per exception message that the
    simulation core and the input parsing can raise, with the values that the
    message is formatted with. */
module Errors {

  /** The three input files that the parser reads. */
  datatype InputFile = CarFile | StreetFile | CrossingFile

  datatype Error =
    | NoValidStringLine(file: InputFile)
    | ToHighNotNumeric
    | InvalidNumberOfStreets(nodeId: int)
    | InvalidNumberOfCarsOnStreet(streetId: int, cars: int)
    | InvalidStreetNode(street: int)
    | DuplicatedCarId(carId: int)
    | DuplicatedCrossingId(crossingId: int)
    | StreetWithIllegalNode(street: int)
    | CarNotInSimulation

  datatype Option<+T> = None | Some(value: T)

  /** A value or the error that a Java method would have thrown instead. */
  datatype Result<+T> = Success(value: T) | Failure(error: Error) {
    predicate IsFailure() {
      Failure?
    }

    function PropagateFailure<U>(): Result<U>
      requires Failure?
    {
      Failure(error)
    }

    function Extract(): T
      requires Success?
    {
      value
    }
  }

  /** Normal return or the error thrown by a `void` method. */
  datatype Outcome = Pass | Fail(error: Error) {
    predicate IsFailure() {
      Fail?
    }

    function PropagateFailure(): Outcome
      requires Fail?
    {
      this
    }
  }
}
