/**
 * Result and fault types shared by the whole model. A Java exception that
 * the engine throws is an `Err` carrying the kind of exception.
 */
module Base {
  /** The exception classes the engine can throw. */
  datatype Fault =
    | IllegalArgument        // IllegalArgumentException
    | ArrayIndexOutOfBounds  // an int[] index outside 0..18
    | IndexOutOfBounds       // a List index outside 0..size-1
    | InvalidPosition        // RuntimeException from Position.checkValid
    | Unsupported            // UnsupportedOperationException
    | NoMatch                // RuntimeException from a failed regular-expression match
    | IllegalMove            // IllegalMoveException from Board.doMove

  datatype Result<T> = Ok(value: T) | Err(fault: Fault)

  datatype Option<T> = None | Some(value: T)

  /** The completion of a void Java method: normal return or an exception. */
  datatype Outcome = Done | Thrown(fault: Fault)
}
