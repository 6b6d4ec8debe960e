/**
 * The error conditions the library signals with libmesh_error_msg / libmesh_assert,
 * and the failure-compatible result types that carry them.
 */
module Errors {

  datatype Error =
    | KeyNotFound                                  // Utility::map_find: key not in the map
    | IndexPastEnd(index: nat, size: nat)          // Utility::vector_at: index >= size
    | StepOutOfRange(name: string, step: nat)      // RBParameters getters: step >= size of the vector
    | StepCountMismatch(lhs: nat, rhs: nat)        // RBParameters::operator+=: n_steps() differ
    | InconsistentSteps                            // RBParameters::n_steps (DEBUG): vectors of different sizes
    | OutputIndexOutOfRange(index: nat, outputs: nat)   // RBThetaExpansion::get_n_output_terms
    | TermIndexOutOfRange(q: nat, terms: nat)      // RBThetaExpansion::eval_A_theta / eval_F_theta
    | OutputTermOutOfRange(outputIndex: nat, qL: nat)   // RBThetaExpansion::eval_output_theta

  /** A computed value, or the error the library would have raised instead. */
  datatype Result<+T> = Ok(value: T) | Err(error: Error) {

    predicate IsFailure() {
      Err?
    }

    function PropagateFailure<U>(): Result<U>
      requires Err?
    {
      Err(error)
    }

    function Extract(): T
      requires Ok?
    {
      value
    }
  }

  /** The outcome of an operation that returns nothing but may raise an error. */
  datatype Outcome = Pass | Fail(error: Error)
}
