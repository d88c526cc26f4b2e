/** Failure values shared by every module: the Python exceptions that the
    modelled code raises, and the Result/Option wrappers that carry them. */
module Outcomes {

  /** The exceptions raised by the analysis pipeline and its containers. */
  datatype Error =
    | TypeError   // a wrongly typed argument (isinstance checks)
    | KeyError    // a dictionary lookup of a missing key
    | IndexError  // a matrix index outside its shape
    | ValueError  // a sparse matrix created with a negative shape

  datatype Option<+T> = None | Some(value: T)

  datatype Result<+T> = Ok(value: T) | Err(error: Error)
}
