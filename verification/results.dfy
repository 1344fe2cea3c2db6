/** Failure-carrying values shared by every module of the model.
    A Java `null` becomes `None`; a thrown exception becomes `Fail`. */
module Results {

  datatype Option<+T> = None | Some(value: T)

  datatype Result<+T, +E> = Ok(value: T) | Fail(error: E)

}
