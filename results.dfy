/** Outcome types shared by the schema validators and the catalog service. */
module Results {

  datatype Option<+T> = None | Some(value: T)

  /** The error kinds the catalog service reports: a missing movie or an
      empty listing (404), a duplicate (name, date) pair (409), input the
      validation layer or the store refuses (422 / 400), and a stored row
      that its response schema refuses (500). */
  datatype Error = NotFound | Conflict | Invalid | ServerError

  datatype Result<+T> = Ok(value: T) | Err(error: Error)
}
