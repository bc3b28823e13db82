/** Result of one step that either yields a value or raises an error whose
    description is a string (the model of a Python `try`/`raise`). */
module Results {

  datatype Result<+T> = Success(value: T) | Failure(error: string)
}
