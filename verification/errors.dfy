/** Error kinds raised by the line cache and its database front end, and the
    Result type that carries them (usable with `:-`). */
module Errors {

  datatype Error =
    | AlreadyExists            // create() on an existing file without overwrite
    | NoDatabaseFile           // connect(new=False) on a path with no file
    | NoSuchTable              // the file exists but holds no cache tables
    | UnexpectedArgument       // search() species argument neither a string nor a list
    | NotFound                 // NotFoundError raised by partition_function()
    | MalformedBlob            // a blob whose length is not a multiple of the item size
    | UnknownProtocol          // Db(): protocol outside the supported list
    | LocalCannotBeOnline      // Db(): catfile/local protocol with online=True
    | OfflineCacheUnavailable  // Db(): offline remote protocol without a valid cache
    | UndefinedName            // NameError raised by Python for an unbound name

  datatype Result<+T> = Ok(value: T) | Err(error: Error) {

    predicate IsFailure() {
      Err?
    }

    function PropagateFailure<U>(): Result<U>
      requires Err?
    {
      Err(error)
    }

    function Extract(): T
      requires Ok?
    {
      value
    }
  }
}
