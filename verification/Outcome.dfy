/** The exceptions of the image builder, as values. */
module Outcome {
  datatype Error =
    | NoFreeCluster      // NoFreeClusterException
    | NoFreeSpace        // FatalError
    | NotFound           // FileNotFoundError
    | NotADirectory      // a method of Directory looked up on a File
    | NotAFile           // WriteDirectoryException
    | EmptyPath          // IndexError on an empty path
    | LowerCase          // LowerCaseException
    | TooLongName        // TooLongNameException
    | NoFirstCluster     // AttributeError on the missing first cluster of an empty file
    | TooLarge           // FormatFieldError, a size of 32 bits or more
    | RootFull           // the root directory would have to grow

  datatype Result<+T> = Ok(value: T) | Err(error: Error) {
    predicate IsFailure() { Err? }

    function PropagateFailure<U>(): Result<U>
      requires Err?
    {
      Err(error)
    }

    function Extract(): T
      requires Ok?
    {
      value
    }
  }
}
