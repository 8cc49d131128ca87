/** The exceptions the engine raises or lets through, and the shape of a
    Ruby call that either returns a value or raises one of them. */
module Errors {
  import opened Wrappers

  datatype Error =
    | RuntimeError(message: string)   // `raise "..."`
    | FileNotFound(message: string)   // OCFL::Object::FileNotFound
    | NoMethodError(name: string)     // a method called on nil
    | TypeError(message: string)      // nil where a String is needed
    | ArgumentError(message: string)  // `raise ArgumentError, "..."`
    | NoSuchFile(path: string)        // Errno::ENOENT
    | FileExists(path: string)        // Errno::EEXIST
    | IsADirectory(path: string)      // Errno::EISDIR
    | ParserError                     // JSON::ParserError
    | StructError(attribute: string)  // Dry::Struct::Error

  /** A call that returns a `T` or raises. */
  type Attempt<T> = Result<T, Error>
}
