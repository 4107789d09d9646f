/**
 * Shared vocabulary of the upload layer: optional values, the error kinds an
 * operation can raise, result wrappers, bytes, and PHP's notion of a "truthy"
 * string (used by the `?:` operator and by `if ($s)` in the drivers).
 */
module Common {

  /** A byte of file content. */
  newtype byte = x: int | 0 <= x < 256

  datatype Option<T> = None | Some(value: T)

  /**
   * The kinds of `ValidateException` the upload layer raises, and the
   * `TypeError` PHP raises when `delete` strips with an unset disk URL.
   */
  datatype Error =
    | DisallowedType(ext: string)        // extension not in the allowed list
    | FileTooLarge(limitKb: int)         // size above the global file limit
    | ImageTooLarge(limitKb: int)        // image above the image limit
    | InvalidValidationRule              // custom rule map names no known rule
    | RuleRejected(rule: string)         // the framework validator refused the file
    | MissingConfig(field: string)       // a required driver setting is absent
    | PathNotFound(path: string)         // storage root is not a directory
    | PathUnwritable(path: string)       // storage root is not writable
    | CannotWrite(dir: string)           // target directory could not be created
    | WriteFailed                        // the framework did not store the file
    | UploadFailed                       // an object-store upload step failed
    | SignFailed                         // the object store could not presign
    | DeleteFailed                       // the object store did not answer 204
    | NotFound                           // local file to delete does not exist
    | UrlUnset                           // `ltrim` handed the null `url` of a disk without one

  datatype Result<T> = Ok(value: T) | Err(error: Error)

  datatype Outcome = Pass | Fail(error: Error)

  /** PHP truthiness of a string: only "" and "0" are falsy. */
  predicate Truthy(s: string)
  {
    s != "" && s != "0"
  }
}
