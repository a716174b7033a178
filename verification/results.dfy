/** Optional values, results, and the faults the cache layer can raise. */
module Results {

  /** A value that may be absent; `None` plays the part of a .NET `null`. */
  datatype Option<+T> = None | Some(value: T) {

    /** The value, or `default` when absent (`default(T)` for value-type caches). */
    function GetOr(default: T): T {
      match this
      case Some(v) => v
      case None => default
    }
  }

  /** Either a value or the fault that was raised instead. */
  datatype Result<+T, +E> = Success(value: T) | Failure(error: E)

  /** The exceptions the modelled code raises, one constructor per cause. */
  datatype Fault =
    | NotSerializable        // ArgumentException thrown by the CacheBase constructor
    | ExpiryOverflow         // OverflowException from TimeSpan.FromHours
    | DuplicateKey(key: string)  // ArgumentException from ToDictionary on a repeated key
    | KeyNotFound            // KeyNotFoundException from a dictionary indexer
    | EmptyPattern           // ArgumentException from string.Replace with an empty pattern
    | NullEntry              // NullReferenceException reading the key of a missed reply
}
