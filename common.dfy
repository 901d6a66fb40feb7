/** Value types shared by every module: optional values (Java's nullable
    references), the exceptions the modelled Java code can raise, and the two
    shapes of a call's result — a void call that returns or throws, and a call
    that returns a value or throws. */
module Common {

  type byte = bv8

  /** A Java reference that may be null. */
  datatype Option<+T> = None | Some(value: T)

  /** The S3 error codes the model tells apart. `Refused` stands for every
      refusal the model does not derive from the store's contents: access
      denied, throttling, a dropped connection. */
  datatype ErrorCode =
    | NoSuchBucket
    | BucketNotEmpty
    | BucketAlreadyOwnedByYou
    | Refused

  datatype Exception =
    | AmazonServiceException(code: ErrorCode)
    | IOException(message: string)
    | FileNotFoundException(message: string)
    | IllegalArgumentException(message: string)
    | NullPointerException

  /** Result of a void call. */
  datatype Outcome = Done | Threw(error: Exception)

  /** Result of a call that returns a value. */
  datatype Result<+T> = Ok(value: T) | Err(error: Exception)

  /** How a value-returning call ended, forgetting the value. */
  function OutcomeOf<T>(r: Result<T>): (o: Outcome)
    ensures o.Done? <==> r.Ok?
    ensures r.Err? ==> o == Threw(r.error)
  {
    if r.Ok? then Done else Threw(r.error)
  }

  /** No element occurs twice. */
  predicate NoDuplicates<T(==)>(s: seq<T>) {
    forall i, j :: 0 <= i < j < |s| ==> s[i] != s[j]
  }

  predicate IsPrefix<T(==)>(p: seq<T>, s: seq<T>) {
    |p| <= |s| && p == s[..|p|]
  }

  /** The elements of a sequence, as a set. */
  function Elems<T>(s: seq<T>): (elems: set<T>) {
    set x | x in s
  }
}
