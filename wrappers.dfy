/** Values shared by every table: optional values (Go fields that may be nil),
    results of calls that may fail (Go's `(value, error)` pairs), and Go slices,
    which may be nil or a (possibly empty) list. */
module Wrappers {

  datatype Option<+T> = None | Some(value: T) {
    function GetOr(default: T): T {
      match this
      case Some(v) => v
      case None => default
    }
  }

  /** The error a cloud call, a session or a decoder reports; `code` is the
      error code, e.g. "NoSuchEntity". */
  datatype Error = Error(code: string)

  datatype Result<+T> = Ok(value: T) | Err(error: Error)

  /** A point in time, as the cloud API reports it. */
  type Timestamp = int

  /** A Go slice: `None` is the nil slice, `Some(xs)` a non-nil one. */
  type Slice<T> = Option<seq<T>>

  /** The elements of a slice; a nil slice has none. */
  function Elems<T>(s: Slice<T>): seq<T> {
    s.GetOr([])
  }

  /** Go's `append(s, x)`: never nil afterwards, and `x` is added at the end. */
  function Append<T>(s: Slice<T>, x: T): (r: Slice<T>)
    ensures r.Some?
    ensures Elems(r) == Elems(s) + [x]
  {
    Some(Elems(s) + [x])
  }
}
