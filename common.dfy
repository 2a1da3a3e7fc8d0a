// Shared vocabulary of the model: optional values, bytes, error values of the
// Go packages, and the clock.
module Common {

  datatype Option<+T> = None | Some(value: T)

  /** A value, or the error a Go function returns beside a nil value. */
  datatype Result<+T> = Ok(value: T) | Fail(err: Err)

  /** One octet; Go's `byte`. */
  type Byte = b: int | 0 <= b < 256

  /** A point on the clock or a duration, in nanoseconds (Go's time.Duration unit). */
  type Time = int

  const Second: int := 1_000_000_000
  const Minute: int := 60 * Second

  /** The error values the Go code compares against with errors.Is, plus
      `Storage` for any other failure reported by a collaborator
      (database driver, entropy source, template engine, mail service). */
  datatype Err =
    | ErrNoUserFound          // data.ErrNoUserFound
    | ErrDuplicateEmail       // data.ErrDuplicateEmail
    | ErrEditConflict         // data.ErrEditConflict
    | ErrUserUnauthenticated  // api.errUserUnauthenticated
    | Storage

  /** Number of occurrences of `c` in `s`. */
  function Count(s: string, c: char): (n: nat)
    ensures n <= |s|
  {
    if s == [] then 0 else (if s[0] == c then 1 else 0) + Count(s[1..], c)
  }
}
