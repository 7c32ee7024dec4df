/**
 * Go error values as the weather pipeline produces and inspects them.
 *
 * The use case declares two sentinel errors (ErrInvalidZipCode and
 * ErrZipCodeNotFound); every other error (a transport failure, a non-200
 * status, a decode failure) is an opaque value. The handler tells errors
 * apart with errors.Is, which also looks through errors wrapped with
 * fmt.Errorf("...%w", cause), so a wrap chain is part of the model.
 */
module Errors {

  /** An error value. */
  datatype Error =
    | InvalidZipCode                      // ErrInvalidZipCode, "invalid zipcode"
    | ZipCodeNotFound                     // ErrZipCodeNotFound, "can not find zipcode"
    | Other(tag: string)                  // any other error, identified by its tag
    | Wrapped(msg: string, cause: Error)  // an error that wraps exactly one cause

  /** The (value, error) pair a Go call returns: a value when the error is nil, otherwise the error. */
  datatype Result<T> = Ok(value: T) | Err(error: Error)

  /** The wrap chain of an error: the error itself, then what it wraps, down to the innermost error. */
  function Chain(err: Error): (c: seq<Error>)
    ensures |c| >= 1 && c[0] == err && !c[|c| - 1].Wrapped?
  {
    if err.Wrapped? then [err] + Chain(err.cause) else [err]
  }

  /** errors.Is(err, target): target is err itself or occurs further down its wrap chain. */
  predicate Is(err: Error, target: Error)
    ensures Is(err, target) <==> target in Chain(err)
  {
    err == target || (err.Wrapped? && Is(err.cause, target))
  }

  /** The innermost error of a wrap chain: the one that does not wrap anything. */
  function Root(err: Error): (r: Error)
    ensures !r.Wrapped?
    ensures Is(err, r)
    ensures !err.Wrapped? ==> r == err
  {
    if err.Wrapped? then Root(err.cause) else err
  }

  /** For a target that wraps nothing (such as a sentinel), errors.Is asks exactly whether it is the chain's root. */
  lemma {:induction false} IsUnwrappedIffRoot(err: Error, target: Error)
    requires !target.Wrapped?
    ensures Is(err, target) <==> Root(err) == target
  {
    if err.Wrapped? {
      IsUnwrappedIffRoot(err.cause, target);
    }
  }

  /** No error is both sentinels: the handler's two errors.Is checks never both succeed. */
  lemma SentinelsExclusive(err: Error)
    ensures !(Is(err, InvalidZipCode) && Is(err, ZipCodeNotFound))
  {
    IsUnwrappedIffRoot(err, InvalidZipCode);
    IsUnwrappedIffRoot(err, ZipCodeNotFound);
  }
}
