/** Result shapes shared by the modules, and the shape of a Go call's result. */
module Wrappers {

  /** A value that may be absent: Go's nil pointer or nil error. */
  datatype Option<+T> = None | Some(value: T)

  /** The Go `error` values the modelled code can produce or pass on. */
  datatype Error =
    | KeySizeError(size: int)      // crypto/aes: invalid key size
    | CorruptInputError            // encoding/base64: illegal base64 data
    | OpenError                    // crypto/cipher: message authentication failed
    | Failure(message: string)     // errors.New(message), or an error of an injected collaborator

  /** The result of a Go function returning `(T, error)`: either it returns the pair,
      or it panics. */
  datatype Call<+T> = Return(value: T, err: Option<Error>) | Panic {

    /** The call returned a nil error. */
    predicate Succeeded() {
      Return? && err.None?
    }

    /** The call returned a non-nil error. */
    predicate Failed() {
      Return? && err.Some?
    }
  }

  /** The result of a collaborator that either yields a value or an error (a Go `(*T, error)`
      whose pointer is non-nil exactly when the error is nil). */
  datatype Result<+T> = Ok(value: T) | Err(error: Error)
}
