/**
  The error values the modelled code can return. Go's `error` is an interface; the model
  keeps one constructor per kind of error the modelled code produces or passes through.
 */
module Errors {

  datatype Error =
    /** An error built by `errors.New` or `fmt.Errorf`; the text is written out. */
    | Message(text: string)
    /** `fmt.Sscanf` could not read the number of a `t=`, `m=` or `p=` field. */
    | ScanFailure
    /** `base64.CorruptInputError` from the unpadded standard decoder. */
    | CorruptBase64
    /** `crypto/rand` could not fill the salt buffer. */
    | RandomUnavailable
    /** `pgx.ErrNoRows`: a `QueryRow ... RETURNING` matched no row. */
    | NoRows
    /** The database refused a write that would give two users one email. */
    | ConstraintViolation
    /** The Argon2id library refuses its parameters (a zero time cost, a zero
        parallelism or a zero key length); the library panics there. */
    | DerivationAbort

  /** Go's `error` result: `nil` is `Pass`. */
  datatype Outcome = Pass | Fail(error: Error)
}
