/** Failure classification (internal/provider/provider.go). */
module Providers {

  /** `Other` stands for any kind outside the declared constants: Go's Kind is a string. */
  datatype Kind =
    | InvalidRequest | Auth | RateLimit | Timeout | Unavailable
    | ContentFilter | ContextLength | Internal | Other(name: string)

  /** A Go `error`: either one that `AsError` finds a *provider.Error in, or one it does not. */
  datatype Failure =
    | Classified(kind: Kind, provider: string, status: int, retryAfter: int)
    | Unclassified(cause: string)

  predicate Retryable(f: Failure) {
    f.Classified? && (f.kind.RateLimit? || f.kind.Timeout? || f.kind.Unavailable?)
  }

  /** Whether `do` moves on to the next target; an unclassified error does. */
  predicate FailsOver(f: Failure) {
    f.Classified? ==> !f.kind.InvalidRequest? && !f.kind.ContentFilter?
  }

  /** Whether the failure is reported to the circuit breaker. */
  predicate Counts(f: Failure) {
    && f.Classified?
    && !f.kind.InvalidRequest? && !f.kind.ContentFilter?
    && !f.kind.ContextLength? && !f.kind.Internal?
  }

  function HTTPStatus(k: Kind): int {
    match k
    case InvalidRequest | ContextLength | ContentFilter => 400
    case Auth => 502
    case RateLimit => 429
    case Timeout => 504
    case Unavailable => 502
    case _ => 500
  }

  /** How informative a kind is to the client. */
  function Rank(k: Kind): nat {
    match k
    case RateLimit => 5
    case InvalidRequest | ContextLength | ContentFilter => 4
    case Auth => 3
    case Timeout => 2
    case Unavailable => 1
    case _ => 0
  }
}
