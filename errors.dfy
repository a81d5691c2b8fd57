/** The system's exception hierarchy (`core/exceptions.py`): every error carries a
    message and an optional error code. */
module Errors {
  import opened Wrappers

  datatype ErrorKind =
    | ValidationError
    | ProcessingError
    | TranslationServiceError
    | ConfigurationError
    | AuthenticationError
    | RateLimitError
    | UnsupportedFormatError
    | EmbeddingError
    /** Python's own `ValueError`, raised by a setter. */
    | ValueError
    /** Any exception raised by a collaborator outside the hierarchy. */
    | Foreign(className: string)

  datatype Error = Error(kind: ErrorKind, message: string, code: Option<string>)

  /** `type(e).__name__`. */
  function ClassName(kind: ErrorKind): string {
    match kind
    case ValidationError => "ValidationError"
    case ProcessingError => "ProcessingError"
    case TranslationServiceError => "TranslationServiceError"
    case ConfigurationError => "ConfigurationError"
    case AuthenticationError => "AuthenticationError"
    case RateLimitError => "RateLimitError"
    case UnsupportedFormatError => "UnsupportedFormatError"
    case EmbeddingError => "EmbeddingError"
    case ValueError => "ValueError"
    case Foreign(name) => name
  }
}
