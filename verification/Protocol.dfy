/** The named error codes of the wire protocol. */
module Protocol {
  import opened Bytes

  datatype ErrorCode =
    | NoError | BadRequest | UnknownCommand | InvalidArgument | NotFound
    | Unsupported | EstopEngaged | Busy | Unavailable
    | Timeout | CancelledError | Internal

  function CodeName(code: ErrorCode): string {
    match code
    case NoError => "none"
    case BadRequest => "bad_request"
    case UnknownCommand => "unknown_command"
    case InvalidArgument => "invalid_argument"
    case NotFound => "not_found"
    case Unsupported => "unsupported"
    case EstopEngaged => "estop_engaged"
    case Busy => "busy"
    case Unavailable => "unavailable"
    case Timeout => "timeout"
    case CancelledError => "cancelled"
    case Internal => "internal"
  }

  predicate IsRetryable(code: ErrorCode) { code == Busy || code == Unavailable || code == Timeout }

  function ParseErrorCode(text: string): Option<ErrorCode> {
    if text == "none" then Some(NoError)
    else if text == "bad_request" then Some(BadRequest)
    else if text == "unknown_command" then Some(UnknownCommand)
    else if text == "invalid_argument" then Some(InvalidArgument)
    else if text == "not_found" then Some(NotFound)
    else if text == "unsupported" then Some(Unsupported)
    else if text == "estop_engaged" then Some(EstopEngaged)
    else if text == "busy" then Some(Busy)
    else if text == "unavailable" then Some(Unavailable)
    else if text == "timeout" then Some(Timeout)
    else if text == "cancelled" then Some(CancelledError)
    else if text == "internal" then Some(Internal)
    else None
  }

  lemma NamesReadBack(code: ErrorCode, text: string)
    ensures ParseErrorCode(text) == Some(code) <==> text == CodeName(code)
  {
    hide CodeName, ParseErrorCode;
    CodeReadsBack(code);
    ReadIsNamed(text);
  }

  lemma CodeReadsBack(code: ErrorCode)
    ensures ParseErrorCode(CodeName(code)) == Some(code)
  {
  }

  lemma ReadIsNamed(text: string)
    ensures ParseErrorCode(text).Some? ==> text == CodeName(ParseErrorCode(text).value)
  {
  }
}
