/**
 * The exceptions the bot can meet: the classes it declares for itself, the
 * failures of the HTTP client, and Python's built-in ones.
 */
module Exceptions {
  import opened PyJson

  datatype Error =
    | SendMessageFailure
    | APIResponseStatusCodeException
    | CheckResponseException(message: string)
    | UnknownHWStatusException
    | MissingRequiredTokenException
    | IncorrectAPIResponseException
      /** Raised by `requests.get` or by `response.json()`; its text is the
          library's own. */
    | RequestException(message: string)
    | Builtin(error: PyError)

  /** `str(e)`. The bot's own classes carry the one argument they were raised
      with, or none; `str(KeyError(k))` is `repr(k)`. */
  function Text(e: Error): (r: string)
    ensures e.CheckResponseException? || e.RequestException? ==> r == e.message
    ensures e.Builtin? && e.error.KeyError? ==> r == Repr(e.error.key)
    ensures e.Builtin? && e.error.KeyError? && e.error.key.JStr? ==> |r| >= 2 && r[0] == r[|r| - 1] && r[0] in {'\'', '"'}
    ensures (e.SendMessageFailure? || e.APIResponseStatusCodeException? || e.UnknownHWStatusException? ||
             e.MissingRequiredTokenException? || e.IncorrectAPIResponseException?) ==> r == ""
  {
    match e
    case CheckResponseException(m) => m
    case RequestException(m) => m
    case Builtin(KeyError(k)) => Repr(k)
    case Builtin(TypeError(m)) => m
    case Builtin(AttributeError(m)) => m
    case _ => ""
  }

  /** A missing key made of plain characters reads as the key in single quotes. */
  lemma KeyErrorTextOfPlainKey(key: string)
    requires forall k :: 0 <= k < |key| ==> PlainChar(key[k])
    ensures Text(Builtin(KeyError(JStr(key)))) == "'" + key + "'"
  {
    StrReprOfPlainText(key);
  }
}
