/** Option values and the exceptions the modelled Python code raises or catches. */
module Wrappers {

  datatype Option<T> = None | Some(value: T)
  {
    function UnwrapOr(default: T): T
    {
      match this
      case None => default
      case Some(v) => v
    }
  }

  /** The Python exception classes that decide a branch somewhere in the model. */
  datatype Exc =
    | ValueError                      // datetime parsing, bad response shape, missing fields
    | TypeError                       // an operation applied to a value of the wrong type
    | KeyError                        // `d[k]` on a missing key
    | AttributeError                  // `.get` on something that is not a dict
    | RuntimeError(metodo: string)    // the retry loops giving up, naming the API method
    | HttpStatusError(status: int)    // aiohttp ClientResponseError / requests HTTPError
    | NetworkError                    // connection failures (aiohttp ClientError without a response)
    | TimeoutError                    // asyncio.TimeoutError / requests Timeout
    | NameError                       // a name used without being imported
    | BindingError                    // sqlite3 cannot bind a list or dict parameter
    | DatabaseError                   // the pipeline's own DatabaseError, wrapping a failure

  /** The outcome of a Python call: a value, or an exception that propagates. */
  datatype Outcome<T> = Ok(value: T) | Raise(exc: Exc)
}
