/** What a route handler answers: a success status with a JSON body, or an
    error status with its message. A 500 stands for an exception caught by
    a handler's `try`/`catch` or by Express's default error handler. */
module Http {

  datatype Reply<T> = Ok(status: int, body: T) | Fail(status: int, message: string)
}
