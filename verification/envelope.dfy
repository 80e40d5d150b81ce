/** The response envelope, the error class every handler throws, and the
    error middleware that turns a thrown object into an HTTP reply
    (`backend/utils/apiResponse.js`, `backend/utils/apiError.js`,
    `backend/middlewares/error.middleware.js`). */
module Envelope {
  import opened Common

  /** `new ApiResponse(statusCode, data, message)`. */
  datatype ApiResponse<T> = ApiResponse(statusCode: int, data: T, message: string, success: bool)

  /** The constructor; an omitted message (`undefined`) takes the default. */
  function NewApiResponse<T>(statusCode: int, data: T, message: Option<string>): (r: ApiResponse<T>)
    ensures r.statusCode == statusCode && r.data == data
    ensures r.success <==> statusCode < 400
    ensures message.None? ==> r.message == "Success"
    ensures message.Some? ==> r.message == message.value
  {
    ApiResponse(statusCode, data, if message.Some? then message.value else "Success", statusCode < 400)
  }

  /** A stack trace: one handed to the constructor, or the one the runtime
      captures (whose text is not modelled). */
  datatype Stack = Supplied(text: string) | Captured

  /** `new ApiError(statusCode, message, errors, stack)`. */
  datatype ApiError = ApiError(
    statusCode: int, message: string, success: bool, errors: seq<Json>, data: Json, stack: Stack)

  /** The constructor; omitted arguments take their defaults, and an empty
      stack argument means the runtime captures one. */
  function NewApiError(statusCode: int, message: Option<string>, errors: Option<seq<Json>>, stack: string): (e: ApiError)
    ensures e.statusCode == statusCode
    ensures e.message == (if message.Some? then message.value else "Something went wrong")
    ensures !e.success
    ensures e.errors == (if errors.Some? then errors.value else [])
    ensures e.data == JNull
    ensures e.stack == (if stack != "" then Supplied(stack) else Captured)
  {
    ApiError(statusCode,
      if message.Some? then message.value else "Something went wrong",
      false,
      if errors.Some? then errors.value else [],
      JNull,
      if stack != "" then Supplied(stack) else Captured)
  }

  /** What the error middleware can read from a thrown object: every field
      may be missing (`undefined`). */
  datatype Thrown = Thrown(statusCode: Option<int>, message: Option<string>, errors: Option<seq<Json>>, stack: Option<Stack>)

  /** An `ApiError` seen as a thrown object: all its fields are present. */
  function AsThrown(e: ApiError): (t: Thrown)
    ensures t.statusCode == Some(e.statusCode) && t.message == Some(e.message)
    ensures t.errors == Some(e.errors) && t.stack == Some(e.stack)
  {
    Thrown(Some(e.statusCode), Some(e.message), Some(e.errors), Some(e.stack))
  }

  /** `throw new ApiError(statusCode, message)`, as the controllers write it. */
  function Fail(statusCode: int, message: string): (t: Thrown)
    ensures t == AsThrown(NewApiError(statusCode, Some(message), None, ""))
  {
    AsThrown(NewApiError(statusCode, Some(message), None, ""))
  }

  /** An error that is not an `ApiError`: one raised by the document store
      (a failed schema validation or type cast) or by the runtime (a
      `ReferenceError`). It carries a message but no status code. */
  function Uncoded(message: string): (t: Thrown)
    ensures t.statusCode.None? && t.message == Some(message)
  {
    Thrown(None, Some(message), None, Some(Captured))
  }

  /** A request value of the wrong shape, rejected by the store's type
      cast. */
  const CastFailure := Uncoded("Cast failed")

  /** The JSON body the error middleware sends; an absent stack is `undefined`. */
  datatype ErrorBody = ErrorBody(success: bool, message: string, errors: seq<Json>, stack: Option<Stack>, data: Json)

  datatype ErrorReply = ErrorReply(status: int, body: ErrorBody)

  /** `errorMiddleware(err, req, res, next)` with `process.env.NODE_ENV`
      passed in as `nodeEnv`. A status code of 0 and an empty message are
      falsy; an errors array is truthy even when empty. */
  function ErrorMiddleware(err: Thrown, nodeEnv: string): (reply: ErrorReply)
    ensures err.statusCode.Some? && err.statusCode.value != 0 ==> reply.status == err.statusCode.value
    ensures err.statusCode.None? || err.statusCode.value == 0 ==> reply.status == 500
    ensures err.message.Some? && err.message.value != "" ==> reply.body.message == err.message.value
    ensures err.message.None? || err.message.value == "" ==> reply.body.message == "Internal Server Error"
    ensures !reply.body.success && reply.body.data == JNull
    ensures reply.body.errors == (if err.errors.Some? then err.errors.value else [])
    ensures reply.body.stack.Some? <==> nodeEnv == "development" && err.stack.Some?
    ensures reply.body.stack.Some? ==> reply.body.stack == err.stack
  {
    var status := if err.statusCode.Some? && err.statusCode.value != 0 then err.statusCode.value else 500;
    var message := if err.message.Some? && err.message.value != "" then err.message.value else "Internal Server Error";
    ErrorReply(status, ErrorBody(
      false,
      message,
      if err.errors.Some? then err.errors.value else [],
      if nodeEnv == "development" then err.stack else None,
      JNull))
  }

  /** A handler's `throw new ApiError(code, message)` reaches the client as
      exactly that status and message, with no stack outside development. */
  lemma ApiErrorReply(code: int, message: string, nodeEnv: string)
    requires code != 0 && message != ""
    ensures ErrorMiddleware(Fail(code, message), nodeEnv).status == code
    ensures ErrorMiddleware(Fail(code, message), nodeEnv).body.message == message
    ensures ErrorMiddleware(Fail(code, message), nodeEnv).body.errors == []
    ensures nodeEnv != "development" ==> ErrorMiddleware(Fail(code, message), nodeEnv).body.stack.None?
  {
  }

  /** An error without a status code always reaches the client as a 500. */
  lemma UncodedReply(message: string, nodeEnv: string)
    ensures ErrorMiddleware(Uncoded(message), nodeEnv).status == 500
  {
  }
}
