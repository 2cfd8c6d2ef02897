/** The standard HTTP response envelopes: `{success: true, data, message?}`
    for successes and `{success: false, error: {message, code, details?}}`
    for errors, each paired with its status code. A response is a value; the
    Express `res` object it would be written to is left out. */
module Response {
  import opened Util

  /** One entry of `error.details` */
  datatype Detail = Detail(field: string, message: string)

  /** JSON `null`, the data of a deletion response */
  datatype Null = Null

  /** The `error` object of an error body */
  datatype ErrorInfo = ErrorInfo(message: string, code: string, details: Option<seq<Detail>>)

  datatype Body<D> =
    | SuccessBody(data: D, message: Option<string>)
    | ErrorBody(error: ErrorInfo)
  {
    /** The `success` key of the body */
    predicate Success() { SuccessBody? }
  }

  datatype Response<D> = Response(status: int, body: Body<D>)

  /** JavaScript truthiness of an optional string */
  predicate Truthy(s: Option<string>) {
    s.Some? && s.value != ""
  }

  /** `sendSuccess(res, data, message = null, statusCode = 200)`; `None` stands for an omitted argument */
  function SendSuccess<D>(data: D, message: Option<string>, status: Option<int>): (r: Response<D>)
    ensures r.body.Success() && r.body.data == data
    ensures r.status == (if status.Some? then status.value else 200)
    ensures r.body.message.Some? <==> Truthy(message)
    ensures r.body.message.Some? ==> r.body.message == message
  {
    Response(if status.Some? then status.value else 200,
             SuccessBody(data, if Truthy(message) then message else None))
  }

  /** `sendError(res, message, statusCode = 500, code = 'INTERNAL_ERROR', details = null)`;
      an array of details is truthy even when it is empty */
  function SendError<D>(message: string, status: Option<int>, code: Option<string>,
                        details: Option<seq<Detail>>): (r: Response<D>)
    ensures !r.body.Success() && r.body.error.message == message && r.body.error.details == details
    ensures r.status == (if status.Some? then status.value else 500)
    ensures r.body.error.code == (if code.Some? then code.value else "INTERNAL_ERROR")
  {
    Response(if status.Some? then status.value else 500,
             ErrorBody(ErrorInfo(message, if code.Some? then code.value else "INTERNAL_ERROR", details)))
  }

  const CreatedMessage := "Recurso creado exitosamente"
  const DeletedMessage := "Recurso eliminado exitosamente"
  const NotFoundMessage := "Recurso no encontrado"
  const ValidationMessage := "Error de validación"

  /** `sendCreated`: a success with status 201 and a default message */
  function SendCreated<D>(data: D, message: Option<string>): (r: Response<D>)
    ensures r.status == 201 && r.body.Success() && r.body.data == data
    ensures message.None? ==> r.body.message == Some(CreatedMessage)
    ensures Truthy(message) ==> r.body.message == message
  {
    SendSuccess(data, if message.Some? then message else Some(CreatedMessage), Some(201))
  }

  /** `sendDeleted`: a success with status 200 whose data is null */
  function SendDeleted(message: Option<string>): (r: Response<Null>)
    ensures r.status == 200 && r.body.Success() && r.body.data == Null
    ensures message.None? ==> r.body.message == Some(DeletedMessage)
    ensures Truthy(message) ==> r.body.message == message
  {
    SendSuccess(Null, if message.Some? then message else Some(DeletedMessage), Some(200))
  }

  /** `sendNotFound`: status 404, code NOT_FOUND, no details */
  function SendNotFound<D>(message: Option<string>): (r: Response<D>)
    ensures r.status == 404 && !r.body.Success() && r.body.error.code == "NOT_FOUND"
    ensures r.body.error.details.None?
    ensures r.body.error.message == (if message.Some? then message.value else NotFoundMessage)
  {
    SendError(if message.Some? then message.value else NotFoundMessage, Some(404), Some("NOT_FOUND"), None)
  }

  /** `sendValidationError`: status 400, code VALIDATION_ERROR, carrying the details */
  function SendValidationError<D>(details: seq<Detail>): (r: Response<D>)
    ensures r.status == 400 && !r.body.Success()
    ensures r.body.error.code == "VALIDATION_ERROR" && r.body.error.message == ValidationMessage
    ensures r.body.error.details == Some(details)
  {
    SendError(ValidationMessage, Some(400), Some("VALIDATION_ERROR"), Some(details))
  }
}
