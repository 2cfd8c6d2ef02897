/** The application's error classes and the central error-handling
    middleware: an if-chain that turns any thrown error into an error
    response. Logging is left out. */
module ErrorHandler {
  import opened Util
  import opened Response

  /** Which subclass of AppError was constructed */
  datatype ErrorClass = Base | NotFound | Validation | Conflict | Database

  /** An `AppError` instance; every one of them is operational */
  datatype AppError = AppError(cls: ErrorClass, message: string, statusCode: int, code: string, details: seq<Detail>)
  {
    predicate IsOperational() { true }
  }

  /** One entry of a Joi error's `details`: the key path and the message */
  datatype JoiDetail = JoiDetail(path: seq<string>, message: string)

  /** Anything a handler can throw or pass to `next`: an AppError, a Joi
      error, or a plain error (database, multer or other) with an optional
      string `code` (a code that is not a string behaves as no code). */
  datatype Thrown =
    | Operational(e: AppError)
    | JoiError(joiDetails: seq<JoiDetail>)
    | PlainError(code: Option<string>, message: string)

  /** `new AppError(message, statusCode, code)` */
  function NewAppError(message: string, statusCode: int, code: string): (e: AppError)
    ensures e.cls == Base && e.message == message && e.statusCode == statusCode && e.code == code
    ensures e.details == []
  {
    AppError(Base, message, statusCode, code, [])
  }

  /** `new NotFoundError(message?)` */
  function NewNotFoundError(message: Option<string>): (e: AppError)
    ensures e.cls == NotFound && e.statusCode == 404 && e.code == "NOT_FOUND" && e.IsOperational()
    ensures e.message == (if message.Some? then message.value else "Recurso no encontrado")
  {
    AppError(NotFound, if message.Some? then message.value else "Recurso no encontrado", 404, "NOT_FOUND", [])
  }

  /** `new ValidationError(message?, details = [])` */
  function NewValidationError(message: Option<string>, details: Option<seq<Detail>>): (e: AppError)
    ensures e.cls == Validation && e.statusCode == 400 && e.code == "VALIDATION_ERROR" && e.IsOperational()
    ensures e.message == (if message.Some? then message.value else "Error de validación")
    ensures e.details == (if details.Some? then details.value else [])
  {
    AppError(Validation, if message.Some? then message.value else "Error de validación", 400, "VALIDATION_ERROR",
             if details.Some? then details.value else [])
  }

  /** `new ConflictError(message?)` */
  function NewConflictError(message: Option<string>): (e: AppError)
    ensures e.cls == Conflict && e.statusCode == 409 && e.code == "CONFLICT" && e.IsOperational()
    ensures e.message == (if message.Some? then message.value else "Conflicto con el recurso existente")
  {
    AppError(Conflict, if message.Some? then message.value else "Conflicto con el recurso existente", 409, "CONFLICT", [])
  }

  /** `new DatabaseError(message?)` */
  function NewDatabaseError(message: Option<string>): (e: AppError)
    ensures e.cls == Database && e.statusCode == 500 && e.code == "DATABASE_ERROR" && e.IsOperational()
    ensures e.message == (if message.Some? then message.value else "Error en la base de datos")
  {
    AppError(Database, if message.Some? then message.value else "Error en la base de datos", 500, "DATABASE_ERROR", [])
  }

  const InternalMessage := "Ha ocurrido un error interno"

  /** `detail.path.join('.')` paired with the message */
  function JoiToDetails(ds: seq<JoiDetail>): (r: seq<Detail>)
    ensures |r| == |ds|
    ensures forall i :: 0 <= i < |ds| ==> r[i] == Detail(Join(ds[i].path, "."), ds[i].message)
  {
    if ds == [] then [] else [Detail(Join(ds[0].path, "."), ds[0].message)] + JoiToDetails(ds[1..])
  }

  /** `errorHandler(err, req, res, next)`; `dev` is `NODE_ENV === 'development'` */
  function Handle(err: Thrown, dev: bool): (r: Response<Null>)
    ensures !r.body.Success()
    // an operational validation error with details answers with those details
    ensures err.Operational? && err.e.cls == Validation && |err.e.details| > 0 ==>
              r == SendValidationError(err.e.details)
    // any other operational error answers with its own status, code and message
    ensures err.Operational? && !(err.e.cls == Validation && |err.e.details| > 0) ==>
              r.status == err.e.statusCode && r.body == ErrorBody(ErrorInfo(err.e.message, err.e.code, None))
    ensures err.JoiError? ==> r == SendValidationError(JoiToDetails(err.joiDetails))
    ensures err.PlainError? && err.code == Some("23505") ==> r.status == 409 && r.body.error.code == "DUPLICATE_ENTRY"
    ensures err.PlainError? && err.code == Some("23503") ==> r.status == 400 && r.body.error.code == "INVALID_REFERENCE"
    ensures err.PlainError? && err.code == Some("23514") ==> r.status == 400 && r.body.error.code == "CHECK_VIOLATION"
    ensures err.PlainError? && err.code == Some("LIMIT_FILE_SIZE") ==> r.status == 400 && r.body.error.code == "FILE_TOO_LARGE"
    ensures err.PlainError? && err.code == Some("LIMIT_UNEXPECTED_FILE") ==> r.status == 400 && r.body.error.code == "INVALID_FILE_TYPE"
    ensures err.PlainError? && !KnownCode(err.code) ==>
              r.status == 500 && r.body.error.code == "INTERNAL_ERROR" && r.body.error.details.None? &&
              r.body.error.message == (if dev then err.message else InternalMessage)
  {
    match err
    case Operational(e) =>
      if e.cls == Validation && |e.details| > 0 then SendValidationError(e.details)
      else SendError(e.message, Some(e.statusCode), Some(e.code), None)
    case JoiError(ds) => SendValidationError(JoiToDetails(ds))
    case PlainError(code, message) =>
      if code == Some("23505") then SendError("El registro ya existe", Some(409), Some("DUPLICATE_ENTRY"), None)
      else if code == Some("23503") then SendError("Referencia inválida", Some(400), Some("INVALID_REFERENCE"), None)
      else if code == Some("23514") then SendError("Valor inválido", Some(400), Some("CHECK_VIOLATION"), None)
      else if code == Some("LIMIT_FILE_SIZE") then
        SendError("El archivo excede el tamaño máximo permitido", Some(400), Some("FILE_TOO_LARGE"), None)
      else if code == Some("LIMIT_UNEXPECTED_FILE") then
        SendError("Tipo de archivo no permitido", Some(400), Some("INVALID_FILE_TYPE"), None)
      else SendError(if dev then message else InternalMessage, Some(500), Some("INTERNAL_ERROR"), None)
  }

  /** The plain-error codes the handler maps to a specific response */
  predicate KnownCode(code: Option<string>) {
    code.Some? && code.value in {"23505", "23503", "23514", "LIMIT_FILE_SIZE", "LIMIT_UNEXPECTED_FILE"}
  }

  /** `notFoundHandler`: 404 ROUTE_NOT_FOUND naming the method and url */
  function NotFoundRoute(verb: string, url: string): (r: Response<Null>)
    ensures !r.body.Success() && r.status == 404 && r.body.error.code == "ROUTE_NOT_FOUND"
    ensures r.body.error.message == "Ruta no encontrada: " + verb + " " + url
  {
    SendError("Ruta no encontrada: " + verb + " " + url, Some(404), Some("ROUTE_NOT_FOUND"), None)
  }

  /** Outside development, the message of an unexpected error never reaches the
      client: the response carries either a fixed text or the error's own
      message only when that error was operational or mapped. */
  lemma InternalMessageHidden(message: string, code: Option<string>)
    requires !KnownCode(code)
    ensures Handle(PlainError(code, message), false).body.error.message == InternalMessage
    ensures Handle(PlainError(code, message), true).body.error.message == message
  {
  }

  /** The four AppError subclasses produce operational errors whose response
      keeps their status code and code (a validation error without details
      included). */
  lemma SubclassResponses(m: Option<string>)
    ensures Handle(Operational(NewNotFoundError(m)), false).status == 404
    ensures Handle(Operational(NewConflictError(m)), false).status == 409
    ensures Handle(Operational(NewDatabaseError(m)), false).status == 500
    ensures Handle(Operational(NewValidationError(m, None)), false) ==
            SendError(NewValidationError(m, None).message, Some(400), Some("VALIDATION_ERROR"), None)
  {
  }
}
