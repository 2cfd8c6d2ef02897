/** The upload middleware's own logic: the file filter that accepts a file
    only when both its declared MIME type and its extension are allowed,
    the configured limits, and the error hook that rewrites the messages of
    two multer errors before forwarding them. Multer's stream handling and
    disk storage are not part of this model. */
module Upload {
  import opened Util
  import opened FileUtils
  import opened ErrorHandler

  const AllowedMimeTypes := ["image/jpeg", "image/png", "image/webp", "image/gif"]
  const AllowedExtensions := ["jpg", "jpeg", "png", "webp", "gif"]

  /** `limits.files` and the `maxCount` of `upload.array('images', 10)` */
  const MaxFiles := 10
  /** The form field `uploadTradeImages` reads */
  const ImagesField := "images"
  /** The form field `uploadTradeImage` reads */
  const ImageField := "image"

  /** What the filter reports through its callback: `cb(null, true)` or
      `cb(new Error(message), false)` */
  datatype FilterOutcome = Accept | Reject(message: string)

  /** `fileFilter(req, file, cb)`: the MIME type is checked first, then the
      extension of the original name. */
  function FileFilter(mimetype: string, originalname: string): (r: FilterOutcome)
    ensures mimetype !in AllowedMimeTypes ==> r == Reject("Tipo de archivo no permitido: " + mimetype)
    ensures mimetype in AllowedMimeTypes && !IsAllowedExtension(originalname, AllowedExtensions) ==>
              r == Reject("Extensión no permitida: " + GetFileExtension(originalname))
    ensures r == Accept <==> mimetype in AllowedMimeTypes && IsAllowedExtension(originalname, AllowedExtensions)
  {
    if mimetype !in AllowedMimeTypes then Reject("Tipo de archivo no permitido: " + mimetype)
    else
      var ext := GetFileExtension(originalname);
      if ext !in AllowedExtensions then Reject("Extensión no permitida: " + ext)
      else Accept
  }

  /** A file part of a multipart request */
  datatype Part = Part(field: string, mimetype: string, originalname: string)

  /** The parts `uploadTradeImages` lets through: at most ten, all under the
      "images" field, each accepted by the filter */
  predicate TradeImagesAccepted(parts: seq<Part>) {
    && |parts| <= MaxFiles
    && forall i :: 0 <= i < |parts| ==>
         parts[i].field == ImagesField && FileFilter(parts[i].mimetype, parts[i].originalname) == Accept
  }

  /** An accepted file is stored under a generated name that still carries an
      allowed extension, and that name's MIME type is an image type. */
  lemma StoredNameAllowed(part: Part, now: nat, uuid: string)
    requires FileFilter(part.mimetype, part.originalname) == Accept
    requires '.' !in uuid && '/' !in uuid
    ensures IsAllowedExtension(GenerateUniqueFilename(part.originalname, now, uuid), AllowedExtensions)
    ensures GetMimeType(GenerateUniqueFilename(part.originalname, now, uuid)) in AllowedMimeTypes
  {
    UniqueNameKeepsExtension(part.originalname, now, uuid);
  }

  /** Every file of an admitted `images` upload is stored under a name with
      an allowed extension and an image MIME type, and there are at most ten. */
  lemma TradeImagesStored(parts: seq<Part>, now: nat, uuids: seq<string>)
    requires TradeImagesAccepted(parts)
    requires |uuids| == |parts| && forall i :: 0 <= i < |uuids| ==> '.' !in uuids[i] && '/' !in uuids[i]
    ensures |parts| <= MaxFiles
    ensures forall i :: 0 <= i < |parts| ==>
              && parts[i].field == ImagesField
              && IsAllowedExtension(GenerateUniqueFilename(parts[i].originalname, now, uuids[i]), AllowedExtensions)
              && GetMimeType(GenerateUniqueFilename(parts[i].originalname, now, uuids[i])) in AllowedMimeTypes
  {
    forall i | 0 <= i < |parts|
      ensures IsAllowedExtension(GenerateUniqueFilename(parts[i].originalname, now, uuids[i]), AllowedExtensions)
      ensures GetMimeType(GenerateUniqueFilename(parts[i].originalname, now, uuids[i])) in AllowedMimeTypes
    {
      StoredNameAllowed(parts[i], now, uuids[i]);
    }
  }

  /** An error reaching `handleMulterError`; `fromMulter` is
      `err instanceof multer.MulterError` */
  class UploadError {
    const fromMulter: bool
    var code: Option<string>
    var message: string

    constructor(fromMulter: bool, code: Option<string>, message: string)
      ensures this.fromMulter == fromMulter && this.code == code && this.message == message
    {
      this.fromMulter := fromMulter;
      this.code := code;
      this.message := message;
    }
  }

  const FileTooLargeText := "El archivo excede el tamaño máximo de 5MB"
  const UnexpectedFieldText := "Campo de archivo inesperado"

  /** The message an error leaves `handleMulterError` with */
  function MulterMessage(fromMulter: bool, code: Option<string>, message: string): (m: string)
    ensures !fromMulter ==> m == message
    ensures fromMulter && code == Some("LIMIT_FILE_SIZE") ==> m == FileTooLargeText
    ensures fromMulter && code == Some("LIMIT_UNEXPECTED_FILE") ==> m == UnexpectedFieldText
    ensures code != Some("LIMIT_FILE_SIZE") && code != Some("LIMIT_UNEXPECTED_FILE") ==> m == message
  {
    if fromMulter && code == Some("LIMIT_FILE_SIZE") then FileTooLargeText
    else if fromMulter && code == Some("LIMIT_UNEXPECTED_FILE") then UnexpectedFieldText
    else message
  }

  /** `handleMulterError(err, req, res, next)`: rewrites the message in place
      and always forwards the same error object to `next`. */
  method HandleMulterError(err: UploadError) returns (forwarded: UploadError)
    modifies err
    ensures forwarded == err
    ensures err.code == old(err.code)
    ensures err.message == MulterMessage(err.fromMulter, old(err.code), old(err.message))
  {
    if err.fromMulter {
      if err.code == Some("LIMIT_FILE_SIZE") {
        err.code := Some("LIMIT_FILE_SIZE");
        err.message := FileTooLargeText;
      } else if err.code == Some("LIMIT_UNEXPECTED_FILE") {
        err.message := UnexpectedFieldText;
      }
    }
    return err;
  }

  /** For the two multer codes the central error handler answers with a
      fixed text, so the message this hook writes never reaches the client. */
  lemma RewrittenMessageUnused(code: Option<string>, m1: string, m2: string, dev: bool)
    requires code == Some("LIMIT_FILE_SIZE") || code == Some("LIMIT_UNEXPECTED_FILE")
    ensures Handle(PlainError(code, m1), dev) == Handle(PlainError(code, m2), dev)
    ensures Handle(PlainError(code, m1), dev).status == 400
  {
  }
}
