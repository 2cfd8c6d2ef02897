# tradelog trading journal — a Dafny model of its core

This project models the deterministic core of the tradelog trading journal: the Express backend
and a few frontend helpers. Each core source file becomes one Dafny module.

- **CSV import** (`CsvParser`, `CsvImport`). `;`-separated lines are split and their fields
  normalised. Numbers are read as `parseFloat` reads them, after the first decimal comma becomes a
  point. A header row is detected and lines are numbered. Every line is validated against the CSV
  line schema, and the results are split into valid and error lists. The import is all-or-nothing.
- **Validation schemas** (`TradeValidator`). The Joi schemas for create, update, list query, id
  parameter, CSV line and CSV import are written out as explicit checks with Joi's messages.
- **Trade store** (`TradeRepository`). A class holds the `trades` table, with its soft-delete
  marker, and the `trade_images` table. Its methods are the repository functions:
  - the parameterised WHERE builder with `$k` numbering, and pagination;
  - the allow-listed UPDATE SET builder;
  - all-or-nothing bulk insert;
  - soft and hard delete;
  - images grouped by trade.
- **Trade service** (`TradeService`). Existence checks, image-ownership checks and appending of
  images run over the store.
- **Statistics** (`StatsService`). The SQL aggregates are pure functions over a sequence of rows:
  counts, win rate, averages, grouping by symbol and by type, top N, and the running daily total.
- **Errors and responses** (`ErrorHandler`, `Response`, `Validation`, `Auth`). These cover:
  - the error classes and the central error classifier;
  - the response envelopes;
  - the aggregation of validation details;
  - the parsing of the `Authorization: Bearer` header.
- **Files and uploads** (`FileUtils`, `Upload`). The extension and MIME helpers, the multer file
  filter and the multer error hook.
- **Frontend** (`DateTimeInput`, `ImageUpload`, `ImageViewer`, `Formatters`):
  - the date input mask and its conversion to ISO form;
  - the hook holding the images picked for upload;
  - the image carousel's state;
  - the sign and CSS-class dispatch of the formatters.

Shared enumerations and allow-lists are in `TradeModel`, and JavaScript string operations are in
`Util`.

The database, the clock, the UUID generator, the JWT verifier, Joi's own schema checks (in the
validation middleware), `new Date(...)` and the `Intl`/`toFixed` renderers are all parameters of
the operations that use them.

Where the documented CSV behaviour and the code differ, the model follows the code:
- The validated CSV data carries no `exit_date`. `csvLineSchema` has no such key and `stripUnknown`
  removes it (`CsvParser.ExitDateDropped`).
- A header-only file raises "El CSV no contiene datos" inside the parser. So the import's
  "no valid data" answer is unreachable (`CsvImport.ImportCsv`).
- A line with too few columns carries no raw text (`CsvParser.ParseLine`).
- Header detection also looks for "symbol" and "tipo", not only for the date keywords.

## Model

| member | source | states |
|---|---|---|
| Response.SendSuccess | tradelog/trading-journal/backend/src/utils/response.js:12-23 | a success body carrying `data`; status 200 unless given; the message appears exactly when it is truthy |
| Response.SendError | tradelog/trading-journal/backend/src/utils/response.js:33-53 | a failure body with the message, code INTERNAL_ERROR and status 500 unless given, and the details only when supplied |
| Response.SendCreated | tradelog/trading-journal/backend/src/utils/response.js:61-63 | status 201, success, the data, and the default creation message when none is given |
| Response.SendDeleted | tradelog/trading-journal/backend/src/utils/response.js:70-72 | status 200, success with null data, and the default deletion message when none is given |
| Response.SendNotFound | tradelog/trading-journal/backend/src/utils/response.js:79-81 | status 404, code NOT_FOUND, no details, the given or default message |
| Response.SendValidationError | tradelog/trading-journal/backend/src/utils/response.js:88-90 | status 400, code VALIDATION_ERROR, the fixed validation message and exactly the given details |
| ErrorHandler.NewAppError | tradelog/trading-journal/backend/src/middleware/errorHandler.js:7-16 | an operational error keeping message, status and code, with no details |
| ErrorHandler.NewNotFoundError | tradelog/trading-journal/backend/src/middleware/errorHandler.js:21-25 | status 404, code NOT_FOUND, default message when none is given |
| ErrorHandler.NewValidationError | tradelog/trading-journal/backend/src/middleware/errorHandler.js:30-35 | status 400, code VALIDATION_ERROR, default message and empty details when not given |
| ErrorHandler.NewConflictError | tradelog/trading-journal/backend/src/middleware/errorHandler.js:40-44 | status 409, code CONFLICT, default message when none is given |
| ErrorHandler.NewDatabaseError | tradelog/trading-journal/backend/src/middleware/errorHandler.js:49-53 | status 500, code DATABASE_ERROR, default message when none is given |
| ErrorHandler.JoiToDetails | tradelog/trading-journal/backend/src/middleware/errorHandler.js:80-83 | one detail per Joi detail, in order, field = path joined with '.', message unchanged |
| ErrorHandler.Handle | tradelog/trading-journal/backend/src/middleware/errorHandler.js:58-121 | every outcome is a failure; operational errors answer with their own status/code (validation errors with details answer with the details); Joi errors become validation responses; the three PostgreSQL codes and two multer codes map to their fixed status and code; anything else is a 500 whose message is hidden outside development |
| ErrorHandler.NotFoundRoute | tradelog/trading-journal/backend/src/middleware/errorHandler.js:126-128 | 404 ROUTE_NOT_FOUND naming the verb and URL |
| ErrorHandler.InternalMessageHidden | tradelog/trading-journal/backend/src/middleware/errorHandler.js:114-120 | an unclassified error's message reaches the client only in development |
| ErrorHandler.SubclassResponses | tradelog/trading-journal/backend/src/middleware/errorHandler.js:21-53 | each subclass is answered with its own status; a validation error without details answers like a plain error (no details field) |
| Validation.StripQuotes | tradelog/trading-journal/backend/src/middleware/validation.js:22 | the result is the input with every double quote removed and the other characters kept in their order |
| Validation.Details | tradelog/trading-journal/backend/src/middleware/validation.js:20-23 | one detail per violation, in order: the path joined with '.', the message without quotes |
| Validation.PrefixedDetails | tradelog/trading-journal/backend/src/middleware/validation.js:51-54 | the same details with "property." in front of each field |
| Validation.DetailsAgainstHandler | tradelog/trading-journal/backend/src/middleware/validation.js:20-23 | the middleware's details equal the central handler's Joi mapping except that quotes are stripped from messages |
| Validation.DetailsUnquoted | tradelog/trading-journal/backend/src/middleware/validation.js:22 | no reported message, prefixed or not, contains a double quote |
| Validation.Failure | tradelog/trading-journal/backend/src/middleware/validation.js:25 | the thrown error is a ValidationError (400, VALIDATION_ERROR, the fixed message) carrying exactly the details |
| Validation.Validate | tradelog/trading-journal/backend/src/middleware/validation.js:9-32 | on failure the ValidationError of the details and the request untouched; on success the property (body by default) replaced by the validated value and nothing else changed |
| Validation.RunAllFrame | tradelog/trading-journal/backend/src/middleware/validation.js:43-59 | a property no entry names keeps its value through the loop |
| Validation.RunAllErrors | tradelog/trading-journal/backend/src/middleware/validation.js:43-59 | with distinct property names the collected details are those of every failing entry, each checked against the request as it arrived, in entry order |
| Validation.RunAllReplaced | tradelog/trading-journal/backend/src/middleware/validation.js:50-58 | a property that validates is replaced by its value even when others fail; one that fails keeps its value |
| Validation.ValidateMultiple | tradelog/trading-journal/backend/src/middleware/validation.js:39-67 | the loop's properties and details equal the entry-by-entry reference; one ValidationError with all details is thrown iff any were collected |
| Auth.BearerToken | tradelog/trading-journal/backend/src/middleware/auth.js:13-24 | a missing or empty header is AUTH_REQUIRED; any other rejection is INVALID_TOKEN_FORMAT; an accepted token has no space |
| Auth.BearerTokenExact | tradelog/trading-journal/backend/src/middleware/auth.js:18-24 | a header is accepted with token t exactly when it is "Bearer " followed by t and t has no space |
| Auth.Authentication | tradelog/trading-journal/backend/src/middleware/auth.js:9-41 | header errors come first, then the verifier's error; on success the user is the payload's id and email |
| Auth.Authenticate | tradelog/trading-journal/backend/src/middleware/auth.js:9-41 | on success `req.user` is set and nothing is forwarded; on failure the error is forwarded to `next` and `req.user` is unchanged |
| Auth.OptionalAgrees | tradelog/trading-journal/backend/src/middleware/auth.js:47-77 | `optionalAuth` installs a user exactly when `authenticate` accepts, and the same user; otherwise null |
| Auth.OptionalAuth | tradelog/trading-journal/backend/src/middleware/auth.js:47-77 | `req.user` becomes the authenticated user or null; the request always continues |
| FileUtils.LastIndex | tradelog/trading-journal/backend/src/utils/fileUtils.js:55 | none exactly when the character is absent; otherwise an occurrence after which it no longer occurs |
| FileUtils.Basename | tradelog/trading-journal/backend/src/utils/fileUtils.js:55 | the last path segment holds no '/' |
| FileUtils.BasenameSuffix | tradelog/trading-journal/backend/src/utils/fileUtils.js:55 | the last segment is the part after the last '/' once trailing slashes are dropped: a suffix of that path, preceded by a '/' whenever it is not the whole path |
| FileUtils.Extname | tradelog/trading-journal/backend/src/utils/fileUtils.js:55 | empty, or a '.' followed by a part with no '.' and no '/' |
| FileUtils.ExtnameSuffix | tradelog/trading-journal/backend/src/utils/fileUtils.js:55 | the extension is the base name's suffix from its last '.' (a proper suffix); empty exactly when the base name is empty, has no '.' after its first character, or is ".." |
| FileUtils.GetFileExtension | tradelog/trading-journal/backend/src/utils/fileUtils.js:54-56 | the extension holds no '.', no '/' and no upper-case letter |
| FileUtils.ExtensionOf | tradelog/trading-journal/backend/src/utils/fileUtils.js:54-56 | the extension of "stem.ext" is `ext` lowercased |
| FileUtils.NoExtension | tradelog/trading-journal/backend/src/utils/fileUtils.js:54-56 | a name without '.' has the empty extension |
| FileUtils.IsAllowedExtension | tradelog/trading-journal/backend/src/utils/fileUtils.js:64-67 | a name is allowed exactly when its lowercased extension is in the list; stated by AllowedExtensionOf |
| FileUtils.AllowedExtensionOf | tradelog/trading-journal/backend/src/utils/fileUtils.js:64-67 | "stem.ext" is allowed exactly when `ext` lowercased is in the list, and a name without '.' exactly when "" is |
| FileUtils.GetMimeType | tradelog/trading-journal/backend/src/utils/fileUtils.js:74-84 | the table's type for the five image extensions, `application/octet-stream` exactly for every other extension |
| FileUtils.GetMimeTypeAsWritten | tradelog/trading-journal/backend/src/utils/fileUtils.js:74-84 | the lookup as written yields an inherited object member only for the extension names "constructor" and "__proto__" |
| FileUtils.InheritedKeyLeaks | tradelog/trading-journal/backend/src/utils/fileUtils.js:83 | any name ending in ".constructor" gets the inherited member instead of a MIME type string |
| FileUtils.MimeTypeAgrees | tradelog/trading-journal/backend/src/utils/fileUtils.js:74-84 | on every other extension the code as written returns the corrected function's string |
| FileUtils.GenerateUniqueFilename | tradelog/trading-journal/backend/src/utils/fileUtils.js:11-16 | the name starts with the timestamp's digits and '-', then the UUID's first group, then the lower-cased extension |
| FileUtils.UuidGroupSeparates | tradelog/trading-journal/backend/src/utils/fileUtils.js:11-16 | two names generated at the same timestamp from UUIDs whose first groups differ are different |
| FileUtils.UniqueNameKeepsExtension | tradelog/trading-journal/backend/src/utils/fileUtils.js:11-16 | the generated name has the same extension as the original |
| FileUtils.ToLowerTwice | tradelog/trading-journal/backend/src/utils/fileUtils.js:12 | lowercasing twice equals lowercasing once |
| Upload.FileFilter | tradelog/trading-journal/backend/src/middleware/upload.js:31-46 | the MIME check comes first and rejects with its message; then the extension check with its message; accepted exactly when both lists contain the file's values |
| Upload.StoredNameAllowed | tradelog/trading-journal/backend/src/middleware/upload.js:24-27 | an accepted file's stored name still has an allowed extension and an image MIME type |
| Upload.TradeImagesAccepted | tradelog/trading-journal/backend/src/middleware/upload.js:49-61 | what the `images` upload admits: at most ten parts, all under the "images" field, each accepted by the file filter; its consequence is stated by TradeImagesStored |
| Upload.TradeImagesStored | tradelog/trading-journal/backend/src/middleware/upload.js:49-61 | an admitted upload has at most ten parts, all under "images", and each is stored under a name with an allowed extension and an image MIME type |
| Upload.MulterMessage | tradelog/trading-journal/backend/src/middleware/upload.js:71-81 | multer's size and field errors get their Spanish texts; every other error keeps its message |
| Upload.HandleMulterError | tradelog/trading-journal/backend/src/middleware/upload.js:71-81 | the same error object is always forwarded, with its code unchanged and its message rewritten as above |
| Upload.RewrittenMessageUnused | tradelog/trading-journal/backend/src/middleware/upload.js:71-81 | for the two rewritten codes the central handler answers 400 with a fixed text, so the rewritten message never reaches the client |
| TradeModel.ParseTradeType | tradelog/trading-journal/backend/src/models/trade.model.js:6-9 | exactly "LONG" and "SHORT" name a trade type, each the type it names |
| TradeModel.ParseStatus | tradelog/trading-journal/backend/src/models/trade.model.js:12-15 | exactly "OPEN" and "CLOSED" name a status |
| TradeModel.ParseSortField | tradelog/trading-journal/backend/src/models/trade.model.js:48-57 | a name is accepted iff it is one of the eight sortable columns |
| TradeModel.ParseSortDir | tradelog/trading-journal/backend/src/models/trade.model.js:60 | exactly "ASC" and "DESC" are directions |
| TradeModel.NamesRoundTrip | tradelog/trading-journal/backend/src/models/trade.model.js:6-60 | every enumerated value parses back from its own name |
| TradeValidator.StringErrors | tradelog/trading-journal/backend/src/validators/trade.validator.js:8-26 | a string rule reports no violation exactly when the value satisfies it (required, null/empty allowance, length bounds after conversion, allowed values) |
| TradeValidator.BoundedStringOk | tradelog/trading-journal/backend/src/validators/trade.validator.js:8-13 | a required bounded string is valid iff its converted length is between 1 and the maximum |
| TradeValidator.EnumStringOk | tradelog/trading-journal/backend/src/validators/trade.validator.js:19-22 | a required enumerated string is valid iff its converted value is one of the allowed ones |
| TradeValidator.NumberErrors | tradelog/trading-journal/backend/src/validators/trade.validator.js:28-50 | a number rule reports no violation exactly when the value satisfies it (required, null, safe range, integer, positive, min/max); a value outside ±9007199254740991 reports only "must be a safe number" |
| TradeValidator.DateErrors | tradelog/trading-journal/backend/src/validators/trade.validator.js:52-71 | a date rule reports no violation exactly when the value satisfies it (required, null, ISO form, a valid date) |
| TradeValidator.CsvKeyChecks | tradelog/trading-journal/backend/src/validators/trade.validator.js:206-251 | per key of a CSV line: a date; symbol of 1..20 chars after upper-casing and trimming; type LONG or SHORT after upper-casing; entry price and quantity positive and at most 9007199254740991; exit price the same when present; commission in 0..9007199254740991; notes at most 2000 chars after trimming |
| TradeValidator.CsvLineSchema | tradelog/trading-journal/backend/src/validators/trade.validator.js:206-251 | accepted iff every key is valid (numbers within the safe range); on failure all violations (at least one); on success the converted trade (`CsvTradeOf`) |
| TradeValidator.CsvTradeOf | tradelog/trading-journal/backend/src/validators/trade.validator.js:206-251 | the converted line of an accepted candidate: the date as given, the symbol upper-cased and trimmed to 1..20 characters, the type as its upper-cased name, prices and quantity equal to the inputs and in (0, 9007199254740991], a commission in [0, 9007199254740991], notes trimmed to at most 2000 characters and absent exactly when not given |
| TradeValidator.CsvTradeTypeMessage | tradelog/trading-journal/backend/src/validators/trade.validator.js:221-227 | a type other than LONG/SHORT fails with "Tipo debe ser LONG o SHORT" (and the empty-string message for "") |
| TradeValidator.NullNumberErrors | tradelog/trading-journal/backend/src/validators/trade.validator.js:229-240 | a null where a number is required reports Joi's "must be a number" |
| TradeValidator.CsvAllViolations | tradelog/trading-journal/backend/src/validators/trade.validator.js:229-240 | both missing numbers are reported together: validation does not stop at the first violation |
| TradeValidator.CreateKeyChecks | tradelog/trading-journal/backend/src/validators/trade.validator.js:7-88 | per key of a create request, the exact condition under which it is valid, numbers included only within ±9007199254740991 |
| TradeValidator.CreateTradeSchema | tradelog/trading-journal/backend/src/validators/trade.validator.js:7-88 | accepted iff every key is valid; all violations on failure; converted data with commission defaulting to 0 on success |
| TradeValidator.CreateBounds | tradelog/trading-journal/backend/src/validators/trade.validator.js:7-88 | accepted data has a 1..20 symbol, prices and quantity in (0, 9007199254740991], commission in [0, 9007199254740991], notes ≤ 2000 and an exit date whenever an exit price is given (or an explicit null) |
| TradeValidator.CreateSymbolRequired | tradelog/trading-journal/backend/src/validators/trade.validator.js:8-17 | a missing symbol fails with Joi's "is required" |
| TradeValidator.CreateRequiresExitDate | tradelog/trading-journal/backend/src/validators/trade.validator.js:60-68 | a positive, safe exit price (one that passes the `is` schema) makes an absent exit date an error, while an explicit null still passes |
| TradeValidator.UnsafeExitPriceLeavesDateOptional | tradelog/trading-journal/backend/src/validators/trade.validator.js:60-68 | an exit price beyond ±9007199254740991 fails the `is` schema, so the `otherwise` branch applies and a missing exit date reports nothing |
| TradeValidator.KnownEntries | tradelog/trading-journal/backend/src/validators/trade.validator.js:93-136 | unknown keys are stripped, the known ones kept in order |
| TradeValidator.NoSchemaKeys | tradelog/trading-journal/backend/src/validators/trade.validator.js:93-139 | an update naming only unknown keys has no key errors and nothing left after stripping |
| TradeValidator.UpdateTradeSchema | tradelog/trading-journal/backend/src/validators/trade.validator.js:93-139 | accepted iff every schema key present meets its rule and at least one schema key is present; otherwise every key violation, or only the "at least one field" message when the keys are all valid; accepted data holds the schema keys in the body's order |
| TradeValidator.UpdateKeyChecks | tradelog/trading-journal/backend/src/validators/trade.validator.js:93-136 | an update body has no key violations exactly when every schema key present meets its rule (`UpdateAcceptable`) |
| TradeValidator.KnownFrom | tradelog/trading-journal/backend/src/validators/trade.validator.js:93-139 | every kept entry is a schema key's entry of the body, converted |
| TradeValidator.UpdateBounds | tradelog/trading-journal/backend/src/validators/trade.validator.js:93-139 | every value of accepted update data meets its key's rule: symbol 1..20 chars, type LONG/SHORT, prices and quantity in (0, 9007199254740991], dates valid, exit price and date nullable, commission in [0, 9007199254740991], notes null or ≤ 2000 chars |
| TradeValidator.ListTradesQuerySchema | tradelog/trading-journal/backend/src/validators/trade.validator.js:144-187 | accepted iff every query key meets its rule (`ListAcceptable`); on success the converted options (`ListOptionsOf`), on failure every violation; page below 1 or above 9007199254740991, limit outside 1..100, an unknown sortBy, sortDir, status or type fails |
| TradeValidator.ListErrorsEmpty | tradelog/trading-journal/backend/src/validators/trade.validator.js:144-187 | a listing query has no violation exactly when it is acceptable |
| TradeValidator.ListOptionsOf | tradelog/trading-journal/backend/src/validators/trade.validator.js:144-187 | the options of an accepted query: page and limit in range with defaults 1 and 20, sortBy and sortDir with their defaults, status, type, symbol and dates present exactly when given, the symbol upper-cased and trimmed and non-empty, dates as given |
| TradeValidator.IdParamSchema | tradelog/trading-journal/backend/src/validators/trade.validator.js:192-201 | accepted iff the id is an integer in 1..9007199254740991, which is returned |
| TradeValidator.EmptyCsvData | tradelog/trading-journal/backend/src/validators/trade.validator.js:256-263 | an empty CSV text reports the custom "no pueden estar vacíos" message |
| TradeValidator.CsvImportSchema | tradelog/trading-journal/backend/src/validators/trade.validator.js:256-263 | accepted iff csvData is a non-empty string; the two custom messages for absent and empty |
| CsvParser.LeadingDigits | tradelog/trading-journal/backend/src/services/csvParser.service.js:50 | the longest run of decimal digits at the start of the text, followed by a non-digit or the end |
| CsvParser.LeadingDigitsOf | tradelog/trading-journal/backend/src/services/csvParser.service.js:50 | a run of digits followed by a non-digit is exactly what is read as the leading digits |
| CsvParser.ParseNumber | tradelog/trading-journal/backend/src/services/csvParser.service.js:45-53 | null for empty or blank text; otherwise the JavaScript number read from the trimmed text with its first comma turned into a point |
| CsvParser.DecimalComma | tradelog/trading-journal/backend/src/services/csvParser.service.js:49-50 | a European decimal "a,b" of digits is read as the number a.b |
| CsvParser.CommaLiteral | tradelog/trading-journal/backend/src/services/csvParser.service.js:49-50 | after the first comma becomes a point, the number ends at the next comma |
| CsvParser.SecondCommaEndsNumber | tradelog/trading-journal/backend/src/services/csvParser.service.js:49-50 | only the first comma is converted: "a,b,c" reads as "a,b" |
| CsvParser.NotInfinity | tradelog/trading-journal/backend/src/services/csvParser.service.js:50 | digits followed by a point can never be read as the Infinity literal |
| CsvParser.ParseDate | tradelog/trading-journal/backend/src/services/csvParser.service.js:19-38 | null for blank text; else the date of the text as given, or failing that with its first space turned into 'T' |
| CsvParser.Candidate | tradelog/trading-journal/backend/src/services/csvParser.service.js:73-102 | the object built from the columns: upper-cased trimmed symbol and type, parsed numbers, commission 0 when falsy, notes null when absent or blank, exit date equal to the entry date exactly when the exit price is truthy |
| CsvParser.ParseLine | tradelog/trading-journal/backend/src/services/csvParser.service.js:61-71 | the line number is kept; fewer than seven columns is exactly the error without raw text, reporting the expected and found counts |
| CsvParser.ParseLineChecked | tradelog/trading-journal/backend/src/services/csvParser.service.js:104-124 | a line with enough columns is valid iff its object passes the CSV line schema; the valid result carries the schema's value and the raw line, the error one the schema's messages joined by ", " and the raw line |
| CsvParser.ExtraColumnsIgnored | tradelog/trading-journal/backend/src/services/csvParser.service.js:73-82 | columns after the eighth have no effect on the object |
| CsvParser.ExitDateDropped | tradelog/trading-journal/backend/src/services/csvParser.service.js:101-108 | the schema strips the exit date, so it never reaches the validated data |
| CsvParser.TrimAll | tradelog/trading-journal/backend/src/services/csvParser.service.js:135 | each line trimmed, none added or removed |
| CsvParser.NonBlankLines | tradelog/trading-journal/backend/src/services/csvParser.service.js:133-136 | the kept lines are all non-empty |
| CsvParser.NumberedMapAt | tradelog/trading-journal/backend/src/services/csvParser.service.js:161-163 | the result for data line k is the parse of that line under number first + k |
| CsvParser.ResultAt | tradelog/trading-journal/backend/src/services/csvParser.service.js:161-163 | the k-th result is ParseLine of the k-th data line with its number |
| CsvParser.Classify | tradelog/trading-journal/backend/src/services/csvParser.service.js:155-170 | the valid list is exactly the successful results and the error list exactly the failed ones, each in line order |
| CsvParser.ParseCsv | tradelog/trading-journal/backend/src/services/csvParser.service.js:132-173 | equal to the specified parse: the empty and no-data errors, header detection, numbering and partition |
| CsvParser.ReportPartition | tradelog/trading-journal/backend/src/services/csvParser.service.js:155-170 | valid and error lines together make up every data line, at least one, each list holding only its own kind |
| CsvParser.LineNumbering | tradelog/trading-journal/backend/src/services/csvParser.service.js:161-162 | lines are numbered from 1, or from 2 when the first line is a header |
| CsvParser.EmptyInputs | tradelog/trading-journal/backend/src/services/csvParser.service.js:138-153 | no non-blank line raises "El CSV está vacío"; a header alone raises "El CSV no contiene datos", and that is the only way to have no data lines |
| CsvParser.PreviewItems | tradelog/trading-journal/backend/src/services/csvParser.service.js:184-187 | one preview item per valid line, with its number and data |
| CsvParser.PreviewCsv | tradelog/trading-journal/backend/src/services/csvParser.service.js:180-195 | parse errors propagate; otherwise the preview lists the valid lines, the errors are passed on and the summary counts add up to the total |
| CsvImport.CsvTradeData | tradelog/trading-journal/backend/src/services/csvParser.service.js:226 | the validated line data as trade data: no exit date, the commission kept |
| CsvImport.TradesData | tradelog/trading-journal/backend/src/services/csvParser.service.js:226 | one trade data record per valid line, in order |
| CsvImport.ImportCsv | tradelog/trading-journal/backend/src/services/csvParser.service.js:202-236 | a parse error propagates and a file with any bad line imports nothing and reports the count; otherwise there is at least one valid line and either every row is inserted, appended in order with fresh ids, or none is |
| TradeRepository.View | tradelog/trading-journal/backend/src/repositories/trade.repository.js:144-149 | a trade as returned carries its row's id and columns and the given images |
| TradeRepository.InsertFieldsMeaning | tradelog/trading-journal/backend/src/repositories/trade.repository.js:170-187 | the inserted columns: a falsy exit price, exit date or notes become null, a falsy commission becomes 0, the rest is stored as given |
| TradeRepository.InsertFieldsIdempotent | tradelog/trading-journal/backend/src/repositories/trade.repository.js:176-186 | inserting what an insert stored stores the same columns again |
| TradeRepository.LiveRow | tradelog/trading-journal/backend/src/repositories/trade.repository.js:139-144 | the row with that id that is not soft-deleted, or none when every row with that id is deleted |
| TradeRepository.ImagesOfMembers | tradelog/trading-journal/backend/src/repositories/trade.repository.js:16-22 | a trade's images are exactly the image rows whose trade id is that trade's |
| TradeRepository.SelectedImages | tradelog/trading-journal/backend/src/repositories/trade.repository.js:32-35 | selecting the rows of a list of trade ids keeps, for each listed id, all its images and for other ids none |
| TradeRepository.RenderedAt | tradelog/trading-journal/backend/src/repositories/trade.repository.js:71-94 | the k-th condition uses placeholder $k |
| TradeRepository.ValuesAt | tradelog/trading-journal/backend/src/repositories/trade.repository.js:71-94 | the k-th parameter is the value of the k-th condition |
| TradeRepository.AddFilter | tradelog/trading-journal/backend/src/repositories/trade.repository.js:71-94 | one filter step appends its condition numbered after the ones before and its value to the parameters |
| TradeRepository.BuildWhere | tradelog/trading-journal/backend/src/repositories/trade.repository.js:66-96 | the conditions start with "deleted_at IS NULL" followed by one numbered predicate per truthy filter in the order status, symbol, trade_type, dateFrom, dateTo; the parameters are their values in the same order |
| TradeRepository.WhereMeaning | tradelog/trading-journal/backend/src/repositories/trade.repository.js:68-94 | a row matches the WHERE clause iff it is not deleted and each given filter holds (status equal, symbol equal, type equal, entry date at least dateFrom, at most dateTo) |
| TradeRepository.Matching | tradelog/trading-journal/backend/src/repositories/trade.repository.js:99-113 | every selected row comes from the table and matches the filters |
| TradeRepository.CeilDiv | tradelog/trading-journal/backend/src/repositories/trade.repository.js:128 | the least whole number of pages of that size covering the total |
| TradeRepository.Window | tradelog/trading-journal/backend/src/repositories/trade.repository.js:109-112 | the page is the slice starting at the offset, at most limit long, empty past the end |
| TradeRepository.TradeStore.FindById | tradelog/trading-journal/backend/src/repositories/trade.repository.js:138-150 | null exactly when no live row has the id; otherwise that row's columns with its images |
| TradeRepository.IdsOrdered | tradelog/trading-journal/backend/src/repositories/trade.repository.js:138-150 | in a table kept in id order (part of the store's invariant, kept by every insert, update and delete) every earlier row has a smaller id, so the id `findById` looks up names one row |
| TradeRepository.TradeStore.GetImagesForTrades | tradelog/trading-journal/backend/src/repositories/trade.repository.js:29-46 | an empty id list gives an empty map; otherwise the keys are exactly the listed ids with images, each holding that trade's images in table order |
| TradeRepository.TradeStore.AttachImages | tradelog/trading-journal/backend/src/repositories/trade.repository.js:116-122 | each returned trade carries its own images, or none |
| TradeRepository.TradeStore.FindAll | tradelog/trading-journal/backend/src/repositories/trade.repository.js:53-131 | the total counts the matching rows; the page is the window at offset (page-1)*limit with images attached; page and limit are echoed and totalPages is the ceiling of total/limit; LIMIT and OFFSET take placeholders n+1 and n+2 after the n filter parameters |
| TradeRepository.TradeStore.Create | tradelog/trading-journal/backend/src/repositories/trade.repository.js:157-193 | a rejected insert throws and changes nothing; otherwise one row with the next id and the normalised columns is appended and returned without images, and can be found by its id |
| TradeRepository.TradeStore.CreateMany | tradelog/trading-journal/backend/src/repositories/trade.repository.js:200-253 | all or nothing: success iff no insert is rejected, then the rows are appended in input order with consecutive ids; on failure the first rejection is rethrown, the table is unchanged, and the id sequence has advanced past every insert attempted, the rejected one included |
| TradeRepository.TradeStore.Update | tradelog/trading-journal/backend/src/repositories/trade.repository.js:261-297 | SET entries only for allowed keys in order, numbered from $1, with the id last; with none it answers as findById; otherwise the live row gets the new values and is returned with its images, null when there is none |
| TradeRepository.TradeStore.SoftDelete | tradelog/trading-journal/backend/src/repositories/trade.repository.js:304-310 | true iff a live row had the id; that row is marked deleted and can no longer be found |
| TradeRepository.TradeStore.HardDelete | tradelog/trading-journal/backend/src/repositories/trade.repository.js:317-324 | true iff some row had the id; that row and, by cascade, its images are removed |
| TradeRepository.TradeStore.AddImage | tradelog/trading-journal/backend/src/repositories/trade.repository.js:347-358 | an image of a missing trade fails with the foreign-key error; otherwise one image row with the next id is appended to the trade's images |
| TradeRepository.TradeStore.AddImages | tradelog/trading-journal/backend/src/repositories/trade.repository.js:366-395 | all or nothing: a non-empty list for a missing trade fails and stores nothing; otherwise the rows are appended in order with consecutive ids |
| TradeRepository.TradeStore.GetImageById | tradelog/trading-journal/backend/src/repositories/trade.repository.js:402-408 | the image row with that id, or null when none has it |
| TradeRepository.TradeStore.DeleteImage | tradelog/trading-journal/backend/src/repositories/trade.repository.js:415-421 | returns the image row that had the id, removes it, and nothing else changes |
| TradeRepository.TradeStore.DeleteAllImages | tradelog/trading-journal/backend/src/repositories/trade.repository.js:428-434 | returns the trade's images and removes exactly them |
| TradeRepository.BuildSet | tradelog/trading-journal/backend/src/repositories/trade.repository.js:262-276 | the SET list and parameters are the allowed entries in order, the k-th as "key = $k" |
| TradeRepository.SetListAt | tradelog/trading-journal/backend/src/repositories/trade.repository.js:271-276 | the k-th SET entry names the k-th allowed key with placeholder $k and the k-th value |
| TradeRepository.UpdateLookup | tradelog/trading-journal/backend/src/repositories/trade.repository.js:283-291 | after a successful update, the live row with that id has the new values and an absent id stays absent |
| TradeRepository.MarkDeletedFacts | tradelog/trading-journal/backend/src/repositories/trade.repository.js:305-308 | soft delete removes no row and leaves no live row with that id |
| TradeRepository.FirstRejection | tradelog/trading-journal/backend/src/repositories/trade.repository.js:221-249 | a rejected insert makes the whole batch fail with the first rejection |
| TradeService.ImagesData | tradelog/trading-journal/backend/src/services/trade.service.js:52-57 | one image record per uploaded file, its name, original name, size and MIME type copied field by field |
| TradeService.TradeNotFound | tradelog/trading-journal/backend/src/services/trade.service.js:29 | a 404 not-found error naming the trade id |
| TradeService.GetTradeById | tradelog/trading-journal/backend/src/services/trade.service.js:25-33 | throws the not-found error exactly when no live trade has the id; otherwise returns that trade |
| TradeService.WithExitDate | tradelog/trading-journal/backend/src/services/trade.service.js:43-45 | the exit date becomes the current time only when the exit price is truthy and no exit date was given; nothing else changes |
| TradeService.CreatedStatus | tradelog/trading-journal/backend/src/services/trade.service.js:43-48 | a created trade is closed exactly when it was given a truthy exit price |
| TradeService.CreateTrade | tradelog/trading-journal/backend/src/services/trade.service.js:41-63 | a rejected insert throws and stores nothing; otherwise the trade is stored, and its images are the uploaded files in order, none for an empty list |
| TradeService.AttachUploads | tradelog/trading-journal/backend/src/services/trade.service.js:51-60 | the uploaded files become the new trade's images, appended to the image table in order |
| TradeService.UpdateTrade | tradelog/trading-journal/backend/src/services/trade.service.js:72-97 | a missing trade throws not-found and changes nothing; otherwise the allowed values are applied and the new images follow the existing ones, in order |
| TradeService.DeleteTrade | tradelog/trading-journal/backend/src/services/trade.service.js:105-124 | a missing trade throws not-found; a permanent delete removes the trade, its image rows and the files named by them, a soft delete only marks the trade and removes no file |
| TradeService.AddTradeImages | tradelog/trading-journal/backend/src/services/trade.service.js:132-148 | a missing trade, then an empty file list, throw not-found; otherwise the files are appended as the trade's newest images |
| TradeService.DeleteTradeImage | tradelog/trading-journal/backend/src/services/trade.service.js:156-176 | a missing trade, or an image that is missing or belongs to another trade, throws; otherwise that image row and its file are removed and the refreshed trade returned |
| TradeService.DeleteAllTradeImages | tradelog/trading-journal/backend/src/services/trade.service.js:183-202 | a missing trade, then a trade without images, throw; otherwise all its image rows and files are removed and the trade is returned with none |
| StatsService.PnlsMembers | tradelog/trading-journal/backend/src/services/stats.service.js:21-24 | the values SUM, AVG, MAX and MIN see are exactly the non-null pnl values of the selected rows |
| StatsService.Largest | tradelog/trading-journal/backend/src/services/stats.service.js:23 | MAX over a non-empty list is one of its values and no value exceeds it |
| StatsService.Smallest | tradelog/trading-journal/backend/src/services/stats.service.js:24 | MIN over a non-empty list is one of its values and no value is below it |
| StatsService.GeneralStats | tradelog/trading-journal/backend/src/services/stats.service.js:12-49 | the summary of the user's live trades is consistent: open plus closed is the total, at most the rows given; the three outcomes are at most the closed count; the win rate lies in 0..100 and the worst trade is at most the best (its figures per trade are stated by NoTradesGiveZeros, SummaryCounts and SummaryPnls) |
| StatsService.NoTradesGiveZeros | tradelog/trading-journal/backend/src/services/stats.service.js:12-49 | a user with no live trade gets the all-zero figures of the fallback object |
| StatsService.CountOpenClosed | tradelog/trading-journal/backend/src/services/stats.service.js:15-17 | every trade counted is open or closed, so the two counts add up to the total |
| StatsService.CountOutcomes | tradelog/trading-journal/backend/src/services/stats.service.js:18-20 | winning, losing and break-even trades are closed ones; a closed trade with null pnl is none of them |
| StatsService.WinRateBounds | tradelog/trading-journal/backend/src/services/stats.service.js:25-32 | the win rate is a percentage between 0 and 100 |
| StatsService.AverageBounds | tradelog/trading-journal/backend/src/services/stats.service.js:22 | an average lies between any lower and upper bound of the values averaged |
| StatsService.SummaryCounts | tradelog/trading-journal/backend/src/services/stats.service.js:12-35 | open plus closed is the total, the three outcomes are at most the closed count, and the win rate lies in 0..100 |
| StatsService.SummaryPnls | tradelog/trading-journal/backend/src/services/stats.service.js:21-24 | the worst trade is at most the best, and the average over closed trades lies between them |
| StatsService.StatsByDateRange | tradelog/trading-journal/backend/src/services/stats.service.js:89-118 | the summary of the trades entered in the range is consistent in the same way as the general one (DateRangeWithin relates its selection to the user's trades) |
| StatsService.DateRangeWithin | tradelog/trading-journal/backend/src/services/stats.service.js:89-118 | the range selects at most the user's trades, all of them when every entry date is inside, none for an empty range |
| StatsService.GroupIsSummary | tradelog/trading-journal/backend/src/services/stats.service.js:57-78 | a group's figures are those of the general statistics over the group's rows |
| StatsService.StatsBySymbol | tradelog/trading-journal/backend/src/services/stats.service.js:57-78 | one row per symbol of the user's live trades, ordered by total pnl descending; stated by StatsBySymbolOrder, StatsBySymbolEntry and StatsBySymbolComplete |
| StatsService.StatsBySymbolOrder | tradelog/trading-journal/backend/src/services/stats.service.js:57-78 | one row per distinct symbol, each with its own trades' figures, ordered by total pnl descending |
| StatsService.StatsBySymbolEntry | tradelog/trading-journal/backend/src/services/stats.service.js:57-78 | every listed symbol has at least one live trade of the user |
| StatsService.StatsBySymbolComplete | tradelog/trading-journal/backend/src/services/stats.service.js:57-78 | every symbol of a live trade of the user is listed |
| StatsService.RunningAt | tradelog/trading-journal/backend/src/services/stats.service.js:132 | the running total at a day is the sum of the daily totals up to and including it |
| StatsService.DailyPnl | tradelog/trading-journal/backend/src/services/stats.service.js:125-142 | one row per day with a closed trade since the start, in increasing order, with that day's count, pnl and the running total; stated by DailyPnlOrder, DailyPnlDay, DailyPnlComplete and DailyPnlRunning |
| StatsService.DailyPnlOrder | tradelog/trading-journal/backend/src/services/stats.service.js:138-139 | days are listed in strictly increasing order |
| StatsService.DailyPnlDay | tradelog/trading-journal/backend/src/services/stats.service.js:127-140 | each listed day has at least one closed trade of the user since the start, and its count and daily pnl are those of that day's trades |
| StatsService.DailyPnlComplete | tradelog/trading-journal/backend/src/services/stats.service.js:134-138 | every day with a selected closed trade is listed |
| StatsService.DailyPnlRunning | tradelog/trading-journal/backend/src/services/stats.service.js:132 | the first cumulative pnl is the first daily pnl and each next one adds that day's pnl |
| StatsService.TypeGroupsEntries | tradelog/trading-journal/backend/src/services/stats.service.js:169-180 | storing the group rows by type leaves each type null exactly when it has no live trade, otherwise that type's figures |
| StatsService.StatsByTradeType | tradelog/trading-journal/backend/src/services/stats.service.js:150-183 | LONG and SHORT are null exactly when the user has no live trade of that type, otherwise the type's figures |
| StatsService.SortDescPermutes | tradelog/trading-journal/backend/src/services/stats.service.js:199 | ordering rearranges the rows without adding or losing any |
| StatsService.SortDescOrdered | tradelog/trading-journal/backend/src/services/stats.service.js:199 | the ordered rows are in descending key order |
| StatsService.TopOf | tradelog/trading-journal/backend/src/services/stats.service.js:199-200 | the first n of the ordered rows are at most n drawn from the rows, in order, and none left out ranks higher |
| StatsService.GetTopTrades | tradelog/trading-journal/backend/src/services/stats.service.js:191-221 | the `limit` best and the `limit` worst closed trades with a pnl; stated by TopTradesBest and TopTradesWorst |
| StatsService.TopTradesBest | tradelog/trading-journal/backend/src/services/stats.service.js:191-219 | best: at most limit closed trades with pnl, highest first, and no trade left out has a larger pnl |
| StatsService.TopTradesWorst | tradelog/trading-journal/backend/src/services/stats.service.js:191-219 | worst: at most limit closed trades with pnl, lowest first, and no trade left out has a smaller pnl |
| DateTimeInput.ApplyMask | tradelog/trading-journal/frontend/src/components/common/DateTimeInput.jsx:37-50 | the result is the mask of the input: its digits, at most twelve, laid out with '/' before the third and fifth, ' ' before the ninth and ':' before the eleventh |
| DateTimeInput.LayoutLength | tradelog/trading-journal/frontend/src/components/common/DateTimeInput.jsx:42-47 | the masked text is the digits plus one character per separator passed |
| DateTimeInput.MaskedLength | tradelog/trading-journal/frontend/src/components/common/DateTimeInput.jsx:37-50 | the masked text is at most sixteen characters long, exactly sixteen iff at least twelve digits were typed |
| DateTimeInput.LayoutDigitAt | tradelog/trading-journal/frontend/src/components/common/DateTimeInput.jsx:42-47 | each kept digit appears at its fixed slot of the display text |
| DateTimeInput.LayoutSeparatorAt | tradelog/trading-journal/frontend/src/components/common/DateTimeInput.jsx:43-45 | each separator sits just before the slot of the digit it precedes |
| DateTimeInput.DigitsOfLayout | tradelog/trading-journal/frontend/src/components/common/DateTimeInput.jsx:39-47 | removing the non-digits from a masked text gives back the digits that were laid out |
| DateTimeInput.MaskIdempotent | tradelog/trading-journal/frontend/src/components/common/DateTimeInput.jsx:37-50 | masking an already masked text changes nothing |
| DateTimeInput.DisplayToIso | tradelog/trading-journal/frontend/src/components/common/DateTimeInput.jsx:6-14 | non-empty iff the text matches dd/mm/yyyy HH:mm; then the groups reordered as yyyy-mm-ddTHH:mm, sixteen characters |
| DateTimeInput.LayoutComplete | tradelog/trading-journal/frontend/src/components/common/DateTimeInput.jsx:9-47 | twelve digits always lay out as a text the display pattern accepts, each group of digits in its place |
| DateTimeInput.HandleChangeEmits | tradelog/trading-journal/frontend/src/components/common/DateTimeInput.jsx:78-93 | the reported value is empty until twelve digits are typed, and then the first twelve digits reordered as year, month, day, hours, minutes |
| DateTimeInput.Field.Sync | tradelog/trading-journal/frontend/src/components/common/DateTimeInput.jsx:70-76 | a new value shows its display form, a falsy one the empty text |
| DateTimeInput.Field.HandleChange | tradelog/trading-journal/frontend/src/components/common/DateTimeInput.jsx:78-93 | the field shows the masked input and, when a handler is given, reports the ISO form of the masked text |
| ImageUpload.ValidateFile | tradelog/trading-journal/frontend/src/hooks/useImageUpload.js:19-27 | null iff the type is allowed and the size at most 5 MB; a bad type reports the type message before any size check, an oversized file the size message |
| ImageUpload.Accepts | tradelog/trading-journal/frontend/src/hooks/useImageUpload.js:47-62 | the appended files are no more than the batch |
| ImageUpload.AcceptsSound | tradelog/trading-journal/frontend/src/hooks/useImageUpload.js:47-62 | every appended file comes from the batch, is valid and is not already held under the same name and size |
| ImageUpload.AcceptsComplete | tradelog/trading-journal/frontend/src/hooks/useImageUpload.js:47-62 | every valid batch file not already held is appended |
| ImageUpload.BatchDuplicatesKept | tradelog/trading-journal/frontend/src/hooks/useImageUpload.js:55-57 | the duplicate check looks only at files already held, so the same new file picked twice is appended twice |
| ImageUpload.NoProblems | tradelog/trading-journal/frontend/src/hooks/useImageUpload.js:47-82 | no message is collected iff every file of the batch is valid |
| ImageUpload.Uploader.AddFiles | tradelog/trading-journal/frontend/src/hooks/useImageUpload.js:32-87 | more than ten held and incoming files sets the limit message and adds nothing; otherwise the acceptable files are appended in order and the messages of invalid ones are joined by spaces, or the error is cleared; at most ten files stay held |
| ImageUpload.Uploader.PreviewsLoaded | tradelog/trading-journal/frontend/src/hooks/useImageUpload.js:65-75 | a batch's previews are appended after the earlier ones once all are read |
| ImageUpload.Uploader.HandleSelection | tradelog/trading-journal/frontend/src/hooks/useImageUpload.js:92-110 | an empty selection changes nothing; a non-empty one past the file limit keeps the files and sets the limit message, otherwise the accepted files are appended and the error is cleared or holds the problems joined by spaces |
| ImageUpload.Uploader.RemoveFile | tradelog/trading-journal/frontend/src/hooks/useImageUpload.js:122-126 | the file and the preview at that position are dropped, the rest keep their order, and the error is cleared |
| ImageUpload.Uploader.ClearFiles | tradelog/trading-journal/frontend/src/hooks/useImageUpload.js:131-135 | no files, no previews, no error |
| ImageUpload.Without | tradelog/trading-journal/frontend/src/hooks/useImageUpload.js:123-124 | the sequence without that position, the others in order; unchanged for a position outside it |
| ImageUpload.WithoutLoses | tradelog/trading-journal/frontend/src/hooks/useImageUpload.js:123-124 | removing a position loses exactly the element held there |
| ImageViewer.ImageList | tradelog/trading-journal/frontend/src/components/common/ImageViewer.jsx:19 | an array is used as given, a truthy single value becomes a one-element list, a falsy one an empty list |
| ImageViewer.GetImageUrl | tradelog/trading-journal/frontend/src/components/common/ImageViewer.jsx:30-36 | null iff the image has no name; an "http" name is used as is, any other is served under the API's image route |
| ImageViewer.UrlEndsWithName | tradelog/trading-journal/frontend/src/components/common/ImageViewer.jsx:30-36 | every URL ends with the image's own name |
| ImageViewer.ThumbnailOf | tradelog/trading-journal/frontend/src/components/common/ImageViewer.jsx:21-59 | "Sin imagen" iff the list is empty, "Error" iff the first image has no URL or failed, otherwise the first image's URL |
| ImageViewer.ErrorOnFirstImage | tradelog/trading-journal/frontend/src/components/common/ImageViewer.jsx:38-53 | a failure of the first image shows the error placeholder; a failure of any other leaves the thumbnail unchanged |
| ImageViewer.Next | tradelog/trading-journal/frontend/src/components/common/ImageViewer.jsx:42-44 | the next position, wrapping from the last to the first |
| ImageViewer.Prev | tradelog/trading-journal/frontend/src/components/common/ImageViewer.jsx:46-48 | the previous position, wrapping from the first to the last |
| ImageViewer.PrevNext | tradelog/trading-journal/frontend/src/components/common/ImageViewer.jsx:42-48 | previous after next, and next after previous, return to the same image |
| ImageViewer.AdvanceWraps | tradelog/trading-journal/frontend/src/components/common/ImageViewer.jsx:42-44 | k presses of next move k places round the list |
| ImageViewer.FullCircle | tradelog/trading-journal/frontend/src/components/common/ImageViewer.jsx:42-44 | as many presses of next as there are images come back to the start |
| ImageViewer.Gallery.constructor | tradelog/trading-journal/frontend/src/components/common/ImageViewer.jsx:14-16 | closed, at the first image, no failure recorded |
| ImageViewer.Gallery.OpenFromThumbnail | tradelog/trading-journal/frontend/src/components/common/ImageViewer.jsx:65-68 | back to the first image with the modal open |
| ImageViewer.Gallery.Close | tradelog/trading-journal/frontend/src/components/common/ImageViewer.jsx:85 | the modal closes and the position is kept |
| ImageViewer.Gallery.GoToNext | tradelog/trading-journal/frontend/src/components/common/ImageViewer.jsx:42-44 | the position moves to the next one and stays within the list |
| ImageViewer.Gallery.GoToPrev | tradelog/trading-journal/frontend/src/components/common/ImageViewer.jsx:46-48 | the position moves to the previous one and stays within the list |
| ImageViewer.Gallery.Select | tradelog/trading-journal/frontend/src/components/common/ImageViewer.jsx:122-141 | an indicator or thumbnail click moves to that position |
| ImageViewer.Gallery.HandleImageError | tradelog/trading-journal/frontend/src/components/common/ImageViewer.jsx:38-40 | that image is marked failed and earlier marks are kept |
| Formatters.FormatCurrency | tradelog/trading-journal/frontend/src/utils/formatters.js:12-21 | a missing value shows "-", a present one the currency rendering |
| Formatters.FormatNumber | tradelog/trading-journal/frontend/src/utils/formatters.js:29-36 | a missing value shows "-", a present one the grouped rendering |
| Formatters.FormatPercentage | tradelog/trading-journal/frontend/src/utils/formatters.js:44-54 | "-" when missing; the magnitude with two decimals and '%', preceded by '+' for a positive and '-' for a negative value when signs are wanted, with no sign for zero |
| Formatters.PercentageSign | tradelog/trading-journal/frontend/src/utils/formatters.js:47-53 | a signed non-zero percentage is one sign character before the unsigned text, and negating the value flips only that sign |
| Formatters.FormatPnL | tradelog/trading-journal/frontend/src/utils/formatters.js:61-75 | "-" in grey when missing; a gain with '+' and the profit colour, a loss with the loss colour, zero neutral |
| Formatters.GetPnLClass | tradelog/trading-journal/frontend/src/utils/formatters.js:158-162 | the profit badge iff the pnl is positive, the loss badge iff negative, the plain badge for zero or missing |
| Formatters.PnLColoursAgree | tradelog/trading-journal/frontend/src/utils/formatters.js:61-162 | the P&L text colour and the P&L badge always agree: profit with profit, loss with loss, neutral or missing with the plain badge |
| Formatters.FormatSymbol | tradelog/trading-journal/frontend/src/utils/formatters.js:130-133 | "-" for a missing or empty symbol; otherwise the symbol with each character upper-cased in place |
| Formatters.FormatSymbolIdempotent | tradelog/trading-journal/frontend/src/utils/formatters.js:130-133 | formatting a formatted symbol changes nothing |
| Formatters.GetTradeTypeClass | tradelog/trading-journal/frontend/src/utils/formatters.js:140-142 | the long badge iff the type is "LONG", otherwise the short badge |
| Formatters.GetStatusClass | tradelog/trading-journal/frontend/src/utils/formatters.js:149-151 | the open badge iff the status is "OPEN", otherwise the closed badge |
| TradeRepository.UpdateRow | tradelog/trading-journal/backend/src/repositories/trade.repository.js:283-289 | a row keeps its id and deleted flag, and only the live row with the id is rewritten |
| TradeRepository.UpdateRows | tradelog/trading-journal/backend/src/repositories/trade.repository.js:283-289 | the UPDATE visits every row and rewrites each as UpdateRow says |
| TradeRepository.UpdateRowsKeepsIds | tradelog/trading-journal/backend/src/repositories/trade.repository.js:283-289 | an update creates no new id |
| TradeRepository.MarkDeleted | tradelog/trading-journal/backend/src/repositories/trade.repository.js:305-308 | every row with the id is marked deleted and no other row changes |
| TradeService.Filenames | tradelog/trading-journal/backend/src/services/trade.service.js:110-114 | the file names of the images, one per image, in order |
| DateTimeInput.Field.constructor | tradelog/trading-journal/frontend/src/components/common/DateTimeInput.jsx:67 | the field starts empty |
| ImageUpload.Uploader.constructor | tradelog/trading-journal/frontend/src/hooks/useImageUpload.js:12-14 | no files, no previews, no error |

## Left out

- Express wiring, routes, controllers, `server.js`, configuration, the user model and repository, and logging. None of these is part of this model.
- The database engine: SQL text beyond the WHERE, LIMIT/OFFSET and SET fragments, connection handling, `client.release()`, and concurrency between requests. The tables are sequences updated in place by the store's methods.
- `ORDER BY` in `findAll`: rows are kept in table (insertion) order, so the sort column and direction only pass through validation.
- The table's constraints and triggers (the `pnl` and `status` columns) are given through `rejects` and `Status`, not computed.
- `getUniqueSymbols` (repository and service) and `getAllTrades`, which only forwards to `findAll`: not modelled.
- `ROUND(..., 2)` in the statistics, and `CURRENT_DATE` in `getDailyPnL`, which is the parameter `since`. Calendar days are given by the parameter `dayOf`.
- `parseFloat` is modelled exactly on decimal literals, but without binary floating-point rounding and without overflow of huge literals to Infinity. Numbers are real.
- `new Date(...)`, Joi's date and ISO checks, and the frontend's `isoToDisplay`, `formatDate` and `formatDateForInput` all depend on `Date`. They are parameters or not modelled.
- Case mapping covers ASCII letters only. Trimming uses the JavaScript white-space set written out in `Util`.
- JWT signing and verification: an abstract verifier returns the payload or the error it would throw.
- Multer's stream parsing, disk storage, `limits.fileSize` enforcement and deletion of files on disk. Deleted files are returned as a list of names.
- `path.extname` is modelled on POSIX paths only. Windows separators are not handled.
- `generateUniqueFilename` takes the clock and the UUID as parameters.
- StatsService.DailyPnlRunning: `cumulative_pnl` is `SUM(SUM(pnl)) OVER (...)` with no `COALESCE`, so SQL returns NULL on the leading days whose trades all have a null pnl. The model's `cumulativePnl` is a plain number, and a null pnl adds nothing to it, so those days show 0.
- TradeValidator.NumberErrors: numbers are taken after Joi has converted them. Joi's `number.unsafe` error for a numeric string that loses digits when converted to a double is therefore not modelled. The range check (beyond ±9007199254740991) is modelled.
- ImageUpload.Uploader.AddFiles: the browser reads previews asynchronously. Their arrival is the separate step `PreviewsLoaded`, so the model does not capture previews falling out of step with files.
- ImageUpload.Uploader.AddFiles: `handleDragOver` and resetting the file input are not modelled. They only affect the DOM.
- ImageViewer.Gallery.Select: the JSX and modal rendering are not modelled. The index it receives is one the rendered buttons can offer.
- Formatters.FormatCurrency: `Intl.NumberFormat` is a parameter. The same holds for `FormatNumber`, and for `toFixed(2)` in `FormatPercentage`.
- Formatters.FormatPercentage: NaN is not modelled.
- FileUtils.GetMimeTypeAsWritten: states only that an inherited member is returned for an inherited key. The full lookup is related to `GetMimeType` by `MimeTypeAgrees`.
- TradeRepository.TradeStore.FindAll: requires page and limit of at least 1 (`PagingOk`), the range the list-query schema guarantees before the repository is called.

## Findings

| source | as written | input that shows it | evidently intended | confidence | as-written member | corrected member |
|---|---|---|---|---|---|---|
| tradelog/trading-journal/backend/src/utils/fileUtils.js:83 | `mimeTypes[ext] \|\| 'application/octet-stream'` reads inherited members of the object literal, so an extension such as "constructor" yields `Object` instead of a MIME type string | the file name "chart.constructor" | only the table's own keys map to a MIME type, and every other extension gets "application/octet-stream" | not executed | FileUtils.InheritedKeyLeaks | FileUtils.GetMimeType |
