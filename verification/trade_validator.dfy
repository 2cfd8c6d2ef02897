/** The Joi schemas of the trade API written out as checks. Each key's rule
    is a record that mirrors its Joi chain; a check returns every violation
    Joi reports for that key (validation never stops at the first one), and a
    schema concatenates them in the schema's key order. Messages are Joi's
    default templates, with the key in double quotes as Joi labels it, unless
    the schema overrides a code with `.messages({...})`. */
module TradeValidator {
  import opened Util
  import opened TradeModel

  /** A key of the validated object after Joi's type conversion: missing,
      `null`, a value of the key's type, a value Joi cannot convert, or the
      number `Infinity` (of either sign) */
  datatype Raw<+T> = Absent | Null | Val(v: T) | Wrong | Infinite
  {
    /** Missing, null or of the key's type */
    predicate Plain() { !Wrong? && !Infinite? }
  }

  /** How Joi labels a key in its default messages */
  function Label(key: string): string {
    "\"" + key + "\""
  }

  /** `.messages({...})`: the override for an error code, else the default text */
  function Msg(custom: map<string, string>, code: string, default: string): string {
    if code in custom then custom[code] else default
  }

  /** `Joi.number().integer()` accepts a value with no fractional part */
  predicate IsInteger(x: real) {
    x == x.Floor as real
  }

  // ---------------------------------------------------------------- strings

  /** `Joi.string()` with `.required()`, `.uppercase()`, `.trim()`, `.max(n)`,
      `.valid(...only)` and `.allow('')`/`.allow(null)`; every string rule of
      these schemas also has `.min(1)` or no minimum, which Joi reports as
      `string.empty` before any rule runs */
  datatype StringRule = StringRule(
    required: bool, upper: bool, trim: bool, max: Option<nat>, only: seq<string>,
    allowEmpty: bool, allowNull: bool, custom: map<string, string>)

  /** The conversions Joi applies before checking: case first, then trim */
  function Convert(r: StringRule, s: string): string {
    var u := if r.upper then ToUpper(s) else s;
    if r.trim then Trim(u) else u
  }

  function OnlyErrors(key: string, r: StringRule): seq<string> {
    if |r.only| > 0 then [Msg(r.custom, "any.only", Label(key) + " must be one of [" + Join(r.only, ", ") + "]")]
    else []
  }

  /** The values a string rule accepts */
  predicate StringOk(r: StringRule, v: Raw<string>) {
    match v
    case Absent => !r.required
    case Null => r.allowNull
    case Wrong | Infinite => false
    case Val(s) =>
      var t := Convert(r, s);
      (t == "" && r.allowEmpty) || t in r.only ||
      (t != "" && |r.only| == 0 && (r.max.None? || |t| <= r.max.value))
  }

  /** A value outside `.valid(...)` is reported as `any.only` and then still
      goes through the type check and the rules */
  function StringErrors(key: string, r: StringRule, v: Raw<string>): (errs: seq<string>)
    ensures errs == [] <==> StringOk(r, v)
  {
    match v
    case Absent => if r.required then [Msg(r.custom, "any.required", Label(key) + " is required")] else []
    case Null =>
      if r.allowNull then [] else OnlyErrors(key, r) + [Msg(r.custom, "string.base", Label(key) + " must be a string")]
    case Wrong | Infinite => OnlyErrors(key, r) + [Msg(r.custom, "string.base", Label(key) + " must be a string")]
    case Val(s) =>
      var t := Convert(r, s);
      if (t == "" && r.allowEmpty) || t in r.only then []
      else if t == "" then OnlyErrors(key, r) + [Msg(r.custom, "string.empty", Label(key) + " is not allowed to be empty")]
      else
        OnlyErrors(key, r) +
        (if r.max.Some? && |t| > r.max.value
         then [Msg(r.custom, "string.max", Label(key) + " length must be less than or equal to " +
                                           NatToString(r.max.value) + " characters long")]
         else [])
  }

  /** A required, non-empty string with a maximum length */
  lemma BoundedStringOk(r: StringRule, v: Raw<string>)
    requires r.required && !r.allowNull && !r.allowEmpty && r.only == [] && r.max.Some?
    ensures StringOk(r, v) <==> v.Val? && 1 <= |Convert(r, v.v)| <= r.max.value
  {
  }

  /** A required string restricted to an enumeration */
  lemma EnumStringOk(r: StringRule, v: Raw<string>)
    requires r.required && !r.allowNull && !r.allowEmpty && |r.only| > 0 && "" !in r.only
    ensures StringOk(r, v) <==> v.Val? && Convert(r, v.v) in r.only
  {
  }

  /** The converted string, if one was given */
  function StringValue(r: StringRule, v: Raw<string>): Option<string> {
    if v.Val? then Some(Convert(r, v.v)) else None
  }

  // ---------------------------------------------------------------- numbers

  /** `Number.MAX_SAFE_INTEGER`, 2^53 - 1 */
  const MaxSafe: real := 9007199254740991.0

  /** Joi's number type refuses values outside the safe integer range unless
      the schema says `.unsafe()`, which none of these schemas does */
  predicate Safe(x: real) {
    -MaxSafe <= x <= MaxSafe
  }

  /** `Joi.number()` with `.required()`, `.allow(null)`, `.integer()`,
      `.positive()`, `.min(n)` and `.max(n)`; the rules run in that order, as
      they are declared in every schema here */
  datatype NumberRule = NumberRule(
    required: bool, allowNull: bool, integer: bool, positive: bool,
    min: Option<nat>, max: Option<nat>, custom: map<string, string>)

  predicate NumberOk(r: NumberRule, v: Raw<real>) {
    match v
    case Absent => !r.required
    case Null => r.allowNull
    case Wrong | Infinite => false
    case Val(x) =>
      Safe(x) && (!r.integer || IsInteger(x)) && (!r.positive || x > 0.0) &&
      (r.min.None? || x >= r.min.value as real) && (r.max.None? || x <= r.max.value as real)
  }

  /** An unsafe number fails the type check itself, so Joi reports
      `number.unsafe` alone and runs none of the rules */
  function NumberErrors(key: string, r: NumberRule, v: Raw<real>): (errs: seq<string>)
    ensures errs == [] <==> NumberOk(r, v)
    ensures v.Val? && !Safe(v.v) ==> errs == [Msg(r.custom, "number.unsafe", Label(key) + " must be a safe number")]
  {
    match v
    case Absent => if r.required then [Msg(r.custom, "any.required", Label(key) + " is required")] else []
    case Null => if r.allowNull then [] else [Msg(r.custom, "number.base", Label(key) + " must be a number")]
    case Wrong => [Msg(r.custom, "number.base", Label(key) + " must be a number")]
    case Infinite => [Msg(r.custom, "number.infinity", Label(key) + " cannot be infinity")]
    case Val(x) =>
      if !Safe(x) then [Msg(r.custom, "number.unsafe", Label(key) + " must be a safe number")]
      else
      (if r.integer && !IsInteger(x) then [Msg(r.custom, "number.integer", Label(key) + " must be an integer")] else []) +
      (if r.positive && x <= 0.0 then [Msg(r.custom, "number.positive", Label(key) + " must be a positive number")] else []) +
      (if r.min.Some? && x < r.min.value as real
       then [Msg(r.custom, "number.min", Label(key) + " must be greater than or equal to " + NatToString(r.min.value))]
       else []) +
      (if r.max.Some? && x > r.max.value as real
       then [Msg(r.custom, "number.max", Label(key) + " must be less than or equal to " + NatToString(r.max.value))]
       else [])
  }

  // ---------------------------------------------------------------- dates

  /** `Joi.date()` with `.required()`, `.allow(null)` and `.iso()` */
  datatype DateRule = DateRule(required: bool, allowNull: bool, iso: bool, custom: map<string, string>)

  predicate DateOk(r: DateRule, v: Raw<DateArg>) {
    match v
    case Absent => !r.required
    case Null => r.allowNull
    case Wrong | Infinite => false
    case Val(d) => d.ValidDate?
  }

  /** A string that is not ISO 8601 fails with `date.format` under `.iso()`;
      anything else that is no valid date fails with `date.base` */
  function DateErrors(key: string, r: DateRule, v: Raw<DateArg>): (errs: seq<string>)
    ensures errs == [] <==> DateOk(r, v)
  {
    match v
    case Absent => if r.required then [Msg(r.custom, "any.required", Label(key) + " is required")] else []
    case Null => if r.allowNull then [] else [Msg(r.custom, "date.base", Label(key) + " must be a valid date")]
    case Wrong | Infinite => [Msg(r.custom, "date.base", Label(key) + " must be a valid date")]
    case Val(d) =>
      match d
      case ValidDate(_) => []
      case NotIso =>
        if r.iso then [Msg(r.custom, "date.format", Label(key) + " must be in ISO 8601 date format")]
        else [Msg(r.custom, "date.base", Label(key) + " must be a valid date")]
      case InvalidDate => [Msg(r.custom, "date.base", Label(key) + " must be a valid date")]
  }

  function DateValue(v: Raw<DateArg>): Option<int> {
    if v.Val? && v.v.ValidDate? then Some(v.v.ts) else None
  }

  function NumberValue(v: Raw<real>): Option<real> {
    if v.Val? then Some(v.v) else None
  }

  /** A `Date` object or `null` */
  function FromDate(o: Option<int>): Raw<DateArg> {
    if o.Some? then Val(ValidDate(o.value)) else Null
  }

  /** A JavaScript number or `null` */
  function FromNumber(o: Option<JsNumber>): Raw<real> {
    match o
    case None => Null
    case Some(Finite(x)) => Val(x)
    case Some(Infinity(_)) => Infinite
  }

  /** A JavaScript value that is either `null` or of the key's type */
  function FromOption<T>(o: Option<T>): Raw<T> {
    if o.Some? then Val(o.value) else Null
  }

  // ---------------------------------------------------------------- CSV line

  /** The object `parseLine` builds from one CSV line before validation;
      `None` stands for `null` */
  datatype CsvCandidate = CsvCandidate(
    entryDate: Option<int>, symbol: string, tradeType: string, entryPrice: Option<JsNumber>,
    exitPrice: Option<JsNumber>, quantity: Option<JsNumber>, commission: JsNumber, notes: Option<string>,
    exitDate: Option<int>)

  /** The validated line: the schema's keys only */
  datatype CsvTrade = CsvTrade(
    entryDate: int, symbol: string, tradeType: TradeType, entryPrice: real, exitPrice: Option<real>,
    quantity: real, commission: real, notes: Option<string>)

  const CsvEntryDate := DateRule(true, false, false, map["date.base" := "Fecha inválida", "any.required" := "La fecha es requerida"])
  const CsvSymbol := StringRule(true, true, true, Some(20), [], false, false, map[])
  const CsvTradeType := StringRule(true, true, false, None, ["LONG", "SHORT"], false, false,
                                   map["any.only" := "Tipo debe ser LONG o SHORT"])
  const CsvEntryPrice := NumberRule(true, false, false, true, None, None, map[])
  const CsvExitPrice := NumberRule(false, true, false, true, None, None, map[])
  const CsvQuantity := NumberRule(true, false, false, true, None, None, map[])
  const CsvCommission := NumberRule(false, false, false, false, Some(0), None, map[])
  const CsvNotes := StringRule(false, false, true, Some(2000), [], true, true, map[])

  /** Every violation of `csvLineSchema`, in key order */
  function CsvLineErrors(c: CsvCandidate): seq<string> {
    DateErrors("entry_date", CsvEntryDate, FromDate(c.entryDate)) +
    StringErrors("symbol", CsvSymbol, Val(c.symbol)) +
    StringErrors("trade_type", CsvTradeType, Val(c.tradeType)) +
    NumberErrors("entry_price", CsvEntryPrice, FromNumber(c.entryPrice)) +
    NumberErrors("exit_price", CsvExitPrice, FromNumber(c.exitPrice)) +
    NumberErrors("quantity", CsvQuantity, FromNumber(c.quantity)) +
    NumberErrors("commission", CsvCommission, FromNumber(Some(c.commission))) +
    StringErrors("notes", CsvNotes, FromOption(c.notes))
  }

  /** A finite number greater than zero and no greater than the largest
      safe integer */
  predicate IsPositive(n: Option<JsNumber>) {
    n.Some? && n.value.Finite? && 0.0 < n.value.x <= MaxSafe
  }

  /** What `csvLineSchema` accepts, stated field by field */
  predicate CsvLineAcceptable(c: CsvCandidate) {
    var sym := Trim(ToUpper(c.symbol));
    && c.entryDate.Some?
    && 1 <= |sym| <= 20
    && ToUpper(c.tradeType) in ["LONG", "SHORT"]
    && IsPositive(c.entryPrice)
    && (c.exitPrice.Some? ==> IsPositive(c.exitPrice))
    && IsPositive(c.quantity)
    && c.commission.Finite? && 0.0 <= c.commission.x <= MaxSafe
    && (c.notes.Some? ==> |Trim(c.notes.value)| <= 2000)
  }

  /** Each key of the CSV line schema, checked on its own */
  lemma CsvKeyChecks(c: CsvCandidate)
    ensures DateErrors("entry_date", CsvEntryDate, FromDate(c.entryDate)) == [] <==> c.entryDate.Some?
    ensures StringErrors("symbol", CsvSymbol, Val(c.symbol)) == [] <==> 1 <= |Trim(ToUpper(c.symbol))| <= 20
    ensures StringErrors("trade_type", CsvTradeType, Val(c.tradeType)) == [] <==> ToUpper(c.tradeType) in ["LONG", "SHORT"]
    ensures NumberErrors("entry_price", CsvEntryPrice, FromNumber(c.entryPrice)) == [] <==> IsPositive(c.entryPrice)
    ensures NumberErrors("exit_price", CsvExitPrice, FromNumber(c.exitPrice)) == [] <==>
              (c.exitPrice.Some? ==> IsPositive(c.exitPrice))
    ensures NumberErrors("quantity", CsvQuantity, FromNumber(c.quantity)) == [] <==> IsPositive(c.quantity)
    ensures NumberErrors("commission", CsvCommission, FromNumber(Some(c.commission))) == [] <==>
              c.commission.Finite? && 0.0 <= c.commission.x <= MaxSafe
    ensures StringErrors("notes", CsvNotes, FromOption(c.notes)) == [] <==>
              (c.notes.Some? ==> |Trim(c.notes.value)| <= 2000)
  {
    CsvDateCheck(c.entryDate);
    CsvSymbolCheck(c.symbol);
    CsvTradeTypeCheck(c.tradeType);
    PositiveCheck("entry_price", CsvEntryPrice, c.entryPrice);
    OptionalPositiveCheck("exit_price", CsvExitPrice, c.exitPrice);
    PositiveCheck("quantity", CsvQuantity, c.quantity);
    CsvCommissionCheck(c.commission);
    NotesCheck("notes", CsvNotes, FromOption(c.notes));
  }

  lemma CsvDateCheck(d: Option<int>)
    ensures DateErrors("entry_date", CsvEntryDate, FromDate(d)) == [] <==> d.Some?
  {
    assert DateOk(CsvEntryDate, FromDate(d)) <==> d.Some?;
  }

  lemma CsvSymbolCheck(s: string)
    ensures StringErrors("symbol", CsvSymbol, Val(s)) == [] <==> 1 <= |Trim(ToUpper(s))| <= 20
  {
    BoundedStringOk(CsvSymbol, Val(s));
  }

  lemma CsvTradeTypeCheck(s: string)
    ensures StringErrors("trade_type", CsvTradeType, Val(s)) == [] <==> ToUpper(s) in ["LONG", "SHORT"]
  {
    EnumStringOk(CsvTradeType, Val(s));
  }

  /** A required, positive number that may not be null */
  lemma PositiveCheck(key: string, r: NumberRule, n: Option<JsNumber>)
    requires !r.allowNull && !r.integer && r.positive && r.min.None? && r.max.None?
    ensures NumberErrors(key, r, FromNumber(n)) == [] <==> IsPositive(n)
  {
    assert NumberOk(r, FromNumber(n)) <==> IsPositive(n);
  }

  /** An optional, positive number that may be null */
  lemma OptionalPositiveCheck(key: string, r: NumberRule, n: Option<JsNumber>)
    requires r.allowNull && !r.integer && r.positive && r.min.None? && r.max.None?
    ensures NumberErrors(key, r, FromNumber(n)) == [] <==> (n.Some? ==> IsPositive(n))
  {
    assert NumberOk(r, FromNumber(n)) <==> (n.Some? ==> IsPositive(n));
  }

  lemma CsvCommissionCheck(n: JsNumber)
    ensures NumberErrors("commission", CsvCommission, FromNumber(Some(n))) == [] <==> n.Finite? && 0.0 <= n.x <= MaxSafe
  {
    assert NumberOk(CsvCommission, FromNumber(Some(n))) <==> n.Finite? && 0.0 <= n.x <= MaxSafe;
  }

  /** The line has no violation exactly when every key is acceptable. */
  lemma CsvErrorsEmpty(c: CsvCandidate)
    ensures CsvLineErrors(c) == [] <==> CsvLineAcceptable(c)
  {
    CsvKeyChecks(c);
  }

  /** `csvLineSchema.validate(tradeData, {abortEarly: false, stripUnknown: true})`:
      the converted value, or every message. Keys outside the schema, the
      candidate's `exit_date` among them, are dropped without an error. */
  function CsvLineSchema(c: CsvCandidate): (r: Result<CsvTrade, seq<string>>)
    ensures r.Ok? <==> CsvLineAcceptable(c)
    ensures r.Err? ==> r.error == CsvLineErrors(c) && |r.error| > 0
    ensures r.Ok? ==> r.value == CsvTradeOf(c)
  {
    CsvErrorsEmpty(c);
    var errs := CsvLineErrors(c);
    if errs != [] then Err(errs) else Ok(CsvTradeOf(c))
  }

  /** The value Joi hands back for an acceptable line: the symbol trimmed
      and upper-cased, the trade type upper-cased, the numbers as given, the
      notes trimmed, and no other key */
  function CsvTradeOf(c: CsvCandidate): (t: CsvTrade)
    requires CsvLineAcceptable(c)
    ensures t.entryDate == c.entryDate.value
    ensures t.symbol == Trim(ToUpper(c.symbol)) && 1 <= |t.symbol| <= 20
    ensures TradeTypeName(t.tradeType) == ToUpper(c.tradeType)
    ensures Some(Finite(t.entryPrice)) == c.entryPrice && 0.0 < t.entryPrice <= MaxSafe
    ensures t.exitPrice.None? <==> c.exitPrice.None?
    ensures t.exitPrice.Some? ==> Some(Finite(t.exitPrice.value)) == c.exitPrice && 0.0 < t.exitPrice.value <= MaxSafe
    ensures Some(Finite(t.quantity)) == c.quantity && 0.0 < t.quantity <= MaxSafe
    ensures Finite(t.commission) == c.commission && 0.0 <= t.commission <= MaxSafe
    ensures t.notes.None? <==> c.notes.None?
    ensures t.notes.Some? ==> t.notes.value == Trim(c.notes.value) && |t.notes.value| <= 2000
  {
    CsvTrade(c.entryDate.value, Trim(ToUpper(c.symbol)), ParseTradeType(ToUpper(c.tradeType)).value,
             c.entryPrice.value.x, if c.exitPrice.Some? then Some(c.exitPrice.value.x) else None,
             c.quantity.value.x, c.commission.x,
             if c.notes.Some? then Some(Trim(c.notes.value)) else None)
  }

  /** The messages of a trade type outside LONG and SHORT */
  lemma CsvTradeTypeErrors(t: string)
    requires ToUpper(t) !in ["LONG", "SHORT"]
    ensures StringErrors("trade_type", CsvTradeType, Val(t)) ==
            ["Tipo debe ser LONG o SHORT"] + (if t == "" then [Label("trade_type") + " is not allowed to be empty"] else [])
  {
    assert Convert(CsvTradeType, t) == ToUpper(t);
    assert OnlyErrors("trade_type", CsvTradeType) == ["Tipo debe ser LONG o SHORT"];
    if t == "" {
        assert Msg(CsvTradeType.custom, "string.empty", Label("trade_type") + " is not allowed to be empty") ==
             Label("trade_type") + " is not allowed to be empty";
    } else {
      assert ToUpper(t) != "";
    }
  }

  /** A trade type other than LONG or SHORT, in any case, is reported with
      the schema's own message; an empty one is also reported as empty. */
  lemma CsvTradeTypeMessage(c: CsvCandidate)
    requires ToUpper(c.tradeType) !in ["LONG", "SHORT"]
    ensures CsvLineSchema(c).Err?
    ensures "Tipo debe ser LONG o SHORT" in CsvLineSchema(c).error
    ensures c.tradeType == "" ==> Label("trade_type") + " is not allowed to be empty" in CsvLineSchema(c).error
  {
    var r := CsvLineSchema(c);
    CsvTradeTypeErrors(c.tradeType);
    var e := StringErrors("trade_type", CsvTradeType, Val(c.tradeType));
    var pre := DateErrors("entry_date", CsvEntryDate, FromDate(c.entryDate)) +
               StringErrors("symbol", CsvSymbol, Val(c.symbol));
    assert r.error == CsvLineErrors(c);
    assert (pre + e)[|pre|] == e[0];
    assert CsvLineErrors(c)[..|pre + e|] == pre + e;
    if c.tradeType == "" {
      assert (pre + e)[|pre| + 1] == e[1];
    }
  }

  /** Messages of a missing number */
  lemma NullNumberErrors(key: string, r: NumberRule)
    requires !r.allowNull && "number.base" !in r.custom
    ensures NumberErrors(key, r, Null) == [Label(key) + " must be a number"]
  {
  }

  /** Validation does not stop at the first violation: a line missing both
      its entry price and its quantity reports both. */
  lemma CsvAllViolations(c: CsvCandidate)
    requires c.entryPrice.None? && c.quantity.None?
    ensures CsvLineSchema(c).Err?
    ensures Label("entry_price") + " must be a number" in CsvLineSchema(c).error
    ensures Label("quantity") + " must be a number" in CsvLineSchema(c).error
  {
    var r := CsvLineSchema(c);
    assert !CsvLineAcceptable(c);
    var a := DateErrors("entry_date", CsvEntryDate, FromDate(c.entryDate)) +
             StringErrors("symbol", CsvSymbol, Val(c.symbol)) +
             StringErrors("trade_type", CsvTradeType, Val(c.tradeType));
    NullNumberErrors("entry_price", CsvEntryPrice);
    NullNumberErrors("quantity", CsvQuantity);
    assert FromNumber(c.entryPrice) == FromNumber(c.quantity) == Null;
    var p := NumberErrors("entry_price", CsvEntryPrice, Null);
    var x := NumberErrors("exit_price", CsvExitPrice, FromNumber(c.exitPrice));
    var q := NumberErrors("quantity", CsvQuantity, Null);
    var rest := NumberErrors("commission", CsvCommission, FromNumber(Some(c.commission)));
    var notes := StringErrors("notes", CsvNotes, FromOption(c.notes));
    assert r.error == CsvLineErrors(c) == a + p + x + q + rest + notes;
    var ap := a + p;
    assert p[0] in ap;
    var apxq := ap + x + q;
    assert p[0] in apxq && q[0] in apxq;
    assert r.error == apxq + rest + notes;
  }

  // ---------------------------------------------------------------- create

  /** The body of a create request, key by key */
  datatype CreateInput = CreateInput(
    symbol: Raw<string>, tradeType: Raw<string>, entryPrice: Raw<real>, exitPrice: Raw<real>,
    quantity: Raw<real>, entryDate: Raw<DateArg>, exitDate: Raw<DateArg>, commission: Raw<real>,
    notes: Raw<string>)

  const CreateSymbol := StringRule(true, true, true, Some(20), [], false, false,
    map["string.empty" := "El símbolo es requerido", "string.max" := "El símbolo no puede tener más de 20 caracteres"])
  const CreateTradeType := StringRule(true, true, false, None, ["LONG", "SHORT"], false, false,
    map["any.only" := "El tipo debe ser LONG o SHORT", "any.required" := "El tipo de trade es requerido"])
  const CreateEntryPrice := NumberRule(true, false, false, true, None, None,
    map["number.positive" := "El precio de entrada debe ser positivo", "any.required" := "El precio de entrada es requerido"])
  const CreateExitPrice := NumberRule(false, true, false, true, None, None,
    map["number.positive" := "El precio de salida debe ser positivo"])
  const CreateQuantity := NumberRule(true, false, false, true, None, None,
    map["number.positive" := "La cantidad debe ser positiva", "any.required" := "La cantidad es requerida"])
  const CreateEntryDate := DateRule(true, false, true,
    map["date.base" := "La fecha de entrada debe ser una fecha válida", "any.required" := "La fecha de entrada es requerida"])
  const CreateCommission := NumberRule(false, false, false, false, Some(0), None,
    map["number.min" := "La comisión no puede ser negativa"])
  const CreateNotes := StringRule(false, false, true, Some(2000), [], true, true,
    map["string.max" := "Las notas no pueden exceder 2000 caracteres"])

  /** The `.when('exit_price', ...)` condition: exit_price passes
      `Joi.number().positive().required()`, so it is present, safe and positive */
  predicate ExitDateRequired(q: CreateInput) {
    q.exitPrice.Val? && Safe(q.exitPrice.v) && q.exitPrice.v > 0.0
  }

  /** The exit_date rule: optional and nullable, required once exit_price is positive */
  function CreateExitDate(required: bool): DateRule {
    DateRule(required, true, true, map["date.base" := "La fecha de salida debe ser una fecha válida"])
  }

  function CreateErrors(q: CreateInput): seq<string> {
    StringErrors("symbol", CreateSymbol, q.symbol) +
    StringErrors("trade_type", CreateTradeType, q.tradeType) +
    NumberErrors("entry_price", CreateEntryPrice, q.entryPrice) +
    NumberErrors("exit_price", CreateExitPrice, q.exitPrice) +
    NumberErrors("quantity", CreateQuantity, q.quantity) +
    DateErrors("entry_date", CreateEntryDate, q.entryDate) +
    DateErrors("exit_date", CreateExitDate(ExitDateRequired(q)), q.exitDate) +
    NumberErrors("commission", CreateCommission, q.commission) +
    StringErrors("notes", CreateNotes, q.notes)
  }

  /** What `createTradeSchema` accepts, stated key by key */
  predicate CreateAcceptable(q: CreateInput) {
    && q.symbol.Val? && 1 <= |Trim(ToUpper(q.symbol.v))| <= 20
    && q.tradeType.Val? && ToUpper(q.tradeType.v) in ["LONG", "SHORT"]
    && q.entryPrice.Val? && 0.0 < q.entryPrice.v <= MaxSafe
    && q.exitPrice.Plain() && (q.exitPrice.Val? ==> 0.0 < q.exitPrice.v <= MaxSafe)
    && q.quantity.Val? && 0.0 < q.quantity.v <= MaxSafe
    && q.entryDate.Val? && q.entryDate.v.ValidDate?
    && (ExitDateRequired(q) ==> !q.exitDate.Absent?)
    && q.exitDate.Plain() && (q.exitDate.Val? ==> q.exitDate.v.ValidDate?)
    && (q.commission.Absent? || (q.commission.Val? && 0.0 <= q.commission.v <= MaxSafe))
    && q.notes.Plain() && (q.notes.Val? ==> |Trim(q.notes.v)| <= 2000)
  }

  /** Each key of the create schema, checked on its own */
  lemma CreateKeyChecks(q: CreateInput)
    ensures StringErrors("symbol", CreateSymbol, q.symbol) == [] <==>
              q.symbol.Val? && 1 <= |Trim(ToUpper(q.symbol.v))| <= 20
    ensures StringErrors("trade_type", CreateTradeType, q.tradeType) == [] <==>
              q.tradeType.Val? && ToUpper(q.tradeType.v) in ["LONG", "SHORT"]
    ensures NumberErrors("entry_price", CreateEntryPrice, q.entryPrice) == [] <==>
              q.entryPrice.Val? && 0.0 < q.entryPrice.v <= MaxSafe
    ensures NumberErrors("exit_price", CreateExitPrice, q.exitPrice) == [] <==>
              q.exitPrice.Plain() && (q.exitPrice.Val? ==> 0.0 < q.exitPrice.v <= MaxSafe)
    ensures NumberErrors("quantity", CreateQuantity, q.quantity) == [] <==> q.quantity.Val? && 0.0 < q.quantity.v <= MaxSafe
    ensures DateErrors("entry_date", CreateEntryDate, q.entryDate) == [] <==> q.entryDate.Val? && q.entryDate.v.ValidDate?
    ensures DateErrors("exit_date", CreateExitDate(ExitDateRequired(q)), q.exitDate) == [] <==>
              (ExitDateRequired(q) ==> !q.exitDate.Absent?) && q.exitDate.Plain() &&
              (q.exitDate.Val? ==> q.exitDate.v.ValidDate?)
    ensures NumberErrors("commission", CreateCommission, q.commission) == [] <==>
              (q.commission.Absent? || (q.commission.Val? && 0.0 <= q.commission.v <= MaxSafe))
    ensures StringErrors("notes", CreateNotes, q.notes) == [] <==> q.notes.Plain() && (q.notes.Val? ==> |Trim(q.notes.v)| <= 2000)
  {
    BoundedStringOk(CreateSymbol, q.symbol);
    EnumStringOk(CreateTradeType, q.tradeType);
    RawPositiveCheck("entry_price", CreateEntryPrice, q.entryPrice);
    RawOptionalPositiveCheck("exit_price", CreateExitPrice, q.exitPrice);
    RawPositiveCheck("quantity", CreateQuantity, q.quantity);
    CreateDateCheck("entry_date", CreateEntryDate, q.entryDate);
    CreateDateCheck("exit_date", CreateExitDate(ExitDateRequired(q)), q.exitDate);
    NonNegativeCheck("commission", CreateCommission, q.commission);
    NotesCheck("notes", CreateNotes, q.notes);
  }

  /** A required, positive number that may not be null */
  lemma RawPositiveCheck(key: string, r: NumberRule, v: Raw<real>)
    requires r.required && !r.allowNull && !r.integer && r.positive && r.min.None? && r.max.None?
    ensures NumberErrors(key, r, v) == [] <==> v.Val? && 0.0 < v.v <= MaxSafe
  {
    assert NumberOk(r, v) <==> v.Val? && 0.0 < v.v <= MaxSafe;
  }

  /** An optional, positive number that may be null */
  lemma RawOptionalPositiveCheck(key: string, r: NumberRule, v: Raw<real>)
    requires !r.required && r.allowNull && !r.integer && r.positive && r.min.None? && r.max.None?
    ensures NumberErrors(key, r, v) == [] <==> v.Plain() && (v.Val? ==> 0.0 < v.v <= MaxSafe)
  {
    assert NumberOk(r, v) <==> v.Plain() && (v.Val? ==> 0.0 < v.v <= MaxSafe);
  }

  /** A date rule, by whether it is required and whether it allows null */
  lemma CreateDateCheck(key: string, r: DateRule, v: Raw<DateArg>)
    ensures DateErrors(key, r, v) == [] <==>
              (r.required ==> !v.Absent?) && (!r.allowNull ==> !v.Null?) && v.Plain() &&
              (v.Val? ==> v.v.ValidDate?)
  {
    assert DateOk(r, v) <==>
             (r.required ==> !v.Absent?) && (!r.allowNull ==> !v.Null?) && v.Plain() && (v.Val? ==> v.v.ValidDate?);
  }

  /** An optional number, not null, at least zero */
  lemma NonNegativeCheck(key: string, r: NumberRule, v: Raw<real>)
    requires !r.required && !r.allowNull && !r.integer && !r.positive && r.min == Some(0) && r.max.None?
    ensures NumberErrors(key, r, v) == [] <==> (v.Absent? || (v.Val? && 0.0 <= v.v <= MaxSafe))
  {
    assert NumberOk(r, v) <==> (v.Absent? || (v.Val? && 0.0 <= v.v <= MaxSafe));
  }

  /** An optional, positive number that may not be null */
  lemma OptionalStrictPositiveCheck(key: string, r: NumberRule, v: Raw<real>)
    requires !r.required && !r.allowNull && !r.integer && r.positive && r.min.None? && r.max.None?
    ensures NumberErrors(key, r, v) == [] <==> (v.Absent? || (v.Val? && 0.0 < v.v <= MaxSafe))
  {
    assert NumberOk(r, v) <==> (v.Absent? || (v.Val? && 0.0 < v.v <= MaxSafe));
  }

  /** An optional, nullable notes string that may be empty, trimmed and at
      most 2000 characters long */
  lemma NotesCheck(key: string, r: StringRule, v: Raw<string>)
    requires !r.required && r.allowNull && r.allowEmpty && r.only == [] && r.max == Some(2000)
    requires !r.upper && r.trim
    ensures StringErrors(key, r, v) == [] <==> v.Plain() && (v.Val? ==> |Trim(v.v)| <= 2000)
  {
    if v.Val? {
      assert Convert(r, v.v) == Trim(v.v);
      assert StringOk(r, v) <==> |Trim(v.v)| <= 2000;
    }
  }

  /** `createTradeSchema`: the trade to create, with commission defaulting to
      0, or every message */
  function CreateTradeSchema(q: CreateInput): (r: Result<TradeData, seq<string>>)
    ensures r.Ok? <==> CreateAcceptable(q)
    ensures r.Err? ==> r.error == CreateErrors(q) && |r.error| > 0
    ensures r.Ok? ==> r.value == TradeData(
              Trim(ToUpper(q.symbol.v)), ParseTradeType(ToUpper(q.tradeType.v)).value,
              q.entryPrice.v, if q.exitPrice.Val? then Some(q.exitPrice.v) else None,
              q.quantity.v, q.entryDate.v.ts,
              if q.exitDate.Val? then Some(q.exitDate.v.ts) else None,
              Some(if q.commission.Val? then q.commission.v else 0.0),
              if q.notes.Val? then Some(Trim(q.notes.v)) else None)
  {
    CreateKeyChecks(q);
    var errs := CreateErrors(q);
    if errs != [] then Err(errs)
    else
      Ok(TradeData(
        Convert(CreateSymbol, q.symbol.v), ParseTradeType(ToUpper(q.tradeType.v)).value,
        q.entryPrice.v, NumberValue(q.exitPrice), q.quantity.v, q.entryDate.v.ts,
        DateValue(q.exitDate), Some(if q.commission.Val? then q.commission.v else 0.0),
        StringValue(CreateNotes, q.notes)))
  }

  /** A validated trade meets every bound of the schema. */
  lemma CreateBounds(q: CreateInput)
    requires CreateTradeSchema(q).Ok?
    ensures var t := CreateTradeSchema(q).value;
      && 1 <= |t.symbol| <= 20 && 0.0 < t.entryPrice <= MaxSafe && 0.0 < t.quantity <= MaxSafe
      && (t.exitPrice.Some? ==> 0.0 < t.exitPrice.value <= MaxSafe)
      && t.commission.Some? && 0.0 <= t.commission.value <= MaxSafe
      && (t.notes.Some? ==> |t.notes.value| <= 2000)
      && (t.exitPrice.Some? ==> t.exitDate.Some? || q.exitDate.Null?)
  {
  }

  /** A missing symbol is reported as required. */
  lemma CreateSymbolRequired(q: CreateInput)
    requires q.symbol.Absent?
    ensures CreateTradeSchema(q).Err? && Label("symbol") + " is required" in CreateTradeSchema(q).error
  {
    var r := CreateTradeSchema(q);
    var first := StringErrors("symbol", CreateSymbol, q.symbol);
    assert first == [Label("symbol") + " is required"];
    var rest := StringErrors("trade_type", CreateTradeType, q.tradeType) +
      NumberErrors("entry_price", CreateEntryPrice, q.entryPrice) +
      NumberErrors("exit_price", CreateExitPrice, q.exitPrice) +
      NumberErrors("quantity", CreateQuantity, q.quantity) +
      DateErrors("entry_date", CreateEntryDate, q.entryDate) +
      DateErrors("exit_date", CreateExitDate(ExitDateRequired(q)), q.exitDate) +
      NumberErrors("commission", CreateCommission, q.commission) +
      StringErrors("notes", CreateNotes, q.notes);
    assert r.error == CreateErrors(q);
    assert CreateErrors(q)[0] == first[0];
  }

  /** A positive, safe exit price makes exit_date required: leaving it out
      is an error, while an explicit null still passes this key. */
  lemma CreateRequiresExitDate(q: CreateInput)
    requires ExitDateRequired(q)
    ensures q.exitDate.Absent? ==>
              CreateTradeSchema(q).Err? &&
              Label("exit_date") + " is required" in CreateTradeSchema(q).error
    ensures q.exitDate.Null? ==> DateErrors("exit_date", CreateExitDate(true), q.exitDate) == []
  {
    if q.exitDate.Absent? {
      var r := CreateTradeSchema(q);
      var pre := StringErrors("symbol", CreateSymbol, q.symbol) +
        StringErrors("trade_type", CreateTradeType, q.tradeType) +
        NumberErrors("entry_price", CreateEntryPrice, q.entryPrice) +
        NumberErrors("exit_price", CreateExitPrice, q.exitPrice) +
        NumberErrors("quantity", CreateQuantity, q.quantity) +
        DateErrors("entry_date", CreateEntryDate, q.entryDate);
      var e := DateErrors("exit_date", CreateExitDate(ExitDateRequired(q)), q.exitDate);
      assert e == [Label("exit_date") + " is required"];
      var post := NumberErrors("commission", CreateCommission, q.commission);
      var notes := StringErrors("notes", CreateNotes, q.notes);
      assert r.error == CreateErrors(q) == pre + e + post + notes;
      assert e[0] in pre + e;
    }
  }

  /** An exit price beyond the safe range fails the `is` schema, so the
      `otherwise` branch applies and a missing exit_date is no error. */
  lemma UnsafeExitPriceLeavesDateOptional(q: CreateInput)
    requires q.exitPrice.Val? && !Safe(q.exitPrice.v) && q.exitDate.Absent?
    ensures !ExitDateRequired(q)
    ensures DateErrors("exit_date", CreateExitDate(ExitDateRequired(q)), q.exitDate) == []
  {
  }

  // ---------------------------------------------------------------- update

  const UpdateKeys := ["symbol", "trade_type", "entry_price", "exit_price", "quantity",
                       "entry_date", "exit_date", "commission", "notes"]
  const UpdateSymbol := StringRule(false, true, true, Some(20), [], false, false, map[])
  const UpdateTradeType := StringRule(false, true, false, None, ["LONG", "SHORT"], false, false, map[])
  const UpdateNotes := StringRule(false, false, true, Some(2000), [], true, true, map[])
  const UpdatePositive := NumberRule(false, false, false, true, None, None, map[])
  const UpdateExitPrice := NumberRule(false, true, false, true, None, None, map[])
  const UpdateEntryDate := DateRule(false, false, true, map[])
  const UpdateExitDate := DateRule(false, true, true, map[])
  const UpdateCommission := NumberRule(false, false, false, false, Some(0), None, map[])
  const NoFieldsMessage := "Debe proporcionar al menos un campo para actualizar"

  /** An object's keys are distinct */
  predicate DistinctKeys(es: seq<Entry>) {
    forall i, j :: 0 <= i < j < |es| ==> es[i].key != es[j].key
  }

  function Keys(es: seq<Entry>): (ks: seq<string>)
    ensures |ks| == |es| && forall i :: 0 <= i < |es| ==> ks[i] == es[i].key
  {
    if es == [] then [] else [es[0].key] + Keys(es[1..])
  }

  function Lookup(es: seq<Entry>, key: string): (v: Raw<Value>)
    ensures key in Keys(es) ==> v.Val?
    ensures key !in Keys(es) ==> v == Absent
  {
    if es == [] then Absent
    else if es[0].key == key then Val(es[0].value)
    else Lookup(es[1..], key)
  }

  function AsString(v: Raw<Value>): Raw<string> {
    match v
    case Absent => Absent
    case Val(Str(s)) => Val(s)
    case Val(NullValue) => Null
    case _ => Wrong
  }

  function AsNumber(v: Raw<Value>): Raw<real> {
    match v
    case Absent => Absent
    case Val(Num(x)) => Val(x)
    case Val(NullValue) => Null
    case _ => Wrong
  }

  function AsDate(v: Raw<Value>): Raw<DateArg> {
    match v
    case Absent => Absent
    case Val(DateVal(d)) => Val(d)
    case Val(NullValue) => Null
    case _ => Wrong
  }

  function UpdateErrors(es: seq<Entry>): seq<string> {
    StringErrors("symbol", UpdateSymbol, AsString(Lookup(es, "symbol"))) +
    StringErrors("trade_type", UpdateTradeType, AsString(Lookup(es, "trade_type"))) +
    NumberErrors("entry_price", UpdatePositive, AsNumber(Lookup(es, "entry_price"))) +
    NumberErrors("exit_price", UpdateExitPrice, AsNumber(Lookup(es, "exit_price"))) +
    NumberErrors("quantity", UpdatePositive, AsNumber(Lookup(es, "quantity"))) +
    DateErrors("entry_date", UpdateEntryDate, AsDate(Lookup(es, "entry_date"))) +
    DateErrors("exit_date", UpdateExitDate, AsDate(Lookup(es, "exit_date"))) +
    NumberErrors("commission", UpdateCommission, AsNumber(Lookup(es, "commission"))) +
    StringErrors("notes", UpdateNotes, AsString(Lookup(es, "notes")))
  }

  /** The rule of one update key, on the value the body gives it; every key
      is optional */
  predicate UpdateKeyOk(key: string, v: Raw<Value>) {
    if key == "symbol" then
      var s := AsString(v); s.Absent? || (s.Val? && 1 <= |Trim(ToUpper(s.v))| <= 20)
    else if key == "trade_type" then
      var s := AsString(v); s.Absent? || (s.Val? && ToUpper(s.v) in ["LONG", "SHORT"])
    else if key == "entry_price" || key == "quantity" then
      var n := AsNumber(v); n.Absent? || (n.Val? && 0.0 < n.v <= MaxSafe)
    else if key == "exit_price" then
      var n := AsNumber(v); n.Plain() && (n.Val? ==> 0.0 < n.v <= MaxSafe)
    else if key == "entry_date" then
      var d := AsDate(v); d.Absent? || (d.Val? && d.v.ValidDate?)
    else if key == "exit_date" then
      var d := AsDate(v); d.Plain() && (d.Val? ==> d.v.ValidDate?)
    else if key == "commission" then
      var n := AsNumber(v); n.Absent? || (n.Val? && 0.0 <= n.v <= MaxSafe)
    else if key == "notes" then
      var s := AsString(v); s.Plain() && (s.Val? ==> |Trim(s.v)| <= 2000)
    else true
  }

  /** What `updateTradeSchema` accepts: every schema key meets its rule */
  predicate UpdateAcceptable(es: seq<Entry>) {
    forall k :: k in UpdateKeys ==> UpdateKeyOk(k, Lookup(es, k))
  }

  /** An optional, non-empty string with a maximum length */
  lemma OptionalBoundedStringOk(r: StringRule, v: Raw<string>)
    requires !r.required && !r.allowNull && !r.allowEmpty && r.only == [] && r.max.Some?
    ensures StringOk(r, v) <==> v.Absent? || (v.Val? && 1 <= |Convert(r, v.v)| <= r.max.value)
  {
  }

  lemma UpdateStringCheck(key: string, r: StringRule, v: Raw<Value>)
    requires (key == "symbol" && r == UpdateSymbol) || (key == "trade_type" && r == UpdateTradeType) ||
             (key == "notes" && r == UpdateNotes)
    ensures StringErrors(key, r, AsString(v)) == [] <==> UpdateKeyOk(key, v)
  {
    var s := AsString(v);
    if key == "symbol" {
      OptionalBoundedStringOk(UpdateSymbol, s);
      if s.Val? {
        assert Convert(UpdateSymbol, s.v) == Trim(ToUpper(s.v));
      }
    } else if key == "trade_type" {
      UpperEnumCheck(key, UpdateTradeType, s);
    } else {
      NotesCheck(key, UpdateNotes, s);
    }
  }

  lemma UpdateNumberCheck(key: string, r: NumberRule, v: Raw<Value>)
    requires ((key == "entry_price" || key == "quantity") && r == UpdatePositive) ||
             (key == "exit_price" && r == UpdateExitPrice) || (key == "commission" && r == UpdateCommission)
    ensures NumberErrors(key, r, AsNumber(v)) == [] <==> UpdateKeyOk(key, v)
  {
    if key == "entry_price" || key == "quantity" {
      OptionalStrictPositiveCheck(key, UpdatePositive, AsNumber(v));
    } else if key == "exit_price" {
      RawOptionalPositiveCheck(key, UpdateExitPrice, AsNumber(v));
    } else {
      NonNegativeCheck(key, UpdateCommission, AsNumber(v));
    }
  }

  lemma UpdateDateCheck(key: string, r: DateRule, v: Raw<Value>)
    requires (key == "entry_date" && r == UpdateEntryDate) || (key == "exit_date" && r == UpdateExitDate)
    ensures DateErrors(key, r, AsDate(v)) == [] <==> UpdateKeyOk(key, v)
  {
    CreateDateCheck(key, r, AsDate(v));
  }

  /** The body has no violation exactly when every schema key meets its rule. */
  lemma UpdateKeyChecks(es: seq<Entry>)
    ensures UpdateErrors(es) == [] <==> UpdateAcceptable(es)
  {
    UpdateStringCheck("symbol", UpdateSymbol, Lookup(es, "symbol"));
    UpdateStringCheck("trade_type", UpdateTradeType, Lookup(es, "trade_type"));
    UpdateNumberCheck("entry_price", UpdatePositive, Lookup(es, "entry_price"));
    UpdateNumberCheck("exit_price", UpdateExitPrice, Lookup(es, "exit_price"));
    UpdateNumberCheck("quantity", UpdatePositive, Lookup(es, "quantity"));
    UpdateDateCheck("entry_date", UpdateEntryDate, Lookup(es, "entry_date"));
    UpdateDateCheck("exit_date", UpdateExitDate, Lookup(es, "exit_date"));
    UpdateNumberCheck("commission", UpdateCommission, Lookup(es, "commission"));
    UpdateStringCheck("notes", UpdateNotes, Lookup(es, "notes"));
    EveryUpdateKeyHolds(es);
  }

  /** The schema's nine keys, one by one */
  predicate EveryUpdateKey(es: seq<Entry>) {
    && UpdateKeyOk("symbol", Lookup(es, "symbol")) && UpdateKeyOk("trade_type", Lookup(es, "trade_type"))
    && UpdateKeyOk("entry_price", Lookup(es, "entry_price")) && UpdateKeyOk("exit_price", Lookup(es, "exit_price"))
    && UpdateKeyOk("quantity", Lookup(es, "quantity")) && UpdateKeyOk("entry_date", Lookup(es, "entry_date"))
    && UpdateKeyOk("exit_date", Lookup(es, "exit_date")) && UpdateKeyOk("commission", Lookup(es, "commission"))
    && UpdateKeyOk("notes", Lookup(es, "notes"))
  }

  lemma EveryUpdateKeyHolds(es: seq<Entry>)
    ensures UpdateAcceptable(es) <==> EveryUpdateKey(es)
  {
    if EveryUpdateKey(es) {
      EveryUpdateKeyMeets(es);
    } else {
      assert UpdateKeys[0] == "symbol" && UpdateKeys[1] == "trade_type" && UpdateKeys[2] == "entry_price";
      assert UpdateKeys[3] == "exit_price" && UpdateKeys[4] == "quantity" && UpdateKeys[5] == "entry_date";
      assert UpdateKeys[6] == "exit_date" && UpdateKeys[7] == "commission" && UpdateKeys[8] == "notes";
    }
  }

  lemma EveryUpdateKeyMeets(es: seq<Entry>)
    requires EveryUpdateKey(es)
    ensures UpdateAcceptable(es)
  {
    forall k | k in UpdateKeys
      ensures UpdateKeyOk(k, Lookup(es, k))
    {
      var i :| 0 <= i < |UpdateKeys| && UpdateKeys[i] == k;
    }
  }

  /** The converted value of a schema key; strings get their key's case and trim */
  function ConvertEntry(e: Entry): Entry {
    if e.value.Str? && e.key == "symbol" then Entry(e.key, Str(Convert(UpdateSymbol, e.value.s)))
    else if e.value.Str? && e.key == "trade_type" then Entry(e.key, Str(Convert(UpdateTradeType, e.value.s)))
    else if e.value.Str? && e.key == "notes" then Entry(e.key, Str(Convert(UpdateNotes, e.value.s)))
    else e
  }

  /** The schema keys of an object, converted, in the object's own order
      (`stripUnknown` drops the rest) */
  function KnownEntries(es: seq<Entry>): (r: seq<Entry>)
    ensures Keys(r) == Filter(Keys(es), (k: string) => k in UpdateKeys)
  {
    if es == [] then []
    else
      assert Keys(es)[1..] == Keys(es[1..]);
      (if es[0].key in UpdateKeys then [ConvertEntry(es[0])] else []) + KnownEntries(es[1..])
  }

  /** A body without any schema key has nothing to report but `.min(1)` */
  lemma NoSchemaKeys(es: seq<Entry>)
    requires forall k :: k in Keys(es) ==> k !in UpdateKeys
    ensures UpdateErrors(es) == [] && KnownEntries(es) == []
  {
    FilterNone(Keys(es), (k: string) => k in UpdateKeys);
    assert |KnownEntries(es)| == |Keys(KnownEntries(es))|;
    assert Lookup(es, "symbol") == Lookup(es, "trade_type") == Lookup(es, "entry_price") == Absent;
    assert Lookup(es, "exit_price") == Lookup(es, "quantity") == Lookup(es, "entry_date") == Absent;
    assert Lookup(es, "exit_date") == Lookup(es, "commission") == Lookup(es, "notes") == Absent;
  }

  /** Every kept entry is the body's entry under its key, converted. */
  lemma {:induction false} KnownFrom(es: seq<Entry>, e: Entry)
    requires DistinctKeys(es) && e in KnownEntries(es)
    ensures e.key in UpdateKeys && Lookup(es, e.key).Val?
    ensures e == ConvertEntry(Entry(e.key, Lookup(es, e.key).v))
  {
    var head := if es[0].key in UpdateKeys then [ConvertEntry(es[0])] else [];
    assert KnownEntries(es) == head + KnownEntries(es[1..]);
    if e in head {
      assert e == ConvertEntry(es[0]) && e.key == es[0].key;
    } else {
      forall i, j | 0 <= i < j < |es| - 1
        ensures es[1..][i].key != es[1..][j].key
      {
        assert es[1..][i] == es[i + 1] && es[1..][j] == es[j + 1];
      }
      KnownFrom(es[1..], e);
      var ks := Keys(es[1..]);
      assert e.key in ks;
      var j :| 0 <= j < |ks| && ks[j] == e.key;
      assert es[1..][j] == es[j + 1];
      assert e.key != es[0].key;
    }
  }

  /** `updateTradeSchema`: the converted schema keys in the body's order, or
      every message; `.min(1)` counts the keys left after unknown ones are
      stripped */
  function UpdateTradeSchema(es: seq<Entry>): (r: Result<seq<Entry>, seq<string>>)
    requires DistinctKeys(es)
    ensures r.Ok? <==> UpdateAcceptable(es) && KnownEntries(es) != []
    ensures r.Err? && !UpdateAcceptable(es) ==> r.error == UpdateErrors(es)
    ensures r.Err? && UpdateAcceptable(es) ==> r.error == [NoFieldsMessage]
    ensures r.Err? ==> |r.error| > 0
    ensures r.Ok? ==> |r.value| >= 1 && Keys(r.value) == Filter(Keys(es), (k: string) => k in UpdateKeys)
    ensures r.Ok? ==> forall e :: e in r.value ==> e.key in UpdateKeys
    ensures (forall k :: k in Keys(es) ==> k !in UpdateKeys) ==> r == Err([NoFieldsMessage])
  {
    UpdateKeyChecks(es);
    if forall k :: k in Keys(es) ==> k !in UpdateKeys then
      NoSchemaKeys(es);
      Err([NoFieldsMessage])
    else
    var errs := UpdateErrors(es);
    var known := KnownEntries(es);
    if errs != [] then Err(errs)
    else if known == [] then Err([NoFieldsMessage])
    else
      assert forall e :: e in known ==> e.key in Keys(known);
      Ok(known)
  }

  /** Every value of an accepted update meets its key's rule. */
  lemma UpdateBounds(es: seq<Entry>, e: Entry)
    requires DistinctKeys(es) && UpdateTradeSchema(es).Ok? && e in UpdateTradeSchema(es).value
    ensures e.key == "symbol" ==> e.value.Str? && 1 <= |e.value.s| <= 20
    ensures e.key == "trade_type" ==> e.value == Str("LONG") || e.value == Str("SHORT")
    ensures e.key == "entry_price" || e.key == "quantity" ==> e.value.Num? && 0.0 < e.value.x <= MaxSafe
    ensures e.key == "exit_price" ==> e.value.NullValue? || (e.value.Num? && 0.0 < e.value.x <= MaxSafe)
    ensures e.key == "entry_date" ==> e.value.DateVal? && e.value.d.ValidDate?
    ensures e.key == "exit_date" ==> e.value.NullValue? || (e.value.DateVal? && e.value.d.ValidDate?)
    ensures e.key == "commission" ==> e.value.Num? && 0.0 <= e.value.x <= MaxSafe
    ensures e.key == "notes" ==> e.value.NullValue? || (e.value.Str? && |e.value.s| <= 2000)
  {
    KnownFrom(es, e);
    var v := Lookup(es, e.key).v;
    assert UpdateKeyOk(e.key, Val(v));
    KeptValue(e.key, v);
  }

  /** The converted value of an acceptable key */
  lemma KeptValue(k: string, v: Value)
    requires UpdateKeyOk(k, Val(v))
    ensures var w := ConvertEntry(Entry(k, v)).value;
      && (k == "symbol" ==> w.Str? && 1 <= |w.s| <= 20)
      && (k == "trade_type" ==> w == Str("LONG") || w == Str("SHORT"))
      && (k == "entry_price" || k == "quantity" ==> w.Num? && 0.0 < w.x <= MaxSafe)
      && (k == "exit_price" ==> w.NullValue? || (w.Num? && 0.0 < w.x <= MaxSafe))
      && (k == "entry_date" ==> w.DateVal? && w.d.ValidDate?)
      && (k == "exit_date" ==> w.NullValue? || (w.DateVal? && w.d.ValidDate?))
      && (k == "commission" ==> w.Num? && 0.0 <= w.x <= MaxSafe)
      && (k == "notes" ==> w.NullValue? || (w.Str? && |w.s| <= 2000))
  {
    if k == "symbol" {
      assert Convert(UpdateSymbol, v.s) == Trim(ToUpper(v.s));
    } else if k == "trade_type" {
      assert Convert(UpdateTradeType, v.s) == ToUpper(v.s);
    } else if k == "notes" {
      if v.Str? {
        assert Convert(UpdateNotes, v.s) == Trim(v.s);
      }
    } else {
      assert ConvertEntry(Entry(k, v)).value == v;
    }
  }

  // ---------------------------------------------------------------- list query

  /** The query string of a listing request, key by key */
  datatype ListQueryInput = ListQueryInput(
    page: Raw<real>, limit: Raw<real>, sortBy: Raw<string>, sortDir: Raw<string>,
    status: Raw<string>, symbol: Raw<string>, tradeType: Raw<string>,
    dateFrom: Raw<DateArg>, dateTo: Raw<DateArg>)

  const PageRule := NumberRule(false, false, true, false, Some(1), None, map[])
  const LimitRule := NumberRule(false, false, true, false, Some(1), Some(MaxLimit), map[])
  const SortByRule := StringRule(false, false, false, None,
    ["entry_date", "exit_date", "created_at", "updated_at", "symbol", "pnl", "pnl_percentage", "quantity"],
    false, false, map[])
  const SortDirRule := StringRule(false, true, false, None, ["ASC", "DESC"], false, false, map[])
  const StatusRule := StringRule(false, true, false, None, ["OPEN", "CLOSED"], false, false, map[])
  const QuerySymbolRule := StringRule(false, true, true, None, [], false, false, map[])
  const QueryTypeRule := StringRule(false, true, false, None, ["LONG", "SHORT"], false, false, map[])
  const QueryDateRule := DateRule(false, false, true, map[])

  function ListQueryErrors(q: ListQueryInput): seq<string> {
    NumberErrors("page", PageRule, q.page) +
    NumberErrors("limit", LimitRule, q.limit) +
    StringErrors("sortBy", SortByRule, q.sortBy) +
    StringErrors("sortDir", SortDirRule, q.sortDir) +
    StringErrors("status", StatusRule, q.status) +
    StringErrors("symbol", QuerySymbolRule, q.symbol) +
    StringErrors("trade_type", QueryTypeRule, q.tradeType) +
    DateErrors("dateFrom", QueryDateRule, q.dateFrom) +
    DateErrors("dateTo", QueryDateRule, q.dateTo)
  }

  /** The value of a key restricted to an enumeration */
  function Enum<T>(v: Raw<string>, r: StringRule, parse: string -> Option<T>): Option<T> {
    if v.Val? then parse(Convert(r, v.v)) else None
  }

  /** What `listTradesQuerySchema` accepts, stated key by key */
  predicate ListAcceptable(q: ListQueryInput) {
    && (q.page.Absent? || (q.page.Val? && IsInteger(q.page.v) && 1.0 <= q.page.v <= MaxSafe))
    && (q.limit.Absent? || (q.limit.Val? && IsInteger(q.limit.v) && 1.0 <= q.limit.v <= MaxLimit as real))
    && (q.sortBy.Absent? || (q.sortBy.Val? && ParseSortField(q.sortBy.v).Some?))
    && (q.sortDir.Absent? || (q.sortDir.Val? && ParseSortDir(ToUpper(q.sortDir.v)).Some?))
    && (q.status.Absent? || (q.status.Val? && ParseStatus(ToUpper(q.status.v)).Some?))
    && (q.symbol.Absent? || (q.symbol.Val? && Trim(ToUpper(q.symbol.v)) != ""))
    && (q.tradeType.Absent? || (q.tradeType.Val? && ParseTradeType(ToUpper(q.tradeType.v)).Some?))
    && (q.dateFrom.Absent? || (q.dateFrom.Val? && q.dateFrom.v.ValidDate?))
    && (q.dateTo.Absent? || (q.dateTo.Val? && q.dateTo.v.ValidDate?))
  }

  /** Each key of the listing query, checked on its own */
  lemma ListKeyChecks(q: ListQueryInput)
    ensures NumberErrors("page", PageRule, q.page) == [] <==>
              q.page.Absent? || (q.page.Val? && IsInteger(q.page.v) && 1.0 <= q.page.v <= MaxSafe)
    ensures NumberErrors("limit", LimitRule, q.limit) == [] <==>
              q.limit.Absent? || (q.limit.Val? && IsInteger(q.limit.v) && 1.0 <= q.limit.v <= MaxLimit as real)
    ensures StringErrors("sortBy", SortByRule, q.sortBy) == [] <==>
              q.sortBy.Absent? || (q.sortBy.Val? && ParseSortField(q.sortBy.v).Some?)
    ensures StringErrors("sortDir", SortDirRule, q.sortDir) == [] <==>
              q.sortDir.Absent? || (q.sortDir.Val? && ParseSortDir(ToUpper(q.sortDir.v)).Some?)
    ensures StringErrors("status", StatusRule, q.status) == [] <==>
              q.status.Absent? || (q.status.Val? && ParseStatus(ToUpper(q.status.v)).Some?)
    ensures StringErrors("trade_type", QueryTypeRule, q.tradeType) == [] <==>
              q.tradeType.Absent? || (q.tradeType.Val? && ParseTradeType(ToUpper(q.tradeType.v)).Some?)
    ensures StringErrors("symbol", QuerySymbolRule, q.symbol) == [] <==>
              q.symbol.Absent? || (q.symbol.Val? && Trim(ToUpper(q.symbol.v)) != "")
    ensures DateErrors("dateFrom", QueryDateRule, q.dateFrom) == [] <==>
              q.dateFrom.Absent? || (q.dateFrom.Val? && q.dateFrom.v.ValidDate?)
    ensures DateErrors("dateTo", QueryDateRule, q.dateTo) == [] <==>
              q.dateTo.Absent? || (q.dateTo.Val? && q.dateTo.v.ValidDate?)
  {
    PageCheck(q.page);
    LimitCheck(q.limit);
    SortByCheck(q.sortBy);
    SortDirCheck(q.sortDir);
    StatusCheck(q.status);
    QueryTypeCheck(q.tradeType);
    QuerySymbolCheck(q.symbol);
    CreateDateCheck("dateFrom", QueryDateRule, q.dateFrom);
    CreateDateCheck("dateTo", QueryDateRule, q.dateTo);
  }

  lemma PageCheck(v: Raw<real>)
    ensures NumberErrors("page", PageRule, v) == [] <==>
              v.Absent? || (v.Val? && IsInteger(v.v) && 1.0 <= v.v <= MaxSafe)
  {
  }

  lemma LimitCheck(v: Raw<real>)
    ensures NumberErrors("limit", LimitRule, v) == [] <==>
              v.Absent? || (v.Val? && IsInteger(v.v) && 1.0 <= v.v <= MaxLimit as real)
  {
  }

  lemma SortDirCheck(v: Raw<string>)
    ensures StringErrors("sortDir", SortDirRule, v) == [] <==>
              v.Absent? || (v.Val? && ParseSortDir(ToUpper(v.v)).Some?)
  {
    UpperEnumCheck("sortDir", SortDirRule, v);
    if v.Val? {
      assert ToUpper(v.v) in SortDirRule.only <==> ParseSortDir(ToUpper(v.v)).Some?;
    }
  }

  lemma StatusCheck(v: Raw<string>)
    ensures StringErrors("status", StatusRule, v) == [] <==>
              v.Absent? || (v.Val? && ParseStatus(ToUpper(v.v)).Some?)
  {
    UpperEnumCheck("status", StatusRule, v);
    if v.Val? {
      assert ToUpper(v.v) in StatusRule.only <==> ParseStatus(ToUpper(v.v)).Some?;
    }
  }

  lemma QueryTypeCheck(v: Raw<string>)
    ensures StringErrors("trade_type", QueryTypeRule, v) == [] <==>
              v.Absent? || (v.Val? && ParseTradeType(ToUpper(v.v)).Some?)
  {
    UpperEnumCheck("trade_type", QueryTypeRule, v);
    if v.Val? {
      assert ToUpper(v.v) in QueryTypeRule.only <==> ParseTradeType(ToUpper(v.v)).Some?;
    }
  }

  lemma SortByCheck(v: Raw<string>)
    ensures StringErrors("sortBy", SortByRule, v) == [] <==> v.Absent? || (v.Val? && ParseSortField(v.v).Some?)
  {
    if v.Val? {
      assert Convert(SortByRule, v.v) == v.v;
      assert v.v in SortByRule.only <==> ParseSortField(v.v).Some?;
    }
  }

  /** The symbol filter: optional, upper-cased and trimmed, not empty */
  lemma QuerySymbolCheck(v: Raw<string>)
    ensures StringErrors("symbol", QuerySymbolRule, v) == [] <==>
              v.Absent? || (v.Val? && Trim(ToUpper(v.v)) != "")
  {
    if v.Val? {
      assert Convert(QuerySymbolRule, v.v) == Trim(ToUpper(v.v));
    }
  }

  /** The query has no violation exactly when every key is acceptable. */
  lemma ListErrorsEmpty(q: ListQueryInput)
    ensures ListQueryErrors(q) == [] <==> ListAcceptable(q)
  {
    ListKeyChecks(q);
  }

  /** An optional, upper-cased key restricted to an enumeration */
  lemma UpperEnumCheck(key: string, r: StringRule, v: Raw<string>)
    requires !r.required && !r.allowNull && !r.allowEmpty && r.upper && !r.trim && |r.only| > 0 && "" !in r.only
    ensures StringErrors(key, r, v) == [] <==> v.Absent? || (v.Val? && ToUpper(v.v) in r.only)
  {
    if v.Val? {
      assert Convert(r, v.v) == ToUpper(v.v);
    }
  }

  /** `listTradesQuerySchema`: the listing options, or every message */
  function ListTradesQuerySchema(q: ListQueryInput): (r: Result<ListOptions, seq<string>>)
    ensures r.Ok? <==> ListAcceptable(q)
    ensures r.Err? ==> r.error == ListQueryErrors(q) && |r.error| > 0
    ensures r.Ok? ==> r.value == ListOptionsOf(q)
    ensures q.page.Val? && (!IsInteger(q.page.v) || q.page.v < 1.0 || q.page.v > MaxSafe) ==> r.Err?
    ensures q.limit.Val? && (!IsInteger(q.limit.v) || q.limit.v < 1.0 || q.limit.v > MaxLimit as real) ==> r.Err?
    ensures q.sortBy.Val? && ParseSortField(q.sortBy.v).None? ==> r.Err?
    ensures q.sortDir.Val? && ParseSortDir(ToUpper(q.sortDir.v)).None? ==> r.Err?
    ensures q.status.Val? && ParseStatus(ToUpper(q.status.v)).None? ==> r.Err?
    ensures q.tradeType.Val? && ParseTradeType(ToUpper(q.tradeType.v)).None? ==> r.Err?
  {
    ListErrorsEmpty(q);
    var errs := ListQueryErrors(q);
    if errs != [] then Err(errs) else Ok(ListOptionsOf(q))
  }

  /** The options Joi hands back for an acceptable query: page 1, limit 20,
      sortBy entry_date and sortDir DESC filled in, the enumerations
      upper-cased, the symbol upper-cased and trimmed, the dates as given,
      and the optional keys absent when not given */
  function ListOptionsOf(q: ListQueryInput): (o: ListOptions)
    requires ListAcceptable(q)
    ensures o.page.Some? && 1 <= o.page.value <= 9007199254740991
    ensures o.limit.Some? && 1 <= o.limit.value <= MaxLimit
    ensures o.sortBy.Some? && o.sortDir.Some?
    ensures q.page.Absent? ==> o.page == Some(DefaultPage)
    ensures q.limit.Absent? ==> o.limit == Some(DefaultLimit)
    ensures q.page.Val? ==> o.page.value as real == q.page.v
    ensures q.limit.Val? ==> o.limit.value as real == q.limit.v
    ensures q.sortBy.Absent? ==> o.sortBy == Some(EntryDate)
    ensures q.sortDir.Absent? ==> o.sortDir == Some(Desc)
    ensures q.sortBy.Val? ==> SortFieldName(o.sortBy.value) == q.sortBy.v
    ensures q.sortDir.Val? ==> SortDirName(o.sortDir.value) == ToUpper(q.sortDir.v)
    ensures o.status.Some? <==> q.status.Val?
    ensures o.status.Some? ==> StatusName(o.status.value) == ToUpper(q.status.v)
    ensures o.tradeType.Some? <==> q.tradeType.Val?
    ensures o.tradeType.Some? ==> TradeTypeName(o.tradeType.value) == ToUpper(q.tradeType.v)
    ensures o.symbol.Some? <==> q.symbol.Val?
    ensures o.symbol.Some? ==> o.symbol.value == Trim(ToUpper(q.symbol.v)) && o.symbol.value != ""
    ensures o.dateFrom.Some? <==> q.dateFrom.Val?
    ensures o.dateFrom.Some? ==> q.dateFrom.v == ValidDate(o.dateFrom.value)
    ensures o.dateTo.Some? <==> q.dateTo.Val?
    ensures o.dateTo.Some? ==> q.dateTo.v == ValidDate(o.dateTo.value)
  {
    ListOptions(
      Some(if q.page.Val? then q.page.v.Floor else DefaultPage),
      Some(if q.limit.Val? then q.limit.v.Floor else DefaultLimit),
      Some(if q.sortBy.Val? then ParseSortField(q.sortBy.v).value else EntryDate),
      Some(if q.sortDir.Val? then ParseSortDir(ToUpper(q.sortDir.v)).value else Desc),
      Enum(q.status, StatusRule, ParseStatus),
      StringValue(QuerySymbolRule, q.symbol),
      Enum(q.tradeType, QueryTypeRule, ParseTradeType),
      DateValue(q.dateFrom), DateValue(q.dateTo))
  }

  // ---------------------------------------------------------------- id and CSV body

  const IdRule := NumberRule(true, false, true, true, None, None,
    map["number.base" := "El ID debe ser un número", "number.positive" := "El ID debe ser positivo"])

  /** `idParamSchema`: a positive integer id, or every message */
  function IdParamSchema(id: Raw<real>): (r: Result<nat, seq<string>>)
    ensures r.Ok? <==> id.Val? && IsInteger(id.v) && 0.0 < id.v <= MaxSafe
    ensures r.Ok? ==> r.value as real == id.v && 1 <= r.value <= 9007199254740991
    ensures r.Err? ==> r.error == NumberErrors("id", IdRule, id) && |r.error| > 0
  {
    var errs := NumberErrors("id", IdRule, id);
    if errs != [] then Err(errs) else Ok(id.v.Floor as nat)
  }

  const CsvDataRule := StringRule(true, false, false, None, [], false, false,
    map["any.required" := "Los datos CSV son requeridos", "string.empty" := "Los datos CSV no pueden estar vacíos"])

  lemma EmptyCsvData()
    ensures StringErrors("csvData", CsvDataRule, Val("")) == ["Los datos CSV no pueden estar vacíos"]
  {
    assert Convert(CsvDataRule, "") == "";
    assert OnlyErrors("csvData", CsvDataRule) == [];
    assert Msg(CsvDataRule.custom, "string.empty", Label("csvData") + " is not allowed to be empty") ==
           "Los datos CSV no pueden estar vacíos";
  }

  /** `csvImportSchema`: a non-empty CSV text, untrimmed, or the message */
  function CsvImportSchema(csvData: Raw<string>): (r: Result<string, seq<string>>)
    ensures r.Ok? <==> csvData.Val? && csvData.v != ""
    ensures r.Ok? ==> r.value == csvData.v
    ensures csvData.Absent? ==> r == Err(["Los datos CSV son requeridos"])
    ensures csvData == Val("") ==> r == Err(["Los datos CSV no pueden estar vacíos"])
  {
    var errs := StringErrors("csvData", CsvDataRule, csvData);
    EmptyCsvData();
    if errs != [] then Err(errs) else Ok(csvData.v)
  }
}
