/** The allow-lists and defaults shared by the validators and the query
    builder: trade types, trade states, sortable columns, sort directions
    and the pagination defaults. */
module TradeModel {
  import opened Util

  datatype TradeType = Long | Short
  datatype TradeStatus = Open | Closed
  datatype SortField =
    | EntryDate | ExitDate | CreatedAt | UpdatedAt | Symbol | Pnl | PnlPercentage | Quantity
  datatype SortDir = Asc | Desc

  /** How a value given for an ISO date key was read: a valid date, a string
      not in ISO 8601 form, or something that is no date at all */
  datatype DateArg = ValidDate(ts: int) | NotIso | InvalidDate

  /** A request value after JSON decoding and Joi's type conversion */
  datatype Value = Str(s: string) | Num(x: real) | DateVal(d: DateArg) | NullValue | OtherValue

  /** One key of a request object, in the object's own key order */
  datatype Entry = Entry(key: string, value: Value)

  /** The trade fields a create or bulk import hands to the store; `None`
      stands for null or an absent key */
  datatype TradeData = TradeData(
    symbol: string, tradeType: TradeType, entryPrice: real, exitPrice: Option<real>,
    quantity: real, entryDate: int, exitDate: Option<int>, commission: Option<real>,
    notes: Option<string>)

  /** The listing options `findAll` receives; `None` stands for an absent key */
  datatype ListOptions = ListOptions(
    page: Option<int>, limit: Option<int>, sortBy: Option<SortField>, sortDir: Option<SortDir>,
    status: Option<TradeStatus>, symbol: Option<string>, tradeType: Option<TradeType>,
    dateFrom: Option<int>, dateTo: Option<int>)

  const DefaultPage: nat := 1
  const DefaultLimit: nat := 20
  const MaxLimit: nat := 100

  function TradeTypeName(t: TradeType): string {
    match t
    case Long => "LONG"
    case Short => "SHORT"
  }

  function StatusName(s: TradeStatus): string {
    match s
    case Open => "OPEN"
    case Closed => "CLOSED"
  }

  function SortFieldName(f: SortField): string {
    match f
    case EntryDate => "entry_date"
    case ExitDate => "exit_date"
    case CreatedAt => "created_at"
    case UpdatedAt => "updated_at"
    case Symbol => "symbol"
    case Pnl => "pnl"
    case PnlPercentage => "pnl_percentage"
    case Quantity => "quantity"
  }

  function SortDirName(d: SortDir): string {
    match d
    case Asc => "ASC"
    case Desc => "DESC"
  }

  /** Membership in `Object.values(TRADE_TYPES)` */
  function ParseTradeType(s: string): (r: Option<TradeType>)
    ensures r.Some? <==> s == "LONG" || s == "SHORT"
    ensures r.Some? ==> TradeTypeName(r.value) == s
  {
    if s == "LONG" then Some(Long) else if s == "SHORT" then Some(Short) else None
  }

  /** Membership in `Object.values(TRADE_STATUS)` */
  function ParseStatus(s: string): (r: Option<TradeStatus>)
    ensures r.Some? <==> s == "OPEN" || s == "CLOSED"
    ensures r.Some? ==> StatusName(r.value) == s
  {
    if s == "OPEN" then Some(Open) else if s == "CLOSED" then Some(Closed) else None
  }

  /** Membership in `SORTABLE_FIELDS` */
  function ParseSortField(s: string): (r: Option<SortField>)
    ensures r.Some? ==> SortFieldName(r.value) == s
    ensures r.None? ==> forall f: SortField :: SortFieldName(f) != s
  {
    if s == "entry_date" then Some(EntryDate)
    else if s == "exit_date" then Some(ExitDate)
    else if s == "created_at" then Some(CreatedAt)
    else if s == "updated_at" then Some(UpdatedAt)
    else if s == "symbol" then Some(Symbol)
    else if s == "pnl" then Some(Pnl)
    else if s == "pnl_percentage" then Some(PnlPercentage)
    else if s == "quantity" then Some(Quantity)
    else None
  }

  /** Membership in `SORT_DIRECTIONS` */
  function ParseSortDir(s: string): (r: Option<SortDir>)
    ensures r.Some? <==> s == "ASC" || s == "DESC"
    ensures r.Some? ==> SortDirName(r.value) == s
  {
    if s == "ASC" then Some(Asc) else if s == "DESC" then Some(Desc) else None
  }

  /** Every allow-listed name is read back as the value it names. */
  lemma NamesRoundTrip(t: TradeType, st: TradeStatus, f: SortField, d: SortDir)
    ensures ParseTradeType(TradeTypeName(t)) == Some(t)
    ensures ParseStatus(StatusName(st)) == Some(st)
    ensures ParseSortField(SortFieldName(f)) == Some(f)
    ensures ParseSortDir(SortDirName(d)) == Some(d)
  {
  }
}
