/** The trade store: the `trades` table with its `deleted_at` marker and the
    `trade_images` table, held in memory in insertion order (which is also
    `created_at` order). Each repository function becomes a method of the
    store; the SQL it sends becomes the predicates and parameters it builds,
    and what the database does with them is stated by functions over the
    tables. */
module TradeRepository {
  import opened Util
  import opened TradeModel
  import opened ErrorHandler

  /** The columns a create writes */
  datatype Fields = Fields(
    symbol: string, tradeType: TradeType, entryPrice: real, exitPrice: Option<real>,
    quantity: real, entryDate: int, exitDate: Option<int>, commission: real, notes: Option<string>)

  /** A row of `trades`; `deleted` stands for `deleted_at IS NOT NULL` */
  datatype TradeRow = TradeRow(id: nat, fields: Fields, deleted: bool)

  /** What `addImage` is given for one image */
  datatype ImageData = ImageData(filename: string, originalName: string, fileSize: int, mimeType: string)

  /** A row of `trade_images` */
  datatype ImageRow = ImageRow(id: nat, tradeId: nat, data: ImageData)

  /** A trade as the repository returns it: its columns, the status the
      store derives, and its images */
  datatype Trade = Trade(id: nat, fields: Fields, status: TradeStatus, images: seq<ImageRow>)

  /** A trade is closed once both exit fields are set */
  function Status(f: Fields): TradeStatus {
    if f.exitPrice.Some? && f.exitDate.Some? then Closed else Open
  }

  function View(row: TradeRow, images: seq<ImageRow>): (t: Trade)
    ensures t.id == row.id && t.fields == row.fields && t.images == images
  {
    Trade(row.id, row.fields, Status(row.fields), images)
  }

  // ---------------------------------------------------------------- create normalisation

  /** The values `create` binds: a falsy exit price, exit date or notes
      becomes null and a falsy commission becomes 0 */
  function InsertFields(d: TradeData): Fields
  {
    Fields(d.symbol, d.tradeType, d.entryPrice,
           if d.exitPrice.Some? && d.exitPrice.value != 0.0 then d.exitPrice else None,
           d.quantity, d.entryDate, d.exitDate,
           if d.commission.Some? && d.commission.value != 0.0 then d.commission.value else 0.0,
           if d.notes.Some? && d.notes.value != "" then d.notes else None)
  }

  /** What `create` stores for each column: falsy optional values become
      null, a falsy commission becomes 0, everything else is kept. */
  lemma InsertFieldsMeaning(d: TradeData)
    ensures var f := InsertFields(d);
            && f.symbol == d.symbol && f.tradeType == d.tradeType && f.entryPrice == d.entryPrice
            && f.quantity == d.quantity && f.entryDate == d.entryDate && f.exitDate == d.exitDate
            && (f.exitPrice.None? <==> d.exitPrice.None? || d.exitPrice == Some(0.0))
            && (f.exitPrice.Some? ==> f.exitPrice == d.exitPrice)
            && (d.commission.None? ==> f.commission == 0.0)
            && (d.commission.Some? ==> f.commission == d.commission.value)
            && (f.notes.None? <==> d.notes.None? || d.notes == Some(""))
            && (f.notes.Some? ==> f.notes == d.notes)
  {
  }

  /** The stored columns read back as create input */
  function AsData(f: Fields): TradeData {
    TradeData(f.symbol, f.tradeType, f.entryPrice, f.exitPrice, f.quantity, f.entryDate, f.exitDate,
              Some(f.commission), f.notes)
  }

  /** Normalising stored values again changes nothing. */
  lemma InsertFieldsIdempotent(d: TradeData)
    ensures InsertFields(AsData(InsertFields(d))) == InsertFields(d)
  {
  }

  // ---------------------------------------------------------------- lookups

  /** The first live row with this id (`WHERE id = $1 AND deleted_at IS NULL`) */
  function LiveRow(rows: seq<TradeRow>, id: nat): (r: Option<TradeRow>)
    ensures r.Some? ==> r.value in rows && r.value.id == id && !r.value.deleted
    ensures r.None? ==> forall t :: t in rows ==> t.id != id || t.deleted
  {
    if rows == [] then None
    else if rows[0].id == id && !rows[0].deleted then Some(rows[0])
    else LiveRow(rows[1..], id)
  }

  /** The images of one trade, in table order */
  function ImagesOf(rows: seq<ImageRow>, tradeId: nat): (r: seq<ImageRow>)
    ensures |r| <= |rows|
  {
    if rows == [] then []
    else
      var n := |rows| - 1;
      ImagesOf(rows[..n], tradeId) + (if rows[n].tradeId == tradeId then [rows[n]] else [])
  }

  lemma ImagesOfSnoc(rows: seq<ImageRow>, x: ImageRow, tradeId: nat)
    ensures ImagesOf(rows + [x], tradeId) == ImagesOf(rows, tradeId) + (if x.tradeId == tradeId then [x] else [])
  {
    assert (rows + [x])[..|rows|] == rows;
  }

  /** A trade's images are exactly the rows that reference it. */
  lemma {:induction false} ImagesOfMembers(rows: seq<ImageRow>, tradeId: nat)
    ensures forall x :: x in ImagesOf(rows, tradeId) <==> x in rows && x.tradeId == tradeId
  {
    if rows != [] {
      var n := |rows| - 1;
      ImagesOfMembers(rows[..n], tradeId);
      assert rows == rows[..n] + [rows[n]];
    }
  }

  /** The image rows of any of the given trades (`WHERE trade_id = ANY($1)`), in table order */
  function Selected(rows: seq<ImageRow>, ids: seq<nat>): (r: seq<ImageRow>)
    ensures |r| <= |rows|
  {
    if rows == [] then []
    else
      var n := |rows| - 1;
      Selected(rows[..n], ids) + (if rows[n].tradeId in ids then [rows[n]] else [])
  }

  /** A trade no row references has no images. */
  lemma {:induction false} NoImages(rows: seq<ImageRow>, tradeId: nat)
    requires forall x :: x in rows ==> x.tradeId != tradeId
    ensures ImagesOf(rows, tradeId) == []
  {
    if rows != [] {
      var n := |rows| - 1;
      assert rows[n] in rows;
      assert forall x :: x in rows[..n] ==> x in rows;
      NoImages(rows[..n], tradeId);
    }
  }

  /** Selecting by a list of trades keeps each listed trade's images whole
      and in order, and nothing of the others. */
  lemma {:induction false} SelectedImages(rows: seq<ImageRow>, ids: seq<nat>, id: nat)
    ensures ImagesOf(Selected(rows, ids), id) == if id in ids then ImagesOf(rows, id) else []
  {
    if rows != [] {
      var n := |rows| - 1;
      var init := rows[..n];
      var x := rows[n];
      SelectedImages(init, ids, id);
      assert ImagesOf(rows, id) == ImagesOf(init, id) + (if x.tradeId == id then [x] else []);
      if x.tradeId in ids {
        assert Selected(rows, ids) == Selected(init, ids) + [x];
        ImagesOfSnoc(Selected(init, ids), x, id);
      } else {
        assert Selected(rows, ids) == Selected(init, ids) + [];
        assert Selected(init, ids) + [] == Selected(init, ids);
      }
    }
  }

  // ---------------------------------------------------------------- listing query

  /** A value bound to a placeholder */
  datatype Param = StatusParam(status: TradeStatus) | TextParam(text: string) | TypeParam(tradeType: TradeType)
                 | DateParam(date: int) | CountParam(count: int)

  /** The columns `findAll` filters on, and the comparisons it uses */
  datatype Column = StatusColumn | SymbolColumn | TradeTypeColumn | EntryDateColumn
  datatype Op = Eq | AtLeast | AtMost

  function ColumnName(c: Column): string {
    match c
    case StatusColumn => "status"
    case SymbolColumn => "symbol"
    case TradeTypeColumn => "trade_type"
    case EntryDateColumn => "entry_date"
  }

  function OpText(op: Op): string {
    match op
    case Eq => "="
    case AtLeast => ">="
    case AtMost => "<="
  }

  /** A predicate `column op $k` and the value bound to its placeholder */
  datatype Clause = Clause(column: Column, op: Op, value: Param)

  const NotDeleted := "deleted_at IS NULL"

  /** The predicates `findAll` appends after `deleted_at IS NULL`: one per
      truthy filter, in the order status, symbol, trade_type, dateFrom, dateTo */
  function Clauses(o: ListOptions): seq<Clause> {
    StatusClause(o) + SymbolClause(o) + TypeClause(o) + FromClause(o) + ToClause(o)
  }

  function StatusClause(o: ListOptions): (r: seq<Clause>)
    ensures |r| <= 1
  {
    if o.status.Some? then [Clause(StatusColumn, Eq, StatusParam(o.status.value))] else []
  }

  function SymbolClause(o: ListOptions): (r: seq<Clause>)
    ensures |r| <= 1
  {
    if o.symbol.Some? && o.symbol.value != "" then [Clause(SymbolColumn, Eq, TextParam(o.symbol.value))] else []
  }

  function TypeClause(o: ListOptions): (r: seq<Clause>)
    ensures |r| <= 1
  {
    if o.tradeType.Some? then [Clause(TradeTypeColumn, Eq, TypeParam(o.tradeType.value))] else []
  }

  function FromClause(o: ListOptions): (r: seq<Clause>)
    ensures |r| <= 1
  {
    if o.dateFrom.Some? then [Clause(EntryDateColumn, AtLeast, DateParam(o.dateFrom.value))] else []
  }

  function ToClause(o: ListOptions): (r: seq<Clause>)
    ensures |r| <= 1
  {
    if o.dateTo.Some? then [Clause(EntryDateColumn, AtMost, DateParam(o.dateTo.value))] else []
  }

  /** The text of a predicate bound to placeholder `$k` */
  function Condition(c: Clause, k: nat): string {
    ColumnName(c.column) + " " + OpText(c.op) + " $" + NatToString(k)
  }

  /** The predicate texts of `cs`, numbered `$1`, `$2`, ... */
  function Rendered(cs: seq<Clause>): (r: seq<string>)
    ensures |r| == |cs|
  {
    if cs == [] then [] else Rendered(cs[..|cs| - 1]) + [Condition(cs[|cs| - 1], |cs|)]
  }

  /** The values of `cs`, in order */
  function ValuesOf(cs: seq<Clause>): (r: seq<Param>)
    ensures |r| == |cs|
  {
    if cs == [] then [] else ValuesOf(cs[..|cs| - 1]) + [cs[|cs| - 1].value]
  }

  lemma RenderedSnoc(cs: seq<Clause>, c: Clause)
    ensures Rendered(cs + [c]) == Rendered(cs) + [Condition(c, |cs| + 1)]
    ensures ValuesOf(cs + [c]) == ValuesOf(cs) + [c.value]
  {
    assert (cs + [c])[..|cs|] == cs;
  }

  /** The k-th predicate names placeholder `$k`. */
  lemma {:induction false} RenderedAt(cs: seq<Clause>)
    ensures forall k :: 0 <= k < |cs| ==> Rendered(cs)[k] == Condition(cs[k], k + 1)
  {
    if cs != [] {
      var n := |cs| - 1;
      var prefix := Rendered(cs[..n]);
      RenderedAt(cs[..n]);
      assert Rendered(cs) == prefix + [Condition(cs[n], n + 1)];
      forall k | 0 <= k < |cs|
        ensures Rendered(cs)[k] == Condition(cs[k], k + 1)
      {
        if k < n {
          assert Rendered(cs)[k] == prefix[k];
          assert cs[..n][k] == cs[k];
        }
      }
    }
  }

  /** The k-th parameter is the value of the k-th predicate. */
  lemma {:induction false} ValuesAt(cs: seq<Clause>)
    ensures forall k :: 0 <= k < |cs| ==> ValuesOf(cs)[k] == cs[k].value
  {
    if cs != [] {
      var n := |cs| - 1;
      ValuesAt(cs[..n]);
      forall k | 0 <= k < |cs|
        ensures ValuesOf(cs)[k] == cs[k].value
      {
        if k < n {
          assert cs[..n][k] == cs[k];
        }
      }
    }
  }

  /** One filter's `if (...) { conditions.push(...); params.push(...) }`:
      `more` is the predicate that filter contributes, if any, and it names
      the placeholder of the value just pushed */
  method AddFilter(conditions: seq<string>, params: seq<Param>, ghost cs: seq<Clause>, more: seq<Clause>)
    returns (conditions': seq<string>, params': seq<Param>)
    requires |more| <= 1
    requires conditions == [NotDeleted] + Rendered(cs) && params == ValuesOf(cs)
    ensures conditions' == [NotDeleted] + Rendered(cs + more) && params' == ValuesOf(cs + more)
  {
    if |more| == 1 {
      var c := more[0];
      assert more == [c];
      RenderedSnoc(cs, c);
      params' := params + [c.value];
      conditions' := conditions + [Condition(c, |params'|)];
    } else {
      assert cs + more == cs;
      conditions', params' := conditions, params;
    }
  }

  /** The WHERE predicates and their parameters, pushed filter by filter */
  method BuildWhere(o: ListOptions) returns (conditions: seq<string>, params: seq<Param>)
    ensures conditions == [NotDeleted] + Rendered(Clauses(o))
    ensures params == ValuesOf(Clauses(o))
  {
    assert [] + StatusClause(o) == StatusClause(o);
    conditions, params := AddFilter([NotDeleted], [], [], StatusClause(o));
    conditions, params := AddFilter(conditions, params, StatusClause(o), SymbolClause(o));
    conditions, params := AddFilter(conditions, params, StatusClause(o) + SymbolClause(o), TypeClause(o));
    conditions, params := AddFilter(conditions, params, StatusClause(o) + SymbolClause(o) + TypeClause(o), FromClause(o));
    conditions, params := AddFilter(conditions, params, StatusClause(o) + SymbolClause(o) + TypeClause(o) + FromClause(o),
                                    ToClause(o));
  }

  /** What a predicate means for a row */
  predicate Holds(c: Clause, row: TradeRow) {
    match c.column
    case StatusColumn => c.value == StatusParam(Status(row.fields))
    case SymbolColumn => c.value == TextParam(row.fields.symbol)
    case TradeTypeColumn => c.value == TypeParam(row.fields.tradeType)
    case EntryDateColumn =>
      c.value.DateParam? &&
      match c.op
      case Eq => row.fields.entryDate == c.value.date
      case AtLeast => row.fields.entryDate >= c.value.date
      case AtMost => row.fields.entryDate <= c.value.date
  }

  /** A row the WHERE clause selects: live, and every predicate holds */
  predicate Matches(o: ListOptions, row: TradeRow) {
    !row.deleted && AllHold(Clauses(o), row)
  }

  /** Every predicate of `cs` holds for the row */
  predicate AllHold(cs: seq<Clause>, row: TradeRow) {
    forall c :: c in cs ==> Holds(c, row)
  }

  lemma AllHoldSingle(cs: seq<Clause>, row: TradeRow)
    requires |cs| <= 1
    ensures AllHold(cs, row) <==> (cs != [] ==> Holds(cs[0], row))
  {
    if cs != [] {
      assert cs == [cs[0]];
    }
  }

  lemma AllHoldAppend(a: seq<Clause>, b: seq<Clause>, row: TradeRow)
    ensures AllHold(a + b, row) <==> AllHold(a, row) && AllHold(b, row)
  {
    assert forall c :: c in a + b <==> c in a || c in b;
  }

  /** The WHERE clause selects exactly the live rows that agree with every
      given filter; an absent filter (or an empty symbol) restricts nothing. */
  lemma WhereMeaning(o: ListOptions, row: TradeRow)
    ensures Matches(o, row) <==>
              && !row.deleted
              && (o.status.Some? ==> Status(row.fields) == o.status.value)
              && (o.symbol.Some? && o.symbol.value != "" ==> row.fields.symbol == o.symbol.value)
              && (o.tradeType.Some? ==> row.fields.tradeType == o.tradeType.value)
              && (o.dateFrom.Some? ==> row.fields.entryDate >= o.dateFrom.value)
              && (o.dateTo.Some? ==> row.fields.entryDate <= o.dateTo.value)
  {
    var st, sy, ty, fr, to := StatusClause(o), SymbolClause(o), TypeClause(o), FromClause(o), ToClause(o);
    AllHoldAppend(st, sy, row);
    AllHoldAppend(st + sy, ty, row);
    AllHoldAppend(st + sy + ty, fr, row);
    AllHoldAppend(st + sy + ty + fr, to, row);
    AllHoldSingle(st, row);
    AllHoldSingle(sy, row);
    AllHoldSingle(ty, row);
    AllHoldSingle(fr, row);
    AllHoldSingle(to, row);
    assert AllHold(st, row) <==> (o.status.Some? ==> Status(row.fields) == o.status.value);
    assert AllHold(sy, row) <==> (o.symbol.Some? && o.symbol.value != "" ==> row.fields.symbol == o.symbol.value);
    assert AllHold(ty, row) <==> (o.tradeType.Some? ==> row.fields.tradeType == o.tradeType.value);
    assert AllHold(fr, row) <==> (o.dateFrom.Some? ==> row.fields.entryDate >= o.dateFrom.value);
    assert AllHold(to, row) <==> (o.dateTo.Some? ==> row.fields.entryDate <= o.dateTo.value);
  }

  /** The live rows the WHERE clause selects, in table order */
  function Matching(rows: seq<TradeRow>, o: ListOptions): (r: seq<TradeRow>)
    ensures forall t :: t in r ==> t in rows && Matches(o, t)
  {
    Filter(rows, (t: TradeRow) => Matches(o, t))
  }

  function PageOf(o: ListOptions): int {
    if o.page.Some? then o.page.value else DefaultPage
  }

  function LimitOf(o: ListOptions): int {
    if o.limit.Some? then o.limit.value else DefaultLimit
  }

  /** The page and limit a validated query carries */
  predicate PagingOk(o: ListOptions) {
    PageOf(o) >= 1 && LimitOf(o) >= 1
  }

  /** `Math.ceil(a / b)` */
  function CeilDiv(a: nat, b: nat): (r: nat)
    requires b > 0
    ensures b * r >= a && (r == 0 || b * (r - 1) < a)
  {
    (a + b - 1) / b
  }

  /** `LIMIT limit OFFSET offset` over rows in order */
  function Window<T>(rows: seq<T>, offset: nat, limit: nat): (w: seq<T>)
    ensures |w| <= limit
    ensures offset >= |rows| ==> w == []
    ensures offset < |rows| ==> w == rows[offset..Min(offset + limit, |rows|)]
  {
    if offset >= |rows| then [] else rows[offset..Min(offset + limit, |rows|)]
  }

  /** The two statements `findAll` sends: the WHERE text, its parameters,
      and the page clause with its two parameters appended */
  datatype ListQuery = ListQuery(where: string, params: seq<Param>, pageClause: string, dataParams: seq<Param>)

  /** What `findAll` returns */
  datatype Page = Page(trades: seq<Trade>, total: nat, page: int, totalPages: nat, limit: int)

  // ---------------------------------------------------------------- the store

  class TradeStore {
    var trades: seq<TradeRow>
    var images: seq<ImageRow>
    /** The next values of the two id sequences */
    var nextTradeId: nat
    var nextImageId: nat
    /** The table's constraints: the error an INSERT or UPDATE of these
        column values raises, if any */
    const rejects: Fields -> Option<Thrown>

    /** Every id was drawn from its sequence, trade rows in the order their
        ids were drawn */
    ghost predicate Valid()
      reads this
    {
      && nextTradeId >= 1 && nextImageId >= 1
      && (forall t :: t in trades ==> 1 <= t.id < nextTradeId)
      && IdsIncreasing(trades)
      && (forall x :: x in images ==> 1 <= x.id < nextImageId && x.tradeId < nextTradeId)
    }

    constructor(rejects: Fields -> Option<Thrown>)
      ensures Valid() && trades == [] && images == [] && this.rejects == rejects
    {
      trades := [];
      images := [];
      nextTradeId := 1;
      nextImageId := 1;
      this.rejects := rejects;
    }

    /** `getTradeImages(tradeId)` */
    function TradeImages(tradeId: nat): (r: seq<ImageRow>)
      reads this
    {
      ImagesOf(images, tradeId)
    }

    /** `findById(id)`: the live trade with its images, or null */
    function FindById(id: nat): (r: Option<Trade>)
      reads this
      ensures r.None? <==> LiveRow(trades, id).None?
      ensures r.Some? ==> && r.value.id == id && r.value.images == TradeImages(id)
                          && r.value.fields == LiveRow(trades, id).value.fields
    {
      match LiveRow(trades, id)
      case None => None
      case Some(row) => Some(View(row, TradeImages(id)))
    }

    /** `getImagesForTrades(tradeIds)`: the images of the listed trades
        grouped by trade id, each group in table order; a trade without
        images has no key, and an empty list queries nothing */
    method GetImagesForTrades(tradeIds: seq<nat>) returns (byTrade: map<nat, seq<ImageRow>>)
      ensures tradeIds == [] ==> byTrade == map[]
      ensures forall id :: id in byTrade <==> id in tradeIds && TradeImages(id) != []
      ensures forall id :: id in byTrade ==> byTrade[id] == TradeImages(id)
    {
      if |tradeIds| == 0 {
        return map[];
      }
      var rows := Selected(images, tradeIds);
      byTrade := map[];
      var i := 0;
      while i < |rows|
        invariant 0 <= i <= |rows|
        invariant forall id :: id in byTrade <==> ImagesOf(rows[..i], id) != []
        invariant forall id :: id in byTrade ==> byTrade[id] == ImagesOf(rows[..i], id)
      {
        var image := rows[i];
        assert rows[..i + 1] == rows[..i] + [image];
        forall id {
          ImagesOfSnoc(rows[..i], image, id);
        }
        if image.tradeId !in byTrade {
          byTrade := byTrade[image.tradeId := []];
        }
        byTrade := byTrade[image.tradeId := byTrade[image.tradeId] + [image]];
        i := i + 1;
      }
      assert rows[..i] == rows;
      forall id {
        SelectedImages(images, tradeIds, id);
      }
    }

    /** The loop of `findAll` that gives each trade of the page its images
        (an empty list when it has none) */
    method AttachImages(rows: seq<TradeRow>) returns (result: seq<Trade>)
      ensures |result| == |rows|
      ensures forall k :: 0 <= k < |rows| ==> result[k] == View(rows[k], TradeImages(rows[k].id))
    {
      var ids := seq(|rows|, k requires 0 <= k < |rows| => rows[k].id);
      var byTrade := GetImagesForTrades(ids);
      result := [];
      var i := 0;
      while i < |rows|
        invariant 0 <= i <= |rows|
        invariant |result| == i
        invariant forall k :: 0 <= k < i ==> result[k] == View(rows[k], TradeImages(rows[k].id))
      {
        assert ids[i] == rows[i].id;
        var bucket := if rows[i].id in byTrade then byTrade[rows[i].id] else [];
        result := result + [View(rows[i], bucket)];
        i := i + 1;
      }
    }

    /** `findAll(options)`: the page of live matching trades, each with its
        images, with the total count and page arithmetic. The rows come in
        table order. */
    method FindAll(o: ListOptions) returns (r: Page, query: ListQuery)
      requires PagingOk(o)
      ensures r.page == PageOf(o) && r.limit == LimitOf(o)
      ensures r.total == |Matching(trades, o)| && r.totalPages == CeilDiv(r.total, r.limit)
      ensures var w := Window(Matching(trades, o), (PageOf(o) - 1) * LimitOf(o), LimitOf(o));
              && |r.trades| == |w|
              && forall i :: 0 <= i < |w| ==> r.trades[i] == View(w[i], TradeImages(w[i].id))
      ensures query.params == ValuesOf(Clauses(o))
      ensures query.dataParams == query.params + [CountParam(LimitOf(o)), CountParam((PageOf(o) - 1) * LimitOf(o))]
      ensures query.pageClause ==
                "LIMIT $" + NatToString(|query.params| + 1) + " OFFSET $" + NatToString(|query.params| + 2)
    {
      var page := PageOf(o);
      var limit := LimitOf(o);
      var offset := (page - 1) * limit;
      var conditions, params := BuildWhere(o);
      query := ListQuery(Join(conditions, " AND "), params,
                         "LIMIT $" + NatToString(|params| + 1) + " OFFSET $" + NatToString(|params| + 2),
                         params + [CountParam(limit), CountParam(offset)]);
      var matching := Matching(trades, o);
      var rows := Window(matching, offset, limit);
      var result := AttachImages(rows);
      r := Page(result, |matching|, page, CeilDiv(|matching|, limit), limit);
    }

    /** `create(tradeData)`: inserts the normalised row, or raises the
        table's error and leaves the table unchanged. The id sequence
        advances either way, as a database sequence does. */
    method Create(d: TradeData) returns (r: Result<Trade, Thrown>)
      requires Valid()
      modifies this
      ensures Valid() && images == old(images) && nextImageId == old(nextImageId)
      ensures nextTradeId == old(nextTradeId) + 1
      ensures rejects(InsertFields(d)).Some? ==> r == Err(rejects(InsertFields(d)).value) && trades == old(trades)
      ensures rejects(InsertFields(d)).None? ==>
                && trades == old(trades) + [TradeRow(old(nextTradeId), InsertFields(d), false)]
                && r == Ok(Trade(old(nextTradeId), InsertFields(d), Status(InsertFields(d)), []))
      ensures r.Ok? ==> FindById(r.value.id) == Some(r.value)
    {
      var id := nextTradeId;
      nextTradeId := nextTradeId + 1;
      var f := InsertFields(d);
      match rejects(f)
      case Some(e) =>
        r := Err(e);
      case None =>
        LiveRowFresh(trades, TradeRow(id, f, false));
        NoImages(images, id);
        AppendIncreasing(trades, [TradeRow(id, f, false)], id);
        trades := trades + [TradeRow(id, f, false)];
        r := Ok(Trade(id, f, Status(f), []));
    }

    /** `createMany(tradesData)` in one transaction: every row is inserted
        in order and returned in input order, or the first failure rolls
        the table back and is raised. */
    method CreateMany(ds: seq<TradeData>) returns (r: Result<seq<Trade>, Thrown>)
      requires Valid()
      modifies this
      ensures Valid() && images == old(images) && nextImageId == old(nextImageId)
      ensures r.Ok? <==> forall d :: d in ds ==> rejects(InsertFields(d)).None?
      ensures r.Err? ==> trades == old(trades)
      ensures r.Err? ==> exists k :: 0 <= k < |ds| && rejects(InsertFields(ds[k])) == Some(r.error) &&
                                     (forall j :: 0 <= j < k ==> rejects(InsertFields(ds[j])).None?) &&
                                     nextTradeId == old(nextTradeId) + k + 1
      ensures r.Ok? ==> && |r.value| == |ds| && nextTradeId == old(nextTradeId) + |ds|
                        && trades == old(trades) + NewRows(ds, old(nextTradeId))
                        && r.value == Created(ds, old(nextTradeId))
    {
      var first := nextTradeId;
      // the rows inserted inside the transaction, visible once it commits
      var pending: seq<TradeRow> := [];
      var created: seq<Trade> := [];
      var i := 0;
      while i < |ds|
        invariant 0 <= i <= |ds|
        invariant |pending| == |created| == i
        invariant forall k :: 0 <= k < i ==> pending[k] == TradeRow(first + k, InsertFields(ds[k]), false)
        invariant forall k :: 0 <= k < i ==> created[k] == Trade(first + k, InsertFields(ds[k]), Status(InsertFields(ds[k])), [])
        invariant forall j :: 0 <= j < i ==> rejects(InsertFields(ds[j])).None?
        invariant unchanged(this)
      {
        var f := InsertFields(ds[i]);
        if rejects(f).Some? {
          FirstRejection(ds, i, rejects);
          // ROLLBACK: the sequence keeps the ids drawn so far, this one included
          nextTradeId := first + i + 1;
          return Err(rejects(f).value);
        }
        var id := first + i;
        pending := pending + [TradeRow(id, f, false)];
        created := created + [Trade(id, f, Status(f), [])];
        i := i + 1;
      }
      NoRejection(ds, rejects);
      NewRowIds(ds, first);
      CreatedRowAt(ds, first);
      assert pending == NewRows(ds, first) && created == Created(ds, first);
      ConsecutiveIncreasing(pending, first);
      AppendIncreasing(trades, pending, first);
      trades := trades + pending;
      nextTradeId := first + |ds|;
      return Ok(created);
    }

    /** `update(id, updateData)`: only keys of the allow-list become SET
        entries, in the object's own order, with the id bound last; with
        none, the result is `findById(id)`. The live row with this id gets
        the new values, unless one of them does not fit its column or the
        table's constraints reject the result. */
    method Update(id: nat, updateData: seq<Entry>) returns (r: Result<Option<Trade>, Thrown>, sets: seq<string>, params: seq<Value>)
      requires Valid()
      modifies this
      ensures Valid() && images == old(images)
      ensures nextTradeId == old(nextTradeId) && nextImageId == old(nextImageId)
      ensures sets == SetList(Allowed(updateData))
      ensures params == EntryValues(Allowed(updateData)) + (if sets == [] then [] else [Num(id as real)])
      ensures sets == [] ==> r == Ok(old(FindById(id))) && trades == old(trades)
      ensures sets != [] && ApplyToRows(old(trades), id, Allowed(updateData), rejects).Some? ==>
                r == Err(ApplyToRows(old(trades), id, Allowed(updateData), rejects).value) && trades == old(trades)
      ensures sets != [] && ApplyToRows(old(trades), id, Allowed(updateData), rejects).None? ==>
                && trades == UpdateRows(old(trades), id, Allowed(updateData))
                && r.Ok? && (r.value.None? <==> old(FindById(id)).None?)
                && (r.value.Some? ==>
                      && old(FindById(id)).Some? && AssignAll(old(FindById(id)).value.fields, Allowed(updateData)).Some?
                      && r.value.value.fields == AssignAll(old(FindById(id)).value.fields, Allowed(updateData)).value)
      ensures r.Ok? ==> r.value == FindById(id)
    {
      sets, params := BuildSet(updateData);
      if |sets| == 0 {
        return Ok(FindById(id)), sets, params;
      }
      params := params + [Num(id as real)];
      var allowed := Allowed(updateData);
      match ApplyToRows(trades, id, allowed, rejects)
      case Some(e) =>
        r := Err(e);
      case None =>
        UpdateRowsKeepsIds(trades, id, allowed);
        UpdateLookup(trades, id, allowed, rejects);
        trades := UpdateRows(trades, id, allowed);
        r := Ok(FindById(id));
    }

    /** `softDelete(id)`: marks the live rows with this id deleted; true
        only when there was one */
    method SoftDelete(id: nat) returns (deleted: bool)
      requires Valid()
      modifies this
      ensures Valid() && images == old(images)
      ensures nextTradeId == old(nextTradeId) && nextImageId == old(nextImageId)
      ensures deleted <==> old(FindById(id)).Some?
      ensures trades == MarkDeleted(old(trades), id)
      ensures FindById(id).None?
    {
      deleted := LiveRow(trades, id).Some?;
      MarkDeletedFacts(trades, id);
      trades := MarkDeleted(trades, id);
    }

    /** `hardDelete(id)`: removes every row with this id, live or not, and
        by cascade their images; true when a row was removed */
    method HardDelete(id: nat) returns (deleted: bool)
      requires Valid()
      modifies this
      ensures Valid()
      ensures nextTradeId == old(nextTradeId) && nextImageId == old(nextImageId)
      ensures deleted <==> exists t :: t in old(trades) && t.id == id
      ensures trades == Filter(old(trades), (t: TradeRow) => t.id != id)
      ensures images == Filter(old(images), (x: ImageRow) => x.tradeId != id)
      ensures FindById(id).None? && TradeImages(id) == []
    {
      deleted := exists t :: t in trades && t.id == id;
      FilterIncreasing(trades, (t: TradeRow) => t.id != id);
      trades := Filter(trades, (t: TradeRow) => t.id != id);
      images := Filter(images, (x: ImageRow) => x.tradeId != id);
      NoImages(images, id);
    }

    /** A row with this id exists, live or soft-deleted: what the foreign
        key of `trade_images` checks */
    predicate HasRow(tradeId: nat)
      reads this
    {
      exists t :: t in trades && t.id == tradeId
    }

    /** One image INSERT the foreign key accepts */
    method InsertImage(tradeId: nat, data: ImageData) returns (row: ImageRow)
      requires Valid() && HasRow(tradeId)
      modifies this
      ensures Valid() && trades == old(trades) && nextTradeId == old(nextTradeId)
      ensures row == ImageRow(old(nextImageId), tradeId, data) && nextImageId == old(nextImageId) + 1
      ensures images == old(images) + [row]
      ensures TradeImages(tradeId) == old(TradeImages(tradeId)) + [row]
    {
      row := ImageRow(nextImageId, tradeId, data);
      ImagesOfSnoc(images, row, tradeId);
      images := images + [row];
      nextImageId := nextImageId + 1;
    }

    /** `addImage(tradeId, imageData)`: the new image row, or the
        foreign-key violation when no row has this id */
    method AddImage(tradeId: nat, data: ImageData) returns (r: Result<ImageRow, Thrown>)
      requires Valid()
      modifies this
      ensures Valid() && trades == old(trades) && nextTradeId == old(nextTradeId)
      ensures r.Err? <==> !old(HasRow(tradeId))
      ensures r.Err? ==> r.error == ForeignKeyError && images == old(images)
      ensures r.Ok? ==> r.value == ImageRow(old(nextImageId), tradeId, data) && images == old(images) + [r.value]
      ensures r.Ok? ==> TradeImages(tradeId) == old(TradeImages(tradeId)) + [r.value]
    {
      if !HasRow(tradeId) {
        nextImageId := nextImageId + 1;
        return Err(ForeignKeyError);
      }
      var row := InsertImage(tradeId, data);
      return Ok(row);
    }

    /** `addImages(tradeId, imagesData)` in one transaction: all images are
        inserted in order, or none when no row has this id. An empty list
        inserts nothing and succeeds. */
    method AddImages(tradeId: nat, data: seq<ImageData>) returns (r: Result<seq<ImageRow>, Thrown>)
      requires Valid()
      modifies this
      ensures Valid() && trades == old(trades) && nextTradeId == old(nextTradeId)
      ensures r.Err? <==> |data| > 0 && !old(HasRow(tradeId))
      ensures r.Err? ==> r.error == ForeignKeyError && images == old(images)
      ensures r.Ok? ==> r.value == ImageRows(tradeId, old(nextImageId), data) && images == old(images) + r.value
      ensures r.Ok? ==> TradeImages(tradeId) == old(TradeImages(tradeId)) + r.value
    {
      if |data| > 0 && !HasRow(tradeId) {
        nextImageId := nextImageId + 1;
        return Err(ForeignKeyError);
      }
      var created := InsertImages(tradeId, data);
      return Ok(created);
    }

    /** The insert loop of `addImages`, once the trade is known to exist
        (or there is nothing to insert) */
    method InsertImages(tradeId: nat, data: seq<ImageData>) returns (created: seq<ImageRow>)
      requires Valid() && (|data| == 0 || HasRow(tradeId))
      modifies this
      ensures Valid() && trades == old(trades) && nextTradeId == old(nextTradeId)
      ensures created == ImageRows(tradeId, old(nextImageId), data) && images == old(images) + created
      ensures TradeImages(tradeId) == old(TradeImages(tradeId)) + created
    {
      created := [];
      var i := 0;
      while i < |data|
        invariant 0 <= i <= |data|
        invariant trades == old(trades) && nextTradeId == old(nextTradeId)
        invariant nextImageId == old(nextImageId) + i
        invariant created == ImageRows(tradeId, old(nextImageId), data[..i]) && images == old(images) + created
        invariant TradeImages(tradeId) == old(TradeImages(tradeId)) + created
        invariant Valid()
      {
        assert data[..i + 1][..i] == data[..i];
        var row := InsertImage(tradeId, data[i]);
        created := created + [row];
        i := i + 1;
      }
      assert data[..i] == data;
    }

    /** `getImageById(imageId)` */
    function GetImageById(imageId: nat): (r: Option<ImageRow>)
      reads this
      ensures r.Some? ==> r.value in images && r.value.id == imageId
      ensures r.None? ==> forall x :: x in images ==> x.id != imageId
    {
      FirstImage(images, imageId)
    }

    /** `deleteImage(imageId)`: removes the image and returns it, or null */
    method DeleteImage(imageId: nat) returns (r: Option<ImageRow>)
      requires Valid()
      modifies this
      ensures Valid() && trades == old(trades)
      ensures nextTradeId == old(nextTradeId) && nextImageId == old(nextImageId)
      ensures r == old(GetImageById(imageId))
      ensures images == Filter(old(images), (x: ImageRow) => x.id != imageId)
      ensures GetImageById(imageId).None?
    {
      r := FirstImage(images, imageId);
      images := Filter(images, (x: ImageRow) => x.id != imageId);
    }

    /** `deleteAllImages(tradeId)`: removes the trade's images and returns them */
    method DeleteAllImages(tradeId: nat) returns (removed: seq<ImageRow>)
      requires Valid()
      modifies this
      ensures Valid() && trades == old(trades)
      ensures nextTradeId == old(nextTradeId) && nextImageId == old(nextImageId)
      ensures removed == old(TradeImages(tradeId))
      ensures images == Filter(old(images), (x: ImageRow) => x.tradeId != tradeId)
      ensures TradeImages(tradeId) == []
    {
      removed := ImagesOf(images, tradeId);
      images := Filter(images, (x: ImageRow) => x.tradeId != tradeId);
      NoImages(images, tradeId);
    }
  }

  /** The rows `addImages` creates for `data`, ids drawn from `first` on */
  function ImageRows(tradeId: nat, first: nat, data: seq<ImageData>): (r: seq<ImageRow>)
    ensures |r| == |data|
  {
    if data == [] then [] else ImageRows(tradeId, first, data[..|data| - 1]) + [ImageRow(first + |data| - 1, tradeId, data[|data| - 1])]
  }

  /** The k-th new image row holds the k-th image under the k-th fresh id. */
  lemma {:induction false} ImageRowsAt(tradeId: nat, first: nat, data: seq<ImageData>)
    ensures forall k :: 0 <= k < |data| ==> ImageRows(tradeId, first, data)[k] == ImageRow(first + k, tradeId, data[k])
  {
    if data != [] {
      ImageRowsAt(tradeId, first, data[..|data| - 1]);
    }
  }

  /** The foreign-key violation an image of a missing trade raises */
  const ForeignKeyError := PlainError(Some("23503"), "insert or update on table \"trade_images\" violates foreign key constraint")

  /** Row ids strictly increase along the table, as a sequence draws them
      (stated for neighbours; `IdsOrdered` gives every pair) */
  predicate IdsIncreasing(rows: seq<TradeRow>) {
    forall i :: 0 < i < |rows| ==> rows[i - 1].id < rows[i].id
  }

  /** In a table in id order, every earlier row has a smaller id, so no two
      rows share an id. */
  lemma {:induction false} IdsOrdered(rows: seq<TradeRow>)
    requires IdsIncreasing(rows)
    ensures forall i, j :: 0 <= i < j < |rows| ==> rows[i].id < rows[j].id
  {
    if rows != [] {
      var init := rows[..|rows| - 1];
      assert IdsIncreasing(init) by {
        forall i | 0 < i < |init|
          ensures init[i - 1].id < init[i].id
        {
          assert init[i - 1] == rows[i - 1] && init[i] == rows[i];
        }
      }
      IdsOrdered(init);
      forall i, j | 0 <= i < j < |rows|
        ensures rows[i].id < rows[j].id
      {
        if j < |rows| - 1 {
          assert init[i] == rows[i] && init[j] == rows[j];
        } else if i < j - 1 {
          assert init[i] == rows[i] && init[j - 1] == rows[j - 1];
        }
      }
    }
  }

  /** Rows whose ids all lie above the table's keep the order when appended. */
  lemma AppendIncreasing(rows: seq<TradeRow>, more: seq<TradeRow>, bound: int)
    requires IdsIncreasing(rows) && IdsIncreasing(more)
    requires forall t :: t in rows ==> t.id < bound
    requires forall t :: t in more ==> bound <= t.id
    ensures IdsIncreasing(rows + more)
  {
    var s := rows + more;
    forall i | 0 < i < |s|
      ensures s[i - 1].id < s[i].id
    {
      if i < |rows| {
        assert s[i - 1] == rows[i - 1] && s[i] == rows[i];
      } else if |rows| < i {
        assert s[i - 1] == more[i - 1 - |rows|] && s[i] == more[i - |rows|];
      } else {
        assert s[i - 1] in rows && s[i] in more;
      }
    }
  }

  /** Rows numbered consecutively are in order. */
  lemma ConsecutiveIncreasing(rows: seq<TradeRow>, first: int)
    requires forall k :: 0 <= k < |rows| ==> rows[k].id == first + k
    ensures IdsIncreasing(rows)
  {
  }

  /** Removing rows keeps the others in order. */
  lemma {:induction false} FilterIncreasing(rows: seq<TradeRow>, p: TradeRow -> bool)
    requires IdsIncreasing(rows)
    ensures IdsIncreasing(Filter(rows, p))
  {
    if rows != [] {
      var tail := rows[1..];
      forall i | 0 < i < |tail|
        ensures tail[i - 1].id < tail[i].id
      {
        assert tail[i - 1] == rows[i] && tail[i] == rows[i + 1];
      }
      FilterIncreasing(tail, p);
      IdsOrdered(rows);
      forall t | t in Filter(tail, p)
        ensures rows[0].id < t.id
      {
        var k :| 0 <= k < |tail| && tail[k] == t;
        assert rows[k + 1] == t;
      }
      var head := if p(rows[0]) then [rows[0]] else [];
      AppendIncreasing(head, Filter(tail, p), rows[0].id + 1);
    }
  }

  /** The rows `createMany` appends for `ds`, ids drawn from `first` on */
  function NewRows(ds: seq<TradeData>, first: nat): (rows: seq<TradeRow>)
    ensures |rows| == |ds|
  {
    if ds == [] then [] else NewRows(ds[..|ds| - 1], first) + [TradeRow(first + |ds| - 1, InsertFields(ds[|ds| - 1]), false)]
  }

  /** The trades `createMany` returns for `ds`, ids drawn from `first` on */
  function Created(ds: seq<TradeData>, first: nat): (ts: seq<Trade>)
    ensures |ts| == |ds|
  {
    if ds == [] then []
    else
      var f := InsertFields(ds[|ds| - 1]);
      Created(ds[..|ds| - 1], first) + [Trade(first + |ds| - 1, f, Status(f), [])]
  }

  /** The new rows take the ids from `first` on. */
  lemma {:induction false} NewRowIds(ds: seq<TradeData>, first: nat)
    ensures forall t :: t in NewRows(ds, first) ==> first <= t.id < first + |ds|
  {
    if ds != [] {
      NewRowIds(ds[..|ds| - 1], first);
    }
  }

  /** The k-th created trade is the k-th input, normalised, with the k-th
      fresh id and no images; the k-th new row holds the same columns. */
  lemma {:induction false} CreatedRowAt(ds: seq<TradeData>, first: nat)
    ensures forall k :: 0 <= k < |ds| ==>
              && Created(ds, first)[k] == Trade(first + k, InsertFields(ds[k]), Status(InsertFields(ds[k])), [])
              && NewRows(ds, first)[k] == TradeRow(first + k, InsertFields(ds[k]), false)
  {
    if ds != [] {
      CreatedRowAt(ds[..|ds| - 1], first);
    }
  }

  /** The first input the table rejects decides the outcome of the transaction. */
  lemma FirstRejection(ds: seq<TradeData>, i: nat, rejects: Fields -> Option<Thrown>)
    requires i < |ds| && rejects(InsertFields(ds[i])).Some?
    requires forall j :: 0 <= j < i ==> rejects(InsertFields(ds[j])).None?
    ensures !forall d :: d in ds ==> rejects(InsertFields(d)).None?
    ensures exists k :: 0 <= k < |ds| && rejects(InsertFields(ds[k])) == Some(rejects(InsertFields(ds[i])).value) &&
                        forall j :: 0 <= j < k ==> rejects(InsertFields(ds[j])).None?
  {
    assert ds[i] in ds;
  }

  lemma NoRejection(ds: seq<TradeData>, rejects: Fields -> Option<Thrown>)
    requires forall j :: 0 <= j < |ds| ==> rejects(InsertFields(ds[j])).None?
    ensures forall d :: d in ds ==> rejects(InsertFields(d)).None?
  {
  }

  /** A row whose id is above every other is what a lookup of that id finds. */
  lemma {:induction false} LiveRowFresh(rows: seq<TradeRow>, row: TradeRow)
    requires forall t :: t in rows ==> t.id < row.id
    requires !row.deleted
    ensures LiveRow(rows + [row], row.id) == Some(row)
  {
    if rows != [] {
      assert (rows + [row])[1..] == rows[1..] + [row];
      LiveRowFresh(rows[1..], row);
    }
  }

  /** The columns `update` may set */
  const AllowedFields := ["symbol", "trade_type", "entry_price", "exit_price", "quantity",
                          "entry_date", "exit_date", "commission", "notes"]

  /** The entries of the allow-list, in the object's order */
  function Allowed(es: seq<Entry>): (r: seq<Entry>)
    ensures |r| <= |es|
  {
    if es == [] then []
    else
      var n := |es| - 1;
      Allowed(es[..n]) + (if es[n].key in AllowedFields then [es[n]] else [])
  }

  lemma AllowedSnoc(es: seq<Entry>, i: nat)
    requires i < |es|
    ensures Allowed(es[..i + 1]) == Allowed(es[..i]) + (if es[i].key in AllowedFields then [es[i]] else [])
  {
    assert es[..i + 1][..i] == es[..i];
  }

  /** The SET entries for `es`, numbered `$1`, `$2`, ... */
  function SetList(es: seq<Entry>): (r: seq<string>)
    ensures |r| == |es|
  {
    if es == [] then [] else SetList(es[..|es| - 1]) + [es[|es| - 1].key + " = $" + NatToString(|es|)]
  }

  /** The values bound to the SET entries, in order */
  function EntryValues(es: seq<Entry>): (r: seq<Value>)
    ensures |r| == |es|
  {
    if es == [] then [] else EntryValues(es[..|es| - 1]) + [es[|es| - 1].value]
  }

  lemma SetListSnoc(es: seq<Entry>, e: Entry)
    ensures SetList(es + [e]) == SetList(es) + [e.key + " = $" + NatToString(|es| + 1)]
    ensures EntryValues(es + [e]) == EntryValues(es) + [e.value]
  {
    assert (es + [e])[..|es|] == es;
  }

  /** The k-th SET entry assigns the k-th allowed key from placeholder
      `$k`, and the k-th parameter is that key's value. */
  lemma {:induction false} SetListAt(es: seq<Entry>)
    ensures forall k :: 1 <= k <= |es| ==>
              SetList(es)[k - 1] == es[k - 1].key + " = $" + NatToString(k) && EntryValues(es)[k - 1] == es[k - 1].value
  {
    if es != [] {
      SetListAt(es[..|es| - 1]);
    }
  }

  lemma BuildSetStep(es: seq<Entry>, i: nat)
    requires i < |es|
    ensures var a := Allowed(es[..i]);
            es[i].key in AllowedFields ==>
              && SetList(Allowed(es[..i + 1])) == SetList(a) + [es[i].key + " = $" + NatToString(|a| + 1)]
              && EntryValues(Allowed(es[..i + 1])) == EntryValues(a) + [es[i].value]
    ensures es[i].key !in AllowedFields ==> Allowed(es[..i + 1]) == Allowed(es[..i])
  {
    AllowedSnoc(es, i);
    SetListSnoc(Allowed(es[..i]), es[i]);
    if es[i].key !in AllowedFields {
      assert Allowed(es[..i]) + [] == Allowed(es[..i]);
    }
  }

  /** The SET list and its parameters, built key by key */
  method BuildSet(updateData: seq<Entry>) returns (sets: seq<string>, params: seq<Value>)
    ensures sets == SetList(Allowed(updateData)) && params == EntryValues(Allowed(updateData))
  {
    sets := [];
    params := [];
    var i := 0;
    while i < |updateData|
      invariant 0 <= i <= |updateData|
      invariant sets == SetList(Allowed(updateData[..i])) && params == EntryValues(Allowed(updateData[..i]))
    {
      BuildSetStep(updateData, i);
      var e := updateData[i];
      if e.key in AllowedFields {
        params := params + [e.value];
        sets := sets + [e.key + " = $" + NatToString(|params|)];
      }
      i := i + 1;
    }
    assert updateData[..i] == updateData;
  }

  /** Writes one value into its column, or `None` when the value does not
      fit it (a wrong type, or null in a column that requires a value) */
  function Assign(f: Fields, e: Entry): Option<Fields> {
    match e.value
    case Str(s) =>
      if e.key == "symbol" then Some(f.(symbol := s))
      else if e.key == "trade_type" && ParseTradeType(s).Some? then Some(f.(tradeType := ParseTradeType(s).value))
      else if e.key == "notes" then Some(f.(notes := Some(s)))
      else None
    case Num(x) =>
      if e.key == "entry_price" then Some(f.(entryPrice := x))
      else if e.key == "exit_price" then Some(f.(exitPrice := Some(x)))
      else if e.key == "quantity" then Some(f.(quantity := x))
      else if e.key == "commission" then Some(f.(commission := x))
      else None
    case DateVal(d) =>
      if !d.ValidDate? then None
      else if e.key == "entry_date" then Some(f.(entryDate := d.ts))
      else if e.key == "exit_date" then Some(f.(exitDate := Some(d.ts)))
      else None
    case NullValue =>
      if e.key == "exit_price" then Some(f.(exitPrice := None))
      else if e.key == "exit_date" then Some(f.(exitDate := None))
      else if e.key == "notes" then Some(f.(notes := None))
      else None
    case OtherValue => None
  }

  /** All SET entries applied left to right */
  function AssignAll(f: Fields, es: seq<Entry>): Option<Fields>
    decreases |es|
  {
    if es == [] then Some(f)
    else match Assign(f, es[0])
      case None => None
      case Some(g) => AssignAll(g, es[1..])
  }

  const BadValueError := PlainError(Some("22P02"), "invalid input value")

  /** The error the UPDATE raises, if any: a value that does not fit its
      column, or a constraint the new values break, on any selected row */
  function ApplyToRows(rows: seq<TradeRow>, id: nat, es: seq<Entry>, rejects: Fields -> Option<Thrown>): Option<Thrown> {
    if rows == [] then None
    else if rows[0].id == id && !rows[0].deleted then
      match AssignAll(rows[0].fields, es)
      case None => Some(BadValueError)
      case Some(g) => if rejects(g).Some? then rejects(g) else ApplyToRows(rows[1..], id, es, rejects)
    else ApplyToRows(rows[1..], id, es, rejects)
  }

  /** One row after a successful UPDATE: a live row with this id gets the new values */
  function UpdateRow(row: TradeRow, id: nat, es: seq<Entry>): (r: TradeRow)
    ensures r.id == row.id && r.deleted == row.deleted
    ensures row.id != id || row.deleted ==> r == row
  {
    if row.id == id && !row.deleted && AssignAll(row.fields, es).Some? then row.(fields := AssignAll(row.fields, es).value)
    else row
  }

  /** The table after a successful UPDATE */
  function UpdateRows(rows: seq<TradeRow>, id: nat, es: seq<Entry>): (r: seq<TradeRow>)
    ensures |r| == |rows|
    ensures forall k :: 0 <= k < |rows| ==> r[k] == UpdateRow(rows[k], id, es)
  {
    if rows == [] then [] else [UpdateRow(rows[0], id, es)] + UpdateRows(rows[1..], id, es)
  }

  lemma UpdateRowsKeepsIds(rows: seq<TradeRow>, id: nat, es: seq<Entry>)
    ensures forall t :: t in UpdateRows(rows, id, es) ==> exists u :: u in rows && u.id == t.id
    ensures IdsIncreasing(rows) ==> IdsIncreasing(UpdateRows(rows, id, es))
  {
    var r := UpdateRows(rows, id, es);
    assert forall k :: 0 <= k < |r| ==> r[k].id == rows[k].id;
    forall t | t in r
      ensures exists u :: u in rows && u.id == t.id
    {
      var k :| 0 <= k < |r| && r[k] == t;
      assert rows[k] in rows;
    }
  }

  /** After an UPDATE that raised nothing, the live row with this id holds
      the assigned values; with no live row, there still is none. */
  lemma {:induction false} UpdateLookup(rows: seq<TradeRow>, id: nat, es: seq<Entry>, rejects: Fields -> Option<Thrown>)
    requires ApplyToRows(rows, id, es, rejects).None?
    ensures LiveRow(rows, id).None? ==> LiveRow(UpdateRows(rows, id, es), id).None?
    ensures LiveRow(rows, id).Some? ==>
              && AssignAll(LiveRow(rows, id).value.fields, es).Some?
              && LiveRow(UpdateRows(rows, id, es), id) ==
                   Some(LiveRow(rows, id).value.(fields := AssignAll(LiveRow(rows, id).value.fields, es).value))
  {
    if rows != [] && !(rows[0].id == id && !rows[0].deleted) {
      UpdateLookup(rows[1..], id, es, rejects);
    }
  }

  /** The table after a soft delete */
  function MarkDeleted(rows: seq<TradeRow>, id: nat): (r: seq<TradeRow>)
    ensures |r| == |rows|
    ensures forall k :: 0 <= k < |rows| ==> r[k] == (if rows[k].id == id then rows[k].(deleted := true) else rows[k])
  {
    if rows == [] then [] else [if rows[0].id == id then rows[0].(deleted := true) else rows[0]] + MarkDeleted(rows[1..], id)
  }

  lemma MarkDeletedFacts(rows: seq<TradeRow>, id: nat)
    ensures forall t :: t in MarkDeleted(rows, id) ==> exists u :: u in rows && u.id == t.id
    ensures forall t :: t in MarkDeleted(rows, id) ==> t.id != id || t.deleted
    ensures IdsIncreasing(rows) ==> IdsIncreasing(MarkDeleted(rows, id))
  {
    var r := MarkDeleted(rows, id);
    assert forall k :: 0 <= k < |r| ==> r[k].id == rows[k].id;
    forall t | t in r
      ensures exists u :: u in rows && u.id == t.id
    {
      var k :| 0 <= k < |r| && r[k] == t;
      assert rows[k] in rows;
    }
  }

  function FirstImage(rows: seq<ImageRow>, imageId: nat): (r: Option<ImageRow>)
    ensures r.Some? ==> r.value in rows && r.value.id == imageId
    ensures r.None? ==> forall x :: x in rows ==> x.id != imageId
  {
    if rows == [] then None
    else if rows[0].id == imageId then Some(rows[0])
    else FirstImage(rows[1..], imageId)
  }
}
