/** CSV import: the parsed report turned into one transactional insert. */
module CsvImport {
  import opened Util
  import opened ErrorHandler
  import opened TradeModel
  import opened TradeValidator
  import opened CsvParser
  import opened TradeRepository

  /** The create input a valid CSV line becomes: the CSV has no exit date */
  function CsvTradeData(t: CsvTrade): (d: TradeData)
    ensures d.exitDate.None? && d.commission == Some(t.commission)
    ensures d.symbol == t.symbol && d.tradeType == t.tradeType && d.entryDate == t.entryDate
  {
    TradeData(t.symbol, t.tradeType, t.entryPrice, t.exitPrice, t.quantity, t.entryDate, None,
              Some(t.commission), t.notes)
  }

  /** `valid.map(v => v.data)` */
  function TradesData(valid: seq<LineResult>): (ds: seq<TradeData>)
    requires forall l :: l in valid ==> l.ValidLine?
    ensures |ds| == |valid|
    ensures forall i :: 0 <= i < |valid| ==> ds[i] == CsvTradeData(valid[i].data)
  {
    if valid == [] then [] else [CsvTradeData(valid[0].data)] + TradesData(valid[1..])
  }

  /** What `importCSV` answers; `trades` is empty where the source leaves the key out */
  datatype ImportResult = ImportResult(
    success: bool, imported: nat, trades: seq<Trade>, errors: seq<LineResult>, message: string)

  function ErrorsFoundMessage(n: nat): string {
    "Se encontraron " + NatToString(n) + " errores en el CSV"
  }

  function ImportedMessage(n: nat): string {
    "Se importaron " + NatToString(n) + " trades exitosamente"
  }

  /** `importCSV(csvData)`: nothing is stored when any line fails; otherwise
      every valid line is inserted in one transaction, which either stores
      them all or none. The branch for a report without valid lines is never
      taken, because a report without errors has at least one valid line. */
  method ImportCsv(store: TradeStore, csvData: string, newDate: string -> Option<int>)
    returns (r: Result<ImportResult, Thrown>)
    requires store.Valid()
    modifies store
    ensures store.Valid() && store.images == old(store.images)
    ensures ParseCsvSpec(csvData, newDate).Err? ==>
              r == Err(Operational(ParseCsvSpec(csvData, newDate).error)) && store.trades == old(store.trades)
    ensures ParseCsvSpec(csvData, newDate).Ok? && ParseCsvSpec(csvData, newDate).value.errors != [] ==>
              var rep := ParseCsvSpec(csvData, newDate).value;
              && r == Ok(ImportResult(false, 0, [], rep.errors, ErrorsFoundMessage(|rep.errors|)))
              && store.trades == old(store.trades)
    ensures ParseCsvSpec(csvData, newDate).Ok? && ParseCsvSpec(csvData, newDate).value.errors == [] ==>
              var rep := ParseCsvSpec(csvData, newDate).value;
              && rep.valid != []
              && (forall l :: l in rep.valid ==> l.ValidLine?)
              && var ds := TradesData(rep.valid);
              && (r.Ok? <==> forall d :: d in ds ==> store.rejects(InsertFields(d)).None?)
              && (r.Err? ==> store.trades == old(store.trades))
              && (r.Ok? ==> && r.value == ImportResult(true, |ds|, Created(ds, old(store.nextTradeId)), [], ImportedMessage(|ds|))
                            && store.trades == old(store.trades) + NewRows(ds, old(store.nextTradeId)))
  {
    var parsed := ParseCsv(csvData, newDate);
    if parsed.Err? {
      return Err(Operational(parsed.error));
    }
    var rep := parsed.value;
    ReportPartition(csvData, newDate);
    if |rep.errors| > 0 {
      return Ok(ImportResult(false, 0, [], rep.errors, ErrorsFoundMessage(|rep.errors|)));
    }
    assert |rep.valid| > 0;
    var created := store.CreateMany(TradesData(rep.valid));
    if created.Err? {
      return Err(created.error);
    }
    return Ok(ImportResult(true, |created.value|, created.value, [], ImportedMessage(|created.value|)));
  }
}
