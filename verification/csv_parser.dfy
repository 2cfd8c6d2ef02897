/** CSV ingestion: `;`-separated lines in the column order
    date;symbol;type;entry price;exit price;quantity;commission;notes.
    Numbers are read the way `parseFloat` reads them; dates are read by the
    JavaScript `Date` constructor, which is a parameter here (`newDate`
    returns the timestamp of a valid date, `None` for an invalid one). */
module CsvParser {
  import opened Util
  import opened TradeModel
  import opened ErrorHandler
  import opened TradeValidator

  const Delimiter := ';'
  const ExpectedColumns: nat := 8
  const EmptyCsvMessage := "El CSV está vacío"
  const NoDataMessage := "El CSV no contiene datos"

  // ---------------------------------------------------------------- numbers

  predicate AllDigits(s: string) {
    forall i :: 0 <= i < |s| ==> IsDigit(s[i])
  }

  /** The run of decimal digits at the start of `s` */
  function LeadingDigits(s: string): (d: string)
    ensures |d| <= |s| && d == s[..|d|] && AllDigits(d)
    ensures |d| == |s| || !IsDigit(s[|d|])
  {
    if s != [] && IsDigit(s[0]) then [s[0]] + LeadingDigits(s[1..]) else []
  }

  /** The digit run of a string is exactly the digits before its first non-digit. */
  lemma {:induction false} LeadingDigitsOf(a: string, t: string)
    requires AllDigits(a) && (t == [] || !IsDigit(t[0]))
    ensures LeadingDigits(a + t) == a
  {
    if a == [] {
      assert a + t == t;
    } else {
      assert (a + t)[1..] == a[1..] + t;
      LeadingDigitsOf(a[1..], t);
    }
  }

  /** The `ExponentPart` at the start of `s` (`e` or `E`, an optional sign, at
      least one digit); 0 when there is none, since `parseFloat` then stops
      before the `e` */
  function Exponent(s: string): int {
    if s == [] || (s[0] != 'e' && s[0] != 'E') then 0
    else
      var t := s[1..];
      var u := if t != [] && (t[0] == '-' || t[0] == '+') then t[1..] else t;
      var d := LeadingDigits(u);
      if d == [] then 0
      else if t[0] == '-' then -(DigitsValue(d) as int)
      else DigitsValue(d)
  }

  /** `x * 10^e` for an exponent of either sign */
  function Scale(x: real, e: int): real {
    if e >= 0 then x * Pow10(e) as real else x / Pow10(-e) as real
  }

  lemma ScaleZero(x: real)
    ensures Scale(x, 0) == x
  {
    assert Pow10(0) == 1;
  }

  /** The value of the digits `whole` followed by the fraction digits `frac` */
  function Mantissa(whole: string, frac: string): real
    requires AllDigits(whole) && AllDigits(frac)
  {
    assert AllDigits(whole + frac);
    DigitsValue(whole + frac) as real / Pow10(|frac|) as real
  }

  /** The unsigned decimal literal at the start of `u`: `Infinity`, or
      digits with an optional fraction (at least one digit in all) and an
      optional exponent; `None` when there is none */
  function UnsignedFloat(u: string): Option<JsNumber> {
    if StartsWith(u, "Infinity") then Some(Infinity(false))
    else
      var whole := LeadingDigits(u);
      var afterWhole := u[|whole|..];
      var hasPoint := afterWhole != [] && afterWhole[0] == '.';
      var frac := if hasPoint then LeadingDigits(afterWhole[1..]) else [];
      if whole == [] && frac == [] then None
      else
        var rest := if hasPoint then afterWhole[1 + |frac|..] else afterWhole;
        Some(Finite(Scale(Mantissa(whole, frac), Exponent(rest))))
  }

  function Negate(n: JsNumber): JsNumber {
    match n
    case Finite(x) => Finite(-x)
    case Infinity(negative) => Infinity(!negative)
  }

  /** `parseFloat(s)`: after leading white space, an optional sign and the
      longest prefix that is an unsigned decimal literal; `None` is NaN. */
  function ParseFloat(s: string): Option<JsNumber> {
    var t := TrimStart(s);
    if t != [] && t[0] == '-' then
      match UnsignedFloat(t[1..])
      case None => None
      case Some(n) => Some(Negate(n))
    else if t != [] && t[0] == '+' then UnsignedFloat(t[1..])
    else UnsignedFloat(t)
  }

  /** `parseNumber`: empty or blank text is null; otherwise the trimmed text,
      with its first ',' read as a decimal point, through `parseFloat` */
  function ParseNumber(value: string): (r: Option<JsNumber>)
    ensures Trim(value) == "" ==> r.None?
    ensures Trim(value) != "" ==> r == ParseFloat(ReplaceFirst(Trim(value), ',', '.'))
  {
    if value == "" || Trim(value) == "" then None
    else ParseFloat(ReplaceFirst(Trim(value), ',', '.'))
  }

  /** Text that neither starts nor ends with white space is its own trim. */
  lemma TrimUnchanged(s: string)
    requires s != [] && !IsJsSpace(s[0]) && !IsJsSpace(s[|s| - 1])
    ensures Trim(s) == s
  {
    assert TrimStart(s) == s;
  }

  /** Replacing the first `c` where the first `c` is at `k` */
  lemma ReplaceFirstAt(s: string, k: nat, c: char, r: char)
    requires k < |s| && s[k] == c && c !in s[..k]
    ensures ReplaceFirst(s, c, r) == s[..k] + [r] + s[k + 1..]
  {
  }

  /** `UnsignedFloat` of a literal with a decimal point, given its parts */
  lemma PointedLiteral(u: string, whole: string, frac: string, rest: string)
    requires !StartsWith(u, "Infinity") && whole + frac != []
    requires LeadingDigits(u) == whole
    requires u[|whole|..] != [] && u[|whole|..][0] == '.'
    requires LeadingDigits(u[|whole|..][1..]) == frac
    requires u[|whole|..][1 + |frac|..] == rest
    ensures UnsignedFloat(u) == Some(Finite(Scale(Mantissa(whole, frac), Exponent(rest))))
  {
  }

  /** Digits, a decimal point and more digits, followed by nothing or by a
      comma, read as the number they spell */
  lemma DecimalLiteral(u: string, a: string, t: string, b: string, rest: string)
    requires AllDigits(a) && AllDigits(b) && a + b != []
    requires rest == [] || rest[0] == ','
    requires u == a + "." + t && t == b + rest
    ensures UnsignedFloat(u) == Some(Finite(Mantissa(a, b)))
  {
    AfterDigits(u, a, "." + t);
    FractionDigits(t, b, rest);
    NotInfinity(u, a);
    PointedLiteral(u, a, b, rest);
    ScaleZero(Mantissa(a, b));
  }

  lemma AfterDigits(u: string, a: string, tail: string)
    requires AllDigits(a) && tail != [] && tail[0] == '.' && u == a + tail
    ensures LeadingDigits(u) == a && u[|a|..] == tail
  {
    LeadingDigitsOf(a, tail);
  }

  lemma FractionDigits(t: string, b: string, rest: string)
    requires AllDigits(b) && (rest == [] || rest[0] == ',') && t == b + rest
    ensures LeadingDigits(("." + t)[1..]) == b && ("." + t)[1 + |b|..] == rest
    ensures Exponent(rest) == 0
  {
    assert ("." + t)[1..] == t;
    LeadingDigitsOf(b, rest);
  }

  lemma NotInfinity(u: string, a: string)
    requires AllDigits(a) && |u| > |a| && u[|a|] == '.' && u[..|a|] == a
    ensures !StartsWith(u, "Infinity")
  {
    if |a| > 0 {
      assert u[0] == a[0];
    }
  }

  /** Text that needs no trimming is read after its first comma is replaced. */
  lemma NumberText(s: string, p: string)
    requires s != [] && Trim(s) == s && ReplaceFirst(s, ',', '.') == p
    ensures ParseNumber(s) == ParseFloat(p)
  {
  }

  /** Digits, a comma and text that does not end in white space need no trimming. */
  lemma CommaTextTrimmed(a: string, b: string)
    requires AllDigits(a) && (b == [] || !IsJsSpace(b[|b| - 1]))
    ensures Trim(a + "," + b) == a + "," + b
  {
    var s := a + "," + b;
    assert s[0] == (if |a| > 0 then a[0] else ',');
    assert s[|s| - 1] == (if |b| > 0 then b[|b| - 1] else ',');
    TrimUnchanged(s);
  }

  /** A comma followed by digits does not end in white space. */
  lemma DigitsEnd(b: string, c: string)
    requires AllDigits(c)
    ensures var t := b + "," + c; t != [] && !IsJsSpace(t[|t| - 1])
  {
    var t := b + "," + c;
    assert t[|t| - 1] == (if |c| > 0 then c[|c| - 1] else ',');
  }

  /** After leading digits, the first comma is the one replaced. */
  lemma CommaAfterDigits(a: string, t: string)
    requires AllDigits(a)
    ensures ReplaceFirst(a + "," + t, ',', '.') == a + "." + t
  {
    var s := a + "," + t;
    assert s[..|a|] == a && s[|a|] == ',' && s[|a| + 1..] == t;
    ReplaceFirstAt(s, |a|, ',', '.');
  }

  /** Text starting with a digit or a point has no sign or leading space to skip. */
  lemma UnsignedText(t: string)
    requires t != [] && (IsDigit(t[0]) || t[0] == '.')
    ensures ParseFloat(t) == UnsignedFloat(t)
  {
    assert TrimStart(t) == t;
  }

  /** Digits and a point are read without a sign. */
  lemma PointTextUnsigned(a: string, t: string)
    requires AllDigits(a)
    ensures ParseFloat(a + "." + t) == UnsignedFloat(a + "." + t)
  {
    var p := a + "." + t;
    assert p[0] == (if |a| > 0 then a[0] else '.');
    UnsignedText(p);
  }

  /** Digits, a comma, more digits and then nothing or a comma and more
      text: the number the digits spell with the comma as decimal point */
  lemma CommaLiteral(a: string, t: string, b: string, rest: string)
    requires AllDigits(a) && AllDigits(b) && a + b != []
    requires t == b + rest && (rest == [] || rest[0] == ',')
    requires t == [] || !IsJsSpace(t[|t| - 1])
    ensures ParseNumber(a + "," + t) == Some(Finite(Mantissa(a, b)))
  {
    CommaTextTrimmed(a, t);
    CommaAfterDigits(a, t);
    PointTextUnsigned(a, t);
    DecimalLiteral(a + "." + t, a, t, b, rest);
    NumberText(a + "," + t, a + "." + t);
  }

  /** A decimal comma is read as a decimal point: `"42000,50"` is 42000.5. */
  lemma DecimalComma(a: string, b: string)
    requires AllDigits(a) && AllDigits(b) && a + b != []
    ensures ParseNumber(a + "," + b) == Some(Finite(Mantissa(a, b)))
  {
    assert b == b + [];
    CommaLiteral(a, b, b, []);
  }

  /** Only the first comma becomes a decimal point, so a second comma ends
      the number: `"1,5,3"` is 1.5. */
  lemma SecondCommaEndsNumber(a: string, b: string, c: string)
    requires AllDigits(a) && AllDigits(b) && AllDigits(c) && a + b != []
    ensures ParseNumber(a + "," + (b + "," + c)) == ParseNumber(a + "," + b)
  {
    DigitsEnd(b, c);
    assert b + "," + c == b + ("," + c);
    CommaLiteral(a, b + "," + c, b, "," + c);
    DecimalComma(a, b);
  }

  // ---------------------------------------------------------------- dates

  /** `parseDate`: blank text is null; otherwise the text as given, and then
      with its first space turned into `T` */
  function ParseDate(dateStr: string, newDate: string -> Option<int>): (r: Option<int>)
    ensures Trim(dateStr) == "" ==> r.None?
    ensures Trim(dateStr) != "" && newDate(dateStr).Some? ==> r == newDate(dateStr)
    ensures Trim(dateStr) != "" && newDate(dateStr).None? ==> r == newDate(ReplaceFirst(dateStr, ' ', 'T'))
  {
    if dateStr == "" || Trim(dateStr) == "" then None
    else if newDate(dateStr).Some? then newDate(dateStr)
    else newDate(ReplaceFirst(dateStr, ' ', 'T'))
  }

  // ---------------------------------------------------------------- one line

  /** The outcome of one line: `{success: true, lineNumber, data, raw}` or
      `{success: false, lineNumber, error, raw?}` (`rawLine` here) */
  datatype LineResult =
    | ValidLine(lineNumber: nat, data: CsvTrade, raw: string)
    | ErrorLine(lineNumber: nat, error: string, rawLine: Option<string>)

  /** The object `parseLine` builds from the columns of a line that has at
      least seven: the eighth column (notes) defaults to '', later columns
      are ignored */
  function Candidate(parts: seq<string>, newDate: string -> Option<int>): (c: CsvCandidate)
    requires |parts| >= ExpectedColumns - 1
    ensures c.symbol == ToUpper(Trim(parts[1])) && c.tradeType == ToUpper(Trim(parts[2]))
    ensures c.entryDate == ParseDate(parts[0], newDate)
    ensures c.entryPrice == ParseNumber(parts[3]) && c.exitPrice == ParseNumber(parts[4])
    ensures c.quantity == ParseNumber(parts[5])
    ensures NumberTruthy(ParseNumber(parts[6])) ==> c.commission == ParseNumber(parts[6]).value
    ensures !NumberTruthy(ParseNumber(parts[6])) ==> c.commission == Finite(0.0)
    ensures c.notes.None? <==> |parts| == 7 || Trim(parts[7]) == ""
    ensures c.notes.Some? ==> c.notes.value == Trim(parts[7]) && c.notes.value != ""
    ensures c.exitDate == (if NumberTruthy(c.exitPrice) then c.entryDate else None)
  {
    var notes := if |parts| > 7 then parts[7] else "";
    var entryDate := ParseDate(parts[0], newDate);
    var exitPrice := ParseNumber(parts[4]);
    var commission := ParseNumber(parts[6]);
    CsvCandidate(
      entryDate, ToUpper(Trim(parts[1])), ToUpper(Trim(parts[2])),
      ParseNumber(parts[3]), exitPrice, ParseNumber(parts[5]),
      if NumberTruthy(commission) then commission.value else Finite(0.0),
      if Trim(notes) != "" then Some(Trim(notes)) else None,
      if NumberTruthy(exitPrice) then entryDate else None)
  }

  /** A line split into fewer than seven columns (the notes column may be missing) */
  predicate TooFewColumns(line: string) {
    |Split(line, Delimiter)| < ExpectedColumns - 1
  }

  /** The object built from the columns of a line that has enough of them */
  function LineCandidate(line: string, newDate: string -> Option<int>): CsvCandidate
    requires !TooFewColumns(line)
  {
    Candidate(Split(line, Delimiter), newDate)
  }

  /** `parseLine(line, lineNumber)`: a line with too few columns fails on the
      count alone; any other line is valid exactly when its candidate passes
      the CSV line schema, and otherwise reports all of the schema's messages
      joined by ", " */
  function ParseLine(line: string, lineNumber: nat, newDate: string -> Option<int>): (r: LineResult)
    ensures r.lineNumber == lineNumber
    ensures TooFewColumns(line) <==> r.ErrorLine? && r.rawLine.None?
    ensures TooFewColumns(line) ==>
              r.error == "Se esperaban " + NatToString(ExpectedColumns) + " columnas, se encontraron " +
                         NatToString(|Split(line, Delimiter)|)
  {
    var parts := Split(line, Delimiter);
    if |parts| < ExpectedColumns - 1 then
      ErrorLine(lineNumber, "Se esperaban " + NatToString(ExpectedColumns) + " columnas, se encontraron " +
                            NatToString(|parts|), None)
    else
      var checked := CsvLineSchema(LineCandidate(line, newDate));
      if checked.Err? then ErrorLine(lineNumber, Join(checked.error, ", "), Some(line))
      else ValidLine(lineNumber, checked.value, line)
  }

  /** A line with enough columns is valid exactly when its candidate passes
      the CSV line schema; the valid result carries the converted trade and
      the line, the failed one every message of the schema joined by ", ". */
  lemma ParseLineChecked(line: string, lineNumber: nat, newDate: string -> Option<int>)
    requires !TooFewColumns(line)
    ensures var r := ParseLine(line, lineNumber, newDate);
            && (r.ValidLine? <==> CsvLineAcceptable(LineCandidate(line, newDate)))
            && (r.ValidLine? ==> r.raw == line && r.data == CsvLineSchema(LineCandidate(line, newDate)).value)
            && (r.ErrorLine? ==>
                  r.rawLine == Some(line) && r.error == Join(CsvLineErrors(LineCandidate(line, newDate)), ", "))
  {
    var checked := CsvLineSchema(LineCandidate(line, newDate));
    assert ParseLine(line, lineNumber, newDate) ==
           if checked.Err? then ErrorLine(lineNumber, Join(checked.error, ", "), Some(line))
           else ValidLine(lineNumber, checked.value, line);
  }

  /** Columns after the eighth do not change how a line is read. */
  lemma ExtraColumnsIgnored(parts: seq<string>, newDate: string -> Option<int>)
    requires |parts| > ExpectedColumns
    ensures Candidate(parts, newDate) == Candidate(parts[..ExpectedColumns], newDate)
  {
  }

  /** The exit date `parseLine` sets is not a key of the schema, so it never
      affects the outcome: validation with or without it is the same. */
  lemma ExitDateDropped(c: CsvCandidate, d: Option<int>)
    ensures CsvLineSchema(c) == CsvLineSchema(c.(exitDate := d))
  {
    CsvKeyChecks(c);
    CsvKeyChecks(c.(exitDate := d));
  }

  // ---------------------------------------------------------------- whole text

  /** Each line trimmed */
  function TrimAll(ls: seq<string>): (r: seq<string>)
    ensures |r| == |ls| && forall i :: 0 <= i < |ls| ==> r[i] == Trim(ls[i])
  {
    if ls == [] then [] else [Trim(ls[0])] + TrimAll(ls[1..])
  }

  predicate NonEmpty(l: string) {
    |l| > 0
  }

  /** `csvData.split('\n').map(line => line.trim()).filter(line => line.length > 0)` */
  function NonBlankLines(csvData: string): (ls: seq<string>)
    ensures forall l :: l in ls ==> |l| > 0
  {
    Filter(TrimAll(Split(csvData, '\n')), NonEmpty)
  }

  /** The first line names columns when, lowercased, it mentions a date, a
      symbol or a type */
  predicate HasHeader(firstLine: string) {
    var l := ToLower(firstLine);
    Contains(l, "fecha") || Contains(l, "symbol") || Contains(l, "tipo") || Contains(l, "date")
  }

  /** `f` applied to each line and its number, the first one numbered `first` */
  function NumberedMap<T>(lines: seq<string>, first: nat, f: (string, nat) -> T): (rs: seq<T>)
    ensures |rs| == |lines|
  {
    if lines == [] then []
    else NumberedMap(lines[..|lines| - 1], first, f) + [f(lines[|lines| - 1], first + |lines| - 1)]
  }

  /** The i-th element is `f` of the i-th line and the number `first + i`. */
  lemma {:induction false} NumberedMapAt<T>(lines: seq<string>, first: nat, f: (string, nat) -> T, i: nat)
    requires i < |lines|
    ensures NumberedMap(lines, first, f)[i] == f(lines[i], first + i)
  {
    var n := |lines| - 1;
    if i < n {
      NumberedMapAt(lines[..n], first, f, i);
      assert lines[..n][i] == lines[i];
    }
  }

  /** One more line adds its element at the end. */
  lemma NumberedMapStep<T>(lines: seq<string>, k: nat, first: nat, f: (string, nat) -> T)
    requires k < |lines|
    ensures NumberedMap(lines[..k + 1], first, f) == NumberedMap(lines[..k], first, f) + [f(lines[k], first + k)]
  {
    assert lines[..k + 1][..k] == lines[..k];
  }

  function LineParser(newDate: string -> Option<int>): (string, nat) -> LineResult {
    (line: string, lineNumber: nat) => ParseLine(line, lineNumber, newDate)
  }

  /** `parseLine` over the data lines, the first one numbered `first` */
  function Results(lines: seq<string>, first: nat, newDate: string -> Option<int>): (rs: seq<LineResult>)
    ensures |rs| == |lines|
  {
    NumberedMap(lines, first, LineParser(newDate))
  }

  /** The i-th result is `parseLine` of the i-th line, numbered `first + i`. */
  lemma ResultAt(lines: seq<string>, first: nat, newDate: string -> Option<int>, i: nat)
    requires i < |lines|
    ensures Results(lines, first, newDate)[i] == ParseLine(lines[i], first + i, newDate)
  {
    NumberedMapAt(lines, first, LineParser(newDate), i);
    assert LineParser(newDate)(lines[i], first + i) == ParseLine(lines[i], first + i, newDate);
  }

  function IsValid(l: LineResult): bool { l.ValidLine? }
  function IsError(l: LineResult): bool { l.ErrorLine? }

  /** `{valid, errors, totalLines}` */
  datatype Report = Report(valid: seq<LineResult>, errors: seq<LineResult>, totalLines: nat)

  /** The data lines, after the header if there is one */
  function DataLines(lines: seq<string>): seq<string>
    requires |lines| > 0
  {
    if HasHeader(lines[0]) then lines[1..] else lines
  }

  /** What `parseCSV` returns or throws */
  function ParseCsvSpec(csvData: string, newDate: string -> Option<int>): Result<Report, AppError> {
    var lines := NonBlankLines(csvData);
    if lines == [] then Err(NewValidationError(Some(EmptyCsvMessage), None))
    else
      var data := DataLines(lines);
      if data == [] then Err(NewValidationError(Some(NoDataMessage), None))
      else
        var rs := Results(data, if HasHeader(lines[0]) then 2 else 1, newDate);
        Ok(Report(Filter(rs, IsValid), Filter(rs, IsError), |data|))
  }

  /** One more result goes to the end of the list of its own kind. */
  lemma ReportStep(rs: seq<LineResult>, x: LineResult)
    ensures Filter(rs + [x], IsValid) == Filter(rs, IsValid) + (if x.ValidLine? then [x] else [])
    ensures Filter(rs + [x], IsError) == Filter(rs, IsError) + (if x.ErrorLine? then [x] else [])
  {
    FilterAppend(rs, [x], IsValid);
    FilterAppend(rs, [x], IsError);
  }

  /** The loop of `parseCSV`: each line is parsed in turn, numbered from
      `first`, and its result goes to `valid` or to `errors` */
  method Classify(dataLines: seq<string>, first: nat, parse: (string, nat) -> LineResult)
    returns (valid: seq<LineResult>, errors: seq<LineResult>)
    ensures valid == Filter(NumberedMap(dataLines, first, parse), IsValid)
    ensures errors == Filter(NumberedMap(dataLines, first, parse), IsError)
  {
    valid := [];
    errors := [];
    var index := 0;
    while index < |dataLines|
      invariant 0 <= index <= |dataLines|
      invariant valid == Filter(NumberedMap(dataLines[..index], first, parse), IsValid)
      invariant errors == Filter(NumberedMap(dataLines[..index], first, parse), IsError)
    {
      var result := parse(dataLines[index], first + index);
      NumberedMapStep(dataLines, index, first, parse);
      ReportStep(NumberedMap(dataLines[..index], first, parse), result);
      if result.ValidLine? {
        valid := valid + [result];
      } else {
        errors := errors + [result];
      }
      index := index + 1;
    }
    assert dataLines[..index] == dataLines;
  }

  /** `parseCSV(csvData)`: each data line goes to `valid` or to `errors` in
      turn, numbered from 1, or from 2 after a header */
  method ParseCsv(csvData: string, newDate: string -> Option<int>) returns (r: Result<Report, AppError>)
    ensures r == ParseCsvSpec(csvData, newDate)
  {
    var lines := NonBlankLines(csvData);
    if |lines| == 0 {
      return Err(NewValidationError(Some(EmptyCsvMessage), None));
    }
    var hasHeader := HasHeader(lines[0]);
    var dataLines := if hasHeader then lines[1..] else lines;
    if |dataLines| == 0 {
      return Err(NewValidationError(Some(NoDataMessage), None));
    }
    var valid, errors := Classify(dataLines, if hasHeader then 2 else 1, LineParser(newDate));
    return Ok(Report(valid, errors, |dataLines|));
  }

  /** Every element lands on exactly one side of a two-way filter. */
  lemma {:induction false} FilterSplit(rs: seq<LineResult>)
    ensures |Filter(rs, IsValid)| + |Filter(rs, IsError)| == |rs|
  {
    if rs != [] {
      FilterSplit(rs[1..]);
    }
  }

  /** Every data line is reported exactly once, valid or not: the two lists
      add up to `totalLines`, which is at least one, and each holds only its
      own kind of result. */
  lemma ReportPartition(csvData: string, newDate: string -> Option<int>)
    requires ParseCsvSpec(csvData, newDate).Ok?
    ensures var rep := ParseCsvSpec(csvData, newDate).value;
            && |rep.valid| + |rep.errors| == rep.totalLines
            && rep.totalLines >= 1
            && (forall l :: l in rep.valid ==> l.ValidLine?)
            && (forall l :: l in rep.errors ==> l.ErrorLine?)
  {
    var lines := NonBlankLines(csvData);
    var rs := Results(DataLines(lines), if HasHeader(lines[0]) then 2 else 1, newDate);
    assert ParseCsvSpec(csvData, newDate).value == Report(Filter(rs, IsValid), Filter(rs, IsError), |rs|);
    SidesOfSplit(rs);
  }

  /** The two sides of a two-way filter add up to the whole and each holds
      only its own kind. */
  lemma SidesOfSplit(rs: seq<LineResult>)
    ensures |Filter(rs, IsValid)| + |Filter(rs, IsError)| == |rs|
    ensures forall l :: l in Filter(rs, IsValid) ==> l.ValidLine?
    ensures forall l :: l in Filter(rs, IsError) ==> l.ErrorLine?
  {
    FilterSplit(rs);
  }

  /** The k-th data line is numbered k + 1, or k + 2 after a header, and its
      result is the one `parseLine` gives it. */
  lemma LineNumbering(csvData: string, newDate: string -> Option<int>, k: nat)
    requires NonBlankLines(csvData) != []
    requires k < |DataLines(NonBlankLines(csvData))|
    ensures var lines := NonBlankLines(csvData);
            var rs := Results(DataLines(lines), if HasHeader(lines[0]) then 2 else 1, newDate);
            && rs[k].lineNumber == (if HasHeader(lines[0]) then k + 2 else k + 1)
            && rs[k] == ParseLine(DataLines(lines)[k], rs[k].lineNumber, newDate)
  {
    var lines := NonBlankLines(csvData);
    ResultAt(DataLines(lines), if HasHeader(lines[0]) then 2 else 1, newDate, k);
  }

  /** A text with no non-blank line, or with nothing but a header, is rejected. */
  lemma EmptyInputs(csvData: string, newDate: string -> Option<int>)
    ensures NonBlankLines(csvData) == [] ==>
              ParseCsvSpec(csvData, newDate) == Err(NewValidationError(Some(EmptyCsvMessage), None))
    ensures NonBlankLines(csvData) != [] && DataLines(NonBlankLines(csvData)) == [] ==>
              ParseCsvSpec(csvData, newDate) == Err(NewValidationError(Some(NoDataMessage), None))
    ensures NonBlankLines(csvData) != [] && DataLines(NonBlankLines(csvData)) == [] ==>
              |NonBlankLines(csvData)| == 1 && HasHeader(NonBlankLines(csvData)[0])
  {
  }

  // ---------------------------------------------------------------- preview

  datatype PreviewItem = PreviewItem(lineNumber: nat, data: CsvTrade)
  datatype Summary = Summary(totalLines: nat, validLines: nat, errorLines: nat)
  datatype Preview = Preview(preview: seq<PreviewItem>, errors: seq<LineResult>, summary: Summary)

  function PreviewItems(valid: seq<LineResult>): (items: seq<PreviewItem>)
    requires forall l :: l in valid ==> l.ValidLine?
    ensures |items| == |valid|
    ensures forall i :: 0 <= i < |valid| ==> items[i] == PreviewItem(valid[i].lineNumber, valid[i].data)
  {
    if valid == [] then [] else [PreviewItem(valid[0].lineNumber, valid[0].data)] + PreviewItems(valid[1..])
  }

  /** `previewCSV(csvData)`: the valid lines without their raw text, the
      failed lines, and the counts */
  function PreviewCsv(csvData: string, newDate: string -> Option<int>): (r: Result<Preview, AppError>)
    ensures ParseCsvSpec(csvData, newDate).Err? ==> r == Err(ParseCsvSpec(csvData, newDate).error)
    ensures r.Ok? ==> var rep := ParseCsvSpec(csvData, newDate).value;
              && r.value.errors == rep.errors
              && r.value.summary == Summary(rep.totalLines, |rep.valid|, |rep.errors|)
              && r.value.summary.validLines + r.value.summary.errorLines == r.value.summary.totalLines
              && |r.value.preview| == |rep.valid|
              && forall i :: 0 <= i < |rep.valid| ==>
                   && rep.valid[i].ValidLine?
                   && r.value.preview[i] == PreviewItem(rep.valid[i].lineNumber, rep.valid[i].data)
  {
    match ParseCsvSpec(csvData, newDate)
    case Err(e) => Err(e)
    case Ok(rep) =>
      ReportPartition(csvData, newDate);
      Ok(Preview(PreviewItems(rep.valid), rep.errors, Summary(rep.totalLines, |rep.valid|, |rep.errors|)))
  }
}
