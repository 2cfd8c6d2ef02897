/** Trade statistics. Every statistics query is an aggregate over the live
    trades of one user; here the table is a sequence of rows and each query a
    function over it. SQL's null handling is written out: a null pnl is
    skipped by SUM, AVG, MAX and MIN, fails every comparison, and an aggregate
    over no value is null, which `COALESCE` turns into 0. */
module StatsService {
  import opened Util
  import opened TradeModel

  /** A row of the trades table as the statistics queries read it */
  datatype StatRow = StatRow(
    id: nat, userId: nat, symbol: string, tradeType: TradeType, entryPrice: real,
    exitPrice: Option<real>, status: TradeStatus, pnl: Option<real>, pnlPercentage: Option<real>,
    entryDate: int, deleted: bool)

  // ------------------------------------------------------------ selections

  /** `WHERE deleted_at IS NULL AND user_id = $1` */
  function OwnedBy(userId: nat): StatRow -> bool {
    (row: StatRow) => !row.deleted && row.userId == userId
  }

  function Visible(rows: seq<StatRow>, userId: nat): seq<StatRow> {
    Filter(rows, OwnedBy(userId))
  }

  predicate IsOpen(row: StatRow) { row.status == Open }
  predicate IsClosed(row: StatRow) { row.status == Closed }

  /** `status = 'CLOSED' AND pnl > 0`, `< 0` and `= 0`: a null pnl is none of them */
  predicate IsWin(row: StatRow) { row.status == Closed && row.pnl.Some? && row.pnl.value > 0.0 }
  predicate IsLoss(row: StatRow) { row.status == Closed && row.pnl.Some? && row.pnl.value < 0.0 }
  predicate IsBreakeven(row: StatRow) { row.status == Closed && row.pnl.Some? && row.pnl.value == 0.0 }

  // ------------------------------------------------------------ aggregates

  /** The non-null pnl values, in row order: what SUM, AVG, MAX and MIN see */
  function Pnls(rows: seq<StatRow>): (xs: seq<real>)
    ensures |xs| <= |rows|
  {
    if rows == [] then [] else (if rows[0].pnl.Some? then [rows[0].pnl.value] else []) + Pnls(rows[1..])
  }

  /** A value is among the pnl values exactly when some row carries it. */
  lemma {:induction false} PnlsMembers(rows: seq<StatRow>)
    ensures forall x :: x in Pnls(rows) <==> exists row :: row in rows && row.pnl == Some(x)
  {
    if rows != [] {
      PnlsMembers(rows[1..]);
      assert forall row :: row in rows <==> row == rows[0] || row in rows[1..];
    }
  }

  /** The non-null pnl values of a subsequence's rows are among those of the whole. */
  lemma PnlsOfFilter(rows: seq<StatRow>, p: StatRow -> bool, x: real)
    requires x in Pnls(Filter(rows, p))
    ensures x in Pnls(rows)
  {
    PnlsMembers(rows);
    PnlsMembers(Filter(rows, p));
  }

  /** `SUM` over values, added from the first to the last */
  function Total(xs: seq<real>): real {
    if xs == [] then 0.0 else Total(xs[..|xs| - 1]) + xs[|xs| - 1]
  }

  /** `MAX` over a non-empty list of values */
  function Largest(xs: seq<real>): (m: real)
    requires xs != []
    ensures m in xs && forall x :: x in xs ==> x <= m
  {
    if |xs| == 1 then xs[0]
    else
      var rest := Largest(xs[1..]);
      assert forall x :: x in xs ==> x == xs[0] || x in xs[1..];
      if xs[0] >= rest then xs[0] else rest
  }

  /** `MIN` over a non-empty list of values */
  function Smallest(xs: seq<real>): (m: real)
    requires xs != []
    ensures m in xs && forall x :: x in xs ==> m <= x
  {
    if |xs| == 1 then xs[0]
    else
      var rest := Smallest(xs[1..]);
      assert forall x :: x in xs ==> x == xs[0] || x in xs[1..];
      if xs[0] <= rest then xs[0] else rest
  }

  /** `COALESCE(AVG(x), 0)` */
  function Average(xs: seq<real>): real {
    if xs == [] then 0.0 else Total(xs) / |xs| as real
  }

  /** The win-rate expression: winners over closed trades, as a percentage, or 0 */
  function WinRate(winning: nat, closed: nat): real {
    if closed > 0 then winning as real / closed as real * 100.0 else 0.0
  }

  /** The figures of `getGeneralStats` and `getStatsByDateRange` */
  datatype Summary = Summary(
    totalTrades: nat, openTrades: nat, closedTrades: nat, winningTrades: nat, losingTrades: nat,
    breakevenTrades: nat, totalPnl: real, avgPnl: real, bestTrade: real, worstTrade: real, winRate: real)

  /** The object returned when the query gives no row */
  const ZeroSummary := Summary(0, 0, 0, 0, 0, 0, 0.0, 0.0, 0.0, 0.0, 0.0)

  /** The aggregate query over the selected rows; rounding to two decimals is
      not modelled */
  function Aggregate(rows: seq<StatRow>): Summary {
    var pnls := Pnls(rows);
    var closed := Count(rows, IsClosed);
    var winning := Count(rows, IsWin);
    Summary(
      |rows|, Count(rows, IsOpen), closed, winning, Count(rows, IsLoss), Count(rows, IsBreakeven),
      Total(pnls), Average(Pnls(Filter(rows, IsClosed))),
      if pnls == [] then 0.0 else Largest(pnls),
      if pnls == [] then 0.0 else Smallest(pnls),
      WinRate(winning, closed))
  }

  /** `getGeneralStats(userId)`. An aggregate without GROUP BY always gives
      one row, so the fallback object is never returned; an empty selection
      gives the same figures anyway (`NoTradesGiveZeros`). */
  function GeneralStats(rows: seq<StatRow>, userId: nat): (s: Summary)
    ensures s.openTrades + s.closedTrades == s.totalTrades <= |rows|
    ensures s.winningTrades + s.losingTrades + s.breakevenTrades <= s.closedTrades
    ensures 0.0 <= s.winRate <= 100.0 && s.worstTrade <= s.bestTrade
  {
    var vis := Visible(rows, userId);
    SummaryCounts(vis);
    SummaryPnls(vis);
    Aggregate(vis)
  }

  /** `entry_date >= $2 AND entry_date <= $3` */
  function EnteredBetween(dateFrom: int, dateTo: int): StatRow -> bool {
    (row: StatRow) => dateFrom <= row.entryDate <= dateTo
  }

  /** `getStatsByDateRange(userId, dateFrom, dateTo)` */
  function StatsByDateRange(rows: seq<StatRow>, userId: nat, dateFrom: int, dateTo: int): (s: Summary)
    ensures s.openTrades + s.closedTrades == s.totalTrades <= |rows|
    ensures s.winningTrades + s.losingTrades + s.breakevenTrades <= s.closedTrades
    ensures 0.0 <= s.winRate <= 100.0 && s.worstTrade <= s.bestTrade
  {
    var sel := Filter(Visible(rows, userId), EnteredBetween(dateFrom, dateTo));
    SummaryCounts(sel);
    SummaryPnls(sel);
    Aggregate(sel)
  }

  /** A date range selects some of the user's trades: no more than all of
      them, all of them when every trade was entered inside the range, and
      none when the range is empty. */
  lemma DateRangeWithin(rows: seq<StatRow>, userId: nat, dateFrom: int, dateTo: int)
    ensures StatsByDateRange(rows, userId, dateFrom, dateTo).totalTrades <= GeneralStats(rows, userId).totalTrades
    ensures (forall row :: row in Visible(rows, userId) ==> dateFrom <= row.entryDate <= dateTo) ==>
              StatsByDateRange(rows, userId, dateFrom, dateTo) == GeneralStats(rows, userId)
    ensures dateFrom > dateTo ==> StatsByDateRange(rows, userId, dateFrom, dateTo) == ZeroSummary
  {
    var vis := Visible(rows, userId);
    if forall row :: row in vis ==> dateFrom <= row.entryDate <= dateTo {
      FilterAll(vis, EnteredBetween(dateFrom, dateTo));
    }
    if dateFrom > dateTo {
      FilterNone(vis, EnteredBetween(dateFrom, dateTo));
    }
  }

  /** With no trade selected, the aggregate is the all-zero object of the fallback. */
  lemma NoTradesGiveZeros(rows: seq<StatRow>, userId: nat)
    requires forall row :: row in rows ==> row.deleted || row.userId != userId
    ensures GeneralStats(rows, userId) == ZeroSummary
  {
  }

  lemma {:induction false} CountOpenClosed(rows: seq<StatRow>)
    ensures Count(rows, IsOpen) + Count(rows, IsClosed) == |rows|
  {
    if rows != [] {
      CountOpenClosed(rows[1..]);
    }
  }

  lemma {:induction false} CountOutcomes(rows: seq<StatRow>)
    ensures Count(rows, IsWin) + Count(rows, IsLoss) + Count(rows, IsBreakeven) <= Count(rows, IsClosed)
  {
    if rows != [] {
      CountOutcomes(rows[1..]);
    }
  }

  lemma WinRateBounds(winning: nat, closed: nat)
    requires winning <= closed
    ensures 0.0 <= WinRate(winning, closed) <= 100.0
  {
    if closed > 0 {
      var w, c := winning as real, closed as real;
      assert w / c <= 1.0 by {
        assert w / c * c == w;
      }
    }
  }

  /** A total of values that all lie between two bounds lies between the bounds times the count. */
  lemma {:induction false} TotalBounds(xs: seq<real>, lo: real, hi: real)
    requires forall x :: x in xs ==> lo <= x <= hi
    ensures lo * |xs| as real <= Total(xs) <= hi * |xs| as real
  {
    if xs != [] {
      var n := |xs| - 1;
      assert forall x :: x in xs[..n] ==> x in xs;
      TotalBounds(xs[..n], lo, hi);
      assert xs[n] in xs;
      assert lo * (n + 1) as real == lo * n as real + lo;
      assert hi * (n + 1) as real == hi * n as real + hi;
    }
  }

  /** The average of values lies between their bounds. */
  lemma AverageBounds(xs: seq<real>, lo: real, hi: real)
    requires xs != []
    requires forall x :: x in xs ==> lo <= x <= hi
    ensures lo <= Average(xs) <= hi
  {
    TotalBounds(xs, lo, hi);
    var n := |xs| as real;
    var a := Total(xs) / n;
    assert a * n == Total(xs);
    if a < lo {
      assert a * n < lo * n;
    }
    if a > hi {
      assert a * n > hi * n;
    }
  }

  /** The open and closed counts add up to the total, winners, losers and
      break-evens are closed trades, and the win rate is a percentage. */
  lemma SummaryCounts(rows: seq<StatRow>)
    ensures var s := Aggregate(rows);
            && s.openTrades + s.closedTrades == s.totalTrades
            && s.winningTrades + s.losingTrades + s.breakevenTrades <= s.closedTrades
            && 0.0 <= s.winRate <= 100.0
  {
    CountOpenClosed(rows);
    CountOutcomes(rows);
    WinRateBounds(Count(rows, IsWin), Count(rows, IsClosed));
  }

  /** The best trade is at least the worst, and the average of the closed
      trades lies between them. */
  lemma SummaryPnls(rows: seq<StatRow>)
    ensures var s := Aggregate(rows);
            && s.worstTrade <= s.bestTrade
            && (Pnls(Filter(rows, IsClosed)) != [] ==> s.worstTrade <= s.avgPnl <= s.bestTrade)
  {
    var pnls := Pnls(rows);
    var closedPnls := Pnls(Filter(rows, IsClosed));
    if closedPnls != [] {
      PnlsOfFilter(rows, IsClosed, closedPnls[0]);
      var lo, hi := Smallest(pnls), Largest(pnls);
      forall x | x in closedPnls
        ensures lo <= x <= hi
      {
        PnlsOfFilter(rows, IsClosed, x);
      }
      AverageBounds(closedPnls, lo, hi);
    }
  }

  // ------------------------------------------------------------ ordering

  /** Ordered by a key, largest first */
  predicate Descending<T>(s: seq<T>, key: T -> real) {
    forall i, j :: 0 <= i < j < |s| ==> key(s[i]) >= key(s[j])
  }

  function Insert<T>(x: T, s: seq<T>, key: T -> real): seq<T> {
    if s == [] || key(x) >= key(s[0]) then [x] + s else [s[0]] + Insert(x, s[1..], key)
  }

  /** Inserting into an ordered list keeps it ordered and adds exactly the new element. */
  lemma InsertFacts<T>(x: T, s: seq<T>, key: T -> real)
    requires Descending(s, key)
    ensures multiset(Insert(x, s, key)) == multiset(s) + multiset{x}
    ensures Descending(Insert(x, s, key), key)
  {
    InsertPermutes(x, s, key);
    InsertOrdered(x, s, key);
  }

  lemma {:induction false} InsertPermutes<T>(x: T, s: seq<T>, key: T -> real)
    ensures multiset(Insert(x, s, key)) == multiset(s) + multiset{x}
  {
    if s != [] && key(x) < key(s[0]) {
      InsertPermutes(x, s[1..], key);
      assert s == [s[0]] + s[1..];
    }
  }

  lemma {:induction false} InsertOrdered<T>(x: T, s: seq<T>, key: T -> real)
    requires Descending(s, key)
    ensures Descending(Insert(x, s, key), key)
  {
    if s != [] && key(x) < key(s[0]) {
      var rest := Insert(x, s[1..], key);
      InsertOrdered(x, s[1..], key);
      InsertPermutes(x, s[1..], key);
      forall j | 0 <= j < |rest|
        ensures key(s[0]) >= key(rest[j])
      {
        assert rest[j] in multiset(rest);
        if rest[j] != x {
          assert rest[j] in multiset(s[1..]);
        }
      }
      assert Insert(x, s, key) == [s[0]] + rest;
    }
  }

  /** An `ORDER BY key DESC`. Rows with equal keys come in an order SQL leaves
      open; this is one of them. */
  function SortDesc<T>(s: seq<T>, key: T -> real): seq<T> {
    if s == [] then [] else Insert(s[|s| - 1], SortDesc(s[..|s| - 1], key), key)
  }

  /** Sorting keeps the elements, each as often as before. */
  lemma {:induction false} SortDescPermutes<T>(s: seq<T>, key: T -> real)
    ensures multiset(SortDesc(s, key)) == multiset(s) && |SortDesc(s, key)| == |s|
  {
    if s != [] {
      var n := |s| - 1;
      SortDescPermutes(s[..n], key);
      SortDescOrdered(s[..n], key);
      InsertFacts(s[n], SortDesc(s[..n], key), key);
      assert s == s[..n] + [s[n]];
    }
    assert |SortDesc(s, key)| == |multiset(SortDesc(s, key))|;
  }

  /** Sorting puts the elements in non-increasing order of the key. */
  lemma {:induction false} SortDescOrdered<T>(s: seq<T>, key: T -> real)
    ensures Descending(SortDesc(s, key), key)
  {
    if s != [] {
      var n := |s| - 1;
      SortDescOrdered(s[..n], key);
      InsertFacts(s[n], SortDesc(s[..n], key), key);
    }
  }

  /** A sequence in which no value occurs twice */
  ghost predicate Unique<T(!new)>(s: seq<T>) {
    forall x :: multiset(s)[x] <= 1
  }

  lemma UniqueDistinct<T(!new)>(s: seq<T>)
    requires Unique(s)
    ensures forall i, j :: 0 <= i < j < |s| ==> s[i] != s[j]
  {
    forall i, j | 0 <= i < j < |s|
      ensures s[i] != s[j]
    {
      assert s == s[..j] + [s[j]] + s[j + 1..];
      assert s[i] in s[..j];
      assert multiset(s)[s[j]] >= multiset(s[..j])[s[j]] + 1;
    }
  }

  /** The values of a list, each once, in order of first occurrence */
  function Distinct<T(==)>(xs: seq<T>): (r: seq<T>)
  {
    if xs == [] then []
    else
      var prev := Distinct(xs[..|xs| - 1]);
      if xs[|xs| - 1] in prev then prev else prev + [xs[|xs| - 1]]
  }

  lemma {:induction false} DistinctMembers<T>(xs: seq<T>)
    ensures forall x :: x in Distinct(xs) <==> x in xs
  {
    if xs != [] {
      var n := |xs| - 1;
      DistinctMembers(xs[..n]);
      assert xs == xs[..n] + [xs[n]];
    }
  }

  lemma DistinctMember<T>(xs: seq<T>, x: T)
    requires x in Distinct(xs)
    ensures x in xs
  {
    DistinctMembers(xs);
  }

  lemma {:induction false} DistinctUnique<T(!new)>(xs: seq<T>)
    ensures Unique(Distinct(xs))
  {
    if xs != [] {
      var n := |xs| - 1;
      DistinctUnique(xs[..n]);
      DistinctMembers(xs[..n]);
    }
  }

  /** The value `f` takes on each row, row by row */
  function Keys<T, K>(s: seq<T>, f: T -> K): (r: seq<K>)
    ensures |r| == |s| && forall i :: 0 <= i < |s| ==> r[i] == f(s[i])
  {
    if s == [] then [] else Keys(s[..|s| - 1], f) + [f(s[|s| - 1])]
  }

  /** The values `f` takes on the rows, each once, ordered by `rank`,
      largest first: the groups of a GROUP BY in the order of its ORDER BY */
  function GroupKeys<T, K(==)>(s: seq<T>, f: T -> K, rank: K -> real): seq<K> {
    SortDesc(Distinct(Keys(s, f)), rank)
  }

  /** Each group occurs once, and the groups come ordered by rank. */
  lemma GroupKeysOrder<T, K(!new)>(s: seq<T>, f: T -> K, rank: K -> real)
    ensures var ks := GroupKeys(s, f, rank);
            && Descending(ks, rank)
            && forall i, j :: 0 <= i < j < |ks| ==> ks[i] != ks[j]
  {
    DistinctUnique(Keys(s, f));
    SortDescPermutes(Distinct(Keys(s, f)), rank);
    SortDescOrdered(Distinct(Keys(s, f)), rank);
    UniqueDistinct(GroupKeys(s, f, rank));
  }

  /** Every group is the value `f` takes on some row. */
  lemma GroupKeysWitness<T, K>(s: seq<T>, f: T -> K, rank: K -> real, i: nat)
    requires i < |GroupKeys(s, f, rank)|
    ensures exists x :: x in s && f(x) == GroupKeys(s, f, rank)[i]
  {
    var ks, keys := GroupKeys(s, f, rank), Keys(s, f);
    SortDescPermutes(Distinct(keys), rank);
    assert ks[i] in multiset(Distinct(keys));
    var key: K := ks[i];
    assert key in Distinct(keys);
    DistinctMember(keys, key);
    var k :| 0 <= k < |s| && keys[k] == key;
    assert s[k] in s;
  }

  /** The value `f` takes on every row is a group. */
  lemma GroupKeysComplete<T, K>(s: seq<T>, f: T -> K, rank: K -> real, x: T)
    requires x in s
    ensures f(x) in GroupKeys(s, f, rank)
  {
    DistinctMembers(Keys(s, f));
    SortDescPermutes(Distinct(Keys(s, f)), rank);
    var k :| 0 <= k < |s| && s[k] == x;
    assert Keys(s, f)[k] == f(x);
    assert f(x) in Distinct(Keys(s, f));
    assert f(x) in multiset(Distinct(Keys(s, f)));
    assert f(x) in multiset(GroupKeys(s, f, rank));
  }

  // ------------------------------------------------------------ groups

  /** The figures of one group in `getStatsBySymbol` and `getStatsByTradeType` */
  datatype GroupStats = GroupStats(
    totalTrades: nat, winningTrades: nat, losingTrades: nat, totalPnl: real, avgPnl: real, winRate: real)

  function Group(rows: seq<StatRow>): GroupStats {
    GroupStats(|rows|, Count(rows, IsWin), Count(rows, IsLoss), Total(Pnls(rows)),
               Average(Pnls(Filter(rows, IsClosed))), WinRate(Count(rows, IsWin), Count(rows, IsClosed)))
  }

  /** A group's figures are the general figures of its rows. */
  lemma GroupIsSummary(rows: seq<StatRow>)
    ensures var g, s := Group(rows), Aggregate(rows);
            && g.totalTrades == s.totalTrades && g.winningTrades == s.winningTrades
            && g.losingTrades == s.losingTrades && g.totalPnl == s.totalPnl
            && g.avgPnl == s.avgPnl && g.winRate == s.winRate
  {
  }

  function WithSymbol(symbol: string): StatRow -> bool {
    (row: StatRow) => row.symbol == symbol
  }

  datatype SymbolStats = SymbolStats(symbol: string, stats: GroupStats)

  function SymbolOf(row: StatRow): string {
    row.symbol
  }

  /** A symbol's total pnl over the given rows */
  function SymbolTotal(rows: seq<StatRow>): string -> real {
    symbol => Group(Filter(rows, WithSymbol(symbol))).totalPnl
  }

  function StatsOf(rows: seq<StatRow>, symbols: seq<string>): (r: seq<SymbolStats>)
    ensures |r| == |symbols|
  {
    seq(|symbols|, i requires 0 <= i < |symbols| => SymbolStats(symbols[i], Group(Filter(rows, WithSymbol(symbols[i])))))
  }

  /** `getStatsBySymbol(userId)`: GROUP BY symbol ORDER BY total_pnl DESC */
  function StatsBySymbol(rows: seq<StatRow>, userId: nat): seq<SymbolStats> {
    var vis := Visible(rows, userId);
    StatsOf(vis, GroupKeys(vis, SymbolOf, SymbolTotal(vis)))
  }

  /** Each symbol has one entry, with the figures of that symbol's trades,
      largest total pnl first. */
  lemma StatsBySymbolOrder(rows: seq<StatRow>, userId: nat)
    ensures var r, vis := StatsBySymbol(rows, userId), Visible(rows, userId);
            && (forall i :: 0 <= i < |r| ==> r[i].stats == Group(Filter(vis, WithSymbol(r[i].symbol))))
            && (forall i, j :: 0 <= i < j < |r| ==> r[i].stats.totalPnl >= r[j].stats.totalPnl)
            && (forall i, j :: 0 <= i < j < |r| ==> r[i].symbol != r[j].symbol)
  {
    var vis := Visible(rows, userId);
    var symbols := GroupKeys(vis, SymbolOf, SymbolTotal(vis));
    var r := StatsBySymbol(rows, userId);
    GroupKeysOrder(vis, SymbolOf, SymbolTotal(vis));
    forall i, j | 0 <= i < j < |r|
      ensures r[i].stats.totalPnl >= r[j].stats.totalPnl && r[i].symbol != r[j].symbol
    {
      assert SymbolTotal(vis)(symbols[i]) >= SymbolTotal(vis)(symbols[j]);
    }
  }

  /** Every entry names a symbol of the user's live trades and counts at
      least one trade. */
  lemma StatsBySymbolEntry(rows: seq<StatRow>, userId: nat, i: nat)
    requires i < |StatsBySymbol(rows, userId)|
    ensures var entry, vis := StatsBySymbol(rows, userId)[i], Visible(rows, userId);
            && (exists row :: row in vis && row.symbol == entry.symbol)
            && entry.stats.totalTrades >= 1
  {
    var vis := Visible(rows, userId);
    var symbols := GroupKeys(vis, SymbolOf, SymbolTotal(vis));
    GroupKeysWitness(vis, SymbolOf, SymbolTotal(vis), i);
    var row :| row in vis && SymbolOf(row) == symbols[i];
    FilterKeeps(vis, WithSymbol(symbols[i]), row);
  }

  /** Every symbol of the user's live trades has an entry. */
  lemma StatsBySymbolComplete(rows: seq<StatRow>, userId: nat, row: StatRow)
    requires row in Visible(rows, userId)
    ensures var r := StatsBySymbol(rows, userId);
            exists i :: 0 <= i < |r| && r[i].symbol == row.symbol
  {
    var vis := Visible(rows, userId);
    var symbols := GroupKeys(vis, SymbolOf, SymbolTotal(vis));
    GroupKeysComplete(vis, SymbolOf, SymbolTotal(vis), row);
    var i :| 0 <= i < |symbols| && symbols[i] == SymbolOf(row);
    assert StatsBySymbol(rows, userId)[i].symbol == row.symbol;
  }

  // ------------------------------------------------------------ per day

  /** `entry_date >= CURRENT_DATE - INTERVAL '1 day' * days`, on the timestamp
      itself; the clock turns the right-hand side into a first timestamp
      `since` */
  function ClosedSince(since: int): StatRow -> bool {
    (row: StatRow) => row.status == Closed && row.entryDate >= since
  }

  function OnDay(dayOf: int -> int, day: int): StatRow -> bool {
    (row: StatRow) => dayOf(row.entryDate) == day
  }

  /** Earlier days first */
  function Earlier(day: int): real {
    -(day as real)
  }

  /** `SUM(x) OVER (ORDER BY day)`: the i-th value is the total of the first i + 1 */
  function Running(xs: seq<real>): (r: seq<real>)
    ensures |r| == |xs|
  {
    if xs == [] then [] else Running(xs[..|xs| - 1]) + [Total(xs)]
  }

  lemma {:induction false} RunningAt(xs: seq<real>, i: nat)
    requires i < |xs|
    ensures Running(xs)[i] == Total(xs[..i + 1])
  {
    var n := |xs| - 1;
    if i < n {
      RunningAt(xs[..n], i);
      assert xs[..n][..i + 1] == xs[..i + 1];
    } else {
      assert xs[..i + 1] == xs;
    }
  }

  datatype DailyRow = DailyRow(date: int, tradesCount: nat, dailyPnl: real, cumulativePnl: real)

  /** `getDailyPnL(userId, days)`: the user's closed trades since the cut-off,
      grouped by day (`dayOf` is SQL's `DATE`), in date order, with each day's
      total and the running total up to that day */
  function DailyPnl(rows: seq<StatRow>, userId: nat, since: int, dayOf: int -> int): (r: seq<DailyRow>)
  {
    var sel := Filter(Visible(rows, userId), ClosedSince(since));
    var days := Days(sel, dayOf);
    var totals := seq(|days|, i requires 0 <= i < |days| => Total(Pnls(Filter(sel, OnDay(dayOf, days[i])))));
    var running := Running(totals);
    seq(|days|, i requires 0 <= i < |days| =>
      DailyRow(days[i], |Filter(sel, OnDay(dayOf, days[i]))|, totals[i], running[i]))
  }

  /** The days of the user's closed trades since the cut-off
      (`DailyPnl`'s first step), earliest first */
  function Days(sel: seq<StatRow>, dayOf: int -> int): seq<int> {
    GroupKeys(sel, EntryDay(dayOf), Earlier)
  }

  function EntryDay(dayOf: int -> int): StatRow -> int {
    (row: StatRow) => dayOf(row.entryDate)
  }

  /** The days come in strictly increasing date order. */
  lemma DailyPnlOrder(rows: seq<StatRow>, userId: nat, since: int, dayOf: int -> int)
    ensures var r := DailyPnl(rows, userId, since, dayOf);
            forall i, j :: 0 <= i < j < |r| ==> r[i].date < r[j].date
  {
    var r := DailyPnl(rows, userId, since, dayOf);
    var sel := Filter(Visible(rows, userId), ClosedSince(since));
    var days := Days(sel, dayOf);
    DaysIncreasing(sel, dayOf);
    assert |r| == |days| && forall i :: 0 <= i < |r| ==> r[i].date == days[i];
  }

  lemma DaysIncreasing(sel: seq<StatRow>, dayOf: int -> int)
    ensures var days := Days(sel, dayOf);
            forall i, j :: 0 <= i < j < |days| ==> days[i] < days[j]
  {
    var days := Days(sel, dayOf);
    GroupKeysOrder(sel, EntryDay(dayOf), Earlier);
    forall i, j | 0 <= i < j < |days|
      ensures days[i] < days[j]
    {
      assert Earlier(days[i]) >= Earlier(days[j]);
    }
  }

  /** Every row is a day with a closed trade since the cut-off; it counts
      and totals that day's trades, and counts at least one. */
  lemma DailyPnlDay(rows: seq<StatRow>, userId: nat, since: int, dayOf: int -> int, i: nat)
    requires i < |DailyPnl(rows, userId, since, dayOf)|
    ensures var d, sel := DailyPnl(rows, userId, since, dayOf)[i], Filter(Visible(rows, userId), ClosedSince(since));
            && (exists row :: row in sel && dayOf(row.entryDate) == d.date)
            && d.tradesCount == |Filter(sel, OnDay(dayOf, d.date))| >= 1
            && d.dailyPnl == Total(Pnls(Filter(sel, OnDay(dayOf, d.date))))
  {
    var sel := Filter(Visible(rows, userId), ClosedSince(since));
    var days := Days(sel, dayOf);
    GroupKeysWitness(sel, EntryDay(dayOf), Earlier, i);
    var row :| row in sel && EntryDay(dayOf)(row) == days[i];
    FilterKeeps(sel, OnDay(dayOf, days[i]), row);
  }

  /** Every day with a closed trade since the cut-off has a row. */
  lemma DailyPnlComplete(rows: seq<StatRow>, userId: nat, since: int, dayOf: int -> int, row: StatRow)
    requires row in Filter(Visible(rows, userId), ClosedSince(since))
    ensures var r := DailyPnl(rows, userId, since, dayOf);
            exists i :: 0 <= i < |r| && r[i].date == dayOf(row.entryDate)
  {
    var sel := Filter(Visible(rows, userId), ClosedSince(since));
    var days := Days(sel, dayOf);
    GroupKeysComplete(sel, EntryDay(dayOf), Earlier, row);
    var i :| 0 <= i < |days| && days[i] == EntryDay(dayOf)(row);
    assert DailyPnl(rows, userId, since, dayOf)[i].date == dayOf(row.entryDate);
  }

  /** The running total starts at the first day's total and then adds each
      day's total to the previous one. */
  lemma DailyPnlRunning(rows: seq<StatRow>, userId: nat, since: int, dayOf: int -> int)
    ensures var r := DailyPnl(rows, userId, since, dayOf);
            && (|r| > 0 ==> r[0].cumulativePnl == r[0].dailyPnl)
            && (forall i :: 0 <= i < |r| - 1 ==> r[i + 1].cumulativePnl == r[i].cumulativePnl + r[i + 1].dailyPnl)
  {
    var r := DailyPnl(rows, userId, since, dayOf);
    var sel := Filter(Visible(rows, userId), ClosedSince(since));
    var days := Days(sel, dayOf);
    var totals := seq(|days|, i requires 0 <= i < |days| => Total(Pnls(Filter(sel, OnDay(dayOf, days[i])))));
    RunningSteps(totals);
    assert |r| == |totals|;
    assert forall i :: 0 <= i < |r| ==> r[i].dailyPnl == totals[i] && r[i].cumulativePnl == Running(totals)[i];
  }

  /** A running total starts at the first value and adds each next one. */
  lemma RunningSteps(xs: seq<real>)
    ensures |xs| > 0 ==> Running(xs)[0] == xs[0]
    ensures forall i :: 0 <= i < |xs| - 1 ==> Running(xs)[i + 1] == Running(xs)[i] + xs[i + 1]
  {
    if |xs| > 0 {
      RunningAt(xs, 0);
      assert xs[..1][..0] == [];
    }
    forall i | 0 <= i < |xs| - 1
      ensures Running(xs)[i + 1] == Running(xs)[i] + xs[i + 1]
    {
      RunningAt(xs, i);
      RunningAt(xs, i + 1);
      assert xs[..i + 2][..i + 1] == xs[..i + 1];
    }
  }

  // ------------------------------------------------------------ per type

  function WithType(t: TradeType): StatRow -> bool {
    (row: StatRow) => row.tradeType == t
  }

  datatype TypeStats = TypeStats(tradeType: TradeType, stats: GroupStats)

  /** The rows of the GROUP BY trade_type query: one per type that occurs */
  function TypeGroups(rows: seq<StatRow>): seq<TypeStats> {
    (if Filter(rows, WithType(Long)) != [] then [TypeStats(Long, Group(Filter(rows, WithType(Long))))] else []) +
    (if Filter(rows, WithType(Short)) != [] then [TypeStats(Short, Group(Filter(rows, WithType(Short))))] else [])
  }

  /** The entry a key ends up with after `stats[row.trade_type] = row` for each row in turn */
  function LastOfType(groups: seq<TypeStats>, t: TradeType): Option<TypeStats> {
    if groups == [] then None
    else if groups[|groups| - 1].tradeType == t then Some(groups[|groups| - 1])
    else LastOfType(groups[..|groups| - 1], t)
  }

  /** The LONG or SHORT entry of the per-type result: null unless a live
      trade of that type exists, and then the figures of those trades. */
  predicate TypeEntry(vis: seq<StatRow>, t: TradeType, entry: Option<TypeStats>) {
    && (entry.None? <==> forall row :: row in vis ==> row.tradeType != t)
    && (entry.Some? ==> entry.value == TypeStats(t, Group(Filter(vis, WithType(t)))))
  }

  /** One more group replaces the entry of its own type only. */
  lemma LastOfTypeStep(groups: seq<TypeStats>, i: nat, t: TradeType)
    requires i < |groups|
    ensures LastOfType(groups[..i + 1], t) ==
            if groups[i].tradeType == t then Some(groups[i]) else LastOfType(groups[..i], t)
  {
    assert groups[..i + 1][..i] == groups[..i];
  }

  lemma TypeGroupsEntries(vis: seq<StatRow>, t: TradeType)
    ensures TypeEntry(vis, t, LastOfType(TypeGroups(vis), t))
  {
    LastOfTypeGroups(vis, t);
    NoRowOfType(vis, t);
  }

  /** The group of a type is found exactly when some row has that type. */
  lemma LastOfTypeGroups(vis: seq<StatRow>, t: TradeType)
    ensures var sel := Filter(vis, WithType(t));
            LastOfType(TypeGroups(vis), t) == if sel != [] then Some(TypeStats(t, Group(sel))) else None
  {
    var longs := Filter(vis, WithType(Long));
    var shorts := Filter(vis, WithType(Short));
    var l := if longs != [] then [TypeStats(Long, Group(longs))] else [];
    var s := if shorts != [] then [TypeStats(Short, Group(shorts))] else [];
    assert TypeGroups(vis) == l + s;
    assert Filter(vis, WithType(t)) == if t == Long then longs else shorts;
    // With only the LONG group (if any), a SHORT lookup finds nothing.
    assert LastOfType(l, t) == if t == Long && longs != [] then Some(TypeStats(Long, Group(longs))) else None by {
      if l != [] {
        assert l[..0] == [];
      }
    }
    if s != [] {
      assert (l + s)[..|l + s| - 1] == l;
    } else {
      assert l + s == l;
    }
  }

  /** No row of a type is selected exactly when no row has that type. */
  lemma NoRowOfType(vis: seq<StatRow>, t: TradeType)
    ensures Filter(vis, WithType(t)) == [] <==> forall row :: row in vis ==> row.tradeType != t
  {
    var sel := Filter(vis, WithType(t));
    if sel != [] {
      assert sel[0] in sel;
    } else {
      forall row | row in vis
        ensures row.tradeType != t
      {
        if row.tradeType == t {
          FilterKeeps(vis, WithType(t), row);
        }
      }
    }
  }


  /** `getStatsByTradeType(userId)`: both keys start null and each group row
      is stored under its type */
  method StatsByTradeType(rows: seq<StatRow>, userId: nat) returns (long: Option<TypeStats>, short: Option<TypeStats>)
    ensures TypeEntry(Visible(rows, userId), Long, long)
    ensures TypeEntry(Visible(rows, userId), Short, short)
  {
    var groups := TypeGroups(Visible(rows, userId));
    long, short := None, None;
    for i := 0 to |groups|
      invariant long == LastOfType(groups[..i], Long)
      invariant short == LastOfType(groups[..i], Short)
    {
      LastOfTypeStep(groups, i, Long);
      LastOfTypeStep(groups, i, Short);
      if groups[i].tradeType == Long {
        long := Some(groups[i]);
      } else {
        short := Some(groups[i]);
      }
    }
    assert groups[..|groups|] == groups;
    TypeGroupsEntries(Visible(rows, userId), Long);
    TypeGroupsEntries(Visible(rows, userId), Short);
  }

  // ------------------------------------------------------------ top trades

  /** `status = 'CLOSED' AND pnl IS NOT NULL` */
  predicate Ranked(row: StatRow) {
    row.status == Closed && row.pnl.Some?
  }

  function PnlOf(row: StatRow): real {
    if row.pnl.Some? then row.pnl.value else 0.0
  }

  function LossOf(row: StatRow): real {
    -PnlOf(row)
  }

  /** `LIMIT n` */
  function Take<T>(s: seq<T>, n: nat): (r: seq<T>)
    ensures |r| == Min(n, |s|) && r == s[..|r|]
  {
    if n < |s| then s[..n] else s
  }

  datatype TopTrades = TopTrades(best: seq<StatRow>, worst: seq<StatRow>)

  /** `getTopTrades(userId, limit)`: the ranked trades by pnl, highest first
      and lowest first, each cut at `limit` */
  function GetTopTrades(rows: seq<StatRow>, userId: nat, limit: nat): TopTrades {
    var sel := Filter(Visible(rows, userId), Ranked);
    TopTrades(Take(SortDesc(sel, PnlOf), limit), Take(SortDesc(sel, LossOf), limit))
  }

  /** The first `k` of an ordered list are drawn from it and beat every later one. */
  lemma PrefixBeatsRest<T>(s: seq<T>, key: T -> real, k: nat)
    requires Descending(s, key) && k <= |s|
    ensures multiset(s[..k]) + multiset(s[k..]) == multiset(s)
    ensures forall x, i :: x in multiset(s[k..]) && 0 <= i < k ==> key(x) <= key(s[i])
  {
    assert s == s[..k] + s[k..];
    forall x, i | x in multiset(s[k..]) && 0 <= i < k
      ensures key(x) <= key(s[i])
    {
      var j :| 0 <= j < |s[k..]| && s[k..][j] == x;
      assert s[k + j] == x;
    }
  }

  /** `ORDER BY key DESC LIMIT n`: `min(n, |s|)` elements of `s`, in
      non-increasing order of the key, none of them beaten by an element left out. */
  lemma TopOf<T>(s: seq<T>, key: T -> real, limit: nat)
    ensures var top := Take(SortDesc(s, key), limit);
            && |top| == Min(limit, |s|)
            && Descending(top, key)
            && multiset(top) <= multiset(s)
            && (forall x, i :: x in multiset(s) - multiset(top) && 0 <= i < |top| ==> key(x) <= key(top[i]))
  {
    var sorted := SortDesc(s, key);
    var k := Min(limit, |s|);
    SortDescPermutes(s, key);
    SortDescOrdered(s, key);
    PrefixBeatsRest(sorted, key, k);
    assert Take(sorted, limit) == sorted[..k];
    assert multiset(s) - multiset(sorted[..k]) == multiset(sorted[k..]);
  }

  /** The best list holds `min(limit, n)` of the n closed trades with a
      pnl, in non-increasing order of pnl, and no trade left out of it has a
      higher pnl than one in it. */
  lemma TopTradesBest(rows: seq<StatRow>, userId: nat, limit: nat)
    ensures var best, sel := GetTopTrades(rows, userId, limit).best, Filter(Visible(rows, userId), Ranked);
            && |best| == Min(limit, |sel|)
            && (forall i, j :: 0 <= i < j < |best| ==> PnlOf(best[i]) >= PnlOf(best[j]))
            && multiset(best) <= multiset(sel)
            && (forall x, i :: x in multiset(sel) - multiset(best) && 0 <= i < |best| ==> PnlOf(x) <= PnlOf(best[i]))
  {
    TopOf(Filter(Visible(rows, userId), Ranked), PnlOf, limit);
  }

  /** The worst list holds `min(limit, n)` of the n closed trades with a
      pnl, in non-decreasing order of pnl, and no trade left out of it has a
      lower pnl than one in it. */
  lemma TopTradesWorst(rows: seq<StatRow>, userId: nat, limit: nat)
    ensures var worst, sel := GetTopTrades(rows, userId, limit).worst, Filter(Visible(rows, userId), Ranked);
            && |worst| == Min(limit, |sel|)
            && (forall i, j :: 0 <= i < j < |worst| ==> PnlOf(worst[i]) <= PnlOf(worst[j]))
            && multiset(worst) <= multiset(sel)
            && (forall x, i :: x in multiset(sel) - multiset(worst) && 0 <= i < |worst| ==> PnlOf(x) >= PnlOf(worst[i]))
  {
    var sel := Filter(Visible(rows, userId), Ranked);
    var worst := Take(SortDesc(sel, LossOf), limit);
    TopOf(sel, LossOf, limit);
    forall i, j | 0 <= i < j < |worst|
      ensures PnlOf(worst[i]) <= PnlOf(worst[j])
    {
      assert LossOf(worst[i]) >= LossOf(worst[j]);
    }
    forall x, i | x in multiset(sel) - multiset(worst) && 0 <= i < |worst|
      ensures PnlOf(x) >= PnlOf(worst[i])
    {
      assert LossOf(x) <= LossOf(worst[i]);
    }
  }
}
