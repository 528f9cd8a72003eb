/**
 The figures the web dashboard shows for one analysis (the pure part of the
 `dashboard` handler): headline KPIs, the per-symbol table split into
 winners and losers, and the per-exit-type table.
 */
module Dashboard {
  import opened Fills
  import opened Rollup
  import EntryListLedger

  type Trade = EntryListLedger.ClosedTrade

  /** Total net PnL, percentage of profitable trades, mean ROI. */
  datatype Kpis = Kpis(totalPnl: real, winRate: real, avgRoi: real)

  /** One line of the per-symbol table: PnL total, ROI total (a sum, not a
      mean) and number of trades. */
  datatype SymbolTotals = SymbolTotals(symbol: string, pnlTotal: real, roiTotal: real, trades: nat)

  datatype Report = Report(
    summary: Kpis,
    winners: seq<SymbolTotals>,
    losers: seq<SymbolTotals>,
    exitSummary: seq<Summary>)

  /** The trades keyed by symbol; a trade is a win when its net PnL is positive. */
  function BySymbol(trades: seq<Trade>): (rows: seq<Row>)
    ensures |rows| == |trades|
    ensures forall i | 0 <= i < |trades| ::
      rows[i] == Row(trades[i].symbol, trades[i].pnlNet, trades[i].roi, trades[i].pnlNet > 0.0)
  {
    seq(|trades|, i requires 0 <= i < |trades| =>
      Row(trades[i].symbol, trades[i].pnlNet, trades[i].roi, trades[i].pnlNet > 0.0))
  }

  /** The same trades keyed by exit type. */
  function ByExitType(trades: seq<Trade>): (rows: seq<Row>)
    ensures |rows| == |trades|
    ensures forall i | 0 <= i < |trades| ::
      rows[i] == Row(trades[i].exitType, trades[i].pnlNet, trades[i].roi, trades[i].pnlNet > 0.0)
  {
    seq(|trades|, i requires 0 <= i < |trades| =>
      Row(trades[i].exitType, trades[i].pnlNet, trades[i].roi, trades[i].pnlNet > 0.0))
  }

  /** Headline KPIs: win rate and mean ROI are 0 when there are no trades. */
  function Headline(trades: seq<Trade>): (k: Kpis)
    ensures k.totalPnl == TotalPnl(BySymbol(trades))
    ensures 0.0 <= k.winRate <= 100.0
    ensures trades == [] ==> k.winRate == 0.0 && k.avgRoi == 0.0
    ensures trades != [] ==>
      k.winRate * (|trades| as real) == (WinCount(BySymbol(trades)) as real) * 100.0
      && k.avgRoi * (|trades| as real) == TotalRoi(BySymbol(trades))
  {
    var rows := BySymbol(trades);
    Kpis(TotalPnl(rows), WinRate(rows), MeanRoi(rows))
  }

  function Totals(g: Group): SymbolTotals {
    SymbolTotals(g.key, g.pnlTotal, g.roiTotal, g.count)
  }

  /** The per-symbol table, one line per symbol. */
  function SymbolTable(trades: seq<Trade>): (table: seq<SymbolTotals>)
    ensures |table| == |GroupBy(BySymbol(trades))|
    ensures forall j | 0 <= j < |table| :: table[j] == Totals(GroupBy(BySymbol(trades))[j])
  {
    var gs := GroupBy(BySymbol(trades));
    seq(|gs|, j requires 0 <= j < |gs| => Totals(gs[j]))
  }

  function LinePnl(s: SymbolTotals): real {
    s.pnlTotal
  }

  function LineTrades(s: SymbolTotals): real {
    s.trades as real
  }

  function NonNegative(table: seq<SymbolTotals>): (r: seq<SymbolTotals>)
    ensures forall x | x in r :: x.pnlTotal >= 0.0 && x in table
    ensures forall x | x in table && x.pnlTotal >= 0.0 :: x in r
  {
    if table == [] then []
    else if table[0].pnlTotal >= 0.0 then [table[0]] + NonNegative(table[1..])
    else NonNegative(table[1..])
  }

  function Negative(table: seq<SymbolTotals>): (r: seq<SymbolTotals>)
    ensures forall x | x in r :: x.pnlTotal < 0.0 && x in table
    ensures forall x | x in table && x.pnlTotal < 0.0 :: x in r
  {
    if table == [] then []
    else if table[0].pnlTotal < 0.0 then [table[0]] + Negative(table[1..])
    else Negative(table[1..])
  }

  /** Symbols with a non-negative PnL total, best first. */
  function Winners(table: seq<SymbolTotals>): (r: seq<SymbolTotals>)
    ensures forall x | x in r :: x in table
    ensures forall x | x in table :: x in r <==> x.pnlTotal >= 0.0
    ensures SortedBy(r, LinePnl, true)
  {
    var r := SortByPnl(NonNegative(table), LinePnl, true);
    assert forall x :: x in r <==> x in NonNegative(table) by {
      forall x ensures x in r <==> x in NonNegative(table) {
        assert x in r <==> x in multiset(r);
        assert x in NonNegative(table) <==> x in multiset(NonNegative(table));
      }
    }
    r
  }

  /** Symbols with a negative PnL total, worst first. */
  function Losers(table: seq<SymbolTotals>): (r: seq<SymbolTotals>)
    ensures forall x | x in r :: x in table
    ensures forall x | x in table :: x in r <==> x.pnlTotal < 0.0
    ensures SortedBy(r, LinePnl, false)
  {
    var r := SortByPnl(Negative(table), LinePnl, false);
    assert forall x :: x in r <==> x in Negative(table) by {
      forall x ensures x in r <==> x in Negative(table) {
        assert x in r <==> x in multiset(r);
        assert x in Negative(table) <==> x in multiset(Negative(table));
      }
    }
    r
  }

  lemma {:induction false} SignSplit(table: seq<SymbolTotals>)
    ensures multiset(NonNegative(table)) + multiset(Negative(table)) == multiset(table)
    decreases |table|
  {
    if table != [] {
      SignSplit(table[1..]);
      assert table == [table[0]] + table[1..];
    }
  }

  /** Winners and losers partition the symbol lines: every line lands in
      exactly one of them, winners have a non-negative total and are in
      descending order, losers a negative one in ascending order. */
  lemma WinnersAndLosersPartition(table: seq<SymbolTotals>)
    ensures multiset(Winners(table)) + multiset(Losers(table)) == multiset(table)
    ensures forall x | x in Winners(table) :: x.pnlTotal >= 0.0
    ensures forall x | x in Losers(table) :: x.pnlTotal < 0.0
    ensures SortedBy(Winners(table), LinePnl, true)
    ensures SortedBy(Losers(table), LinePnl, false)
  {
    SignSplit(table);
    forall x | x in Winners(table) ensures x.pnlTotal >= 0.0 {
      assert x in multiset(Winners(table));
      assert x in multiset(NonNegative(table));
    }
    forall x | x in Losers(table) ensures x.pnlTotal < 0.0 {
      assert x in multiset(Losers(table));
      assert x in multiset(Negative(table));
    }
  }

  /** The symbol table accounts for every trade once: its trade counts add up
      to the number of trades and its PnL totals to the headline total,
      and so do winners and losers taken together. */
  lemma SymbolTableAddsUp(trades: seq<Trade>)
    ensures SumBy(SymbolTable(trades), LineTrades) == |trades| as real
    ensures SumBy(SymbolTable(trades), LinePnl) == Headline(trades).totalPnl
    ensures SumBy(Winners(SymbolTable(trades)), LineTrades) + SumBy(Losers(SymbolTable(trades)), LineTrades)
         == |trades| as real
  {
    var rows := BySymbol(trades);
    var gs := GroupBy(rows);
    var table := SymbolTable(trades);
    GroupByCoversAllRows(rows);
    SumByPointwise(table, LineTrades, gs, GroupCount);
    SumByPointwise(table, LinePnl, gs, GroupPnl);
    var w := Winners(table);
    var l := Losers(table);
    WinnersAndLosersPartition(table);
    SumByAppend(w, l, LineTrades);
    assert multiset(w + l) == multiset(table);
    SumByPermutation(w + l, table, LineTrades);
  }

  /** The per-exit-type table: PnL total, mean ROI, win percentage and count
      for each exit type, best PnL first. */
  function ExitTable(trades: seq<Trade>): (table: seq<Summary>)
    ensures multiset(table) == multiset(SummaryLines(ByExitType(trades)))
    ensures SortedBy(table, SummaryPnl, true)
  {
    SortByPnl(SummaryLines(ByExitType(trades)), SummaryPnl, true)
  }

  /** Every trade lands in exactly one exit-type line: the counts add up to
      the number of trades and the PnL totals to the headline total. */
  lemma ExitTableAddsUp(trades: seq<Trade>)
    ensures SumBy(ExitTable(trades), SummaryCount) == |trades| as real
    ensures SumBy(ExitTable(trades), SummaryPnl) == Headline(trades).totalPnl
  {
    var rows := ByExitType(trades);
    SummaryLinesAddUp(rows);
    SumByPermutation(ExitTable(trades), SummaryLines(rows), SummaryCount);
    SumByPermutation(ExitTable(trades), SummaryLines(rows), SummaryPnl);
    SamePnl(rows, BySymbol(trades));
  }

  /** Re-keying the trades does not change their PnL total. */
  lemma {:induction false} SamePnl(a: seq<Row>, b: seq<Row>)
    requires |a| == |b| && forall i | 0 <= i < |a| :: a[i].pnl == b[i].pnl
    ensures TotalPnl(a) == TotalPnl(b)
    decreases |a|
  {
    if a != [] {
      SamePnl(a[1..], b[1..]);
    }
  }

  /** The report for a list of closed trades; no report when there are none. */
  function Build(trades: seq<Trade>): (r: Option<Report>)
    ensures r.None? <==> trades == []
    ensures r.Some? ==>
      && r.value.summary == Headline(trades)
      && multiset(r.value.winners) + multiset(r.value.losers) == multiset(SymbolTable(trades))
      && (forall x | x in r.value.winners :: x.pnlTotal >= 0.0)
      && (forall x | x in r.value.losers :: x.pnlTotal < 0.0)
      && SortedBy(r.value.winners, LinePnl, true)
      && SortedBy(r.value.losers, LinePnl, false)
      && r.value.exitSummary == ExitTable(trades)
  {
    if trades == [] then None
    else
      var table := SymbolTable(trades);
      WinnersAndLosersPartition(table);
      Some(Report(Headline(trades), Winners(table), Losers(table), ExitTable(trades)))
  }

  /** From fetched rows to the report: an empty feed and a feed that closes
      no trade both yield no report. */
  function DashboardFor(rows: seq<Execution>): (r: Option<Report>)
    ensures r.None? <==> EntryListLedger.Analyze(rows) == []
    ensures rows == [] ==> r.None?
  {
    if rows == [] then None else Build(EntryListLedger.Analyze(rows))
  }
}
