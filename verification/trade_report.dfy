/**
 The summaries written after the weighted-average analysis: per symbol and
 per exit type, the PnL total, the mean ROI, the percentage of `Lucro`
 trades and the count, each ordered by PnL total, best first. Trades
 whose exit type is missing do not appear in the exit-type summary.
 */
module TradeReport {
  import opened Fills
  import opened Rollup
  import opened WeightedLedger

  datatype Report = Report(trades: seq<ClosedTrade>, bySymbol: seq<Summary>, byExitType: seq<Summary>)

  function AsRow(t: ClosedTrade, key: string): Row {
    Row(key, t.pnlNet, t.roi, t.result == Lucro)
  }

  function SymbolRows(trades: seq<ClosedTrade>): (rows: seq<Row>)
    ensures |rows| == |trades|
    ensures forall i | 0 <= i < |trades| :: rows[i] == AsRow(trades[i], trades[i].symbol)
  {
    seq(|trades|, i requires 0 <= i < |trades| => AsRow(trades[i], trades[i].symbol))
  }

  /** How many trades have an exit type. */
  function CountWithExit(trades: seq<ClosedTrade>): nat {
    if trades == [] then 0
    else (if trades[0].exitType.Some? then 1 else 0) + CountWithExit(trades[1..])
  }

  /** The net PnL of the trades that have an exit type. */
  function PnlWithExit(trades: seq<ClosedTrade>): real {
    if trades == [] then 0.0
    else (if trades[0].exitType.Some? then trades[0].pnlNet else 0.0) + PnlWithExit(trades[1..])
  }

  /** The trades that have an exit type, keyed by it: one row per such
      trade, carrying its net PnL. */
  function ExitRows(trades: seq<ClosedTrade>): (rows: seq<Row>)
    ensures |rows| == CountWithExit(trades) <= |trades|
    ensures TotalPnl(rows) == PnlWithExit(trades)
    ensures forall i | 0 <= i < |trades| && trades[i].exitType.Some? ::
      AsRow(trades[i], trades[i].exitType.value) in rows
    ensures forall r | r in rows :: exists i | 0 <= i < |trades| ::
      trades[i].exitType == Some(r.key) && r == AsRow(trades[i], r.key)
  {
    if trades == [] then []
    else
      var rest := ExitRows(trades[1..]);
      assert forall i | 1 <= i < |trades| && trades[i].exitType.Some? ::
        AsRow(trades[i], trades[i].exitType.value) in rest by {
        forall i | 1 <= i < |trades| && trades[i].exitType.Some?
          ensures AsRow(trades[i], trades[i].exitType.value) in rest {
          assert trades[1..][i - 1] == trades[i];
        }
      }
      assert forall r | r in rest :: exists i | 0 <= i < |trades| ::
        trades[i].exitType == Some(r.key) && r == AsRow(trades[i], r.key) by {
        forall r | r in rest ensures exists i | 0 <= i < |trades| ::
          trades[i].exitType == Some(r.key) && r == AsRow(trades[i], r.key) {
          var k :| 0 <= k < |trades[1..]| &&
            trades[1..][k].exitType == Some(r.key) && r == AsRow(trades[1..][k], r.key);
          assert trades[k + 1] == trades[1..][k];
        }
      }
      match trades[0].exitType
      case None => rest
      case Some(e) =>
        assert ([AsRow(trades[0], e)] + rest)[1..] == rest;
        [AsRow(trades[0], e)] + rest
  }

  /** The row a single trade contributes to the exit-type group-by: one
      keyed by its exit type, or none when it has none. */
  function ExitRow(t: ClosedTrade): seq<Row> {
    if t.exitType.Some? then [AsRow(t, t.exitType.value)] else []
  }

  // Keying by exit type keeps order and multiplicity: it distributes over
  // concatenation, and a single trade gives its own row or nothing.

  lemma {:induction false} ExitRowsAppend(a: seq<ClosedTrade>, b: seq<ClosedTrade>)
    ensures ExitRows(a + b) == ExitRows(a) + ExitRows(b)
    decreases |a|
  {
    if a == [] {
      assert a + b == b;
    } else {
      ExitRowsAppend(a[1..], b);
      ExitRowsAppendUnfold(a, b);
      Regroup(ExitRows(a), ExitRows(a + b), ExitRow(a[0]), ExitRows(a[1..]), ExitRows(a[1..] + b), ExitRows(b));
    }
  }

  lemma ExitRowsAppendUnfold(a: seq<ClosedTrade>, b: seq<ClosedTrade>)
    requires a != []
    ensures ExitRows(a) == ExitRow(a[0]) + ExitRows(a[1..])
    ensures ExitRows(a + b) == ExitRow(a[0]) + ExitRows(a[1..] + b)
  {
    assert (a + b)[0] == a[0] && (a + b)[1..] == a[1..] + b;
  }

  lemma ExitRowsOne(t: ClosedTrade)
    ensures ExitRows([t]) == (if t.exitType.Some? then [AsRow(t, t.exitType.value)] else [])
  {
    assert [t][1..] == [];
  }

  /** Summary lines for the given rows, best PnL total first. */
  function Ranked(rows: seq<Row>): (table: seq<Summary>)
    ensures multiset(table) == multiset(SummaryLines(rows))
    ensures SortedBy(table, SummaryPnl, true)
  {
    SortByPnl(SummaryLines(rows), SummaryPnl, true)
  }

  /** The report of the weighted-average analysis; nothing when no trade closed. */
  function Build(fills: seq<Fill>): (r: Option<Report>)
    ensures r.None? <==> AnalyzeTrades(fills) == []
    ensures r.Some? ==>
      && r.value.trades == AnalyzeTrades(fills)
      && SortedBy(r.value.bySymbol, SummaryPnl, true)
      && SortedBy(r.value.byExitType, SummaryPnl, true)
      && multiset(r.value.bySymbol) == multiset(SummaryLines(SymbolRows(r.value.trades)))
      && multiset(r.value.byExitType) == multiset(SummaryLines(ExitRows(r.value.trades)))
  {
    var trades := AnalyzeTrades(fills);
    if trades == [] then None
    else Some(Report(trades, Ranked(SymbolRows(trades)), Ranked(ExitRows(trades))))
  }

  /** The per-symbol summary accounts for every trade once: its counts add up
      to the number of trades and its PnL totals to the total net PnL. */
  lemma SymbolSummaryAddsUp(trades: seq<ClosedTrade>)
    ensures SumBy(Ranked(SymbolRows(trades)), SummaryCount) == |trades| as real
    ensures SumBy(Ranked(SymbolRows(trades)), SummaryPnl) == TotalPnl(SymbolRows(trades))
  {
    var rows := SymbolRows(trades);
    SummaryLinesAddUp(rows);
    SumByPermutation(Ranked(rows), SummaryLines(rows), SummaryCount);
    SumByPermutation(Ranked(rows), SummaryLines(rows), SummaryPnl);
  }

  /** The exit-type summary accounts for every trade that has an exit type
      once: its counts add up to the number of such trades and its PnL
      totals to their net PnL. */
  lemma ExitSummaryAddsUp(trades: seq<ClosedTrade>)
    ensures SumBy(Ranked(ExitRows(trades)), SummaryCount) == CountWithExit(trades) as real
    ensures SumBy(Ranked(ExitRows(trades)), SummaryPnl) == PnlWithExit(trades)
  {
    var rows := ExitRows(trades);
    SummaryLinesAddUp(rows);
    SumByPermutation(Ranked(rows), SummaryLines(rows), SummaryCount);
    SumByPermutation(Ranked(rows), SummaryLines(rows), SummaryPnl);
  }
}
