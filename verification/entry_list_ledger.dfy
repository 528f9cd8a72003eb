/**
 List-of-entries accounting (the fold of `analyze_data`).

 For each symbol the ledger keeps the side of its first fill and the list
 of fills on that side. The first fill of the opposite side closes the
 whole fill quantity against the quantity-weighted average of the entries,
 charges every accumulated entry fee to that one trade, and forgets the
 symbol's position.
 */
module EntryListLedger {
  import opened Fills

  /** A symbol's open position: its side, its entry fills, and the running
      quantity total kept beside them. */
  datatype OpenPosition = OpenPosition(side: Side, entries: seq<Fill>, totalQty: real)

  datatype ClosedTrade = ClosedTrade(
    symbol: string,
    positionSide: Side,
    entryTime: int,
    exitTime: int,
    quantity: real,
    avgEntryPrice: real,
    exitPrice: real,
    entryCost: real,
    pnlNet: real,
    roi: real,
    exitType: string)

  function SumQty(fs: seq<Fill>): real {
    if fs == [] then 0.0 else SumQty(fs[..|fs| - 1]) + fs[|fs| - 1].qty
  }

  function SumValue(fs: seq<Fill>): real {
    if fs == [] then 0.0 else SumValue(fs[..|fs| - 1]) + fs[|fs| - 1].price * fs[|fs| - 1].qty
  }

  function SumFee(fs: seq<Fill>): real {
    if fs == [] then 0.0 else SumFee(fs[..|fs| - 1]) + fs[|fs| - 1].fee
  }

  /** An open position has at least one entry, all of its own symbol and
      side, and its running total equals the entries' quantity sum. */
  predicate Valid(symbol: string, p: OpenPosition) {
    && |p.entries| > 0
    && p.totalQty == SumQty(p.entries)
    && forall i | 0 <= i < |p.entries| :: p.entries[i].side == p.side && p.entries[i].symbol == symbol
  }

  predicate ValidBook(book: map<string, OpenPosition>) {
    forall s | s in book :: Valid(s, book[s])
  }

  /** Average entry price: entry value over entry quantity, or 0 when the
      entry quantity is not positive. */
  function AvgEntryPrice(entries: seq<Fill>): (avg: real)
    ensures SumQty(entries) > 0.0 ==> avg * SumQty(entries) == SumValue(entries)
    ensures SumQty(entries) <= 0.0 ==> avg == 0.0
  {
    var q := SumQty(entries);
    if q > 0.0 then SumValue(entries) / q else 0.0
  }

  /** Exit classification, in priority order: a non-empty stop-order type
      other than `UNKNOWN`; else `Parcial` for a user-created order; else
      `Desconhecido`. */
  function ExitType(f: Fill): (r: string)
    ensures f.stopOrderType.Some? && f.stopOrderType.value !in {"", "UNKNOWN"} ==> r == f.stopOrderType.value
    ensures (f.stopOrderType.None? || f.stopOrderType.value in {"", "UNKNOWN"}) ==>
      (r == "Parcial" <==> f.createType == Some("CreateByUser"))
    ensures (f.stopOrderType.None? || f.stopOrderType.value in {"", "UNKNOWN"}) ==>
      r in {"Parcial", "Desconhecido"}
  {
    if f.stopOrderType.Some? && f.stopOrderType.value !in {"", "UNKNOWN"} then f.stopOrderType.value
    else if f.createType == Some("CreateByUser") then "Parcial"
    else "Desconhecido"
  }

  /** The record for a fill against the open position: the whole fill
      quantity is closed, at the entries' average price, and every entry fee
      is charged together with the closing fee. */
  function Close(p: OpenPosition, f: Fill): (t: ClosedTrade)
    requires |p.entries| > 0
    ensures t.symbol == f.symbol && t.exitType == ExitType(f)
    ensures t.quantity == f.qty && t.exitPrice == f.price && t.exitTime == f.time
    ensures t.positionSide == p.side && t.entryTime == p.entries[0].time
    ensures t.avgEntryPrice == AvgEntryPrice(p.entries)
    ensures t.entryCost == t.avgEntryPrice * f.qty
    ensures p.side == Buy ==>
      t.pnlNet == f.price * f.qty - t.entryCost - (SumFee(p.entries) + f.fee)
    ensures p.side == Sell ==>
      t.pnlNet == t.entryCost - f.price * f.qty - (SumFee(p.entries) + f.fee)
    ensures t.entryCost > 0.0 ==> t.roi * t.entryCost == t.pnlNet * 100.0
    ensures t.entryCost <= 0.0 ==> t.roi == 0.0
  {
    var closingQty := f.qty;
    var avg := AvgEntryPrice(p.entries);
    var entryCost := avg * closingQty;
    var move := (f.price - avg) * closingQty;
    var pnl := if p.side == Sell then -move else move;
    var pnlNet := pnl - (SumFee(p.entries) + f.fee);
    var roi := if entryCost > 0.0 then pnlNet / entryCost * 100.0 else 0.0;
    ClosedTrade(f.symbol, p.side, p.entries[0].time, f.time, closingQty, avg, f.price,
                entryCost, pnlNet, roi, ExitType(f))
  }

  /** The fill a closed trade came from: same symbol, and the whole fill
      quantity closed at its time and price. */
  predicate ClosedBy(t: ClosedTrade, f: Fill) {
    IsTrade(f) && t.symbol == f.symbol && t.exitTime == f.time && t.exitPrice == f.price
    && t.quantity == f.qty
  }

  /** One row of the feed. A trade on a symbol without a position opens one
      on the fill's side; a trade on the position's side is appended; a
      trade on the other side closes and forgets the position. Any other
      row changes nothing. */
  function Step(book: map<string, OpenPosition>, f: Fill): (r: (map<string, OpenPosition>, seq<ClosedTrade>))
    requires ValidBook(book)
    ensures ValidBook(r.0)
    ensures |r.1| <= 1
    ensures forall t | t in r.1 :: ClosedBy(t, f)
    ensures !IsTrade(f) ==> r == (book, [])
    ensures forall s | s != f.symbol :: (s in r.0 <==> s in book) && (s in book ==> r.0[s] == book[s])
    ensures IsTrade(f) && f.symbol !in book ==>
      r.1 == [] && f.symbol in r.0 && r.0[f.symbol].side == f.side && r.0[f.symbol].entries == [f]
    ensures IsTrade(f) && f.symbol in book && f.side == book[f.symbol].side ==>
      r.1 == [] && f.symbol in r.0 && r.0[f.symbol].entries == book[f.symbol].entries + [f]
    ensures IsTrade(f) && f.symbol in book && f.side != book[f.symbol].side ==>
      r.0 == book - {f.symbol} && r.1 == [Close(book[f.symbol], f)]
  {
    if !IsTrade(f) then (book, [])
    else if f.symbol !in book then
      var started := OpenPosition(f.side, [f], f.qty);
      assert [f][..0] == [];
      assert Valid(f.symbol, started);
      (book[f.symbol := started], [])
    else
      var p := book[f.symbol];
      if f.side == p.side then
        var entries := p.entries + [f];
        assert entries[..|entries| - 1] == p.entries;
        (book[f.symbol := OpenPosition(p.side, entries, p.totalQty + f.qty)], [])
      else
        (book - {f.symbol}, [Close(p, f)])
  }

  /** The fold: the closed trades in fill order, and the positions left open. */
  function Run(book: map<string, OpenPosition>, fills: seq<Fill>): (r: (seq<ClosedTrade>, map<string, OpenPosition>))
    requires ValidBook(book)
    ensures ValidBook(r.1)
    ensures |r.0| <= |fills|
    ensures forall t | t in r.0 :: exists i | 0 <= i < |fills| :: ClosedBy(t, fills[i])
    decreases |fills|
  {
    if fills == [] then ([], book)
    else
      var step := Step(book, fills[0]);
      var rest := Run(step.0, fills[1..]);
      assert forall t | t in step.1 + rest.0 :: exists i | 0 <= i < |fills| :: ClosedBy(t, fills[i]) by {
        forall t | t in step.1 + rest.0 ensures exists i | 0 <= i < |fills| :: ClosedBy(t, fills[i]) {
          if t in step.1 {
            assert ClosedBy(t, fills[0]);
          } else {
            var k :| 0 <= k < |fills| - 1 && ClosedBy(t, fills[1..][k]);
            assert ClosedBy(t, fills[k + 1]);
          }
        }
      }
      (step.1 + rest.0, rest.1)
  }

  /** `analyze_data`: an empty feed gives an empty result; otherwise rows
      whose numbers do not parse are dropped and the rest are folded. */
  function Analyze(rows: seq<Execution>): (trades: seq<ClosedTrade>)
    ensures rows == [] ==> trades == []
    ensures |trades| <= |rows|
  {
    if rows == [] then [] else Run(map[], Normalize(rows)).0
  }
}
