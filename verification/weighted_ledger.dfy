/**
 Weighted-average cost accounting over time-ordered fills (the fold of
 `analyze_bybit_trades_v2`).

 One running position per symbol holds a signed quantity (positive long,
 negative short), the signed cost `quantity * price` summed over the fills
 that built it, the entry fees not yet charged to a closed trade, and the
 time it was opened. A fill against the position closes at most the open
 quantity, charges the closed slice its proportional share of the entry
 fees, and leaves the remainder at the unchanged average price.
 */
module WeightedLedger {
  import opened Fills

  /** Residual quantities below this magnitude are treated as flat (1e-9). */
  const Epsilon: real := 0.000000001

  datatype Position = Position(qty: real, cost: real, fees: real, entryTime: Option<int>, entryCount: nat)

  /** The state of a symbol that holds nothing (the `defaultdict` default). */
  const Flat: Position := Position(0.0, 0.0, 0.0, None, 0)

  datatype PositionSide = Long | Short

  /** The `result` column: `Lucro` (profit) or `Perda` (loss). */
  datatype Verdict = Lucro | Perda

  datatype ClosedTrade = ClosedTrade(
    symbol: string,
    positionSide: PositionSide,
    entryTime: int,
    exitTime: int,
    quantity: real,
    avgEntryPrice: real,
    exitPrice: real,
    entryCost: real,
    pnlNet: real,
    roi: real,
    result: Verdict,
    exitType: Option<string>,
    orderLinkId: Option<string>)

  /** A position that holds quantity remembers when it was opened. */
  predicate Valid(p: Position) {
    p.qty != 0.0 ==> p.entryTime.Some?
  }

  function AvgPrice(p: Position): real
    requires p.qty != 0.0
  {
    p.cost / p.qty
  }

  /** A buy into a long or a sell into a short adds to the position. */
  predicate Extends(p: Position, f: Fill) {
    (p.qty > 0.0 && f.side == Buy) || (p.qty < 0.0 && f.side == Sell)
  }

  /** Opening from flat: the position takes the fill's direction and size, its
      average price is the fill price, and it starts carrying the fill's fee. */
  function Open(f: Fill): (p: Position)
    ensures Abs(p.qty) == Abs(f.qty)
    ensures f.qty > 0.0 ==> (p.qty > 0.0 <==> f.side == Buy)
    ensures p.qty != 0.0 ==> AvgPrice(p) == f.price
    ensures p.fees == f.fee && p.entryTime == Some(f.time)
  {
    var q := SignedQty(f);
    Position(q, q * f.price, f.fee, Some(f.time), 1)
  }

  /** Averaging in: exposure grows by the fill size, fees accumulate, and the
      new average price is the quantity-weighted mean of the old average
      and the fill price. */
  function Extend(p: Position, f: Fill): (r: Position)
    requires Extends(p, f)
    ensures f.qty > 0.0 ==> Abs(r.qty) == Abs(p.qty) + f.qty && (r.qty > 0.0 <==> p.qty > 0.0)
    ensures f.qty > 0.0 ==> AvgPrice(r) * (Abs(p.qty) + f.qty) == AvgPrice(p) * Abs(p.qty) + f.price * f.qty
    ensures r.fees == p.fees + f.fee
    ensures r.entryTime == p.entryTime
  {
    var q := SignedQty(f);
    var r := Position(p.qty + q, p.cost + q * f.price, p.fees + f.fee, p.entryTime, p.entryCount + 1);
    if f.qty > 0.0 then
      WeightedMeanStep(p.qty, p.cost, q, f.price);
      r
    else
      r
  }

  /** The arithmetic behind `Extend`: adding `s` units at `price` to `q`
      units of the same sign moves cost/quantity to the weighted mean. */
  lemma WeightedMeanStep(q: real, cost: real, s: real, price: real)
    requires (q > 0.0 && s > 0.0) || (q < 0.0 && s < 0.0)
    ensures (cost + s * price) / (q + s) * (Abs(q) + Abs(s)) == cost / q * Abs(q) + price * Abs(s)
  {
    if q > 0.0 {
      assert Abs(q) + Abs(s) == q + s;
      assert cost / q * q == cost;
    } else {
      assert Abs(q) + Abs(s) == -(q + s);
      assert cost / q * -q == -cost;
      assert (cost + s * price) / (q + s) * -(q + s) == -(cost + s * price);
    }
  }

  /** Everything computed when a fill goes against the open position. */
  datatype Settlement = Settlement(
    closeQty: real,
    avgEntryPrice: real,   // signed cost / signed quantity
    entryCost: real,
    pnlGross: real,
    entryFeeShare: real,
    pnlNet: real,
    roi: real)

  /** Percentage return on `basis`, or 0 when the basis is not positive. */
  function Roi(pnl: real, basis: real): (r: real)
    ensures basis > 0.0 ==> r * basis == pnl * 100.0
    ensures basis <= 0.0 ==> r == 0.0
  {
    if basis > 0.0 then pnl / basis * 100.0 else 0.0
  }

  /** The closing-trade calculator. */
  function Settle(p: Position, f: Fill): (s: Settlement)
    requires p.qty != 0.0
    ensures s.closeQty <= Abs(p.qty) && s.closeQty <= f.qty
    ensures s.closeQty == Abs(p.qty) || s.closeQty == f.qty
    ensures s.avgEntryPrice == AvgPrice(p)
    ensures s.entryCost == Abs(AvgPrice(p) * s.closeQty)
    ensures s.entryFeeShare * Abs(p.qty) == p.fees * s.closeQty
    ensures s.pnlNet == s.pnlGross - (s.entryFeeShare + f.fee)
    ensures s.entryCost > 0.0 ==> s.roi * s.entryCost == s.pnlNet * 100.0
    ensures s.entryCost <= 0.0 ==> s.roi == 0.0
  {
    var closeQty := Min(Abs(p.qty), f.qty);
    var avg := p.cost / p.qty;
    var entryCost := Abs(avg * closeQty);
    var gross := if f.side == Buy then (Abs(avg) - f.price) * closeQty
                 else (f.price - Abs(avg)) * closeQty;
    var share := p.fees / Abs(p.qty) * closeQty;
    var net := gross - (share + f.fee);
    Settlement(closeQty, avg, entryCost, gross, share, net, Roi(net, entryCost))
  }

  /** Exit classification: the stop-order type unless it is missing or
      `UNKNOWN`, otherwise the order's creation type (which may itself be missing). */
  function ExitType(f: Fill): (r: Option<string>)
    ensures f.stopOrderType.Some? && f.stopOrderType.value != "UNKNOWN" ==> r == f.stopOrderType
    ensures f.stopOrderType.None? || f.stopOrderType.value == "UNKNOWN" ==> r == f.createType
  {
    if f.stopOrderType.Some? && f.stopOrderType.value != "UNKNOWN" then f.stopOrderType else f.createType
  }

  /** The position left after a closing fill: the fill's signed quantity is
      added (it may cross zero), the remainder keeps the old average price,
      the charged fee share leaves the position, and a residue below
      `Epsilon` resets it to flat. */
  function Remainder(p: Position, f: Fill, s: Settlement): (r: Position)
    ensures Abs(p.qty + SignedQty(f)) < Epsilon ==> r == Flat
    ensures Abs(p.qty + SignedQty(f)) >= Epsilon ==>
      && r.qty == p.qty + SignedQty(f)
      && r.qty != 0.0 && AvgPrice(r) == s.avgEntryPrice
      && r.fees == p.fees - s.entryFeeShare
      && r.entryTime == p.entryTime
  {
    var q := p.qty + SignedQty(f);
    if Abs(q) < Epsilon then Flat
    else Position(q, q * s.avgEntryPrice, p.fees - s.entryFeeShare, p.entryTime, p.entryCount)
  }

  /** The record emitted for a closing fill. */
  function Record(p: Position, f: Fill, s: Settlement): (t: ClosedTrade)
    requires Valid(p) && p.qty != 0.0
    ensures t.symbol == f.symbol && t.exitTime == f.time && t.exitPrice == f.price
    ensures t.entryTime == p.entryTime.value
    ensures t.positionSide == Long <==> p.qty > 0.0
    ensures t.quantity == s.closeQty && t.avgEntryPrice == Abs(s.avgEntryPrice)
    ensures t.entryCost == s.entryCost && t.pnlNet == s.pnlNet && t.roi == s.roi
    ensures t.result == Lucro <==> t.pnlNet > 0.0
    ensures t.exitType == ExitType(f) && t.orderLinkId == f.orderLinkId
  {
    ClosedTrade(
      f.symbol,
      if p.qty > 0.0 then Long else Short,
      p.entryTime.value,
      f.time,
      s.closeQty,
      Abs(s.avgEntryPrice),
      f.price,
      s.entryCost,
      s.pnlNet,
      s.roi,
      if s.pnlNet > 0.0 then Lucro else Perda,
      ExitType(f),
      f.orderLinkId)
  }

  /** One trade fill applied to its symbol's position: open, extend, or
      close (emitting exactly one record). */
  function Apply(p: Position, f: Fill): (r: (Position, Option<ClosedTrade>))
    requires Valid(p)
    ensures Valid(r.0)
    ensures r.1.Some? <==> p.qty != 0.0 && !Extends(p, f)
    ensures p.qty == 0.0 ==> r.0 == Open(f)
    ensures p.qty != 0.0 && Extends(p, f) ==> r.0 == Extend(p, f)
    ensures r.1.Some? ==>
      r.0 == Remainder(p, f, Settle(p, f)) && r.1.value == Record(p, f, Settle(p, f))
    ensures r.0.entryTime == None || r.0.entryTime == p.entryTime || r.0.entryTime == Some(f.time)
    ensures p.qty != 0.0 ==> r.0.entryTime == None || r.0.entryTime == p.entryTime
    ensures r.1.Some? ==>
      && r.1.value.symbol == f.symbol
      && r.1.value.exitTime == f.time
      && r.1.value.exitPrice == f.price
      && r.1.value.entryTime == p.entryTime.value
      && r.1.value.quantity <= Abs(p.qty)
      && r.1.value.quantity <= f.qty
      && (r.1.value.positionSide == Long <==> p.qty > 0.0)
      && (r.1.value.result == Lucro <==> r.1.value.pnlNet > 0.0)
      && r.1.value.quantity == Settle(p, f).closeQty
      && r.1.value.avgEntryPrice == Abs(AvgPrice(p))
      && r.1.value.entryCost == Settle(p, f).entryCost
      && r.1.value.pnlNet == Settle(p, f).pnlNet
      && r.1.value.roi == Settle(p, f).roi
      && r.1.value.exitType == ExitType(f)
      && r.1.value.orderLinkId == f.orderLinkId
  {
    if p.qty == 0.0 then
      (Open(f), None)
    else if Extends(p, f) then
      (Extend(p, f), None)
    else
      var s := Settle(p, f);
      (Remainder(p, f, s), Some(Record(p, f, s)))
  }

  function Lookup(book: map<string, Position>, symbol: string): Position {
    if symbol in book then book[symbol] else Flat
  }

  predicate ValidBook(book: map<string, Position>) {
    forall s | s in book :: Valid(book[s])
  }

  /** The fill a closed trade came from: same symbol, exit at its time and price. */
  predicate ClosedBy(t: ClosedTrade, f: Fill) {
    IsTrade(f) && t.symbol == f.symbol && t.exitTime == f.time && t.exitPrice == f.price
    && t.quantity <= f.qty
  }

  /** One row of the feed: a trade row updates its symbol's position and
      may close a trade; any other row changes nothing. */
  function Step(book: map<string, Position>, f: Fill): (r: (map<string, Position>, seq<ClosedTrade>))
    requires ValidBook(book)
    ensures ValidBook(r.0)
    ensures |r.1| <= 1
    ensures forall t | t in r.1 :: ClosedBy(t, f)
    ensures !IsTrade(f) ==> r == (book, [])
    ensures IsTrade(f) ==>
      var a := Apply(Lookup(book, f.symbol), f);
      && Lookup(r.0, f.symbol) == a.0
      && r.1 == (if a.1.Some? then [a.1.value] else [])
    ensures forall s | s != f.symbol :: Lookup(r.0, s) == Lookup(book, s)
  {
    if !IsTrade(f) then (book, [])
    else
      var step := Apply(Lookup(book, f.symbol), f);
      (book[f.symbol := step.0], if step.1.Some? then [step.1.value] else [])
  }

  /** The fold: the closed trades in fill order, and the final positions. */
  function Run(book: map<string, Position>, fills: seq<Fill>): (r: (seq<ClosedTrade>, map<string, Position>))
    requires ValidBook(book)
    ensures ValidBook(r.1)
    ensures |r.0| <= |fills|
    ensures forall t | t in r.0 :: exists i | 0 <= i < |fills| :: ClosedBy(t, fills[i])
    decreases |fills|
  {
    if fills == [] then ([], book)
    else
      var step := Step(book, fills[0]);
      var rest := Run(step.0, fills[1..]);
      assert forall t | t in step.1 + rest.0 :: exists i | 0 <= i < |fills| :: ClosedBy(t, fills[i]) by {
        forall t | t in step.1 + rest.0 ensures exists i | 0 <= i < |fills| :: ClosedBy(t, fills[i]) {
          if t in step.1 {
            assert ClosedBy(t, fills[0]);
          } else {
            var k :| 0 <= k < |fills| - 1 && ClosedBy(t, fills[1..][k]);
            assert ClosedBy(t, fills[k + 1]);
          }
        }
      }
      (step.1 + rest.0, rest.1)
  }

  /** `analyze_bybit_trades_v2` up to its reports: the closed trades of the whole feed. */
  function AnalyzeTrades(fills: seq<Fill>): (trades: seq<ClosedTrade>)
    ensures |trades| <= |fills|
    ensures forall t | t in trades :: exists i | 0 <= i < |fills| :: ClosedBy(t, fills[i])
  {
    Run(map[], fills).0
  }
}
