/**
 Where the two folds meet. They disagree in general (uncapped closes, all
 entry fees on the first close, positions forgotten on any opposite fill),
 but on the simplest round trip — one fill opens, one equal-size opposite
 fill closes — they record the same trade figures.
 */
module CrossCheck {
  import opened Fills
  import WeightedLedger
  import EntryListLedger

  /** One opening fill and one closing fill of the same size on the same symbol. */
  predicate RoundTrip(a: Fill, b: Fill) {
    && IsTrade(a) && IsTrade(b)
    && a.symbol == b.symbol
    && a.side != b.side
    && a.qty > 0.0 && b.qty == a.qty
    && a.price >= 0.0
  }

  /** The weighted-average fold on a round trip: one record, closing the
      whole opening quantity at the opening price with its fee. */
  lemma WeightedRoundTrip(a: Fill, b: Fill)
    requires RoundTrip(a, b)
    ensures
      var p := WeightedLedger.Open(a);
      var s := WeightedLedger.Settle(p, b);
      && WeightedLedger.AnalyzeTrades([a, b]) == [WeightedLedger.Record(p, b, s)]
      && s.closeQty == a.qty && s.avgEntryPrice == a.price && s.entryFeeShare == a.fee
  {
    var p := WeightedLedger.Open(a);
    var s := WeightedLedger.Settle(p, b);
    assert s.closeQty == a.qty;
    assert s.avgEntryPrice == a.price;
    assert s.entryFeeShare == a.fee;
    var v := WeightedLedger.Record(p, b, s);
    var started := WeightedLedger.Step(map[], a);
    assert started == (map[a.symbol := p], []);
    var closed := WeightedLedger.Step(started.0, b);
    assert WeightedLedger.Lookup(started.0, b.symbol) == p;
    assert WeightedLedger.Apply(p, b).1 == Some(v);
    assert closed.1 == [v];
    assert [a, b][1..] == [b] && [b][1..] == [];
    assert WeightedLedger.Run(started.0, [b]).0 == [v] + [];
  }

  /** The list-of-entries fold on a round trip: one record, closing against
      the single entry. */
  lemma EntryListRoundTrip(a: Fill, b: Fill)
    requires RoundTrip(a, b)
    ensures
      var op := EntryListLedger.OpenPosition(a.side, [a], a.qty);
      && EntryListLedger.Run(map[], [a, b]).0 == [EntryListLedger.Close(op, b)]
      && EntryListLedger.AvgEntryPrice([a]) == a.price
      && EntryListLedger.SumFee([a]) == a.fee
  {
    assert [a][..0] == [];
    var op := EntryListLedger.OpenPosition(a.side, [a], a.qty);
    var started := EntryListLedger.Step(map[], a);
    assert started.0 == map[a.symbol := op];
    assert [a, b][1..] == [b] && [b][1..] == [];
    assert EntryListLedger.Run(started.0, [b]).0 == [EntryListLedger.Close(op, b)] + [];
    assert EntryListLedger.SumValue([a]) == a.price * a.qty;
  }

  /** Both folds close exactly one trade on a round trip, with the same
      quantity, average entry price, entry cost, net PnL, ROI and times. */
  lemma RoundTripAgrees(a: Fill, b: Fill)
    requires RoundTrip(a, b)
    ensures |WeightedLedger.AnalyzeTrades([a, b])| == 1
    ensures |EntryListLedger.Run(map[], [a, b]).0| == 1
    ensures
      var v := WeightedLedger.AnalyzeTrades([a, b])[0];
      var l := EntryListLedger.Run(map[], [a, b]).0[0];
      && v.quantity == l.quantity
      && v.avgEntryPrice == l.avgEntryPrice
      && v.entryCost == l.entryCost
      && v.pnlNet == l.pnlNet
      && v.roi == l.roi
      && v.entryTime == l.entryTime && v.exitTime == l.exitTime
  {
    WeightedRoundTrip(a, b);
    EntryListRoundTrip(a, b);
    var v := WeightedLedger.AnalyzeTrades([a, b])[0];
    var l := EntryListLedger.Run(map[], [a, b]).0[0];
    assert v.entryCost == a.price * a.qty == l.entryCost;
    assert v.pnlNet == l.pnlNet;
  }
}
