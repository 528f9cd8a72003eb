/**
 Properties of the weighted-average fold: what a closing fill charges and
 leaves behind, the flip quirk, and properties of the whole fold (non-trade
 rows are inert, symbols are independent, entries precede exits).
 */
module WeightedLedgerFacts {
  import opened Fills
  import opened WeightedLedger

  /** The fill goes against an open position. */
  predicate Closes(p: Position, f: Fill) {
    p.qty != 0.0 && !Extends(p, f)
  }

  /** Gross PnL of a closed slice is exit notional minus entry notional for a
      long, and entry notional minus exit notional for a short. */
  lemma GrossPnlIsNotionalDifference(p: Position, f: Fill)
    requires Closes(p, f) && AvgPrice(p) >= 0.0 && f.qty >= 0.0
    ensures p.qty > 0.0 ==> Settle(p, f).pnlGross == f.price * Settle(p, f).closeQty - Settle(p, f).entryCost
    ensures p.qty < 0.0 ==> Settle(p, f).pnlGross == Settle(p, f).entryCost - f.price * Settle(p, f).closeQty
  {
    var s := Settle(p, f);
    assert s.closeQty >= 0.0;
    assert s.entryCost == AvgPrice(p) * s.closeQty;
  }

  /** Fee conservation: the share charged to the trade plus what stays on the
      position is the pre-fill fee balance; a close of the whole exposure
      charges every entry fee and leaves none behind. */
  lemma EntryFeesConserved(p: Position, f: Fill)
    requires Valid(p) && Closes(p, f)
    ensures Abs(p.qty + SignedQty(f)) >= Epsilon ==>
      Settle(p, f).entryFeeShare + Apply(p, f).0.fees == p.fees
    ensures f.qty >= Abs(p.qty) ==> Settle(p, f).entryFeeShare == p.fees && Apply(p, f).0.fees == 0.0
  {
    var s := Settle(p, f);
    if f.qty >= Abs(p.qty) {
      assert s.closeQty == Abs(p.qty);
      assert s.entryFeeShare * Abs(p.qty) == p.fees * Abs(p.qty);
    }
  }

  /** A residue below the epsilon resets the position to flat, and every
      position left non-flat by a close keeps the pre-fill average price. */
  lemma CloseKeepsAveragePrice(p: Position, f: Fill)
    requires Valid(p) && Closes(p, f)
    ensures Abs(p.qty + SignedQty(f)) < Epsilon ==> Apply(p, f).0 == Flat
    ensures Abs(p.qty + SignedQty(f)) >= Epsilon ==>
      Apply(p, f).0.qty == p.qty + SignedQty(f) && AvgPrice(Apply(p, f).0) == AvgPrice(p)
  {
  }

  /** A partial close reduces the exposure by exactly the closed quantity and
      keeps the position's side and entry time. */
  lemma PartialCloseReducesExposure(p: Position, f: Fill)
    requires Valid(p) && Closes(p, f) && 0.0 <= f.qty < Abs(p.qty)
    ensures Settle(p, f).closeQty == f.qty
    ensures Abs(p.qty) - f.qty < Epsilon ==> Apply(p, f).0 == Flat
    ensures Abs(p.qty) - f.qty >= Epsilon ==>
      && Abs(Apply(p, f).0.qty) == Abs(p.qty) - Settle(p, f).closeQty
      && (Apply(p, f).0.qty > 0.0 <==> p.qty > 0.0)
      && Apply(p, f).0.entryTime == p.entryTime
  {
    assert p.qty > 0.0 ==> f.side == Sell;
    assert p.qty < 0.0 ==> f.side == Buy;
  }

  /** The flip quirk: a fill larger than the open position closes only the
      open quantity, and the residue becomes an opposite-side position priced
      at the old average, with the old entry time and no fees. */
  lemma FlipKeepsOldPrice(p: Position, f: Fill)
    requires Valid(p) && Closes(p, f) && f.qty >= Abs(p.qty) + Epsilon
    ensures Settle(p, f).closeQty == Abs(p.qty)
    ensures Apply(p, f).0.qty != 0.0
    ensures (Apply(p, f).0.qty > 0.0) != (p.qty > 0.0)
    ensures Abs(Apply(p, f).0.qty) == f.qty - Abs(p.qty)
    ensures AvgPrice(Apply(p, f).0) == AvgPrice(p)
    ensures Apply(p, f).0.entryTime == p.entryTime
    ensures Apply(p, f).0.fees == 0.0
  {
    assert p.qty > 0.0 ==> f.side == Sell;
    assert p.qty < 0.0 ==> f.side == Buy;
    EntryFeesConserved(p, f);
  }

  /** Only rows whose execution type is `Trade` matter: running the fold on
      the trade rows alone gives the same trades and the same positions. */
  lemma {:induction false} NonTradeRowsIgnored(book: map<string, Position>, fills: seq<Fill>)
    requires ValidBook(book)
    ensures Run(book, TradesOnly(fills)) == Run(book, fills)
    decreases |fills|
  {
    if fills != [] {
      var f := fills[0];
      var step := Step(book, f);
      NonTradeRowsIgnored(step.0, fills[1..]);
      var t := TradesOnly(fills[1..]);
      if IsTrade(f) {
        assert TradesOnly(fills) == [f] + t;
        assert ([f] + t)[0] == f && ([f] + t)[1..] == t;
      } else {
        assert TradesOnly(fills) == t;
        assert step == (book, []);
        assert Run(book, fills).0 == [] + Run(book, fills[1..]).0;
        assert [] + Run(book, fills[1..]).0 == Run(book, fills[1..]).0;
      }
    }
  }

  /** The closed trades of every symbol outside `excluded`, in order. */
  function DropSymbols(trades: seq<ClosedTrade>, excluded: set<string>): (r: seq<ClosedTrade>)
    ensures forall t | t in r :: t in trades && t.symbol !in excluded
    ensures forall t | t in trades && t.symbol !in excluded :: t in r
  {
    if trades == [] then []
    else if trades[0].symbol in excluded then DropSymbols(trades[1..], excluded)
    else [trades[0]] + DropSymbols(trades[1..], excluded)
  }

  /** Two ledgers that hold the same position for every symbol outside `excluded`. */
  ghost predicate AgreeOutside(b1: map<string, Position>, b2: map<string, Position>, excluded: set<string>) {
    forall s | s !in excluded :: Lookup(b1, s) == Lookup(b2, s)
  }

  lemma {:induction false} DropSymbolsAppend(a: seq<ClosedTrade>, b: seq<ClosedTrade>, excluded: set<string>)
    requires |a| <= 1
    ensures DropSymbols(a + b, excluded) == DropSymbols(a, excluded) + DropSymbols(b, excluded)
  {
    if a == [] {
      assert a + b == b;
    } else {
      var x := a[0];
      assert (a + b)[0] == x && (a + b)[1..] == b;
      assert a[1..] == [];
      assert DropSymbols(a, excluded) == (if x.symbol in excluded then [] else [x]) + DropSymbols([], excluded);
    }
  }

  /** One row, seen from outside the excluded symbols: a row of an excluded
      symbol changes nothing there and emits nothing kept; a row of a kept
      symbol does the same thing to two ledgers that agree there. */
  lemma StepIsLocal(b1: map<string, Position>, b2: map<string, Position>, f: Fill, excluded: set<string>)
    requires ValidBook(b1) && ValidBook(b2) && AgreeOutside(b1, b2, excluded)
    ensures f.symbol in excluded ==>
      AgreeOutside(b1, Step(b2, f).0, excluded) && DropSymbols(Step(b2, f).1, excluded) == []
    ensures f.symbol !in excluded ==>
      AgreeOutside(Step(b1, f).0, Step(b2, f).0, excluded) && Step(b1, f).1 == Step(b2, f).1
      && DropSymbols(Step(b2, f).1, excluded) == Step(b2, f).1
  {
    var e := Step(b2, f).1;
    if e != [] {
      assert e[1..] == [];
    }
    if f.symbol !in excluded {
      assert Lookup(b1, f.symbol) == Lookup(b2, f.symbol);
    }
  }

  /** Symbols never interact: running the fold without the fills of the
      excluded symbols gives exactly the other symbols' trades of the full
      run, from any two ledgers that agree outside the excluded symbols. */
  lemma {:induction false} ExcludedSymbolsAreIndependent(
    b1: map<string, Position>, b2: map<string, Position>, fills: seq<Fill>, excluded: set<string>)
    requires ValidBook(b1) && ValidBook(b2) && AgreeOutside(b1, b2, excluded)
    ensures Run(b1, WithoutSymbols(fills, excluded)).0 == DropSymbols(Run(b2, fills).0, excluded)
    ensures AgreeOutside(Run(b1, WithoutSymbols(fills, excluded)).1, Run(b2, fills).1, excluded)
    decreases |fills|
  {
    if fills == [] {
      return;
    }
    var f := fills[0];
    var rest := fills[1..];
    var kept := WithoutSymbols(rest, excluded);
    var s2 := Step(b2, f);
    StepIsLocal(b1, b2, f, excluded);
    DropSymbolsAppend(s2.1, Run(s2.0, rest).0, excluded);
    if f.symbol in excluded {
      assert WithoutSymbols(fills, excluded) == kept;
      ExcludedSymbolsAreIndependent(b1, s2.0, rest, excluded);
    } else {
      var s1 := Step(b1, f);
      assert WithoutSymbols(fills, excluded) == [f] + kept;
      assert ([f] + kept)[0] == f && ([f] + kept)[1..] == kept;
      ExcludedSymbolsAreIndependent(s1.0, s2.0, rest, excluded);
    }
  }

  /** Recalculating without some symbols equals discarding their trades. */
  lemma ExcludingSymbolsCommutes(fills: seq<Fill>, excluded: set<string>)
    ensures AnalyzeTrades(WithoutSymbols(fills, excluded)) == DropSymbols(AnalyzeTrades(fills), excluded)
  {
    ExcludedSymbolsAreIndependent(map[], map[], fills, excluded);
  }

  /** Every open position was opened no later than each remaining fill of its symbol. */
  ghost predicate OpenedBefore(book: map<string, Position>, fills: seq<Fill>) {
    forall i | 0 <= i < |fills| ::
      Lookup(book, fills[i].symbol).entryTime.Some? ==>
        Lookup(book, fills[i].symbol).entryTime.value <= fills[i].time
  }

  /** With each symbol's fills in time order, every trade is entered no later than it is exited. */
  lemma {:induction false} EntryPrecedesExitFrom(book: map<string, Position>, fills: seq<Fill>)
    requires ValidBook(book) && OrderedPerSymbol(fills) && OpenedBefore(book, fills)
    ensures forall t | t in Run(book, fills).0 :: t.entryTime <= t.exitTime
    decreases |fills|
  {
    if fills == [] {
      return;
    }
    var f := fills[0];
    var rest := fills[1..];
    assert OrderedPerSymbol(rest) by {
      forall i, j | 0 <= i < j < |rest| && rest[i].symbol == rest[j].symbol
        ensures rest[i].time <= rest[j].time {
        assert fills[i + 1] == rest[i] && fills[j + 1] == rest[j];
      }
    }
    var p := Lookup(book, f.symbol);
    var book' := Step(book, f).0;
    assert OpenedBefore(book', rest) by {
      forall i | 0 <= i < |rest| ensures
        Lookup(book', rest[i].symbol).entryTime.Some? ==>
          Lookup(book', rest[i].symbol).entryTime.value <= rest[i].time {
        assert rest[i] == fills[i + 1];
        if rest[i].symbol == f.symbol {
          assert f.time <= rest[i].time;
        }
      }
    }
    EntryPrecedesExitFrom(book', rest);
    assert p.entryTime.Some? ==> p.entryTime.value <= f.time;
  }

  lemma EntryPrecedesExit(fills: seq<Fill>)
    requires OrderedPerSymbol(fills)
    ensures forall t | t in AnalyzeTrades(fills) :: t.entryTime <= t.exitTime
  {
    EntryPrecedesExitFrom(map[], fills);
  }

  /** The fold one fill at a time: extending the feed by a fill appends
      exactly the trades that fill closes against the positions left by
      the feed so far. */
  lemma {:induction false} RunSnoc(book: map<string, Position>, fills: seq<Fill>, f: Fill)
    requires ValidBook(book)
    ensures Run(book, fills + [f]).0 == Run(book, fills).0 + Step(Run(book, fills).1, f).1
    ensures Run(book, fills + [f]).1 == Step(Run(book, fills).1, f).0
    decreases |fills|
  {
    if fills == [] {
      assert fills + [f] == [f] && [f][1..] == [];
    } else {
      var step := Step(book, fills[0]);
      RunSnoc(step.0, fills[1..], f);
      assert (fills + [f])[0] == fills[0] && (fills + [f])[1..] == fills[1..] + [f];
      var rest := Run(step.0, fills[1..]);
      assert step.1 + (rest.0 + Step(rest.1, f).1) == (step.1 + rest.0) + Step(rest.1, f).1;
    }
  }

  /** The trades of a feed extended by one fill are the feed's trades plus
      whatever that fill closes. */
  lemma AnalyzeTradesStep(fills: seq<Fill>, f: Fill)
    ensures AnalyzeTrades(fills + [f]) == AnalyzeTrades(fills) + Step(Run(map[], fills).1, f).1
  {
    RunSnoc(map[], fills, f);
  }
}
