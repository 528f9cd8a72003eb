/**
 Properties of the list-of-entries fold: the average entry price is a
 weighted mean of the entry prices, non-trade rows are inert, symbols are
 independent, entries precede exits, and a feed that never turns a
 position around closes nothing.
 */
module EntryListLedgerFacts {
  import opened Fills
  import opened EntryListLedger

  lemma {:induction false} ValueBounds(entries: seq<Fill>, lo: real, hi: real)
    requires forall i | 0 <= i < |entries| :: entries[i].qty > 0.0 && lo <= entries[i].price <= hi
    ensures lo * SumQty(entries) <= SumValue(entries) <= hi * SumQty(entries)
    ensures SumQty(entries) >= 0.0
    ensures entries != [] ==> SumQty(entries) > 0.0
    decreases |entries|
  {
    if entries != [] {
      var init := entries[..|entries| - 1];
      var last := entries[|entries| - 1];
      ValueBounds(init, lo, hi);
      BoundStep(lo, hi, SumQty(init), SumValue(init), last.qty, last.price);
    }
  }

  /** Adding one entry inside the price bounds keeps the value within the bounds. */
  lemma BoundStep(lo: real, hi: real, q: real, v: real, x: real, p: real)
    requires lo * q <= v <= hi * q && x > 0.0 && lo <= p <= hi
    ensures lo * (q + x) <= v + p * x <= hi * (q + x)
  {
    assert (p - lo) * x >= 0.0;
    assert (hi - p) * x >= 0.0;
    assert lo * (q + x) == lo * q + lo * x;
    assert hi * (q + x) == hi * q + hi * x;
  }

  /** With positive entry quantities, the average entry price lies between
      the lowest and the highest entry price. */
  lemma AverageWithinEntryPrices(entries: seq<Fill>, lo: real, hi: real)
    requires entries != []
    requires forall i | 0 <= i < |entries| :: entries[i].qty > 0.0 && lo <= entries[i].price <= hi
    ensures lo <= AvgEntryPrice(entries) <= hi
  {
    ValueBounds(entries, lo, hi);
    CancelPositive(lo, hi, AvgEntryPrice(entries), SumQty(entries));
  }

  /** A positive factor can be cancelled from both sides of the bounds. */
  lemma CancelPositive(lo: real, hi: real, x: real, q: real)
    requires q > 0.0 && lo * q <= x * q <= hi * q
    ensures lo <= x <= hi
  {
    assert (x - lo) * q >= 0.0 && (hi - x) * q >= 0.0;
  }

  /** Only rows whose execution type is `Trade` matter. */
  lemma {:induction false} NonTradeRowsIgnored(book: map<string, OpenPosition>, fills: seq<Fill>)
    requires ValidBook(book)
    ensures Run(book, TradesOnly(fills)) == Run(book, fills)
    decreases |fills|
  {
    if fills != [] {
      var f := fills[0];
      var step := Step(book, f);
      NonTradeRowsIgnored(step.0, fills[1..]);
      var t := TradesOnly(fills[1..]);
      if IsTrade(f) {
        assert TradesOnly(fills) == [f] + t;
        assert ([f] + t)[0] == f && ([f] + t)[1..] == t;
      } else {
        assert TradesOnly(fills) == t;
        assert Run(book, fills).0 == [] + Run(book, fills[1..]).0;
        assert [] + Run(book, fills[1..]).0 == Run(book, fills[1..]).0;
      }
    }
  }

  function Get(book: map<string, OpenPosition>, s: string): Option<OpenPosition> {
    if s in book then Some(book[s]) else None
  }

  /** Two ledgers that hold the same position (or none) for every symbol outside `excluded`. */
  ghost predicate AgreeOutside(b1: map<string, OpenPosition>, b2: map<string, OpenPosition>, excluded: set<string>) {
    forall s | s !in excluded :: Get(b1, s) == Get(b2, s)
  }

  /** The closed trades of every symbol outside `excluded`, in order. */
  function DropSymbols(trades: seq<ClosedTrade>, excluded: set<string>): (r: seq<ClosedTrade>)
    ensures forall t | t in r :: t in trades && t.symbol !in excluded
    ensures forall t | t in trades && t.symbol !in excluded :: t in r
  {
    if trades == [] then []
    else if trades[0].symbol in excluded then DropSymbols(trades[1..], excluded)
    else [trades[0]] + DropSymbols(trades[1..], excluded)
  }

  lemma {:induction false} DropSymbolsAppend(a: seq<ClosedTrade>, b: seq<ClosedTrade>, excluded: set<string>)
    requires |a| <= 1
    ensures DropSymbols(a + b, excluded) == DropSymbols(a, excluded) + DropSymbols(b, excluded)
  {
    if a == [] {
      assert a + b == b;
    } else {
      var x := a[0];
      assert (a + b)[0] == x && (a + b)[1..] == b;
      assert a[1..] == [];
      assert DropSymbols(a, excluded) == (if x.symbol in excluded then [] else [x]) + DropSymbols([], excluded);
    }
  }

  lemma StepIsLocal(b1: map<string, OpenPosition>, b2: map<string, OpenPosition>, f: Fill, excluded: set<string>)
    requires ValidBook(b1) && ValidBook(b2) && AgreeOutside(b1, b2, excluded)
    ensures f.symbol in excluded ==>
      AgreeOutside(b1, Step(b2, f).0, excluded) && DropSymbols(Step(b2, f).1, excluded) == []
    ensures f.symbol !in excluded ==>
      AgreeOutside(Step(b1, f).0, Step(b2, f).0, excluded) && Step(b1, f).1 == Step(b2, f).1
      && DropSymbols(Step(b2, f).1, excluded) == Step(b2, f).1
  {
    var e := Step(b2, f).1;
    if e != [] {
      assert e[1..] == [];
    }
    if f.symbol in excluded {
      assert AgreeOutside(b1, Step(b2, f).0, excluded) by {
        forall s | s !in excluded ensures Get(b1, s) == Get(Step(b2, f).0, s) {
          assert Get(b1, s) == Get(b2, s);
        }
      }
    } else {
      assert Get(b1, f.symbol) == Get(b2, f.symbol);
      assert AgreeOutside(Step(b1, f).0, Step(b2, f).0, excluded) by {
        forall s | s !in excluded ensures Get(Step(b1, f).0, s) == Get(Step(b2, f).0, s) {
          assert Get(b1, s) == Get(b2, s);
        }
      }
    }
  }

  /** Symbols never interact: running the fold without the excluded symbols'
      fills gives exactly the other symbols' trades of the full run. */
  lemma {:induction false} ExcludedSymbolsAreIndependent(
    b1: map<string, OpenPosition>, b2: map<string, OpenPosition>, fills: seq<Fill>, excluded: set<string>)
    requires ValidBook(b1) && ValidBook(b2) && AgreeOutside(b1, b2, excluded)
    ensures Run(b1, WithoutSymbols(fills, excluded)).0 == DropSymbols(Run(b2, fills).0, excluded)
    ensures AgreeOutside(Run(b1, WithoutSymbols(fills, excluded)).1, Run(b2, fills).1, excluded)
    decreases |fills|
  {
    if fills == [] {
      return;
    }
    var f := fills[0];
    var rest := fills[1..];
    var kept := WithoutSymbols(rest, excluded);
    var s2 := Step(b2, f);
    StepIsLocal(b1, b2, f, excluded);
    DropSymbolsAppend(s2.1, Run(s2.0, rest).0, excluded);
    if f.symbol in excluded {
      assert WithoutSymbols(fills, excluded) == kept;
      ExcludedSymbolsAreIndependent(b1, s2.0, rest, excluded);
    } else {
      var s1 := Step(b1, f);
      assert WithoutSymbols(fills, excluded) == [f] + kept;
      assert ([f] + kept)[0] == f && ([f] + kept)[1..] == kept;
      ExcludedSymbolsAreIndependent(s1.0, s2.0, rest, excluded);
    }
  }

  /** Recalculating without some symbols equals discarding their trades. */
  lemma ExcludingSymbolsCommutes(fills: seq<Fill>, excluded: set<string>)
    ensures Run(map[], WithoutSymbols(fills, excluded)).0 == DropSymbols(Run(map[], fills).0, excluded)
  {
    ExcludedSymbolsAreIndependent(map[], map[], fills, excluded);
  }

  /** Every open position's first entry is no later than each remaining fill of its symbol. */
  ghost predicate OpenedBefore(book: map<string, OpenPosition>, fills: seq<Fill>) {
    forall i | 0 <= i < |fills| && fills[i].symbol in book && book[fills[i].symbol].entries != [] ::
      book[fills[i].symbol].entries[0].time <= fills[i].time
  }

  /** With each symbol's fills in time order, every trade is entered no later than it is exited. */
  lemma {:induction false} EntryPrecedesExitFrom(book: map<string, OpenPosition>, fills: seq<Fill>)
    requires ValidBook(book) && OrderedPerSymbol(fills) && OpenedBefore(book, fills)
    ensures forall t | t in Run(book, fills).0 :: t.entryTime <= t.exitTime
    decreases |fills|
  {
    if fills == [] {
      return;
    }
    var f := fills[0];
    var rest := fills[1..];
    assert OrderedPerSymbol(rest) by {
      forall i, j | 0 <= i < j < |rest| && rest[i].symbol == rest[j].symbol
        ensures rest[i].time <= rest[j].time {
        assert fills[i + 1] == rest[i] && fills[j + 1] == rest[j];
      }
    }
    var book' := Step(book, f).0;
    assert OpenedBefore(book', rest) by {
      forall i | 0 <= i < |rest| && rest[i].symbol in book' && book'[rest[i].symbol].entries != []
        ensures book'[rest[i].symbol].entries[0].time <= rest[i].time {
        assert rest[i] == fills[i + 1];
        if rest[i].symbol == f.symbol {
          assert f.time <= rest[i].time;
        }
      }
    }
    EntryPrecedesExitFrom(book', rest);
  }

  lemma EntryPrecedesExit(fills: seq<Fill>)
    requires OrderedPerSymbol(fills)
    ensures forall t | t in Run(map[], fills).0 :: t.entryTime <= t.exitTime
  {
    EntryPrecedesExitFrom(map[], fills);
  }

  /** Every fill of a symbol is on the same side as that symbol's open position. */
  ghost predicate OneSidePerSymbol(book: map<string, OpenPosition>, fills: seq<Fill>) {
    && (forall i, j | 0 <= i < j < |fills| && fills[i].symbol == fills[j].symbol :: fills[i].side == fills[j].side)
    && (forall i | 0 <= i < |fills| && fills[i].symbol in book :: fills[i].side == book[fills[i].symbol].side)
  }

  /** A feed in which no symbol ever trades on both sides closes nothing: the
      result is empty rather than an error. */
  lemma {:induction false} OneSidedFeedClosesNothing(book: map<string, OpenPosition>, fills: seq<Fill>)
    requires ValidBook(book) && OneSidePerSymbol(book, fills)
    ensures Run(book, fills).0 == []
    decreases |fills|
  {
    if fills == [] {
      return;
    }
    var f := fills[0];
    var rest := fills[1..];
    var step := Step(book, f);
    assert step.1 == [];
    assert OneSidePerSymbol(step.0, rest) by {
      forall i, j | 0 <= i < j < |rest| && rest[i].symbol == rest[j].symbol
        ensures rest[i].side == rest[j].side {
        assert fills[i + 1] == rest[i] && fills[j + 1] == rest[j];
      }
      forall i | 0 <= i < |rest| && rest[i].symbol in step.0
        ensures rest[i].side == step.0[rest[i].symbol].side {
        assert fills[i + 1] == rest[i];
        if rest[i].symbol == f.symbol && IsTrade(f) {
          assert f.side == rest[i].side;
        }
      }
    }
    OneSidedFeedClosesNothing(step.0, rest);
  }

  /** The exit classification of `analyze_data` as written. Its first test
      is the truthiness of the stop-order type, and a missing cell is a NaN,
      which is truthy and not in the excluded list: the NaN is kept, so the
      trade ends up without an exit type (`None`) and later drops out of
      every group-by on exit type. Present values are classified as
      `ExitType` does. */
  function ExitTypeAsWritten(f: Fill): (r: Option<string>)
    ensures f.stopOrderType.Some? ==> r == Some(ExitType(f))
    ensures f.stopOrderType.None? ==> r.None?
  {
    match f.stopOrderType
    case None => None
    case Some(s) =>
      if s !in {"", "UNKNOWN"} then Some(s)
      else if f.createType == Some("CreateByUser") then Some("Parcial")
      else Some("Desconhecido")
  }

  /** A user-created closing order whose stop-order type is missing: as
      written it gets no exit type, where the intended classification is
      `Parcial`. */
  lemma MissingStopTypeLosesExitType()
    ensures
      var f := Fill("BTCUSDT", Sell, "Trade", 1.0, 100.0, 0.1, 0, None, Some("CreateByUser"), None);
      ExitTypeAsWritten(f) == None && ExitType(f) == "Parcial"
  {
  }

  /** The fold one fill at a time: extending the feed by a fill appends
      exactly the trade that fill closes, if any, against the positions
      left by the feed so far. */
  lemma {:induction false} RunSnoc(book: map<string, OpenPosition>, fills: seq<Fill>, f: Fill)
    requires ValidBook(book)
    ensures Run(book, fills + [f]).0 == Run(book, fills).0 + Step(Run(book, fills).1, f).1
    ensures Run(book, fills + [f]).1 == Step(Run(book, fills).1, f).0
    decreases |fills|
  {
    if fills == [] {
      assert fills + [f] == [f] && [f][1..] == [];
    } else {
      var step := Step(book, fills[0]);
      RunSnoc(step.0, fills[1..], f);
      assert (fills + [f])[0] == fills[0] && (fills + [f])[1..] == fills[1..] + [f];
      var rest := Run(step.0, fills[1..]);
      assert step.1 + (rest.0 + Step(rest.1, f).1) == (step.1 + rest.0) + Step(rest.1, f).1;
    }
  }

  /** `analyze_data` one row at a time: an extra row
      adds nothing when its numbers do not parse, and otherwise adds what
      its fill closes against the positions left by the feed so far. */
  lemma AnalyzeStep(rows: seq<Execution>, e: Execution)
    ensures Coerce(e).None? ==> Analyze(rows + [e]) == Analyze(rows)
    ensures Coerce(e).Some? ==>
      Analyze(rows + [e]) == Analyze(rows) + Step(Run(map[], Normalize(rows)).1, Coerce(e).value).1
  {
    var ns := Normalize(rows);
    var all := Normalize(rows + [e]);
    NormalizeAppend(rows, [e]);
    NormalizeOne(e);
    assert Analyze(rows + [e]) == Run(map[], all).0;
    assert Analyze(rows) == Run(map[], ns).0;
    if Coerce(e).Some? {
      assert all == ns + [Coerce(e).value];
      RunSnoc(map[], ns, Coerce(e).value);
    } else {
      assert all == ns + [];
      assert ns + [] == ns;
    }
  }
}
