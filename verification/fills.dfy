/**
 Execution records as they reach the position folds.

 An execution is one row of the venue's execution feed. Numeric columns are
 coerced to numbers and may fail to parse (modelled as `None`); a row whose
 coercion succeeded is a `Fill`. Only rows whose execution type is `Trade`
 are fills in the accounting sense; funding settlements and the like are
 skipped by both folds.
 */
module Fills {

  datatype Option<T> = None | Some(value: T)

  /** The `side` column of an execution. */
  datatype Side = Buy | Sell

  /** An execution row whose numeric columns (quantity, price, fee) parsed. */
  datatype Fill = Fill(
    symbol: string,
    side: Side,
    execType: string,
    qty: real,
    price: real,
    fee: real,
    time: int,                     // execTime, epoch milliseconds
    stopOrderType: Option<string>, // None: the cell is missing (NaN)
    createType: Option<string>,
    orderLinkId: Option<string>)

  /** An execution row as fetched: each numeric column may fail to parse. */
  datatype Execution = Execution(
    symbol: string,
    side: Side,
    execType: string,
    qty: Option<real>,
    price: Option<real>,
    fee: Option<real>,
    time: int,
    stopOrderType: Option<string>,
    createType: Option<string>,
    orderLinkId: Option<string>)

  predicate IsTrade(f: Fill) {
    f.execType == "Trade"
  }

  function Abs(x: real): real {
    if x < 0.0 then -x else x
  }

  function Min(a: real, b: real): real {
    if b < a then b else a
  }

  /** Quantity with its direction: positive for a buy, negative for a sell. */
  function SignedQty(f: Fill): (q: real)
    ensures Abs(q) == Abs(f.qty)
    ensures f.qty > 0.0 ==> (q > 0.0 <==> f.side == Buy)
  {
    if f.side == Buy then f.qty else -f.qty
  }

  /** Numeric coercion of one row: it yields a fill exactly when all three
      numeric columns parsed, and then keeps every column unchanged. */
  function Coerce(e: Execution): (r: Option<Fill>)
    ensures r.Some? <==> e.qty.Some? && e.price.Some? && e.fee.Some?
    ensures r.Some? ==>
      && r.value.symbol == e.symbol && r.value.side == e.side
      && r.value.execType == e.execType && r.value.time == e.time
      && Some(r.value.qty) == e.qty && Some(r.value.price) == e.price
      && Some(r.value.fee) == e.fee
      && r.value.stopOrderType == e.stopOrderType
      && r.value.createType == e.createType
      && r.value.orderLinkId == e.orderLinkId
  {
    if e.qty.Some? && e.price.Some? && e.fee.Some? then
      Some(Fill(e.symbol, e.side, e.execType, e.qty.value, e.price.value, e.fee.value,
                e.time, e.stopOrderType, e.createType, e.orderLinkId))
    else
      None
  }

  /** Drops every row whose numeric coercion failed, keeping the order of the rest. */
  function Normalize(rows: seq<Execution>): (fills: seq<Fill>)
    ensures |fills| <= |rows|
    ensures forall i | 0 <= i < |rows| :: Coerce(rows[i]).Some? ==> Coerce(rows[i]).value in fills
    ensures forall f | f in fills :: exists i | 0 <= i < |rows| :: Coerce(rows[i]) == Some(f)
  {
    if rows == [] then []
    else
      match Coerce(rows[0])
      case None => Normalize(rows[1..])
      case Some(f) => [f] + Normalize(rows[1..])
  }

  /** The rows whose execution type is `Trade`, in their original order. */
  function TradesOnly(fills: seq<Fill>): (r: seq<Fill>)
    ensures forall f | f in r :: IsTrade(f) && f in fills
    ensures forall f | f in fills && IsTrade(f) :: f in r
  {
    if fills == [] then []
    else if IsTrade(fills[0]) then [fills[0]] + TradesOnly(fills[1..])
    else TradesOnly(fills[1..])
  }

  /** The fills of every symbol outside `excluded`, in their original order. */
  function WithoutSymbols(fills: seq<Fill>, excluded: set<string>): (r: seq<Fill>)
    ensures forall f | f in r :: f.symbol !in excluded && f in fills
    ensures forall f | f in fills && f.symbol !in excluded :: f in r
  {
    if fills == [] then []
    else if fills[0].symbol in excluded then WithoutSymbols(fills[1..], excluded)
    else [fills[0]] + WithoutSymbols(fills[1..], excluded)
  }

  // The filters keep order and multiplicity: each distributes over
  // concatenation, and a single row is kept exactly when it passes.

  lemma {:induction false} NormalizeAppend(a: seq<Execution>, b: seq<Execution>)
    ensures Normalize(a + b) == Normalize(a) + Normalize(b)
    decreases |a|
  {
    if a == [] {
      assert a + b == b;
    } else {
      NormalizeAppend(a[1..], b);
      NormalizeAppendUnfold(a, b);
      Regroup(Normalize(a), Normalize(a + b), Kept(a[0]), Normalize(a[1..]), Normalize(a[1..] + b), Normalize(b));
    }
  }

  /** The fill a single row contributes: its coercion, or nothing. */
  function Kept(x: Execution): seq<Fill> {
    if Coerce(x).Some? then [Coerce(x).value] else []
  }

  lemma NormalizeAppendUnfold(a: seq<Execution>, b: seq<Execution>)
    requires a != []
    ensures Normalize(a) == Kept(a[0]) + Normalize(a[1..])
    ensures Normalize(a + b) == Kept(a[0]) + Normalize(a[1..] + b)
  {
    assert (a + b)[0] == a[0] && (a + b)[1..] == a[1..] + b;
  }

  lemma Regroup<T>(whole: seq<T>, joined: seq<T>, head: seq<T>, rest: seq<T>, restJoined: seq<T>, tail: seq<T>)
    requires whole == head + rest && joined == head + restJoined && restJoined == rest + tail
    ensures joined == whole + tail
  {
  }

  lemma NormalizeOne(e: Execution)
    ensures Normalize([e]) == (if Coerce(e).Some? then [Coerce(e).value] else [])
  {
    assert [e][1..] == [];
  }

  lemma {:induction false} TradesOnlyAppend(a: seq<Fill>, b: seq<Fill>)
    ensures TradesOnly(a + b) == TradesOnly(a) + TradesOnly(b)
    decreases |a|
  {
    if a == [] {
      assert a + b == b;
    } else {
      TradesOnlyAppend(a[1..], b);
      TradesOnlyAppendUnfold(a, b);
      var head := if IsTrade(a[0]) then [a[0]] else [];
      Regroup(TradesOnly(a), TradesOnly(a + b), head, TradesOnly(a[1..]), TradesOnly(a[1..] + b), TradesOnly(b));
    }
  }

  lemma TradesOnlyAppendUnfold(a: seq<Fill>, b: seq<Fill>)
    requires a != []
    ensures TradesOnly(a) == (if IsTrade(a[0]) then [a[0]] else []) + TradesOnly(a[1..])
    ensures TradesOnly(a + b) == (if IsTrade(a[0]) then [a[0]] else []) + TradesOnly(a[1..] + b)
  {
    assert (a + b)[0] == a[0] && (a + b)[1..] == a[1..] + b;
  }

  lemma TradesOnlyOne(f: Fill)
    ensures TradesOnly([f]) == (if IsTrade(f) then [f] else [])
  {
    assert [f][1..] == [];
  }

  lemma {:induction false} WithoutSymbolsAppend(a: seq<Fill>, b: seq<Fill>, excluded: set<string>)
    ensures WithoutSymbols(a + b, excluded) == WithoutSymbols(a, excluded) + WithoutSymbols(b, excluded)
    decreases |a|
  {
    if a == [] {
      assert a + b == b;
    } else {
      WithoutSymbolsAppend(a[1..], b, excluded);
      WithoutSymbolsAppendUnfold(a, b, excluded);
      var head := if a[0].symbol in excluded then [] else [a[0]];
      Regroup(WithoutSymbols(a, excluded), WithoutSymbols(a + b, excluded), head,
              WithoutSymbols(a[1..], excluded), WithoutSymbols(a[1..] + b, excluded), WithoutSymbols(b, excluded));
    }
  }

  lemma WithoutSymbolsAppendUnfold(a: seq<Fill>, b: seq<Fill>, excluded: set<string>)
    requires a != []
    ensures WithoutSymbols(a, excluded) == (if a[0].symbol in excluded then [] else [a[0]]) + WithoutSymbols(a[1..], excluded)
    ensures WithoutSymbols(a + b, excluded) == (if a[0].symbol in excluded then [] else [a[0]]) + WithoutSymbols(a[1..] + b, excluded)
  {
    assert (a + b)[0] == a[0] && (a + b)[1..] == a[1..] + b;
  }

  lemma WithoutSymbolsOne(f: Fill, excluded: set<string>)
    ensures WithoutSymbols([f], excluded) == (if f.symbol in excluded then [] else [f])
  {
    assert [f][1..] == [];
  }

  /** Fills of one symbol appear in non-decreasing time order: what sorting
      by execution time (or by symbol, then time) guarantees. */
  predicate OrderedPerSymbol(fills: seq<Fill>) {
    forall i, j | 0 <= i < j < |fills| && fills[i].symbol == fills[j].symbol ::
      fills[i].time <= fills[j].time
  }
}
