/**
 Batch reductions over closed trades: totals, win rate and mean ROI, the
 group-by of trades on a key (symbol or exit type), and the ordering of
 summary rows by their PnL total.

 Both analyses feed their trades in as `Row`s: the grouping key, the net
 PnL, the ROI percentage and whether the trade counts as a win.
 */
module Rollup {

  /** One closed trade as the reductions see it. */
  datatype Row = Row(key: string, pnl: real, roi: real, win: bool)

  /** The sums over the rows that share one key. */
  datatype Group = Group(key: string, pnlTotal: real, roiTotal: real, wins: nat, count: nat)

  /** A summary line: PnL total, mean ROI, percentage of wins and row count for one key. */
  datatype Summary = Summary(key: string, pnlTotal: real, avgRoi: real, winRate: real, count: nat)

  function TotalPnl(rows: seq<Row>): real {
    if rows == [] then 0.0 else rows[0].pnl + TotalPnl(rows[1..])
  }

  function TotalRoi(rows: seq<Row>): real {
    if rows == [] then 0.0 else rows[0].roi + TotalRoi(rows[1..])
  }

  function WinCount(rows: seq<Row>): (n: nat)
    ensures n <= |rows|
  {
    if rows == [] then 0 else (if rows[0].win then 1 else 0) + WinCount(rows[1..])
  }

  /** Percentage of winning rows; 0 for no rows. */
  function WinRate(rows: seq<Row>): (r: real)
    ensures 0.0 <= r <= 100.0
    ensures rows != [] ==> r * (|rows| as real) == (WinCount(rows) as real) * 100.0
    ensures rows == [] ==> r == 0.0
  {
    if rows == [] then 0.0 else (WinCount(rows) as real) / (|rows| as real) * 100.0
  }

  /** Mean ROI of the rows; 0 for no rows. */
  function MeanRoi(rows: seq<Row>): (r: real)
    ensures rows != [] ==> r * (|rows| as real) == TotalRoi(rows)
    ensures rows == [] ==> r == 0.0
  {
    if rows == [] then 0.0 else TotalRoi(rows) / (|rows| as real)
  }

  // ---- sums over any sequence ----

  function SumBy<T>(xs: seq<T>, w: T -> real): real {
    if xs == [] then 0.0 else w(xs[0]) + SumBy(xs[1..], w)
  }

  lemma {:induction false} SumByAppend<T>(a: seq<T>, b: seq<T>, w: T -> real)
    ensures SumBy(a + b, w) == SumBy(a, w) + SumBy(b, w)
    decreases |a|
  {
    if a == [] {
      assert a + b == b;
    } else {
      assert (a + b)[0] == a[0] && (a + b)[1..] == a[1..] + b;
      SumByAppend(a[1..], b, w);
    }
  }

  /** Taking one term out of a sequence. */
  lemma {:induction false} SumByRemove<T>(ys: seq<T>, k: nat, w: T -> real)
    requires k < |ys|
    ensures SumBy(ys, w) == w(ys[k]) + SumBy(ys[..k] + ys[k + 1..], w)
    ensures multiset(ys[..k] + ys[k + 1..]) == multiset(ys) - multiset{ys[k]}
  {
    var tail := [ys[k]] + ys[k + 1..];
    assert ys == ys[..k] + tail;
    assert tail[0] == ys[k] && tail[1..] == ys[k + 1..];
    SumByAppend(ys[..k], tail, w);
    SumByAppend(ys[..k], ys[k + 1..], w);
    assert multiset(ys) == multiset(ys[..k]) + multiset{ys[k]} + multiset(ys[k + 1..]);
  }

  /** A sum does not depend on the order of its terms. */
  lemma {:induction false} SumByPermutation<T>(xs: seq<T>, ys: seq<T>, w: T -> real)
    requires multiset(xs) == multiset(ys)
    ensures SumBy(xs, w) == SumBy(ys, w)
    decreases |xs|
  {
    if xs != [] {
      var x := xs[0];
      assert x in multiset(ys);
      var k :| 0 <= k < |ys| && ys[k] == x;
      SumByRemove(ys, k, w);
      assert xs == [x] + xs[1..];
      assert multiset(xs[1..]) == multiset(xs) - multiset{x};
      SumByPermutation(xs[1..], ys[..k] + ys[k + 1..], w);
    }
  }

  /** Two sequences whose terms agree position by position have the same sum. */
  lemma {:induction false} SumByPointwise<A, B>(xs: seq<A>, wa: A -> real, ys: seq<B>, wb: B -> real)
    requires |xs| == |ys|
    requires forall i | 0 <= i < |xs| :: wa(xs[i]) == wb(ys[i])
    ensures SumBy(xs, wa) == SumBy(ys, wb)
    decreases |xs|
  {
    if xs != [] {
      SumByPointwise(xs[1..], wa, ys[1..], wb);
    }
  }

  // ---- group-by ----

  function CountFor(rows: seq<Row>, k: string): nat {
    if rows == [] then 0 else (if rows[0].key == k then 1 else 0) + CountFor(rows[1..], k)
  }

  function PnlFor(rows: seq<Row>, k: string): real {
    if rows == [] then 0.0 else (if rows[0].key == k then rows[0].pnl else 0.0) + PnlFor(rows[1..], k)
  }

  function RoiFor(rows: seq<Row>, k: string): real {
    if rows == [] then 0.0 else (if rows[0].key == k then rows[0].roi else 0.0) + RoiFor(rows[1..], k)
  }

  function WinsFor(rows: seq<Row>, k: string): (n: nat)
    ensures n <= CountFor(rows, k)
  {
    if rows == [] then 0
    else (if rows[0].key == k && rows[0].win then 1 else 0) + WinsFor(rows[1..], k)
  }

  predicate Distinct(ks: seq<string>) {
    forall i, j | 0 <= i < j < |ks| :: ks[i] != ks[j]
  }

  lemma CountForPositive(rows: seq<Row>, i: nat)
    requires i < |rows|
    ensures CountFor(rows, rows[i].key) > 0
  {
    if i > 0 {
      CountForPositive(rows[1..], i - 1);
    }
  }

  /** The keys of the rows, each once, in order of first appearance. */
  function Keys(rows: seq<Row>): (ks: seq<string>)
    ensures Distinct(ks)
    ensures forall i | 0 <= i < |rows| :: rows[i].key in ks
    ensures forall k | k in ks :: CountFor(rows, k) > 0
  {
    if rows == [] then []
    else
      var init := rows[..|rows| - 1];
      var last := rows[|rows| - 1];
      var ks := Keys(init);
      assert forall k | k in ks :: CountFor(rows, k) > 0 by {
        forall k | k in ks ensures CountFor(rows, k) > 0 {
          var i :| 0 <= i < |init| && init[i].key == k by {
            CountPositiveHasRow(init, k);
          }
          assert rows[i] == init[i];
          CountForPositive(rows, i);
        }
      }
      CountForPositive(rows, |rows| - 1);
      if last.key in ks then ks else ks + [last.key]
  }

  lemma CountPositiveHasRow(rows: seq<Row>, k: string)
    requires CountFor(rows, k) > 0
    ensures exists i | 0 <= i < |rows| :: rows[i].key == k
  {
    if rows[0].key != k {
      CountPositiveHasRow(rows[1..], k);
      var i :| 0 <= i < |rows[1..]| && rows[1..][i].key == k;
      assert rows[i + 1].key == k;
    }
  }

  function GroupOf(rows: seq<Row>, k: string): Group {
    Group(k, PnlFor(rows, k), RoiFor(rows, k), WinsFor(rows, k), CountFor(rows, k))
  }

  function GroupsFor(ks: seq<string>, rows: seq<Row>): (gs: seq<Group>)
    ensures |gs| == |ks|
    ensures forall i | 0 <= i < |ks| :: gs[i] == GroupOf(rows, ks[i])
  {
    if ks == [] then [] else [GroupOf(rows, ks[0])] + GroupsFor(ks[1..], rows)
  }

  /** Group-by on the key: one group per distinct key, none empty. */
  function GroupBy(rows: seq<Row>): (gs: seq<Group>)
    ensures forall i | 0 <= i < |rows| :: exists j | 0 <= j < |gs| :: gs[j].key == rows[i].key
    ensures forall i, j | 0 <= i < j < |gs| :: gs[i].key != gs[j].key
    ensures forall j | 0 <= j < |gs| :: gs[j].count > 0 && gs[j] == GroupOf(rows, gs[j].key)
  {
    var ks := Keys(rows);
    var gs := GroupsFor(ks, rows);
    assert forall i | 0 <= i < |rows| :: exists j | 0 <= j < |gs| :: gs[j].key == rows[i].key by {
      forall i | 0 <= i < |rows| ensures exists j | 0 <= j < |gs| :: gs[j].key == rows[i].key {
        var j :| 0 <= j < |ks| && ks[j] == rows[i].key;
        assert gs[j].key == rows[i].key;
      }
    }
    gs
  }

  function GroupCount(g: Group): real {
    g.count as real
  }

  function GroupPnl(g: Group): real {
    g.pnlTotal
  }

  lemma {:induction false} GroupsOfNoRows(ks: seq<string>)
    ensures SumBy(GroupsFor(ks, []), GroupCount) == 0.0
    ensures SumBy(GroupsFor(ks, []), GroupPnl) == 0.0
    decreases |ks|
  {
    if ks != [] {
      GroupsOfNoRows(ks[1..]);
    }
  }

  /** Peeling the first row off: it adds to exactly one group when its key is listed. */
  lemma {:induction false} GroupsPeelRow(ks: seq<string>, rows: seq<Row>)
    requires Distinct(ks) && rows != []
    ensures SumBy(GroupsFor(ks, rows), GroupCount)
         == (if rows[0].key in ks then 1.0 else 0.0) + SumBy(GroupsFor(ks, rows[1..]), GroupCount)
    ensures SumBy(GroupsFor(ks, rows), GroupPnl)
         == (if rows[0].key in ks then rows[0].pnl else 0.0) + SumBy(GroupsFor(ks, rows[1..]), GroupPnl)
    decreases |ks|
  {
    if ks != [] {
      assert Distinct(ks[1..]) by {
        forall i, j | 0 <= i < j < |ks[1..]| ensures ks[1..][i] != ks[1..][j] {
          assert ks[1..][i] == ks[i + 1] && ks[1..][j] == ks[j + 1];
        }
      }
      GroupsPeelRow(ks[1..], rows);
      assert rows[0].key in ks <==> rows[0].key == ks[0] || rows[0].key in ks[1..];
    }
  }

  lemma {:induction false} GroupsCoverRows(ks: seq<string>, rows: seq<Row>)
    requires Distinct(ks)
    requires forall i | 0 <= i < |rows| :: rows[i].key in ks
    ensures SumBy(GroupsFor(ks, rows), GroupCount) == |rows| as real
    ensures SumBy(GroupsFor(ks, rows), GroupPnl) == TotalPnl(rows)
    decreases |rows|
  {
    if rows == [] {
      GroupsOfNoRows(ks);
    } else {
      GroupsPeelRow(ks, rows);
      assert forall i | 0 <= i < |rows[1..]| :: rows[1..][i].key in ks by {
        forall i | 0 <= i < |rows[1..]| ensures rows[1..][i].key in ks {
          assert rows[1..][i] == rows[i + 1];
        }
      }
      GroupsCoverRows(ks, rows[1..]);
    }
  }

  /** Every row is counted in exactly one group: the group counts add up to
      the number of rows and the group PnL totals to the overall PnL. */
  lemma GroupByCoversAllRows(rows: seq<Row>)
    ensures SumBy(GroupBy(rows), GroupCount) == |rows| as real
    ensures SumBy(GroupBy(rows), GroupPnl) == TotalPnl(rows)
  {
    GroupsCoverRows(Keys(rows), rows);
  }

  /** The summary line of a non-empty group: mean ROI and win percentage. */
  function Summarize(g: Group): (s: Summary)
    requires 0 < g.count && g.wins <= g.count
    ensures s.key == g.key && s.pnlTotal == g.pnlTotal && s.count == g.count
    ensures s.avgRoi * (g.count as real) == g.roiTotal
    ensures s.winRate * (g.count as real) == (g.wins as real) * 100.0
    ensures 0.0 <= s.winRate <= 100.0
  {
    var n := g.count as real;
    Summary(g.key, g.pnlTotal, g.roiTotal / n, (g.wins as real) / n * 100.0, g.count)
  }

  /** One summary line per key, in group order. */
  function SummaryLines(rows: seq<Row>): (ss: seq<Summary>)
    ensures |ss| == |GroupBy(rows)|
    ensures forall j | 0 <= j < |ss| :: ss[j] == Summarize(GroupBy(rows)[j])
  {
    var gs := GroupBy(rows);
    seq(|gs|, j requires 0 <= j < |gs| => Summarize(gs[j]))
  }

  function SummaryPnl(s: Summary): real {
    s.pnlTotal
  }

  function SummaryCount(s: Summary): real {
    s.count as real
  }

  /** The summary lines account for every row once: their counts add up to
      the number of rows and their PnL totals to the overall PnL. */
  lemma SummaryLinesAddUp(rows: seq<Row>)
    ensures SumBy(SummaryLines(rows), SummaryCount) == |rows| as real
    ensures SumBy(SummaryLines(rows), SummaryPnl) == TotalPnl(rows)
  {
    var gs := GroupBy(rows);
    var lines := SummaryLines(rows);
    GroupByCoversAllRows(rows);
    SumByPointwise(lines, SummaryCount, gs, GroupCount);
    SumByPointwise(lines, SummaryPnl, gs, GroupPnl);
  }

  // ---- ordering by PnL ----

  predicate InOrder(a: real, b: real, descending: bool) {
    if descending then a >= b else a <= b
  }

  ghost predicate SortedBy<T>(xs: seq<T>, pnl: T -> real, descending: bool) {
    forall i, j | 0 <= i < j < |xs| :: InOrder(pnl(xs[i]), pnl(xs[j]), descending)
  }

  lemma PrependSorted<T>(x: T, xs: seq<T>, pnl: T -> real, descending: bool)
    requires SortedBy(xs, pnl, descending)
    requires forall i | 0 <= i < |xs| :: InOrder(pnl(x), pnl(xs[i]), descending)
    ensures SortedBy([x] + xs, pnl, descending)
  {
    var r := [x] + xs;
    forall i, j | 0 <= i < j < |r| ensures InOrder(pnl(r[i]), pnl(r[j]), descending) {
      assert r[j] == xs[j - 1];
      if i > 0 {
        assert r[i] == xs[i - 1];
      }
    }
  }

  /** A value ordered before `x` and before every element of `tail` is
      ordered before every element of any arrangement of them. */
  lemma BoundsPermutation<T>(h: T, x: T, tail: seq<T>, ins: seq<T>, pnl: T -> real, descending: bool)
    requires multiset(ins) == multiset(tail) + multiset{x}
    requires InOrder(pnl(h), pnl(x), descending)
    requires forall i | 0 <= i < |tail| :: InOrder(pnl(h), pnl(tail[i]), descending)
    ensures forall i | 0 <= i < |ins| :: InOrder(pnl(h), pnl(ins[i]), descending)
  {
    forall i | 0 <= i < |ins| ensures InOrder(pnl(h), pnl(ins[i]), descending) {
      var y := ins[i];
      assert y in multiset(ins);
      if y != x {
        assert y in multiset(tail);
        var k :| 0 <= k < |tail| && tail[k] == y;
      }
    }
  }

  function Insert<T(==)>(x: T, xs: seq<T>, pnl: T -> real, descending: bool): (r: seq<T>)
    requires SortedBy(xs, pnl, descending)
    ensures SortedBy(r, pnl, descending)
    ensures multiset(r) == multiset(xs) + multiset{x}
  {
    if xs == [] then [x]
    else if InOrder(pnl(x), pnl(xs[0]), descending) then
      assert forall i | 0 <= i < |xs| :: InOrder(pnl(x), pnl(xs[i]), descending) by {
        forall i | 0 <= i < |xs| ensures InOrder(pnl(x), pnl(xs[i]), descending) {
          if i > 0 {
            assert InOrder(pnl(xs[0]), pnl(xs[i]), descending);
          }
        }
      }
      PrependSorted(x, xs, pnl, descending);
      [x] + xs
    else
      var tail := xs[1..];
      assert xs == [xs[0]] + tail;
      var ins := Insert(x, tail, pnl, descending);
      assert forall i | 0 <= i < |tail| :: InOrder(pnl(xs[0]), pnl(tail[i]), descending) by {
        forall i | 0 <= i < |tail| ensures InOrder(pnl(xs[0]), pnl(tail[i]), descending) {
          assert tail[i] == xs[i + 1];
        }
      }
      BoundsPermutation(xs[0], x, tail, ins, pnl, descending);
      PrependSorted(xs[0], ins, pnl, descending);
      [xs[0]] + ins
  }

  /** The rows ordered by PnL (descending or ascending), as a permutation of the input. */
  function SortByPnl<T(==)>(xs: seq<T>, pnl: T -> real, descending: bool): (r: seq<T>)
    ensures SortedBy(r, pnl, descending)
    ensures multiset(r) == multiset(xs)
  {
    if xs == [] then []
    else
      assert xs == [xs[0]] + xs[1..];
      Insert(xs[0], SortByPnl(xs[1..], pnl, descending), pnl, descending)
  }
}
