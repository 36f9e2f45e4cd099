/**
 * The history page of app.py: stock trades and cash events merged into one list,
 * sorted by date with the newest first, and cut into pages of fifteen rows.
 */
module History {
  import opened Wrappers
  import opened Ledger

  /** The `type` column of the merged list: 'BUY', 'SELL' or 'CASH'. */
  datatype RowType = BuyType | SellType | CashType

  /** One line of the merged list; a stock row has no cash change, a cash row no symbol, shares or price. */
  datatype HistoryRow = HistoryRow(date: Timestamp, rowType: RowType, symbol: Option<string>,
                                   shares: Option<int>, price: Option<int>, cashChange: Option<int>)

  function StockRow(t: Trade): HistoryRow
  {
    HistoryRow(t.date, if t.kind == Buy then BuyType else SellType,
               Some(t.symbol), Some(t.shares), Some(t.price), None)
  }

  function CashRow(e: CashEvent): HistoryRow
  {
    HistoryRow(e.date, CashType, None, None, None, Some(e.amount))
  }

  /** All trade rows followed by all cash rows, as app.py line 206 builds the list before sorting. */
  function MergedRows(trades: seq<Trade>, events: seq<CashEvent>): (rows: seq<HistoryRow>)
    ensures |rows| == |trades| + |events|
    ensures forall i :: 0 <= i < |trades| ==> rows[i] == StockRow(trades[i])
    ensures forall i :: 0 <= i < |events| ==> rows[|trades| + i] == CashRow(events[i])
  {
    seq(|trades|, i requires 0 <= i < |trades| => StockRow(trades[i])) +
    seq(|events|, i requires 0 <= i < |events| => CashRow(events[i]))
  }

  // ---------------------------------------------------------------------------
  // all_rows.sort(key=date, reverse=True)
  // ---------------------------------------------------------------------------

  /** Newest first. */
  ghost predicate SortedDesc(rows: seq<HistoryRow>)
  {
    forall i, j :: 0 <= i < j < |rows| ==> rows[i].date >= rows[j].date
  }

  /** Puts `x` after every row at least as new, before the first strictly older one. */
  function Insert(rows: seq<HistoryRow>, x: HistoryRow): seq<HistoryRow>
  {
    if rows == [] then [x]
    else if rows[0].date >= x.date then [rows[0]] + Insert(rows[1..], x)
    else [x] + rows
  }

  /** A row at least as new as the first row of a sorted list can go in front of it. */
  lemma ConsSorted(h: HistoryRow, t: seq<HistoryRow>)
    requires SortedDesc(t) && (t == [] || h.date >= t[0].date)
    ensures SortedDesc([h] + t)
  {
    var r := [h] + t;
    forall i, j | 0 <= i < j < |r| ensures r[i].date >= r[j].date {
      if i > 0 {
        assert r[i] == t[i - 1] && r[j] == t[j - 1];
      } else {
        assert r[j] == t[j - 1];
      }
    }
  }

  /** Inserting into a list sorted newest first keeps it sorted; the new front is the old one or `x`. */
  lemma {:induction false} InsertSorted(rows: seq<HistoryRow>, x: HistoryRow)
    requires SortedDesc(rows)
    ensures SortedDesc(Insert(rows, x))
    ensures Insert(rows, x)[0] == x || Insert(rows, x)[0] == rows[0]
  {
    if rows == [] {
    } else if rows[0].date >= x.date {
      var tail := Insert(rows[1..], x);
      assert SortedDesc(rows[1..]);
      InsertSorted(rows[1..], x);
      assert tail[0] == x || tail[0] == rows[1];
      ConsSorted(rows[0], tail);
    } else {
      ConsSorted(x, rows);
    }
  }

  /** Inserting adds exactly the one row. */
  lemma {:induction false} InsertPermutes(rows: seq<HistoryRow>, x: HistoryRow)
    ensures multiset(Insert(rows, x)) == multiset(rows) + multiset{x}
  {
    if rows != [] && rows[0].date >= x.date {
      InsertPermutes(rows[1..], x);
      assert rows == [rows[0]] + rows[1..];
    }
  }

  /**
   * Python's stable sort by date, newest first, as an insertion sort that takes
   * the rows in their original order.
   */
  function SortByDateDesc(rows: seq<HistoryRow>): seq<HistoryRow>
  {
    if rows == [] then []
    else Insert(SortByDateDesc(rows[..|rows| - 1]), rows[|rows| - 1])
  }

  /** The sort's result is newest first. */
  lemma {:induction false} SortSorted(rows: seq<HistoryRow>)
    ensures SortedDesc(SortByDateDesc(rows))
  {
    if rows != [] {
      SortSorted(rows[..|rows| - 1]);
      InsertSorted(SortByDateDesc(rows[..|rows| - 1]), rows[|rows| - 1]);
    }
  }

  /** The sort's result is a permutation of its input. */
  lemma {:induction false} SortPermutes(rows: seq<HistoryRow>)
    ensures multiset(SortByDateDesc(rows)) == multiset(rows)
    ensures |SortByDateDesc(rows)| == |rows|
  {
    if rows != [] {
      var n := |rows| - 1;
      SortPermutes(rows[..n]);
      InsertPermutes(SortByDateDesc(rows[..n]), rows[n]);
      assert rows == rows[..n] + [rows[n]];
      var r := SortByDateDesc(rows);
      assert |r| == |multiset(r)|;
    }
  }

  /** The rows dated `d`, in their order. */
  function WithDate(rows: seq<HistoryRow>, d: Timestamp): seq<HistoryRow>
  {
    if rows == [] then []
    else (if rows[0].date == d then [rows[0]] else []) + WithDate(rows[1..], d)
  }

  lemma {:induction false} WithDateConcat(a: seq<HistoryRow>, b: seq<HistoryRow>, d: Timestamp)
    ensures WithDate(a + b, d) == WithDate(a, d) + WithDate(b, d)
  {
    if a == [] {
      assert a + b == b;
    } else {
      var head := if a[0].date == d then [a[0]] else [];
      assert (a + b)[0] == a[0];
      assert (a + b)[1..] == a[1..] + b;
      WithDateConcat(a[1..], b, d);
      calc {
        WithDate(a + b, d);
        head + WithDate(a[1..] + b, d);
        head + (WithDate(a[1..], d) + WithDate(b, d));
        (head + WithDate(a[1..], d)) + WithDate(b, d);
      }
    }
  }

  lemma {:induction false} WithDateNone(rows: seq<HistoryRow>, d: Timestamp)
    requires forall i :: 0 <= i < |rows| ==> rows[i].date < d
    ensures WithDate(rows, d) == []
  {
    if rows != [] {
      WithDateNone(rows[1..], d);
    }
  }

  lemma WithDateSingle(x: HistoryRow, d: Timestamp)
    ensures WithDate([x], d) == if x.date == d then [x] else []
  {
    assert [x][1..] == [];
    assert WithDate([x][1..], d) == [];
  }

  /** Putting the same rows in front of two lists whose filters differ by a suffix. */
  lemma WithDatePrefix(first: seq<HistoryRow>, tail: seq<HistoryRow>, rest: seq<HistoryRow>,
                       extra: seq<HistoryRow>, d: Timestamp)
    requires WithDate(tail, d) == WithDate(rest, d) + extra
    ensures WithDate(first + tail, d) == WithDate(first + rest, d) + extra
  {
    WithDateConcat(first, tail, d);
    WithDateConcat(first, rest, d);
    ConcatAssoc(WithDate(first, d), WithDate(rest, d), extra);
  }

  lemma ConcatAssoc<T>(a: seq<T>, b: seq<T>, c: seq<T>)
    ensures a + (b + c) == (a + b) + c
  {
  }

  /** Inserting keeps the rows of each date in their order and puts the new row after them. */
  lemma {:induction false} InsertStable(rows: seq<HistoryRow>, x: HistoryRow, d: Timestamp)
    requires SortedDesc(rows)
    ensures WithDate(Insert(rows, x), d) == WithDate(rows, d) + WithDate([x], d)
  {
    if rows == [] {
      WithDateSingle(x, d);
    } else if rows[0].date >= x.date {
      assert SortedDesc(rows[1..]);
      InsertStable(rows[1..], x, d);
      BehindStable(rows, x, d);
    } else {
      assert Insert(rows, x) == [x] + rows;
      FrontStable(rows, x, d);
    }
  }

  /** A row put behind the first row: that row stays in front of its date's rows. */
  lemma BehindStable(rows: seq<HistoryRow>, x: HistoryRow, d: Timestamp)
    requires rows != [] && rows[0].date >= x.date
    requires WithDate(Insert(rows[1..], x), d) == WithDate(rows[1..], d) + WithDate([x], d)
    ensures WithDate(Insert(rows, x), d) == WithDate(rows, d) + WithDate([x], d)
  {
    var first, rest := [rows[0]], rows[1..];
    var tail := Insert(rest, x);
    assert Insert(rows, x) == first + tail;
    assert rows == first + rest;
    WithDatePrefix(first, tail, rest, WithDate([x], d), d);
  }

  /** A row newer than every row it is put before joins the end of its date's rows. */
  lemma FrontStable(rows: seq<HistoryRow>, x: HistoryRow, d: Timestamp)
    requires forall i :: 0 <= i < |rows| ==> rows[i].date < x.date
    ensures WithDate([x] + rows, d) == WithDate(rows, d) + WithDate([x], d)
  {
    WithDateConcat([x], rows, d);
    WithDateSingle(x, d);
    if x.date == d {
      WithDateNone(rows, d);
    }
  }

  /** The sort is stable: rows with equal dates keep their original order. */
  lemma {:induction false} SortStable(rows: seq<HistoryRow>, d: Timestamp)
    ensures WithDate(SortByDateDesc(rows), d) == WithDate(rows, d)
  {
    if rows != [] {
      var n := |rows| - 1;
      var init, last := rows[..n], rows[n];
      var sorted := SortByDateDesc(init);
      SortSorted(init);
      assert SortByDateDesc(rows) == Insert(sorted, last);
      calc {
        WithDate(Insert(sorted, last), d);
        { InsertStable(sorted, last, d); }
        WithDate(sorted, d) + WithDate([last], d);
        { SortStable(init, d); }
        WithDate(init, d) + WithDate([last], d);
        { WithDateConcat(init, [last], d); assert rows == init + [last]; }
        WithDate(rows, d);
      }
    }
  }


  // ---------------------------------------------------------------------------
  // Pagination
  // ---------------------------------------------------------------------------

  /** Rows per page. */
  const PerPage: nat := 15

  /** `max(1, ceil(total / 15))`: the fewest pages that hold every row, and at least one. */
  function MaxPage(total: nat): (m: nat)
    ensures m >= 1
    ensures total <= m * PerPage
    ensures total > 0 ==> (m - 1) * PerPage < total
    ensures total == 0 ==> m == 1
  {
    var m := (total + PerPage - 1) / PerPage;
    if m < 1 then 1 else m
  }

  /** `max(1, min(page, max_page))`. */
  function ClampPage(requested: int, maxPage: nat): (p: nat)
    requires maxPage >= 1
    ensures 1 <= p <= maxPage
    ensures 1 <= requested <= maxPage ==> p == requested
    ensures requested < 1 ==> p == 1
    ensures requested > maxPage ==> p == maxPage
  {
    if requested < 1 then 1 else if requested > maxPage then maxPage else requested
  }

  /** `rows[start:start + 15]` with `start = (page - 1) * 15`, cut short at the end of the list. */
  function PageSlice<T>(rows: seq<T>, page: nat): (r: seq<T>)
    requires page >= 1
    ensures |r| <= PerPage
    ensures forall k :: 0 <= k < |r| ==>
              (page - 1) * PerPage + k < |rows| && r[k] == rows[(page - 1) * PerPage + k]
    ensures (page - 1) * PerPage + PerPage <= |rows| ==> |r| == PerPage
    ensures (page - 1) * PerPage < |rows| < (page - 1) * PerPage + PerPage ==>
              (page - 1) * PerPage + |r| == |rows|
    ensures |rows| <= (page - 1) * PerPage ==> r == []
  {
    var start := (page - 1) * PerPage;
    var end := start + PerPage;
    if start >= |rows| then []
    else if end >= |rows| then rows[start..]
    else rows[start..end]
  }

  /** A page of a list sorted newest first is itself sorted newest first. */
  lemma PageSliceSorted(rows: seq<HistoryRow>, page: nat)
    requires page >= 1 && SortedDesc(rows)
    ensures SortedDesc(PageSlice(rows, page))
  {
    var r := PageSlice(rows, page);
    var start := (page - 1) * PerPage;
    forall i, j | 0 <= i < j < |r| ensures r[i].date >= r[j].date {
      assert r[i] == rows[start + i] && r[j] == rows[start + j];
    }
  }

  /** The page actually shown is never empty while there is any row. */
  lemma ShownPageNonEmpty<T>(rows: seq<T>, requested: int)
    requires |rows| > 0
    ensures |PageSlice(rows, ClampPage(requested, MaxPage(|rows|)))| > 0
  {
    var m := MaxPage(|rows|);
    var p := ClampPage(requested, m);
    assert (p - 1) * PerPage <= (m - 1) * PerPage;
  }

  /** Every row appears on exactly one page: row `k` is item `k % 15` of page `k / 15 + 1`. */
  lemma RowOnItsPage<T>(rows: seq<T>, k: nat)
    requires k < |rows|
    ensures 1 <= k / PerPage + 1 <= MaxPage(|rows|)
    ensures ClampPage(k / PerPage + 1, MaxPage(|rows|)) == k / PerPage + 1
    ensures k % PerPage < |PageSlice(rows, k / PerPage + 1)|
    ensures PageSlice(rows, k / PerPage + 1)[k % PerPage] == rows[k]
  {
    var p := k / PerPage + 1;
    assert (p - 1) * PerPage + k % PerPage == k;
  }
}
