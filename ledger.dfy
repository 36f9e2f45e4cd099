/**
 * One user's rows in the tables `transactions`, `cash_history`, `shorts` and `options`
 * (app.py), and the views the handlers derive from them: the held count of a symbol,
 * the holdings listed on the portfolio page and the short row a buy-back covers.
 */
module Ledger {
  import opened Wrappers

  /** An abstract, totally ordered point in time: the tables' `date`, `open_date` and `close_date`. */
  type Timestamp = int

  /** The `type` column of `transactions`. */
  datatype TradeKind = Buy | Sell

  /** A row of `transactions`; money is in cents. */
  datatype Trade = Trade(symbol: string, shares: int, price: int, kind: TradeKind, date: Timestamp)

  /** A row of `cash_history`: a signed deposit or withdrawal. */
  datatype CashEvent = CashEvent(amount: int, date: Timestamp)

  /** A row of `shorts`. */
  datatype ShortRow = ShortRow(symbol: string, shares: int, price: int, openDate: Timestamp,
                               closed: bool, closeDate: Option<Timestamp>)

  /** A row of `options`; `kind` is the `type` column, `expiration` is kept as the text entered. */
  datatype OptionRow = OptionRow(symbol: string, kind: string, strike: int, premium: int,
                                 expiration: string, contracts: int, closed: bool)

  /** The conditions the option handler checks before it inserts a row. */
  predicate ValidOptionRow(o: OptionRow)
  {
    (o.kind == "CALL" || o.kind == "PUT") && o.strike > 0 && o.premium >= 0 && o.contracts > 0
  }

  // ---------------------------------------------------------------------------
  // Held shares
  // ---------------------------------------------------------------------------

  /** What one trade adds to the held count of `symbol`: `CASE WHEN type='BUY' THEN shares ELSE -shares END`. */
  function Signed(t: Trade, symbol: string): int
  {
    if t.symbol != symbol then 0 else if t.kind == Buy then t.shares else -t.shares
  }

  /**
   * The held count of `symbol`, the signed sum of app.py lines 33 and 178;
   * an empty sum (SQL NULL) is read as 0, as line 180 does: a symbol without any row is
   * held 0 times.
   */
  function NetShares(trades: seq<Trade>, symbol: string): (n: int)
    ensures !Mentions(trades, symbol) ==> n == 0
  {
    if trades == [] then 0
    else
      MentionsPrefix(trades, symbol);
      NetShares(trades[..|trades| - 1], symbol) + Signed(trades[|trades| - 1], symbol)
  }

  /** The total shares of the `kind` rows for `symbol`. */
  function SharesOfKind(trades: seq<Trade>, symbol: string, kind: TradeKind): int
  {
    if trades == [] then 0
    else
      var t := trades[|trades| - 1];
      SharesOfKind(trades[..|trades| - 1], symbol, kind) +
      (if t.symbol == symbol && t.kind == kind then t.shares else 0)
  }

  /** Held shares are the bought shares minus the sold shares. */
  lemma {:induction false} NetIsBoughtMinusSold(trades: seq<Trade>, symbol: string)
    ensures NetShares(trades, symbol) == SharesOfKind(trades, symbol, Buy) - SharesOfKind(trades, symbol, Sell)
  {
    if trades != [] {
      NetIsBoughtMinusSold(trades[..|trades| - 1], symbol);
    }
  }

  /** Appending one row changes only the held count of that row's symbol, by its signed shares. */
  lemma NetSharesAppend(trades: seq<Trade>, t: Trade, symbol: string)
    ensures NetShares(trades + [t], symbol) == NetShares(trades, symbol) + Signed(t, symbol)
  {
    assert (trades + [t])[..|trades|] == trades;
  }

  /**
   * A buy, or a sell of no more than the held count, keeps every held count non-negative,
   * and changes its own symbol's count by its signed shares.
   */
  lemma AppendKeepsHeldNonNegative(trades: seq<Trade>, t: Trade)
    requires forall s :: NetShares(trades, s) >= 0
    requires t.shares >= 0 && (t.kind == Sell ==> t.shares <= NetShares(trades, t.symbol))
    ensures forall s :: NetShares(trades + [t], s) >= 0
    ensures NetShares(trades + [t], t.symbol) == NetShares(trades, t.symbol) + Signed(t, t.symbol)
  {
    forall s ensures NetShares(trades + [t], s) == NetShares(trades, s) + Signed(t, s) {
      NetSharesAppend(trades, t, s);
    }
  }

  /** Some row of `trades` is for `symbol`. */
  ghost predicate Mentions(trades: seq<Trade>, symbol: string)
  {
    exists i :: 0 <= i < |trades| && trades[i].symbol == symbol
  }

  lemma MentionsPrefix(trades: seq<Trade>, symbol: string)
    requires trades != []
    ensures Mentions(trades, symbol) <==>
            Mentions(trades[..|trades| - 1], symbol) || trades[|trades| - 1].symbol == symbol
  {
    var p := trades[..|trades| - 1];
    if Mentions(trades, symbol) && trades[|trades| - 1].symbol != symbol {
      var i :| 0 <= i < |trades| && trades[i].symbol == symbol;
      assert p[i].symbol == symbol;
    }
    if Mentions(p, symbol) {
      var i :| 0 <= i < |p| && p[i].symbol == symbol;
      assert trades[i].symbol == symbol;
    }
  }

  // ---------------------------------------------------------------------------
  // Holdings: GROUP BY symbol HAVING shares > 0
  // ---------------------------------------------------------------------------

  /** The distinct symbols of the trades, in the order of their first row. */
  function Symbols(trades: seq<Trade>): (syms: seq<string>)
    ensures forall s :: s in syms <==> Mentions(trades, s)
    ensures forall i, j :: 0 <= i < j < |syms| ==> syms[i] != syms[j]
  {
    if trades == [] then []
    else
      var prior := Symbols(trades[..|trades| - 1]);
      var s := trades[|trades| - 1].symbol;
      MentionsPrefixAll(trades);
      if s in prior then prior else prior + [s]
  }

  lemma MentionsPrefixAll(trades: seq<Trade>)
    requires trades != []
    ensures forall s :: Mentions(trades, s) <==>
            Mentions(trades[..|trades| - 1], s) || trades[|trades| - 1].symbol == s
  {
    forall s ensures Mentions(trades, s) <==>
                     Mentions(trades[..|trades| - 1], s) || trades[|trades| - 1].symbol == s {
      MentionsPrefix(trades, s);
    }
  }

  /** One line of the holdings query: a symbol and its positive held count. */
  datatype Holding = Holding(symbol: string, shares: int)

  /** Some holding of `hs` is for `symbol`. */
  ghost predicate Listed(hs: seq<Holding>, symbol: string)
  {
    exists i :: 0 <= i < |hs| && hs[i].symbol == symbol
  }

  /** The symbols of `syms` whose held count is positive, with that count, in the order of `syms`. */
  function HeldAmong(syms: seq<string>, trades: seq<Trade>): (hs: seq<Holding>)
    ensures forall i :: 0 <= i < |hs| ==>
              hs[i].symbol in syms && hs[i].shares == NetShares(trades, hs[i].symbol) && hs[i].shares > 0
    ensures forall s :: s in syms && NetShares(trades, s) > 0 ==> Listed(hs, s)
    ensures (forall i, j :: 0 <= i < j < |syms| ==> syms[i] != syms[j]) ==>
              forall i, j :: 0 <= i < j < |hs| ==> hs[i].symbol != hs[j].symbol
  {
    if syms == [] then []
    else
      var prior := HeldAmong(syms[..|syms| - 1], trades);
      var s := syms[|syms| - 1];
      var n := NetShares(trades, s);
      assert forall x :: x in syms <==> x in syms[..|syms| - 1] || x == s by {
        assert syms == syms[..|syms| - 1] + [s];
      }
      if n > 0 then
        var hs := prior + [Holding(s, n)];
        assert hs[|prior|].symbol == s;
        assert forall i :: 0 <= i < |prior| ==> hs[i] == prior[i];
        hs
      else prior
  }

  /**
   * The holdings the portfolio page lists (app.py line 33): a symbol is listed, once,
   * exactly when its held count is positive, and it is listed with that count.
   */
  function Holdings(trades: seq<Trade>): (hs: seq<Holding>)
    ensures forall s :: Listed(hs, s) <==> NetShares(trades, s) > 0
    ensures forall i :: 0 <= i < |hs| ==> hs[i].shares == NetShares(trades, hs[i].symbol)
    ensures forall i, j :: 0 <= i < j < |hs| ==> hs[i].symbol != hs[j].symbol
  {
    HeldAmong(Symbols(trades), trades)
  }

  /**
   * The rows the portfolio query of app.py line 33 returns as written: one per traded
   * symbol, with its held count. In `HAVING shares > 0` SQLite reads `shares` as the
   * column `transactions.shares` of some row of the group, not as the result alias,
   * and every stored row has a positive count, so no group is dropped.
   */
  function Positions(trades: seq<Trade>): (hs: seq<Holding>)
    ensures forall s :: Listed(hs, s) <==> Mentions(trades, s)
    ensures forall i :: 0 <= i < |hs| ==> hs[i].shares == NetShares(trades, hs[i].symbol)
    ensures forall i, j :: 0 <= i < j < |hs| ==> hs[i].symbol != hs[j].symbol
  {
    var syms := Symbols(trades);
    var hs := seq(|syms|, i requires 0 <= i < |syms| => Holding(syms[i], NetShares(trades, syms[i])));
    assert forall s :: Listed(hs, s) <==> s in syms by {
      forall s | s in syms ensures Listed(hs, s) {
        var i :| 0 <= i < |syms| && syms[i] == s;
        assert hs[i].symbol == s;
      }
    }
    hs
  }

  /** When no symbol is held a negative number of times, no position has a negative count. */
  lemma PositionsNonNegative(trades: seq<Trade>)
    requires forall s :: NetShares(trades, s) >= 0
    ensures forall i :: 0 <= i < |Positions(trades)| ==> Positions(trades)[i].shares >= 0
  {
  }

  /** The intended holdings are the positions whose held count is positive. */
  lemma HoldingsArePositivePositions(trades: seq<Trade>)
    ensures forall s :: Listed(Holdings(trades), s) <==> Listed(Positions(trades), s) && NetShares(trades, s) > 0
  {
  }

  /** Buying ten shares and selling all ten still lists the symbol, with 0 shares. */
  lemma SoldOutStillListed()
    ensures var trades := [Trade("ABC", 10, 5000, Buy, 1), Trade("ABC", 10, 5000, Sell, 2)];
            NetShares(trades, "ABC") == 0 &&
            Positions(trades) == [Holding("ABC", 0)] &&
            !Listed(Holdings(trades), "ABC")
  {
    var trades := [Trade("ABC", 10, 5000, Buy, 1), Trade("ABC", 10, 5000, Sell, 2)];
    assert trades[..1][..0] == [];
    assert trades[..1] == [trades[0]];
    assert NetShares(trades, "ABC") == 0;
    assert Mentions(trades, "ABC") by { assert trades[0].symbol == "ABC"; }
    var hs := Positions(trades);
    assert Listed(hs, "ABC");
    assert |hs| == 1 by {
      assert Symbols(trades) == ["ABC"];
    }
  }

  // ---------------------------------------------------------------------------
  // The short row a buy-back covers
  // ---------------------------------------------------------------------------

  /** A short row still open for `symbol` (`symbol = ? AND closed = 0`). */
  predicate OpenFor(r: ShortRow, symbol: string)
  {
    !r.closed && r.symbol == symbol
  }

  /**
   * `ORDER BY open_date LIMIT 1` over the open rows for `symbol` (app.py line 272): the open row
   * with the earliest opening date, the first such row when several share that date, or None.
   */
  function OldestOpen(shorts: seq<ShortRow>, symbol: string): (k: Option<nat>)
    ensures k.None? <==> forall i :: 0 <= i < |shorts| ==> !OpenFor(shorts[i], symbol)
    ensures k.Some? ==> k.value < |shorts| && OpenFor(shorts[k.value], symbol)
    ensures k.Some? ==> forall i :: 0 <= i < |shorts| && OpenFor(shorts[i], symbol) ==>
                          shorts[k.value].openDate <= shorts[i].openDate
    ensures k.Some? ==> forall i :: 0 <= i < k.value && OpenFor(shorts[i], symbol) ==>
                          shorts[k.value].openDate < shorts[i].openDate
  {
    if shorts == [] then None
    else
      var n := |shorts| - 1;
      var k := OldestOpen(shorts[..n], symbol);
      assert forall i :: 0 <= i < n ==> shorts[..n][i] == shorts[i];
      if OpenFor(shorts[n], symbol) && (k.None? || shorts[n].openDate < shorts[k.value].openDate)
      then Some(n)
      else k
  }

  /** A row closed by a full buy-back is never selected to be covered again. */
  lemma ClosedRowNotCovered(shorts: seq<ShortRow>, k: nat, symbol: string)
    requires k < |shorts| && shorts[k].closed
    ensures OldestOpen(shorts, symbol) != Some(k)
  {
  }

  /**
   * The selection is exactly "earliest open date, first row among ties": an open row with
   * no open row dated earlier, and every open row before it dated strictly later, is the
   * one chosen.
   */
  lemma OldestOpenIsUnique(shorts: seq<ShortRow>, k: nat, symbol: string)
    requires k < |shorts| && OpenFor(shorts[k], symbol)
    requires forall i :: 0 <= i < k && OpenFor(shorts[i], symbol) ==>
               shorts[i].openDate > shorts[k].openDate
    requires forall i :: k < i < |shorts| && OpenFor(shorts[i], symbol) ==>
               shorts[i].openDate >= shorts[k].openDate
    ensures OldestOpen(shorts, symbol) == Some(k)
  {
    var o := OldestOpen(shorts, symbol);
    assert o.Some?;
  }
}
