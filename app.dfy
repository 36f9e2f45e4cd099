/**
 * The account rules of the request handlers in app.py, with the SQL replaced by one
 * in-memory account: its cash and its rows in the four log tables. Each handler is one
 * atomic method that either rejects, changing nothing, or applies its cash update and
 * its row insert or update together.
 */
module App {
  import opened Wrappers
  import opened Helpers
  import opened Ledger
  import opened History

  /** Why a handler refused the request. */
  datatype Reason =
    | MarketClosed
    | OptionsMarketClosed
    | MissingSymbolOrShares
    | BadShares
    | InvalidSymbol
    | NotEnoughCash
    | NotEnoughShares
    | InvalidAmount
    | NotEnoughCashToSubtract
    | NotEnoughShorted
    | NotEnoughCashToBuyBack
    | AllFieldsRequired
    | InvalidOptionType
    | InvalidOptionNumbers

  /** The text the handler passes to `apology` for each reason. */
  function Message(r: Reason): string
  {
    match r
    case MarketClosed => "Trading is only allowed during US market hours (9:30am-4:00pm ET, Mon-Fri)"
    case OptionsMarketClosed => "Options trading is only allowed during US market hours (9:30am-4:00pm ET, Mon-Fri)"
    case MissingSymbolOrShares => "must provide symbol and shares"
    case BadShares => "shares must be a positive integer"
    case InvalidSymbol => "invalid symbol"
    case NotEnoughCash => "not enough cash"
    case NotEnoughShares => "not enough shares to sell"
    case InvalidAmount => "invalid amount"
    case NotEnoughCashToSubtract => "not enough cash to subtract"
    case NotEnoughShorted => "not enough shorted shares to buy back"
    case NotEnoughCashToBuyBack => "not enough cash to buy back shares"
    case AllFieldsRequired => "all fields required"
    case InvalidOptionType => "invalid option type"
    case InvalidOptionNumbers => "invalid strike, premium, or contracts"
  }

  /** The page and status of a rejection: the apology for the reason's message, status 400. */
  method RejectionPage(r: Reason) returns (page: ApologyPage, status: int)
    ensures status == 400
    ensures page == ApologyPage(400, EscapeRef(Message(r)))
  {
    if r == MarketClosed || r == OptionsMarketClosed {
      page, status := Apology(Message(r));
    } else {
      page, status := Apology(Message(r), 400);
    }
  }

  /** What a handler did: applied the request, or refused it for a reason. */
  datatype Outcome = Ok | Reject(reason: Reason)

  /**
   * A form value as the handler sees it: absent or empty (falsy in Python), present but
   * refused by `int()` or `float()`, or parsed (money in cents).
   */
  datatype FormField = Missing | Malformed | Parsed(value: int)

  /** What `lookup` returns when it succeeds; the price is in cents. */
  datatype Quote = Quote(name: string, price: int)

  /** `quote and quote.get("price")`: the lookup succeeded and gave a non-zero price. */
  predicate Priced(q: Option<Quote>)
  {
    q.Some? && q.value.price != 0
  }

  /** The `action` field of the short form. */
  datatype ShortAction = ShortSell | ShortBuy | OtherAction

  /** `str.upper` on ASCII letters. */
  function UpperChar(c: char): char
  {
    if 'a' <= c <= 'z' then (c as int - 32) as char else c
  }

  function Upper(s: string): string
  {
    seq(|s|, i requires 0 <= i < |s| => UpperChar(s[i]))
  }

  /**
   * The checks that buy, sell and short make on `symbol` and `shares` before anything else:
   * no error exactly when a symbol is given and the share count is a positive integer.
   */
  function TradeFormError(symbol: string, shares: FormField): (e: Option<Reason>)
    ensures e.None? <==> symbol != "" && shares.Parsed? && shares.value > 0
    ensures e == Some(MissingSymbolOrShares) <==> symbol == "" || shares.Missing?
    ensures e.Some? ==> e.value == MissingSymbolOrShares || e.value == BadShares
  {
    if symbol == "" || shares.Missing? then Some(MissingSymbolOrShares)
    else if !shares.Parsed? || shares.value <= 0 then Some(BadShares)
    else None
  }

  /** One line of the portfolio page. */
  datatype PortfolioRow = PortfolioRow(symbol: string, name: string, shares: int, price: int, total: int)

  /**
   * The portfolio line of one holding: its quote's name and price, or the symbol as name and
   * price 0 when the lookup failed; the line's value is price times shares.
   */
  function LineFor(h: Holding, quotes: map<string, Quote>): (line: PortfolioRow)
    ensures line.symbol == h.symbol && line.shares == h.shares
    ensures line.total == line.price * line.shares
    ensures h.symbol in quotes ==> line.name == quotes[h.symbol].name && line.price == quotes[h.symbol].price
    ensures h.symbol !in quotes ==> line.name == h.symbol && line.price == 0 && line.total == 0
  {
    if h.symbol in quotes
    then PortfolioRow(h.symbol, quotes[h.symbol].name, h.shares, quotes[h.symbol].price,
                      quotes[h.symbol].price * h.shares)
    else PortfolioRow(h.symbol, h.symbol, h.shares, 0, 0)
  }

  /** The lines of a list of holdings, in its order. */
  function Lines(hs: seq<Holding>, quotes: map<string, Quote>): (rows: seq<PortfolioRow>)
    ensures |rows| == |hs|
    ensures forall i :: 0 <= i < |hs| ==> rows[i] == LineFor(hs[i], quotes)
  {
    if hs == [] then [] else Lines(hs[..|hs| - 1], quotes) + [LineFor(hs[|hs| - 1], quotes)]
  }

  /** Some line of the page is for `symbol`. */
  ghost predicate Lists(rows: seq<PortfolioRow>, symbol: string)
  {
    exists i :: 0 <= i < |rows| && rows[i].symbol == symbol
  }

  /** The lines of the holdings list the held symbols, each with its held count. */
  lemma LinesListHeldSymbols(rows: seq<PortfolioRow>, trades: seq<Trade>, quotes: map<string, Quote>)
    requires rows == Lines(Holdings(trades), quotes)
    ensures forall i :: 0 <= i < |rows| ==> rows[i].shares == NetShares(trades, rows[i].symbol)
    ensures forall s :: Lists(rows, s) <==> NetShares(trades, s) > 0
  {
    var hs := Holdings(trades);
    assert forall i :: 0 <= i < |rows| ==> rows[i].symbol == hs[i].symbol && rows[i].shares == hs[i].shares;
    forall s ensures Lists(rows, s) <==> NetShares(trades, s) > 0 {
      if NetShares(trades, s) > 0 {
        assert Listed(hs, s);
        var i :| 0 <= i < |hs| && hs[i].symbol == s;
        assert rows[i].symbol == s;
      }
      if Lists(rows, s) {
        var i :| 0 <= i < |rows| && rows[i].symbol == s;
        assert hs[i].symbol == s;
        assert Listed(hs, s);
      }
    }
  }

  /**
   * The lines of the positions the query returns as written list every traded symbol,
   * each with its held count, which is 0 for a symbol sold out.
   */
  lemma LinesListTradedSymbols(rows: seq<PortfolioRow>, trades: seq<Trade>, quotes: map<string, Quote>)
    requires rows == Lines(Positions(trades), quotes)
    ensures forall i :: 0 <= i < |rows| ==> rows[i].shares == NetShares(trades, rows[i].symbol)
    ensures forall s :: Lists(rows, s) <==> Mentions(trades, s)
  {
    var hs := Positions(trades);
    assert forall i :: 0 <= i < |rows| ==> rows[i].symbol == hs[i].symbol && rows[i].shares == hs[i].shares;
    forall s ensures Lists(rows, s) <==> Mentions(trades, s) {
      if Mentions(trades, s) {
        assert Listed(hs, s);
        var i :| 0 <= i < |hs| && hs[i].symbol == s;
        assert rows[i].symbol == s;
      }
      if Lists(rows, s) {
        var i :| 0 <= i < |rows| && rows[i].symbol == s;
        assert hs[i].symbol == s;
        assert Listed(hs, s);
      }
    }
  }

  /** The sum of the lines' values. */
  function TotalValue(rows: seq<PortfolioRow>): int
  {
    if rows == [] then 0 else TotalValue(rows[..|rows| - 1]) + rows[|rows| - 1].total
  }

  lemma LinesSnoc(hs: seq<Holding>, i: nat, quotes: map<string, Quote>)
    requires i < |hs|
    ensures Lines(hs[..i + 1], quotes) == Lines(hs[..i], quotes) + [LineFor(hs[i], quotes)]
  {
    assert hs[..i + 1][..i] == hs[..i];
  }

  lemma TotalValueSnoc(rows: seq<PortfolioRow>, line: PortfolioRow)
    ensures TotalValue(rows + [line]) == TotalValue(rows) + line.total
  {
    assert (rows + [line])[..|rows|] == rows;
  }

  /**
   * The loop of the `index` page over the held symbols: each holding gets its line, and
   * the line's value is added to the running total, which starts at the cash balance.
   */
  method PriceHoldings(holdings: seq<Holding>, balance: int, quotes: map<string, Quote>)
    returns (portfolio: seq<PortfolioRow>, total: int)
    ensures portfolio == Lines(holdings, quotes)
    ensures total == balance + TotalValue(portfolio)
  {
    portfolio := [];
    total := balance;
    for i := 0 to |holdings|
      invariant portfolio == Lines(holdings[..i], quotes)
      invariant total == balance + TotalValue(portfolio)
    {
      var h := holdings[i];
      var price, name;
      if h.symbol !in quotes {
        price, name := 0, h.symbol;
      } else {
        price, name := quotes[h.symbol].price, quotes[h.symbol].name;
      }
      var value := price * h.shares;
      var line := PortfolioRow(h.symbol, name, h.shares, price, value);
      assert line == LineFor(h, quotes);
      LinesSnoc(holdings, i, quotes);
      TotalValueSnoc(portfolio, line);
      total := total + value;
      portfolio := portfolio + [line];
    }
    assert holdings[..|holdings|] == holdings;
  }

  /** One user's account: the `cash` column of `users` and the user's rows of the four log tables. */
  class Account {
    var cash: int
    var trades: seq<Trade>
    var cashHistory: seq<CashEvent>
    var shorts: seq<ShortRow>
    var options: seq<OptionRow>

    /**
     * What the handlers keep true: logged trades and open short rows have a positive share
     * count, no symbol is held a negative number of times, and every option row passed the
     * option handler's checks.
     */
    ghost predicate Valid()
      reads this
    {
      (forall i :: 0 <= i < |trades| ==> trades[i].shares > 0) &&
      (forall s :: NetShares(trades, s) >= 0) &&
      (forall i :: 0 <= i < |shorts| ==> shorts[i].shares > 0) &&
      (forall i :: 0 <= i < |options| ==> ValidOptionRow(options[i]))
    }

    /** A newly registered user: the starting cash and empty logs. */
    constructor (initialCash: int)
      ensures Valid()
      ensures cash == initialCash && trades == [] && cashHistory == [] && shorts == [] && options == []
    {
      cash := initialCash;
      trades := [];
      cashHistory := [];
      shorts := [];
      options := [];
    }

    /** The `buy` handler (POST). */
    method Buy(now: Clock, symbol: string, shares: FormField, quote: Option<Quote>, date: Timestamp)
      returns (r: Outcome)
      requires Valid()
      modifies this
      ensures Valid()
      ensures !IsMarketOpen(now) ==> r == Reject(MarketClosed)
      ensures IsMarketOpen(now) && TradeFormError(symbol, shares).Some? ==>
                r == Reject(TradeFormError(symbol, shares).value)
      ensures IsMarketOpen(now) && TradeFormError(symbol, shares).None? && !Priced(quote) ==>
                r == Reject(InvalidSymbol)
      ensures IsMarketOpen(now) && TradeFormError(symbol, shares).None? && Priced(quote) ==>
                (r == Reject(NotEnoughCash) <==> quote.value.price * shares.value > old(cash)) &&
                (r == Ok <==> quote.value.price * shares.value <= old(cash))
      ensures r.Reject? ==> unchanged(this)
      ensures r.Ok? ==>
                cash == old(cash) - quote.value.price * shares.value &&
                trades == old(trades) + [Trade(Upper(symbol), shares.value, quote.value.price, TradeKind.Buy, date)] &&
                cashHistory == old(cashHistory) && shorts == old(shorts) && options == old(options)
      ensures r.Ok? ==> cash >= 0
    {
      if !IsMarketOpen(now) {
        return Reject(MarketClosed);
      }
      var formError := TradeFormError(symbol, shares);
      if formError.Some? {
        return Reject(formError.value);
      }
      if !Priced(quote) {
        return Reject(InvalidSymbol);
      }
      var price := quote.value.price;
      var totalCost := price * shares.value;
      if totalCost > cash {
        return Reject(NotEnoughCash);
      }
      var row := Trade(Upper(symbol), shares.value, price, TradeKind.Buy, date);
      cash := cash - totalCost;
      trades := trades + [row];
      AppendKeepsHeldNonNegative(old(trades), row);
      r := Ok;
    }

    /** The `sell` handler (POST). */
    method Sell(now: Clock, symbol: string, shares: FormField, quote: Option<Quote>, date: Timestamp)
      returns (r: Outcome)
      requires Valid()
      modifies this
      ensures Valid()
      ensures !IsMarketOpen(now) ==> r == Reject(MarketClosed)
      ensures IsMarketOpen(now) && TradeFormError(symbol, shares).Some? ==>
                r == Reject(TradeFormError(symbol, shares).value)
      ensures IsMarketOpen(now) && TradeFormError(symbol, shares).None? ==>
                (r == Reject(NotEnoughShares) <==> shares.value > old(NetShares(trades, Upper(symbol))))
      ensures IsMarketOpen(now) && TradeFormError(symbol, shares).None? &&
              shares.value <= old(NetShares(trades, Upper(symbol))) ==>
                (r == Reject(InvalidSymbol) <==> !Priced(quote)) &&
                (r == Ok <==> Priced(quote))
      ensures r.Reject? ==> unchanged(this)
      ensures r.Ok? ==>
                cash == old(cash) + quote.value.price * shares.value &&
                trades == old(trades) + [Trade(Upper(symbol), shares.value, quote.value.price, TradeKind.Sell, date)] &&
                cashHistory == old(cashHistory) && shorts == old(shorts) && options == old(options)
      ensures r.Ok? ==>
                NetShares(trades, Upper(symbol)) == old(NetShares(trades, Upper(symbol))) - shares.value >= 0
    {
      if !IsMarketOpen(now) {
        return Reject(MarketClosed);
      }
      var formError := TradeFormError(symbol, shares);
      if formError.Some? {
        return Reject(formError.value);
      }
      var sym := Upper(symbol);
      var owned := NetShares(trades, sym);
      if shares.value > owned {
        return Reject(NotEnoughShares);
      }
      if !Priced(quote) {
        return Reject(InvalidSymbol);
      }
      var price := quote.value.price;
      var row := Trade(sym, shares.value, price, TradeKind.Sell, date);
      cash := cash + price * shares.value;
      trades := trades + [row];
      AppendKeepsHeldNonNegative(old(trades), row);
      r := Ok;
    }

    /** The `cash` handler (POST): a deposit or, with a negative amount, a withdrawal. */
    method AdjustCash(amount: FormField, date: Timestamp) returns (r: Outcome)
      requires Valid()
      modifies this
      ensures Valid()
      ensures !amount.Parsed? ==> r == Reject(InvalidAmount)
      ensures amount.Parsed? ==>
                (r == Reject(NotEnoughCashToSubtract) <==> old(cash) + amount.value < 0) &&
                (r == Ok <==> old(cash) + amount.value >= 0)
      ensures r.Reject? ==> unchanged(this)
      ensures r.Ok? ==>
                cash == old(cash) + amount.value &&
                cashHistory == old(cashHistory) + [CashEvent(amount.value, date)] &&
                trades == old(trades) && shorts == old(shorts) && options == old(options)
      ensures r.Ok? ==> cash >= 0
    {
      if !amount.Parsed? {
        return Reject(InvalidAmount);
      }
      if cash + amount.value < 0 {
        return Reject(NotEnoughCashToSubtract);
      }
      cash := cash + amount.value;
      cashHistory := cashHistory + [CashEvent(amount.value, date)];
      r := Ok;
    }

    /** The `short` handler (POST), both actions. */
    method Short(action: ShortAction, symbol: string, shares: FormField, quote: Option<Quote>,
                 date: Timestamp)
      returns (r: Outcome)
      requires Valid()
      modifies this
      ensures Valid()
      ensures TradeFormError(symbol, shares).Some? ==> r == Reject(TradeFormError(symbol, shares).value)
      ensures TradeFormError(symbol, shares).None? && !Priced(quote) ==> r == Reject(InvalidSymbol)
      ensures r.Reject? ==> unchanged(this)
      // opening a short: always accepted once the form and the quote are valid
      ensures TradeFormError(symbol, shares).None? && Priced(quote) && action == ShortSell ==>
                r == Ok &&
                cash == old(cash) + quote.value.price * shares.value &&
                shorts == old(shorts) + [ShortRow(Upper(symbol), shares.value, quote.value.price, date, false, None)] &&
                trades == old(trades) && cashHistory == old(cashHistory) && options == old(options)
      // any other action: nothing happens
      ensures TradeFormError(symbol, shares).None? && Priced(quote) && action == OtherAction ==>
                r == Ok && unchanged(this)
      // buying back: only the oldest open short row for the symbol is looked at
      ensures TradeFormError(symbol, shares).None? && Priced(quote) && action == ShortBuy ==>
                var k := OldestOpen(old(shorts), Upper(symbol));
                (r == Reject(NotEnoughShorted) <==> k.None? || old(shorts)[k.value].shares < shares.value) &&
                (r == Reject(NotEnoughCashToBuyBack) <==>
                   k.Some? && old(shorts)[k.value].shares >= shares.value &&
                   old(cash) < quote.value.price * shares.value) &&
                (r == Ok <==>
                   k.Some? && old(shorts)[k.value].shares >= shares.value &&
                   old(cash) >= quote.value.price * shares.value) &&
                (r.Ok? ==>
                   cash == old(cash) - quote.value.price * shares.value && cash >= 0 &&
                   |shorts| == |old(shorts)| &&
                   (old(shorts)[k.value].shares == shares.value ==>
                      shorts[k.value] == old(shorts)[k.value].(closed := true, closeDate := Some(date))) &&
                   (old(shorts)[k.value].shares > shares.value ==>
                      shorts[k.value] == old(shorts)[k.value].(shares := old(shorts)[k.value].shares - shares.value)) &&
                   (forall i :: 0 <= i < |shorts| && i != k.value ==> shorts[i] == old(shorts)[i]) &&
                   trades == old(trades) && cashHistory == old(cashHistory) && options == old(options))
    {
      var formError := TradeFormError(symbol, shares);
      if formError.Some? {
        return Reject(formError.value);
      }
      var sym := Upper(symbol);
      if !Priced(quote) {
        return Reject(InvalidSymbol);
      }
      var price := quote.value.price;
      var n := shares.value;
      if action == ShortSell {
        cash := cash + price * n;
        shorts := shorts + [ShortRow(sym, n, price, date, false, None)];
      } else if action == ShortBuy {
        var k := OldestOpen(shorts, sym);
        if k.None? || shorts[k.value].shares < n {
          return Reject(NotEnoughShorted);
        }
        var totalCost := price * n;
        if cash < totalCost {
          return Reject(NotEnoughCashToBuyBack);
        }
        cash := cash - totalCost;
        var row := shorts[k.value];
        if row.shares == n {
          shorts := shorts[k.value := row.(closed := true, closeDate := Some(date))];
        } else {
          shorts := shorts[k.value := row.(shares := row.shares - n)];
        }
      }
      r := Ok;
    }

    /** The `options` handler (POST): records an option position; cash is not touched. */
    method EnterOption(now: Clock, symbol: string, kind: string, strike: FormField, premium: FormField,
                       expiration: string, contracts: FormField)
      returns (r: Outcome)
      requires Valid()
      modifies this
      ensures Valid()
      ensures cash == old(cash)
      ensures !IsMarketOpen(now) ==> r == Reject(OptionsMarketClosed)
      ensures IsMarketOpen(now) &&
              (symbol == "" || kind == "" || strike.Missing? || premium.Missing? || expiration == "" ||
               contracts.Missing?) ==>
                r == Reject(AllFieldsRequired)
      ensures IsMarketOpen(now) &&
              symbol != "" && kind != "" && !strike.Missing? && !premium.Missing? && expiration != "" &&
              !contracts.Missing? && kind != "CALL" && kind != "PUT" ==>
                r == Reject(InvalidOptionType)
      ensures r == Ok <==>
                IsMarketOpen(now) && symbol != "" && expiration != "" && (kind == "CALL" || kind == "PUT") &&
                strike.Parsed? && premium.Parsed? && contracts.Parsed? &&
                strike.value > 0 && premium.value >= 0 && contracts.value > 0
      ensures IsMarketOpen(now) &&
              symbol != "" && kind != "" && !strike.Missing? && !premium.Missing? && expiration != "" &&
              !contracts.Missing? && (kind == "CALL" || kind == "PUT") &&
              !(strike.Parsed? && premium.Parsed? && contracts.Parsed? &&
                strike.value > 0 && premium.value >= 0 && contracts.value > 0) ==>
                r == Reject(InvalidOptionNumbers)
      ensures r.Reject? ==> unchanged(this)
      ensures r.Ok? ==>
                options == old(options) +
                  [OptionRow(Upper(symbol), kind, strike.value, premium.value, expiration, contracts.value, false)] &&
                trades == old(trades) && cashHistory == old(cashHistory) && shorts == old(shorts)
    {
      if !IsMarketOpen(now) {
        return Reject(OptionsMarketClosed);
      }
      if symbol == "" || kind == "" || strike.Missing? || premium.Missing? || expiration == "" ||
         contracts.Missing? {
        return Reject(AllFieldsRequired);
      }
      if kind != "CALL" && kind != "PUT" {
        return Reject(InvalidOptionType);
      }
      if !strike.Parsed? || !premium.Parsed? || !contracts.Parsed? ||
         strike.value <= 0 || premium.value < 0 || contracts.value <= 0 {
        return Reject(InvalidOptionNumbers);
      }
      options := options +
        [OptionRow(Upper(symbol), kind, strike.value, premium.value, expiration, contracts.value, false)];
      r := Ok;
    }

    /**
     * The `index` page: one line per row of the holdings query as it is written, that is per
     * traded symbol, priced with its quote, and the account total, cash plus the value of
     * every line. A symbol sold out is still listed, with 0 shares.
     */
    method Index(quotes: map<string, Quote>) returns (portfolio: seq<PortfolioRow>, total: int)
      ensures portfolio == Lines(Positions(trades), quotes)
      ensures total == cash + TotalValue(portfolio)
      ensures forall i :: 0 <= i < |portfolio| ==> portfolio[i].shares == NetShares(trades, portfolio[i].symbol)
      ensures forall s :: Lists(portfolio, s) <==> Mentions(trades, s)
    {
      portfolio, total := PriceHoldings(Positions(trades), cash, quotes);
      LinesListTradedSymbols(portfolio, trades, quotes);
    }

    /**
     * The `history` page: trades and cash events merged, newest first, and the requested page
     * of fifteen, clamped to the pages that exist.
     */
    method ViewHistory(requested: int) returns (rows: seq<HistoryRow>, page: nat, maxPage: nat)
      ensures maxPage == MaxPage(|trades| + |cashHistory|)
      ensures page == ClampPage(requested, maxPage)
      ensures rows == PageSlice(SortByDateDesc(MergedRows(trades, cashHistory)), page)
      ensures |rows| <= PerPage
      ensures |trades| + |cashHistory| > 0 ==> |rows| > 0
      ensures SortedDesc(rows)
    {
      var all := SortByDateDesc(MergedRows(trades, cashHistory));
      SortSorted(MergedRows(trades, cashHistory));
      SortPermutes(MergedRows(trades, cashHistory));
      maxPage := MaxPage(|all|);
      page := ClampPage(requested, maxPage);
      var start := (page - 1) * PerPage;
      var end := start + PerPage;
      if start >= |all| {
        rows := [];
      } else if end >= |all| {
        rows := all[start..];
      } else {
        rows := all[start..end];
      }
      assert rows == PageSlice(all, page);
      PageSliceSorted(all, page);
      if |all| > 0 {
        ShownPageNonEmpty(all, requested);
      }
    }
  }

  // ---------------------------------------------------------------------------
  // Clients: what a caller can conclude from the contracts alone (money in cents)
  // ---------------------------------------------------------------------------

  /** $10,000 of cash, buy 10 shares at $50, then try to sell 15 of them. */
  method BuyThenOversell()
  {
    var tuesdayMorning := Clock(1, 10, 0, 0, 0);
    var quote := Some(Quote("ABC", 5000));
    var a := new Account(1000000);
    assert IsMarketOpen(tuesdayMorning);
    assert Priced(quote);
    assert TradeFormError("abc", Parsed(10)).None?;
    assert a.cash == 1000000;
    var r := a.Buy(tuesdayMorning, "abc", Parsed(10), quote, 1);
    assert r == Ok;
    assert a.cash == 950000 && |a.trades| == 1 && a.trades[0].shares == 10;
    assert NetShares(a.trades, Upper("abc")) == 10;
    r := a.Sell(tuesdayMorning, "abc", Parsed(15), quote, 2);
    assert r == Reject(NotEnoughShares);
    assert a.cash == 950000 && |a.trades| == 1;
    r := a.Buy(Clock(5, 10, 0, 0, 0), "abc", Parsed(1), quote, 3);
    assert r == Reject(MarketClosed);
  }

  /** Short 5 shares of X at $20, then buy all 5 back at $15. */
  method ShortThenCover()
  {
    var a := new Account(0);
    assert Upper("X") == "X";
    assert TradeFormError("X", Parsed(5)).None?;
    assert Priced(Some(Quote("X", 2000))) && Priced(Some(Quote("X", 1500)));
    var r := a.Short(ShortSell, "X", Parsed(5), Some(Quote("X", 2000)), 1);
    var position := ShortRow("X", 5, 2000, 1, false, None);
    assert a.cash == 10000 && a.shorts == [position];
    r := a.Short(ShortBuy, "X", Parsed(5), Some(Quote("X", 1500)), 2);
    assert OldestOpen([position], "X") == Some(0);
    assert r == Ok;
    assert a.cash == 2500 && a.shorts[0].closed;
  }

  /** A withdrawal of one cent more than the balance is refused. */
  method Overdraw(start: int)
    requires start >= 0
  {
    var a := new Account(start);
    var r := a.AdjustCash(Parsed(-start - 1), 1);
    assert r == Reject(NotEnoughCashToSubtract) && a.cash == start && a.cashHistory == [];
  }
}
