# StockTrak account ledger in Dafny

StockTrak is a simulated stock-trading web application. This project models its account
rules: what the `buy`, `sell`, `cash`, `short` and `options` handlers of `app.py` accept or
refuse, and how each accepted request changes a user's cash and log tables. It also models
the two derived views, the `index` portfolio and the paginated `history`, and two helpers of
`helpers.py`: the `escape` rewrite inside `apology`, and `is_market_open`.

Modules:

- `Wrappers` (wrappers.dfy) holds `Option`.
- `Helpers` (helpers.dfy) holds the `escape` table with its loop (`Escape`) and the per-character
  definition it is proved equal to (`EscapeRef`), `Apology`, and `IsMarketOpen` over an explicit
  `Clock` reading.
- `Ledger` (ledger.dfy) holds the log records (`Trade`, `CashEvent`, `ShortRow`, `OptionRow`) and
  pure functions over them:
  - held shares per symbol (`NetShares`, the signed sum of the SQL `SUM(CASE …)`);
  - the rows of the portfolio query `GROUP BY symbol HAVING shares > 0`: as the code has it
    (`Positions`, every traded symbol) and as its comment intends (`Holdings`, only the symbols
    with a positive held count; see Findings);
  - the selection of the oldest open short row (`OldestOpen`).
- `History` (history.dfy) holds the merge of trades and cash events and a stable descending sort
  by date (Python's `list.sort` is stable). It also holds the page arithmetic (`MaxPage`,
  `ClampPage`, `PageSlice`).
- `App` (app.dfy) holds the `Account` class.
  - Its fields are `cash` and the user's rows of `transactions`, `cash_history`, `shorts` and
    `options`.
  - Each POST handler is one method returning `Ok` or `Reject(reason)`.
  - A rejection changes nothing.
  - An accepted request applies its cash update and its row insert or update together.
  - `Index` and `ViewHistory` are the read-only views.

Modelling choices:

- **Money.** Money is integer cents.
- **Quotes.** A quote is `Option<Quote(name, price)>` supplied by the caller. It counts as
  usable (`Priced`) when present with a non-zero price, which is what `not quote or not
  quote.get("price")` rejects.
- **Form fields.** A form field is `Missing` (absent or empty), `Malformed` (`int()` or
  `float()` raises) or `Parsed(value)`.
- **Timestamps.** Timestamps are integers supplied by the caller.
- **Clock.** `is_market_open` takes the Eastern-time reading as a parameter.

What the code does, which the model follows:

- Buy, sell and short accept any non-zero price, negative included: the guard is
  `not quote.get("price")`, not a sign test.
- History ordering is the stable `list.sort(reverse=True)`, so rows with equal timestamps keep
  their merged order; the page is newest first, not strictly descending.
- The `index` page lists every traded symbol, a sold-out one with 0 shares, because the
  `HAVING` clause does not filter on the aggregate (see Findings). `Account.Index` is built on
  that query as written.
- Cash cannot be rebuilt by replaying the log. A buy-back's price is not recorded anywhere:
  it only updates `users.cash` and the short row's `shares` or `closed`. So no
  reconstruction lemma is stated.

## Model

| member | source | states |
|---|---|---|
| Helpers.Escape | helpers.py:15-24 | the loop of one `replace` per table pair, in table order, yields the table fold and the per-character rewrite `EscapeRef`, and leaves no space, `?`, `%`, `#`, `/` or `"` in its result |
| Helpers.EscapeIsPerChar | helpers.py:21-23 | applying the eight replacements in order equals rewriting each character of the original message on its own |
| Helpers.EscapeOneChar | helpers.py:21-22 | a lone space becomes a single `-`, because the dash doubling runs before the space rewrite; every other special character gets its own replacement, and any other character is unchanged |
| Helpers.EscapeRemovesSpecials | helpers.py:21-23 | no escaped message contains a space, `?`, `%`, `#`, `/` or `"` |
| Helpers.EscapeDashesAndSpaces | helpers.py:21-23 | wherever it stands, an original `-` becomes `--`, an original `_` becomes `__` and a space becomes one `-` |
| Helpers.EscapeIdentity | helpers.py:21-24 | a message with none of the eight special characters is returned unchanged |
| Helpers.EscapeAround | helpers.py:21-23 | one character between two texts is escaped on its own, whatever surrounds it |
| Helpers.EscapeRefConcat | helpers.py:21-23 | the escape of a concatenation is the concatenation of the escapes |
| Helpers.Apology | helpers.py:13-25 | the page shows the code on top and the escaped message below, and is returned with the code as status, 400 when no code is given |
| Helpers.IsMarketOpen | helpers.py:136-143 | open only on a weekday between 9 and 16 o'clock, and always open on a weekday from 10:00 to 15:59 |
| Helpers.TimeLeIsMicros | helpers.py:141-143 | for in-range clock fields, comparing two same-day times field by field agrees with comparing their microseconds since midnight |
| Helpers.MarketClosedOnWeekends | helpers.py:139-140 | Saturday and Sunday are closed at any time |
| Helpers.MarketOpenWindow | helpers.py:136-143 | the market is open exactly on weekdays from 09:30:00.000000 to 16:00:00.000000, both ends included |
| Helpers.MarketEdges | helpers.py:141-143 | 09:30:00.000000 and 16:00:00.000000 are open; 09:29:59.999999 and 16:00:00.000001 are closed |
| Ledger.NetShares | app.py:178-180 | the signed sum of a symbol's BUY and SELL counts, with an empty sum read as 0, so a symbol without rows is held 0 times |
| Ledger.NetIsBoughtMinusSold | app.py:33 | held shares of a symbol are its BUY shares minus its SELL shares |
| Ledger.NetSharesAppend | app.py:178-180 | appending a trade changes only its own symbol's held count, by plus or minus its shares |
| Ledger.AppendKeepsHeldNonNegative | app.py:147-192 | logging a buy, or a sell of no more than the held count, keeps every held count non-negative and moves only its own symbol's count |
| Ledger.Symbols | app.py:33 | the distinct symbols of the log: a symbol is listed iff some trade names it, each once |
| Ledger.Positions | app.py:33-34 | the query as written returns one row per traded symbol, each once, with its held count |
| Ledger.PositionsNonNegative | app.py:33-34 | while no held count is negative, no returned row has a negative count |
| Ledger.SoldOutStillListed | app.py:33-34 | after buying 10 ABC and selling 10 ABC the query still returns ABC, with 0 shares, which the intended holdings list leaves out |
| Ledger.Holdings | app.py:32-33 | the intended holdings list ("exclude 0 shares") holds exactly the symbols with a positive held count, each once, with that count |
| Ledger.HoldingsArePositivePositions | app.py:32-33 | the intended holdings are exactly the positions with a positive held count |
| Ledger.OldestOpen | app.py:272-273 | none iff no open row for the symbol; otherwise an open row for it whose open date no open row for it precedes, and no earlier row with the same date |
| Ledger.OldestOpenIsUnique | app.py:272-273 | an open row with the earliest open date, first among equal dates, is the one selected |
| Ledger.ClosedRowNotCovered | app.py:272-285 | a row marked closed is never selected for another buy-back |
| History.MergedRows | app.py:202-206 | trades come first as BUY/SELL rows without cash change, then the cash events as CASH rows without symbol, one row each and in order |
| History.InsertSorted | app.py:207 | inserting into a list sorted newest first keeps it sorted |
| History.InsertPermutes | app.py:207 | inserting adds exactly that one row |
| History.SortSorted | app.py:207 | the sort result is newest first |
| History.SortPermutes | app.py:207 | the sort result is a permutation of its input, of the same length |
| History.SortStable | app.py:207 | rows with the same date keep their relative order |
| History.MaxPage | app.py:211-213 | max_page is at least 1 and is the least page count of fifteen rows that covers all rows |
| History.ClampPage | app.py:214 | the shown page lies in 1..max_page: requests below 1 show page 1, requests above max_page show max_page, others are kept |
| History.PageSlice | app.py:215-217 | page p shows rows (p-1)·15 up to, not including, p·15, cut at the end of the list: at most fifteen rows |
| History.PageSliceSorted | app.py:215-217 | a page of a list sorted newest first is sorted newest first |
| History.ShownPageNonEmpty | app.py:212-217 | when there is any row, the clamped page is never empty |
| History.RowOnItsPage | app.py:213-217 | row k appears on page k/15+1, at position k mod 15 |
| App.RejectionPage | helpers.py:13-25 | a handler's refusal is the apology page of its message with status 400 |
| App.Message | app.py:127-321 | the text each handler passes to `apology` for each refusal, word for word |
| App.Priced | app.py:139-140 | a quote is usable only when the lookup succeeded and gave a non-zero price |
| App.TradeFormError | app.py:130-137 | the symbol and share-count checks pass exactly for a non-empty symbol and a positive integer count; a missing field is reported before a bad count |
| App.LineFor | app.py:40-55 | a line keeps the holding's symbol and count; it takes the quote's name and price, or the symbol as name and price 0 when the lookup failed; its value is price times shares |
| App.Lines | app.py:37-55 | one line per holding, in the holdings' order |
| App.LinesListTradedSymbols | app.py:33-55 | the lines of the query as written list a symbol iff some trade names it, always with its held count |
| App.LinesListHeldSymbols | app.py:32-55 | the lines of the intended holdings list a symbol iff its held count is positive, always with that count |
| App.Account.Buy | app.py:122-155 | checks in source order: market hours, form, quote, then cost against cash. Refused for not enough cash iff cost > cash, so spending all of it is allowed. A refusal changes nothing. On success cash drops by exactly price·shares and one BUY row with the upper-cased symbol is appended |
| App.Account.Sell | app.py:158-193 | checks in order: market hours, form, held shares, quote. Refused iff the count exceeds the held count, 0 when there are no rows. On success cash rises by price·shares and one SELL row is appended. The symbol's held count drops by the count and stays non-negative |
| App.Account.AdjustCash | app.py:220-238 | an unparsable amount is refused. Otherwise refused iff cash + amount < 0. On success cash grows by amount, one cash event of that amount is appended, and cash stays non-negative |
| App.Account.Short | app.py:241-289 | form and quote are checked first. A short sale is always accepted: cash is credited price·shares and one open row is appended. A buy-back looks only at the oldest open row for the symbol. It is refused if there is none or it has too few shares, else if cash < cost. On success cash drops by the cost, that row is closed when fully covered or reduced otherwise, and every other row is unchanged |
| App.Account.EnterOption | app.py:295-325 | checks in order: market hours, all fields present, type CALL or PUT, then strike > 0, premium >= 0, contracts > 0. Accepted iff all hold, and then one row is appended. Cash never changes |
| App.PriceHoldings | app.py:35-55 | the loop builds one line per holding, priced from its quote or at 0 under its symbol when the lookup failed; the total is the starting balance plus the sum of the lines' values |
| App.Account.Index | app.py:24-56 | the page lists the lines of the query's rows in order: a line for a symbol iff some trade names it, with its held count. The total is cash plus the sum of the lines' values |
| App.Account.ViewHistory | app.py:196-218 | the shown page is the clamped page of the merged rows sorted newest first: at most fifteen rows, newest first, and non-empty when any row exists |

## Left out

- HTTP routing, templates, `flash`, `redirect`, sessions and `login_required`: request and response glue with no ledger rules.
- Registration, login and logout: password hashing is in a foreign library. `Account.constructor` stands for a new user's row.
- The quote page and `lookup`: network calls to a quote service. The quote is a parameter of each operation.
- `usd` and the flash and message texts built with it: float formatting only.
- Float money: the model uses exact integer cents, and it leaves out `float()` accepting `nan` and `inf` amounts.
- The SQLite connection, the SQL text and the race between concurrent requests on one account: each handler is one atomic method.
- The GET forms and the listing of open short and option rows under the `short` and `options` forms: display queries that change nothing.
- `static/quote_script.js`: browser chart rendering.
- The `CURRENT_TIMESTAMP` values: timestamps are integers the caller supplies. Reading the Eastern-time clock in `is_market_open`: the reading is a parameter.
- A non-integer `page` argument, which makes `int()` raise inside `history`: the requested page is an integer.
- `App.Upper`: models `str.upper` for ASCII letters only.
- `Helpers.ReplaceAll`: models `str.replace` for one-character patterns only, which covers all eight table entries.
- `Ledger.Positions` and `Ledger.Holdings`: list symbols in first-trade order; the order of SQL `GROUP BY` rows is unspecified.
- `History.MergedRows`: keeps each table's rows in log order. The two `SELECT`s of `history` have no `ORDER BY`, so SQLite may return them in another order, and that order is what the stable sort keeps among equal dates.
- `App.Account.Buy`, `App.Account.Short` and `App.Account.EnterOption`: do not model SQLite's 64-bit `INTEGER`. A share or contract count of 2^63 or more makes the `INSERT` raise `OverflowError`, and the uncommitted cash update is rolled back; the model accepts the request instead.
- `Ledger.NetShares`: does not model SQLite's `SUM` raising on a 64-bit overflow; the held count is an unbounded integer.
- `Ledger.OldestOpen`: breaks ties between equal open dates by the lowest row position, where SQLite leaves the order of `ORDER BY open_date` ties unspecified.
- `History.SortByDateDesc`: sorts the merged list as a value rather than in place, because `list.sort` is library code.

## Findings

| source | as written | input that shows it | evidently intended | confidence | as-written member | corrected member |
|---|---|---|---|---|---|---|
| app.py:33 | `HAVING shares > 0` names the column `transactions.shares` of one row of the group, since SQLite looks up a bare name among the table's columns before the result aliases; every stored count is positive, so no group is dropped | buy 10 ABC, then sell 10 ABC: the page lists ABC with 0 shares and value 0 | list only symbols whose summed count is positive, as the comment "exclude 0 shares" says | not executed; rests on SQLite's name resolution for `HAVING` | Ledger.Positions, Ledger.SoldOutStillListed | Ledger.Holdings, App.LinesListHeldSymbols |
