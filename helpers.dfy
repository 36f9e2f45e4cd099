/**
 * The two pure helpers of helpers.py: the text rewrite used by `apology`
 * (together with the `(page, status)` pair it returns) and the market-hours test.
 */
module Helpers {

  // ---------------------------------------------------------------------------
  // apology and its inner escape
  // ---------------------------------------------------------------------------

  /** One entry of the escape table: every occurrence of `from` becomes `to`. */
  datatype Rewrite = Rewrite(from: char, to: string)

  /** The replacement table of `escape`, in the order in which it is applied. */
  const EscapeTable: seq<Rewrite> :=
    [Rewrite('-', "--"), Rewrite(' ', "-"), Rewrite('_', "__"), Rewrite('?', "~q"),
     Rewrite('%', "~p"), Rewrite('#', "~h"), Rewrite('/', "~s"), Rewrite('"', "''")]

  /** The characters the table rewrites. */
  const Specials: set<char> := {'-', ' ', '_', '?', '%', '#', '/', '"'}

  /** The characters that no escaped text contains. */
  const Removed: set<char> := {' ', '?', '%', '#', '/', '"'}

  /** `s.replace(c, r)` for a one-character pattern: every occurrence, left to right. */
  function ReplaceAll(s: string, c: char, r: string): string
  {
    if s == [] then []
    else (if s[0] == c then r else [s[0]]) + ReplaceAll(s[1..], c, r)
  }

  /** The escape loop as a fold: the table's rewrites applied one after another to the whole text. */
  function ApplyTable(table: seq<Rewrite>, s: string): string
  {
    if table == [] then s
    else ApplyTable(table[1..], ReplaceAll(s, table[0].from, table[0].to))
  }

  /** What the escape does to one character of the original message. */
  function EscapeChar(c: char): string
  {
    match c
    case '-' => "--"
    case ' ' => "-"
    case '_' => "__"
    case '?' => "~q"
    case '%' => "~p"
    case '#' => "~h"
    case '/' => "~s"
    case '"' => "''"
    case _ => [c]
  }

  /** Reference definition: each character of the message rewritten on its own. */
  function EscapeRef(s: string): string
  {
    if s == [] then [] else EscapeChar(s[0]) + EscapeRef(s[1..])
  }

  lemma {:induction false} ReplaceAllConcat(a: string, b: string, c: char, r: string)
    ensures ReplaceAll(a + b, c, r) == ReplaceAll(a, c, r) + ReplaceAll(b, c, r)
  {
    if a != [] {
      assert (a + b)[1..] == a[1..] + b;
      ReplaceAllConcat(a[1..], b, c, r);
    } else {
      assert a + b == b;
    }
  }

  lemma {:induction false} ReplaceAllAbsent(s: string, c: char, r: string)
    requires c !in s
    ensures ReplaceAll(s, c, r) == s
  {
    if s != [] {
      ReplaceAllAbsent(s[1..], c, r);
    }
  }

  /** The fold distributes over concatenation: text is never rewritten across a boundary. */
  lemma {:induction false} ApplyTableConcat(table: seq<Rewrite>, a: string, b: string)
    ensures ApplyTable(table, a + b) == ApplyTable(table, a) + ApplyTable(table, b)
  {
    if table != [] {
      var c, r := table[0].from, table[0].to;
      ReplaceAllConcat(a, b, c, r);
      ApplyTableConcat(table[1..], ReplaceAll(a, c, r), ReplaceAll(b, c, r));
    }
  }

  /** A text containing none of the table's patterns goes through the fold unchanged. */
  lemma {:induction false} ApplyTableUntouched(table: seq<Rewrite>, s: string)
    requires forall k :: 0 <= k < |table| ==> table[k].from !in s
    ensures ApplyTable(table, s) == s
  {
    if table != [] {
      ReplaceAllAbsent(s, table[0].from, table[0].to);
      ApplyTableUntouched(table[1..], s);
    }
  }

  lemma ReplaceOne(c: char, x: char, r: string)
    ensures ReplaceAll([c], x, r) == if c == x then r else [c]
  {
    assert [c][1..] == [];
  }

  lemma ReplaceTwo(a: char, b: char, x: char, r: string)
    ensures ReplaceAll([a, b], x, r) == (if a == x then r else [a]) + (if b == x then r else [b])
  {
    assert [a, b] == [a] + [b];
    ReplaceAllConcat([a], [b], x, r);
    ReplaceOne(a, x, r);
    ReplaceOne(b, x, r);
  }

  /** One step of the fold: the table from entry `k` on is entry `k`'s rewrite, then the rest. */
  lemma Step(table: seq<Rewrite>, k: nat, s: string)
    requires k < |table|
    ensures ApplyTable(table[k..], s) == ApplyTable(table[k + 1..], ReplaceAll(s, table[k].from, table[k].to))
  {
    assert table[k..][1..] == table[k + 1..];
  }

  /** The escape table written out as eight nested `replace` calls. */
  lemma Unroll(s: string)
    ensures ApplyTable(EscapeTable, s) ==
      ReplaceAll(ReplaceAll(ReplaceAll(ReplaceAll(ReplaceAll(ReplaceAll(ReplaceAll(ReplaceAll(
        s, '-', "--"), ' ', "-"), '_', "__"), '?', "~q"), '%', "~p"), '#', "~h"), '/', "~s"), '"', "''")
  {
    var e := EscapeTable;
    var s1 := ReplaceAll(s, '-', "--");
    var s2 := ReplaceAll(s1, ' ', "-");
    var s3 := ReplaceAll(s2, '_', "__");
    var s4 := ReplaceAll(s3, '?', "~q");
    var s5 := ReplaceAll(s4, '%', "~p");
    var s6 := ReplaceAll(s5, '#', "~h");
    var s7 := ReplaceAll(s6, '/', "~s");
    var s8 := ReplaceAll(s7, '"', "''");
    assert e[0..] == e;
    Step(e, 0, s);
    Step(e, 1, s1);
    Step(e, 2, s2);
    Step(e, 3, s3);
    Step(e, 4, s4);
    Step(e, 5, s5);
    Step(e, 6, s6);
    Step(e, 7, s7);
    assert ApplyTable(e[8..], s8) == s8 by {
      assert e[8..] == [];
    }
  }

  // The eight special characters and all others, one lemma each.

  lemma EscapeDash()
    ensures ApplyTable(EscapeTable, ['-']) == "--"
  {
    Unroll(['-']);
    assert ReplaceAll(['-'], '-', "--") == "--" by { ReplaceOne('-', '-', "--"); }
    assert ReplaceAll("--", ' ', "-") == "--" by { ReplaceTwo('-', '-', ' ', "-"); }
    assert ReplaceAll("--", '_', "__") == "--" by { ReplaceTwo('-', '-', '_', "__"); }
    assert ReplaceAll("--", '?', "~q") == "--" by { ReplaceTwo('-', '-', '?', "~q"); }
    assert ReplaceAll("--", '%', "~p") == "--" by { ReplaceTwo('-', '-', '%', "~p"); }
    assert ReplaceAll("--", '#', "~h") == "--" by { ReplaceTwo('-', '-', '#', "~h"); }
    assert ReplaceAll("--", '/', "~s") == "--" by { ReplaceTwo('-', '-', '/', "~s"); }
    assert ReplaceAll("--", '"', "''") == "--" by { ReplaceTwo('-', '-', '"', "''"); }
  }

  lemma EscapeSpace()
    ensures ApplyTable(EscapeTable, [' ']) == "-"
  {
    Unroll([' ']);
    assert ReplaceAll([' '], '-', "--") == [' '] by { ReplaceOne(' ', '-', "--"); }
    assert ReplaceAll([' '], ' ', "-") == "-" by { ReplaceOne(' ', ' ', "-"); }
    assert ReplaceAll("-", '_', "__") == "-" by { ReplaceOne('-', '_', "__"); }
    assert ReplaceAll("-", '?', "~q") == "-" by { ReplaceOne('-', '?', "~q"); }
    assert ReplaceAll("-", '%', "~p") == "-" by { ReplaceOne('-', '%', "~p"); }
    assert ReplaceAll("-", '#', "~h") == "-" by { ReplaceOne('-', '#', "~h"); }
    assert ReplaceAll("-", '/', "~s") == "-" by { ReplaceOne('-', '/', "~s"); }
    assert ReplaceAll("-", '"', "''") == "-" by { ReplaceOne('-', '"', "''"); }
  }

  lemma EscapeUnderscore()
    ensures ApplyTable(EscapeTable, ['_']) == "__"
  {
    Unroll(['_']);
    assert ReplaceAll(['_'], '-', "--") == ['_'] by { ReplaceOne('_', '-', "--"); }
    assert ReplaceAll(['_'], ' ', "-") == ['_'] by { ReplaceOne('_', ' ', "-"); }
    assert ReplaceAll(['_'], '_', "__") == "__" by { ReplaceOne('_', '_', "__"); }
    assert ReplaceAll("__", '?', "~q") == "__" by { ReplaceTwo('_', '_', '?', "~q"); }
    assert ReplaceAll("__", '%', "~p") == "__" by { ReplaceTwo('_', '_', '%', "~p"); }
    assert ReplaceAll("__", '#', "~h") == "__" by { ReplaceTwo('_', '_', '#', "~h"); }
    assert ReplaceAll("__", '/', "~s") == "__" by { ReplaceTwo('_', '_', '/', "~s"); }
    assert ReplaceAll("__", '"', "''") == "__" by { ReplaceTwo('_', '_', '"', "''"); }
  }

  lemma EscapeQuestion()
    ensures ApplyTable(EscapeTable, ['?']) == "~q"
  {
    Unroll(['?']);
    assert ReplaceAll(['?'], '-', "--") == ['?'] by { ReplaceOne('?', '-', "--"); }
    assert ReplaceAll(['?'], ' ', "-") == ['?'] by { ReplaceOne('?', ' ', "-"); }
    assert ReplaceAll(['?'], '_', "__") == ['?'] by { ReplaceOne('?', '_', "__"); }
    assert ReplaceAll(['?'], '?', "~q") == "~q" by { ReplaceOne('?', '?', "~q"); }
    assert ReplaceAll("~q", '%', "~p") == "~q" by { ReplaceTwo('~', 'q', '%', "~p"); }
    assert ReplaceAll("~q", '#', "~h") == "~q" by { ReplaceTwo('~', 'q', '#', "~h"); }
    assert ReplaceAll("~q", '/', "~s") == "~q" by { ReplaceTwo('~', 'q', '/', "~s"); }
    assert ReplaceAll("~q", '"', "''") == "~q" by { ReplaceTwo('~', 'q', '"', "''"); }
  }

  lemma EscapePercent()
    ensures ApplyTable(EscapeTable, ['%']) == "~p"
  {
    Unroll(['%']);
    assert ReplaceAll(['%'], '-', "--") == ['%'] by { ReplaceOne('%', '-', "--"); }
    assert ReplaceAll(['%'], ' ', "-") == ['%'] by { ReplaceOne('%', ' ', "-"); }
    assert ReplaceAll(['%'], '_', "__") == ['%'] by { ReplaceOne('%', '_', "__"); }
    assert ReplaceAll(['%'], '?', "~q") == ['%'] by { ReplaceOne('%', '?', "~q"); }
    assert ReplaceAll(['%'], '%', "~p") == "~p" by { ReplaceOne('%', '%', "~p"); }
    assert ReplaceAll("~p", '#', "~h") == "~p" by { ReplaceTwo('~', 'p', '#', "~h"); }
    assert ReplaceAll("~p", '/', "~s") == "~p" by { ReplaceTwo('~', 'p', '/', "~s"); }
    assert ReplaceAll("~p", '"', "''") == "~p" by { ReplaceTwo('~', 'p', '"', "''"); }
  }

  lemma EscapeHash()
    ensures ApplyTable(EscapeTable, ['#']) == "~h"
  {
    Unroll(['#']);
    assert ReplaceAll(['#'], '-', "--") == ['#'] by { ReplaceOne('#', '-', "--"); }
    assert ReplaceAll(['#'], ' ', "-") == ['#'] by { ReplaceOne('#', ' ', "-"); }
    assert ReplaceAll(['#'], '_', "__") == ['#'] by { ReplaceOne('#', '_', "__"); }
    assert ReplaceAll(['#'], '?', "~q") == ['#'] by { ReplaceOne('#', '?', "~q"); }
    assert ReplaceAll(['#'], '%', "~p") == ['#'] by { ReplaceOne('#', '%', "~p"); }
    assert ReplaceAll(['#'], '#', "~h") == "~h" by { ReplaceOne('#', '#', "~h"); }
    assert ReplaceAll("~h", '/', "~s") == "~h" by { ReplaceTwo('~', 'h', '/', "~s"); }
    assert ReplaceAll("~h", '"', "''") == "~h" by { ReplaceTwo('~', 'h', '"', "''"); }
  }

  lemma EscapeSlash()
    ensures ApplyTable(EscapeTable, ['/']) == "~s"
  {
    Unroll(['/']);
    assert ReplaceAll(['/'], '-', "--") == ['/'] by { ReplaceOne('/', '-', "--"); }
    assert ReplaceAll(['/'], ' ', "-") == ['/'] by { ReplaceOne('/', ' ', "-"); }
    assert ReplaceAll(['/'], '_', "__") == ['/'] by { ReplaceOne('/', '_', "__"); }
    assert ReplaceAll(['/'], '?', "~q") == ['/'] by { ReplaceOne('/', '?', "~q"); }
    assert ReplaceAll(['/'], '%', "~p") == ['/'] by { ReplaceOne('/', '%', "~p"); }
    assert ReplaceAll(['/'], '#', "~h") == ['/'] by { ReplaceOne('/', '#', "~h"); }
    assert ReplaceAll(['/'], '/', "~s") == "~s" by { ReplaceOne('/', '/', "~s"); }
    assert ReplaceAll("~s", '"', "''") == "~s" by { ReplaceTwo('~', 's', '"', "''"); }
  }

  lemma EscapeQuote()
    ensures ApplyTable(EscapeTable, ['"']) == "''"
  {
    Unroll(['"']);
    assert ReplaceAll(['"'], '-', "--") == ['"'] by { ReplaceOne('"', '-', "--"); }
    assert ReplaceAll(['"'], ' ', "-") == ['"'] by { ReplaceOne('"', ' ', "-"); }
    assert ReplaceAll(['"'], '_', "__") == ['"'] by { ReplaceOne('"', '_', "__"); }
    assert ReplaceAll(['"'], '?', "~q") == ['"'] by { ReplaceOne('"', '?', "~q"); }
    assert ReplaceAll(['"'], '%', "~p") == ['"'] by { ReplaceOne('"', '%', "~p"); }
    assert ReplaceAll(['"'], '#', "~h") == ['"'] by { ReplaceOne('"', '#', "~h"); }
    assert ReplaceAll(['"'], '/', "~s") == ['"'] by { ReplaceOne('"', '/', "~s"); }
    assert ReplaceAll(['"'], '"', "''") == "''" by { ReplaceOne('"', '"', "''"); }
  }

  lemma EscapeOther(c: char)
    requires c !in Specials
    ensures ApplyTable(EscapeTable, [c]) == [c]
  {
    Unroll([c]);
    ReplaceAllAbsent([c], '-', "--");
    ReplaceAllAbsent([c], ' ', "-");
    ReplaceAllAbsent([c], '_', "__");
    ReplaceAllAbsent([c], '?', "~q");
    ReplaceAllAbsent([c], '%', "~p");
    ReplaceAllAbsent([c], '#', "~h");
    ReplaceAllAbsent([c], '/', "~s");
    ReplaceAllAbsent([c], '"', "''");
  }

  /**
   * The sequential table on a one-character text gives that character's rewrite:
   * in particular a space becomes one dash, since dashes were doubled before.
   */
  lemma EscapeOneChar(c: char)
    ensures ApplyTable(EscapeTable, [c]) == EscapeChar(c)
  {
    match c
    case '-' => EscapeDash();
    case ' ' => EscapeSpace();
    case '_' => EscapeUnderscore();
    case '?' => EscapeQuestion();
    case '%' => EscapePercent();
    case '#' => EscapeHash();
    case '/' => EscapeSlash();
    case '"' => EscapeQuote();
    case _ => EscapeOther(c);
  }

  /** The ordered table of `escape` rewrites every character of the message independently. */
  lemma {:induction false} EscapeIsPerChar(s: string)
    ensures ApplyTable(EscapeTable, s) == EscapeRef(s)
  {
    if s == [] {
      ApplyTableUntouched(EscapeTable, s);
    } else {
      assert s == [s[0]] + s[1..];
      ApplyTableConcat(EscapeTable, [s[0]], s[1..]);
      EscapeOneChar(s[0]);
      EscapeIsPerChar(s[1..]);
    }
  }

  lemma {:induction false} EscapeRefConcat(a: string, b: string)
    ensures EscapeRef(a + b) == EscapeRef(a) + EscapeRef(b)
  {
    if a == [] {
      assert a + b == b;
    } else {
      assert (a + b)[1..] == a[1..] + b;
      EscapeRefConcat(a[1..], b);
    }
  }

  /** No escaped text contains a space, `?`, `%`, `#`, `/` or `"`. */
  lemma {:induction false} EscapeRemovesSpecials(s: string)
    ensures forall k :: 0 <= k < |EscapeRef(s)| ==> EscapeRef(s)[k] !in Removed
  {
    if s != [] {
      EscapeRemovesSpecials(s[1..]);
      var head := EscapeChar(s[0]);
      assert forall k :: 0 <= k < |head| ==> head[k] !in Removed;
      assert EscapeRef(s) == head + EscapeRef(s[1..]);
    }
  }

  /** A message without any of the eight special characters is returned unchanged. */
  lemma {:induction false} EscapeIdentity(s: string)
    requires forall k :: 0 <= k < |s| ==> s[k] !in Specials
    ensures EscapeRef(s) == s
  {
    if s != [] {
      EscapeIdentity(s[1..]);
    }
  }

  /**
   * Dashes, underscores and spaces of the original message: `-` becomes `--`,
   * `_` becomes `__` and a space becomes a single `-`, wherever they stand.
   */
  lemma EscapeDashesAndSpaces(a: string, b: string)
    ensures EscapeRef(a + "-" + b) == EscapeRef(a) + "--" + EscapeRef(b)
    ensures EscapeRef(a + "_" + b) == EscapeRef(a) + "__" + EscapeRef(b)
    ensures EscapeRef(a + " " + b) == EscapeRef(a) + "-" + EscapeRef(b)
  {
    EscapeAround(a, '-', b);
    EscapeAround(a, '_', b);
    EscapeAround(a, ' ', b);
  }

  /** One character between two texts is escaped on its own. */
  lemma EscapeAround(a: string, c: char, b: string)
    ensures EscapeRef(a + [c] + b) == EscapeRef(a) + EscapeChar(c) + EscapeRef(b)
  {
    var e := EscapeChar(c);
    assert EscapeRef([c]) == e by {
      assert [c][1..] == [];
    }
    calc {
      EscapeRef(a + [c] + b);
      { EscapeRefConcat(a + [c], b); }
      EscapeRef(a + [c]) + EscapeRef(b);
      { EscapeRefConcat(a, [c]); }
      EscapeRef(a) + e + EscapeRef(b);
    }
  }


  /** The `escape` loop: one `replace` per table entry, in table order. */
  method Escape(message: string) returns (s: string)
    ensures s == ApplyTable(EscapeTable, message)
    ensures s == EscapeRef(message)
    ensures forall k :: 0 <= k < |s| ==> s[k] !in Removed
  {
    s := message;
    for i := 0 to |EscapeTable|
      invariant ApplyTable(EscapeTable[i..], s) == ApplyTable(EscapeTable, message)
    {
      assert EscapeTable[i..][1..] == EscapeTable[i + 1..];
      s := ReplaceAll(s, EscapeTable[i].from, EscapeTable[i].to);
    }
    EscapeIsPerChar(message);
    EscapeRemovesSpecials(message);
  }

  /** The rendered apology page: the code on top, the escaped message below. */
  datatype ApologyPage = ApologyPage(top: int, bottom: string)

  /** `apology(message, code=400)`: the page and the HTTP status it is returned with. */
  method Apology(message: string, code: int := 400) returns (page: ApologyPage, status: int)
    ensures page.top == code && status == code
    ensures page.bottom == EscapeRef(message)
  {
    var bottom := Escape(message);
    page := ApologyPage(code, bottom);
    status := code;
  }

  // ---------------------------------------------------------------------------
  // is_market_open
  // ---------------------------------------------------------------------------

  /**
   * The parts of the Eastern-time clock reading that `is_market_open` looks at;
   * `weekday` counts from Monday = 0, as Python's `weekday()` does.
   */
  datatype Clock = Clock(weekday: int, hour: int, minute: int, second: int, microsecond: int)

  /** The ranges a Python `datetime` keeps its fields in. */
  predicate ValidClock(t: Clock)
  {
    0 <= t.weekday < 7 && 0 <= t.hour < 24 && 0 <= t.minute < 60 &&
    0 <= t.second < 60 && 0 <= t.microsecond < 1000000
  }

  /** Microseconds since midnight. */
  function MicrosOfDay(t: Clock): int
  {
    ((t.hour * 60 + t.minute) * 60 + t.second) * 1000000 + t.microsecond
  }

  /** 09:30:00.000000 and 16:00:00.000000 in microseconds since midnight. */
  const OpenMicros: int := 34200000000
  const CloseMicros: int := 57600000000

  /**
   * `a <= b` on two times of one day, compared field by field as Python compares
   * two datetimes that share their date and their tzinfo.
   */
  predicate TimeLe(h1: int, m1: int, s1: int, u1: int, h2: int, m2: int, s2: int, u2: int)
  {
    h1 < h2 || (h1 == h2 && (m1 < m2 || (m1 == m2 && (s1 < s2 || (s1 == s2 && u1 <= u2)))))
  }

  /** Positional notation: with digits below `k`, the order of `x*k + y` is lexicographic. */
  lemma PlaceValue(x1: int, y1: int, x2: int, y2: int, k: int)
    requires 0 <= y1 < k && 0 <= y2 < k
    ensures x1 * k + y1 <= x2 * k + y2 <==> x1 < x2 || (x1 == x2 && y1 <= y2)
    ensures x1 * k + y1 == x2 * k + y2 <==> x1 == x2 && y1 == y2
  {
    if x1 < x2 {
      assert (x1 + 1) * k <= x2 * k;
      assert (x1 + 1) * k == x1 * k + k;
    } else if x2 < x1 {
      assert (x2 + 1) * k <= x1 * k;
      assert (x2 + 1) * k == x2 * k + k;
    }
  }

  /** For clocks in range, the field-by-field order is the order of microseconds since midnight. */
  lemma TimeLeIsMicros(a: Clock, b: Clock)
    requires ValidClock(a) && ValidClock(b)
    ensures TimeLe(a.hour, a.minute, a.second, a.microsecond, b.hour, b.minute, b.second, b.microsecond)
            <==> MicrosOfDay(a) <= MicrosOfDay(b)
  {
    var a1, b1 := a.hour * 60 + a.minute, b.hour * 60 + b.minute;
    var a2, b2 := a1 * 60 + a.second, b1 * 60 + b.second;
    PlaceValue(a.hour, a.minute, b.hour, b.minute, 60);
    PlaceValue(a1, a.second, b1, b.second, 60);
    PlaceValue(a2, a.microsecond, b2, b.microsecond, 1000000);
    assert a2 < b2 <==> a1 < b1 || (a1 == b1 && a.second < b.second) by {
      PlaceValue(a1, a.second, b1, b.second, 60);
      PlaceValue(b1, b.second, a1, a.second, 60);
    }
    assert a1 < b1 <==> a.hour < b.hour || (a.hour == b.hour && a.minute < b.minute) by {
      PlaceValue(b.hour, b.minute, a.hour, a.minute, 60);
    }
  }

  /**
   * `is_market_open`, with the Eastern-time reading passed in instead of read from the clock:
   * not on Saturday or Sunday, otherwise between the opening and the closing time.
   */
  function IsMarketOpen(now: Clock): (open: bool)
    ensures open ==> now.weekday < 5 && 9 <= now.hour <= 16
    ensures now.weekday < 5 && 10 <= now.hour <= 15 ==> open
  {
    if now.weekday >= 5 then false
    else
      TimeLe(9, 30, 0, 0, now.hour, now.minute, now.second, now.microsecond) &&
      TimeLe(now.hour, now.minute, now.second, now.microsecond, 16, 0, 0, 0)
  }

  /** Saturday and Sunday are closed at every time of day. */
  lemma MarketClosedOnWeekends(now: Clock)
    requires now.weekday >= 5
    ensures !IsMarketOpen(now)
  {
  }

  /** On a weekday the market is open from 09:30:00.000000 to 16:00:00.000000, both included. */
  lemma MarketOpenWindow(now: Clock)
    requires ValidClock(now)
    ensures IsMarketOpen(now) <==> now.weekday < 5 && OpenMicros <= MicrosOfDay(now) <= CloseMicros
  {
    TimeLeIsMicros(Clock(now.weekday, 9, 30, 0, 0), now);
    TimeLeIsMicros(now, Clock(now.weekday, 16, 0, 0, 0));
  }

  /** The two closing edges: one microsecond outside either end is closed, the ends themselves open. */
  lemma MarketEdges(weekday: int)
    requires 0 <= weekday < 5
    ensures IsMarketOpen(Clock(weekday, 9, 30, 0, 0))
    ensures IsMarketOpen(Clock(weekday, 16, 0, 0, 0))
    ensures !IsMarketOpen(Clock(weekday, 16, 0, 0, 1))
    ensures !IsMarketOpen(Clock(weekday, 9, 29, 59, 999999))
  {
  }
}
