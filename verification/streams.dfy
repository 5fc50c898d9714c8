/**
 * The stream URLs built by `useBinanceTicker`, `useBinanceAggTrades` and
 * `useBinanceMultiTicker` (hooks/useWebSocket.ts). Lower-casing is the ASCII
 * one; a symbol is an exchange pair name such as "BTCUSDT".
 */
module StreamUrls {

  const SINGLE_STREAM_BASE: string := "wss://stream.binance.com:9443/ws/"
  const COMBINED_STREAM_BASE: string := "wss://stream.binance.com:9443/stream?streams="
  const TICKER_SUFFIX: string := "@ticker"
  const AGG_TRADE_SUFFIX: string := "@aggTrade"
  const STREAM_SEPARATOR: char := '/'

  predicate IsAsciiUpper(c: char)
  {
    'A' <= c <= 'Z'
  }

  /** ASCII `toLowerCase` of one character. */
  function LowerChar(c: char): (r: char)
    ensures !IsAsciiUpper(r)
    ensures IsAsciiUpper(c) ==> 'a' <= r <= 'z' && r as int - c as int == 'a' as int - 'A' as int
    ensures !IsAsciiUpper(c) ==> r == c
  {
    if IsAsciiUpper(c) then (c as int - 'A' as int + 'a' as int) as char else c
  }

  /** ASCII `toLowerCase` of a string. */
  function Lower(s: string): (r: string)
    ensures |r| == |s|
    ensures forall i :: 0 <= i < |s| ==> r[i] == LowerChar(s[i])
    ensures forall i :: 0 <= i < |r| ==> !IsAsciiUpper(r[i])
  {
    if s == [] then [] else [LowerChar(s[0])] + Lower(s[1..])
  }

  /** Lower-casing twice is lower-casing once. */
  lemma LowerIdempotent(s: string)
    ensures Lower(Lower(s)) == Lower(s)
  {
    assert forall i :: 0 <= i < |s| ==> Lower(Lower(s))[i] == Lower(s)[i];
  }

  /** The stream name of one symbol's 24h ticker: `<symbol lower-cased>@ticker`. */
  function TickerStream(symbol: string): (r: string)
    ensures |r| == |symbol| + |TICKER_SUFFIX|
    ensures forall i :: 0 <= i < |symbol| ==> r[i] == LowerChar(symbol[i])
    ensures r[|symbol|..] == TICKER_SUFFIX
  {
    Lower(symbol) + TICKER_SUFFIX
  }

  /** `useBinanceTicker`'s url. */
  function TickerUrl(symbol: string): (r: string)
    ensures |r| == |SINGLE_STREAM_BASE| + |symbol| + |TICKER_SUFFIX|
    ensures r[..|SINGLE_STREAM_BASE|] == SINGLE_STREAM_BASE
    ensures forall i :: 0 <= i < |symbol| ==> r[|SINGLE_STREAM_BASE| + i] == LowerChar(symbol[i])
    ensures r[|SINGLE_STREAM_BASE| + |symbol|..] == TICKER_SUFFIX
  {
    SINGLE_STREAM_BASE + TickerStream(symbol)
  }

  /** `useBinanceAggTrades`'s url. */
  function AggTradeUrl(symbol: string): (r: string)
    ensures |r| == |SINGLE_STREAM_BASE| + |symbol| + |AGG_TRADE_SUFFIX|
    ensures r[..|SINGLE_STREAM_BASE|] == SINGLE_STREAM_BASE
    ensures forall i :: 0 <= i < |symbol| ==> r[|SINGLE_STREAM_BASE| + i] == LowerChar(symbol[i])
    ensures r[|SINGLE_STREAM_BASE| + |symbol|..] == AGG_TRADE_SUFFIX
  {
    SINGLE_STREAM_BASE + Lower(symbol) + AGG_TRADE_SUFFIX
  }

  /** `Array.prototype.join`: no separator for no or one part, otherwise one
      between each neighbouring pair. */
  function Join(parts: seq<string>, sep: char): (r: string)
    ensures |r| == TotalLength(parts) + (if parts == [] then 0 else |parts| - 1)
    ensures parts != [] ==> r[..|parts[0]|] == parts[0]
  {
    if parts == [] then ""
    else if |parts| == 1 then parts[0]
    else parts[0] + [sep] + Join(parts[1..], sep)
  }

  /** The summed length of the parts. */
  function TotalLength(parts: seq<string>): nat
  {
    if parts == [] then 0 else |parts[0]| + TotalLength(parts[1..])
  }

  /** The stream names of a symbol list, in list order. */
  function TickerStreams(symbols: seq<string>): (r: seq<string>)
    ensures |r| == |symbols|
    ensures forall i :: 0 <= i < |symbols| ==> r[i] == TickerStream(symbols[i])
  {
    if symbols == [] then [] else [TickerStream(symbols[0])] + TickerStreams(symbols[1..])
  }

  /** `useBinanceMultiTicker`'s url: the combined-stream endpoint with the
      ticker streams of all symbols joined by '/'. */
  function MultiTickerUrl(symbols: seq<string>): (r: string)
    ensures |r| >= |COMBINED_STREAM_BASE| && r[..|COMBINED_STREAM_BASE|] == COMBINED_STREAM_BASE
    ensures symbols == [] ==> r == COMBINED_STREAM_BASE
    ensures |symbols| == 1 ==> r == COMBINED_STREAM_BASE + TickerStream(symbols[0])
    ensures symbols != [] ==> |r| > |COMBINED_STREAM_BASE|
  {
    COMBINED_STREAM_BASE + Join(TickerStreams(symbols), STREAM_SEPARATOR)
  }

  /** Splitting at every occurrence of a separator, as `String.prototype.split`
      with a one-character separator does. */
  function Split(s: string, sep: char): (r: seq<string>)
    ensures |r| >= 1
  {
    if s == [] then [""]
    else
      var rest := Split(s[1..], sep);
      if s[0] == sep then [""] + rest
      else [[s[0]] + rest[0]] + rest[1..]
  }

  /** The number of occurrences of a character. */
  function Count(s: string, c: char): nat
  {
    if s == [] then 0 else (if s[0] == c then 1 else 0) + Count(s[1..], c)
  }

  lemma {:induction false} CountAppend(a: string, b: string, c: char)
    ensures Count(a + b, c) == Count(a, c) + Count(b, c)
  {
    if a == [] {
      assert a + b == b;
    } else {
      assert (a + b)[1..] == a[1..] + b;
      CountAppend(a[1..], b, c);
    }
  }

  lemma {:induction false} CountAbsent(s: string, c: char)
    requires c !in s
    ensures Count(s, c) == 0
  {
    if s != [] {
      CountAbsent(s[1..], c);
    }
  }

  /** A part without the separator stays whole at the front of the split. */
  lemma {:induction false} SplitPrefix(p: string, s: string, sep: char)
    requires sep !in p
    ensures Split(p + s, sep) == [p + Split(s, sep)[0]] + Split(s, sep)[1..]
  {
    if p != [] {
      assert (p + s)[1..] == p[1..] + s;
      SplitPrefix(p[1..], s, sep);
      assert [p[0]] + (p[1..] + Split(s, sep)[0]) == p + Split(s, sep)[0];
    } else {
      var r := Split(s, sep);
      assert p + s == s;
      assert p + r[0] == r[0];
      assert [r[0]] + r[1..] == r;
    }
  }

  /** Join has a partner: splitting a join of separator-free parts gives the
      parts back, in order. */
  lemma {:induction false} SplitJoin(parts: seq<string>, sep: char)
    requires |parts| >= 1
    requires forall i :: 0 <= i < |parts| ==> sep !in parts[i]
    ensures Split(Join(parts, sep), sep) == parts
  {
    if |parts| == 1 {
      SplitPrefix(parts[0], "", sep);
      assert parts[0] + "" == parts[0];
    } else {
      var rest := Join(parts[1..], sep);
      SplitJoin(parts[1..], sep);
      assert parts[0] + [sep] + rest == parts[0] + ([sep] + rest);
      SplitPrefix(parts[0], [sep] + rest, sep);
      assert ([sep] + rest)[1..] == rest;
      assert Split([sep] + rest, sep) == [""] + parts[1..];
      assert parts[0] + "" == parts[0];
    }
  }

  /** n separator-free parts are joined with exactly n - 1 separators. */
  lemma {:induction false} JoinSeparators(parts: seq<string>, sep: char)
    requires |parts| >= 1
    requires forall i :: 0 <= i < |parts| ==> sep !in parts[i]
    ensures Count(Join(parts, sep), sep) == |parts| - 1
  {
    CountAbsent(parts[0], sep);
    if |parts| > 1 {
      var rest := Join(parts[1..], sep);
      JoinSeparators(parts[1..], sep);
      CountAppend(parts[0] + [sep], rest, sep);
      CountAppend(parts[0], [sep], sep);
      assert Count([sep], sep) == 1 by {
        assert [sep][1..] == [];
      }
    }
  }

  /** A symbol without the separator gives a stream name without it. */
  lemma TickerStreamsSeparatorFree(symbols: seq<string>)
    requires forall i :: 0 <= i < |symbols| ==> STREAM_SEPARATOR !in symbols[i]
    ensures forall i :: 0 <= i < |symbols| ==> STREAM_SEPARATOR !in TickerStreams(symbols)[i]
  {
    forall i | 0 <= i < |symbols| ensures STREAM_SEPARATOR !in TickerStreams(symbols)[i] {
      var low := Lower(symbols[i]);
      assert forall k :: 0 <= k < |low| ==> low[k] != STREAM_SEPARATOR by {
        forall k | 0 <= k < |low| ensures low[k] != STREAM_SEPARATOR {
          assert symbols[i][k] in symbols[i];
        }
      }
      assert STREAM_SEPARATOR !in TICKER_SUFFIX;
      assert TickerStreams(symbols)[i] == low + TICKER_SUFFIX;
    }
  }

  /** The combined url of a symbol list: its stream part splits back into one
      ticker stream per symbol, in order, with one separator fewer than there
      are symbols; an empty list leaves the `streams=` value empty. */
  lemma MultiTickerUrlStreams(symbols: seq<string>)
    requires forall i :: 0 <= i < |symbols| ==> STREAM_SEPARATOR !in symbols[i]
    ensures MultiTickerUrl(symbols)[..|COMBINED_STREAM_BASE|] == COMBINED_STREAM_BASE
    ensures symbols == [] ==> MultiTickerUrl(symbols) == COMBINED_STREAM_BASE
    ensures symbols != [] ==>
      Split(MultiTickerUrl(symbols)[|COMBINED_STREAM_BASE|..], STREAM_SEPARATOR) == TickerStreams(symbols)
    ensures symbols != [] ==>
      Count(MultiTickerUrl(symbols)[|COMBINED_STREAM_BASE|..], STREAM_SEPARATOR) == |symbols| - 1
  {
    var parts := TickerStreams(symbols);
    var joined := Join(parts, STREAM_SEPARATOR);
    assert MultiTickerUrl(symbols) == COMBINED_STREAM_BASE + joined;
    assert MultiTickerUrl(symbols)[|COMBINED_STREAM_BASE|..] == joined;
    if symbols != [] {
      TickerStreamsSeparatorFree(symbols);
      SplitJoin(parts, STREAM_SEPARATOR);
      JoinSeparators(parts, STREAM_SEPARATOR);
    }
  }

  /** Two symbols share a ticker url exactly when they agree up to ASCII case. */
  lemma TickerUrlSameIff(a: string, b: string)
    ensures TickerUrl(a) == TickerUrl(b) <==> Lower(a) == Lower(b)
  {
    if TickerUrl(a) == TickerUrl(b) {
      var n := |SINGLE_STREAM_BASE|;
      assert |Lower(a)| == |Lower(b)|;
      assert Lower(a) == TickerUrl(a)[n..n + |Lower(a)|];
      assert Lower(b) == TickerUrl(b)[n..n + |Lower(b)|];
    }
  }

  /** Two symbols share an aggregate-trade url exactly when they agree up to
      ASCII case. */
  lemma AggTradeUrlSameIff(a: string, b: string)
    ensures AggTradeUrl(a) == AggTradeUrl(b) <==> Lower(a) == Lower(b)
  {
    if AggTradeUrl(a) == AggTradeUrl(b) {
      var n := |SINGLE_STREAM_BASE|;
      assert |Lower(a)| == |Lower(b)|;
      assert Lower(a) == AggTradeUrl(a)[n..n + |Lower(a)|];
      assert Lower(b) == AggTradeUrl(b)[n..n + |Lower(b)|];
    }
  }

  /** A ticker url is never an aggregate-trade url: the suffixes differ in
      their last character. */
  lemma TickerAndAggTradeUrlsDiffer(a: string, b: string)
    ensures TickerUrl(a) != AggTradeUrl(b)
  {
    var t := TickerUrl(a);
    var g := AggTradeUrl(b);
    assert t[|t| - 1] == 'r';
    assert g[|g| - 1] == 'e';
  }
}
