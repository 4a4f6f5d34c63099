/** Quoted values: the Python closer driven by regular expressions (`_quote_close`) and the
    TypeScript one that counts (`quoteClose`), against one definition. */
module Quotes {

  predicate IsQuote(c: char) { c == '"' || c == '\'' }

  /** The end of the run of backslashes at `p`. */
  function RunEnd(line: string, p: nat): (e: nat)
    requires p <= |line|
    ensures p <= e <= |line|
    ensures forall k | p <= k < e :: line[k] == '\\'
    ensures e < |line| ==> line[e] != '\\'
    decreases |line| - p
  {
    if p < |line| && line[p] == '\\' then RunEnd(line, p + 1) else p
  }

  /** `_delimiter`: backslashes and a quote at `pos`, or "". */
  function Delimiter(line: string, pos: nat): (d: string)
    requires pos <= |line|
    ensures d != "" ==> pos + |d| <= |line| && d == line[pos..pos + |d|] && IsQuote(d[|d| - 1])
  {
    var e := RunEnd(line, pos);
    if e < |line| && IsQuote(line[e]) then line[pos..e + 1] else ""
  }

  /** It is the opener: backslashes, as many as there are, and a quote; "" if there is none. */
  lemma DelimiterIs(line: string, pos: nat, n: nat)
    requires pos <= |line|
    ensures pos + n < |line| && IsQuote(line[pos + n]) && (forall k | pos <= k < pos + n :: line[k] == '\\')
            <==> |Delimiter(line, pos)| == n + 1
  {
    var e := RunEnd(line, pos);
    assert e < |line| && IsQuote(line[e]) ==> |Delimiter(line, pos)| == e + 1 - pos;
  }

  predicate IsFence(c: char) { IsQuote(c) || c == '\\' }

  lemma OpeningFence(line: string, pos: nat)
    requires pos <= |line|
    ensures forall k | pos <= k < pos + |Delimiter(line, pos)| :: IsFence(line[k])
  {}

  // ---- What closes a value ----

  /** The number of backslashes right before `p`, none counted before `from`. */
  function RunBefore(line: string, from: nat, p: nat): (n: nat)
    requires from <= p <= |line|
    ensures n <= p - from
  {
    if from < p && line[p - 1] == '\\' then 1 + RunBefore(line, from, p - 1) else 0
  }

  /** A quote after exactly `k` backslashes starts its closing delimiter at `p`; a plain one
      (`k` = 0) closes where an even number of backslashes, none of them escaping it, precede it. */
  predicate Closes(line: string, from: nat, k: nat, quote: char, p: nat)
    requires from <= p <= |line|
  {
    if k == 0 then p < |line| && line[p] == quote && RunBefore(line, from, p) % 2 == 0
    else p + k < |line| && line[p + k] == quote && RunBefore(line, from, p + k) == k
  }

  predicate Stops(line: string, from: nat, k: nat, quote: char, p: nat)
    requires from <= p <= |line|
  {
    p == |line| || line[p] == '\n' || Closes(line, from, k, quote, p)
  }

  /** The value opened with `k` backslashes and `quote` ends at the first stop, and closes
      there unless the stop is a line break or the end of the text. */
  ghost predicate IsClose(line: string, from: nat, k: nat, quote: char, r: (nat, bool)) {
    && from <= r.0 <= |line|
    && (r.1 <==> Closes(line, from, k, quote, r.0))
    && Stops(line, from, k, quote, r.0)
    && forall p | from <= p < r.0 :: !Stops(line, from, k, quote, p)
  }

  lemma CloseIsUnique(line: string, from: nat, k: nat, quote: char, a: (nat, bool), b: (nat, bool))
    requires IsClose(line, from, k, quote, a) && IsClose(line, from, k, quote, b)
    ensures a == b
  {}

  function FirstStop(line: string, from: nat, k: nat, quote: char, p: nat): (e: nat)
    requires from <= p <= |line|
    ensures p <= e <= |line| && Stops(line, from, k, quote, e)
    ensures forall q | p <= q < e :: !Stops(line, from, k, quote, q)
    decreases |line| - p
  {
    if Stops(line, from, k, quote, p) then p else FirstStop(line, from, k, quote, p + 1)
  }

  /** Where the value that opens at `start` ends, and whether it closes there. */
  function CloseOf(line: string, start: nat): (r: (nat, bool))
    requires start <= |line| && Delimiter(line, start) != ""
    ensures start + |Delimiter(line, start)| <= r.0 <= |line|
    ensures r.1 ==> r.0 + |Delimiter(line, start)| <= |line|
  {
    var d := Delimiter(line, start);
    var e := FirstStop(line, start + |d|, |d| - 1, d[|d| - 1], start + |d|);
    (e, Closes(line, start + |d|, |d| - 1, d[|d| - 1], e))
  }

  /** It is the first stop, and it closes there just when the stop is a closing delimiter. */
  lemma CloseOfIsFirst(line: string, start: nat)
    requires start <= |line| && Delimiter(line, start) != ""
    ensures var d := Delimiter(line, start); IsClose(line, start + |d|, |d| - 1, d[|d| - 1], CloseOf(line, start))
  {
    var d := Delimiter(line, start);
    var e := CloseOf(line, start).0;
    assert Stops(line, start + |d|, |d| - 1, d[|d| - 1], e);
  }

  lemma OnlyClose(line: string, start: nat, from: nat, k: nat, quote: char)
    requires start <= |line| && Delimiter(line, start) != ""
    requires var d := Delimiter(line, start); from == start + |d| && k == |d| - 1 && quote == d[k]
    ensures forall r :: IsClose(line, from, k, quote, r) ==> r == CloseOf(line, start)
  {
    CloseOfIsFirst(line, start);
    forall r | IsClose(line, from, k, quote, r) ensures r == CloseOf(line, start) {
      CloseIsUnique(line, from, k, quote, r, CloseOf(line, start));
    }
  }

  // ---- Plain quotes: the same pattern in both languages ----

  /** `[^q\\\n]*(?:\\[^\n]?[^q\\\n]*)*` from `p` on. */
  function QuotedRun(line: string, p: nat, quote: char): (e: nat)
    requires p <= |line|
    ensures p <= e <= |line|
    decreases |line| - p
  {
    if p == |line| || line[p] == quote || line[p] == '\n' then p
    else if line[p] == '\\' && p + 1 < |line| && line[p + 1] != '\n' then QuotedRun(line, p + 2, quote)
    else QuotedRun(line, p + 1, quote)
  }

  lemma {:induction false} QuotedRunIsClose(line: string, from: nat, p: nat, quote: char)
    requires from <= p <= |line| && IsQuote(quote) && RunBefore(line, from, p) % 2 == 0
    requires forall k | from <= k < p :: !Stops(line, from, 0, quote, k)
    ensures var e := QuotedRun(line, p, quote);
            IsClose(line, from, 0, quote, (e, e < |line| && line[e] == quote))
    decreases |line| - p
  {
    if p == |line| || line[p] == quote || line[p] == '\n' {
    } else if line[p] == '\\' && p + 1 < |line| && line[p + 1] != '\n' {
      EscapedPair(line, from, p, quote);
      QuotedRunIsClose(line, from, p + 2, quote);
    } else if line[p] == '\\' {
      assert QuotedRun(line, p + 1, quote) == p + 1;
    } else {
      QuotedRunIsClose(line, from, p + 1, quote);
    }
  }

  /** A backslash that nothing escapes and the character after it stop nothing. */
  lemma EscapedPair(line: string, from: nat, p: nat, quote: char)
    requires from <= p && p + 1 < |line| && IsQuote(quote) && RunBefore(line, from, p) % 2 == 0
    requires line[p] == '\\' && line[p + 1] != '\n'
    ensures !Stops(line, from, 0, quote, p) && !Stops(line, from, 0, quote, p + 1)
    ensures RunBefore(line, from, p + 2) % 2 == 0
  {
    assert RunBefore(line, from, p + 1) == 1 + RunBefore(line, from, p);
  }

  // ---- Escaped quotes ----

  predicate Matches(line: string, p: nat, e: nat, quote: char) {
    && p < e <= |line|
    && (|| (line[p] == '\n' && e == p + 1)
        || ((p == 0 || line[p - 1] != '\\') && RunEnd(line, p) == e - 1 && line[e - 1] == quote))
  }

  ghost predicate NoMatch(line: string, p: nat, quote: char) {
    forall e: nat :: !Matches(line, p, e, quote)
  }

  /** Where the search of `(?<!\\)(\\*+)q|\n` from `at` matches next, and where that match ends. */
  method NextMatch(line: string, at: nat, quote: char) returns (found: bool, start: nat, end: nat)
    requires at <= |line| && IsQuote(quote)
    ensures found ==> at <= start < end <= |line| && Matches(line, start, end, quote)
    ensures forall p | at <= p < (if found then start else |line|) :: NoMatch(line, p, quote)
  {
    start := at;
    while start < |line|
      invariant at <= start <= |line|
      invariant forall p | at <= p < start :: NoMatch(line, p, quote)
    {
      var e := RunEnd(line, start);
      if (start == 0 || line[start - 1] != '\\') && e < |line| && line[e] == quote {
        return true, start, e + 1;
      }
      if line[start] == '\n' { return true, start, start + 1; }
      assert NoMatch(line, start, quote);
      start := start + 1;
    }
    found, end := false, start;
  }

  lemma {:induction false} RunBeforeIs(line: string, from: nat, p: nat, q: nat)
    requires from <= p <= q <= |line| && forall k | p <= k < q :: line[k] == '\\'
    requires p == from || line[p - 1] != '\\'
    ensures RunBefore(line, from, q) == q - p
    decreases q
  {
    if p < q { RunBeforeIs(line, from, p, q - 1); }
  }

  lemma {:induction false} RunBeforeSpans(line: string, from: nat, q: nat)
    requires from <= q <= |line|
    ensures var p := q - RunBefore(line, from, q);
            && (forall k | p <= k < q :: line[k] == '\\')
            && (p == from || line[p - 1] != '\\')
    decreases q
  {
    if from < q && line[q - 1] == '\\' { RunBeforeSpans(line, from, q - 1); }
  }

  /** A value that closes ends in a delimiter: backslashes and a quote. */
  lemma ClosingFence(line: string, start: nat)
    requires start <= |line| && Delimiter(line, start) != "" && CloseOf(line, start).1
    ensures var e := CloseOf(line, start).0;
            forall k | e <= k < e + |Delimiter(line, start)| :: IsFence(line[k])
  {
    var d := Delimiter(line, start);
    CloseFence(line, start + |d|, |d| - 1, d[|d| - 1], CloseOf(line, start).0);
  }

  lemma CloseFence(line: string, from: nat, k: nat, quote: char, p: nat)
    requires from <= p <= |line| && IsQuote(quote) && Closes(line, from, k, quote, p)
    ensures p + k < |line| && forall j | p <= j <= p + k :: IsFence(line[j])
  {
    if k > 0 { RunBeforeSpans(line, from, p + k); }
  }

  /** A position that closes is the start of a match of the pattern; `from` follows a quote. */
  lemma ClosesIsMatch(line: string, from: nat, k: nat, quote: char, p: nat)
    requires 0 < k && 0 < from <= p <= |line| && IsQuote(quote) && line[from - 1] != '\\'
    ensures Closes(line, from, k, quote, p) <==> Matches(line, p, p + k + 1, quote)
  {
    if Closes(line, from, k, quote, p) {
      RunBeforeSpans(line, from, p + k);
      assert RunEnd(line, p) == p + k by {
        assert line[p + k] != '\\';
        assert p + k <= |line| && forall j | p <= j < p + k :: line[j] == '\\';
      }
    }
    if Matches(line, p, p + k + 1, quote) {
      RunBeforeIs(line, from, p, p + k);
    }
  }

  /** `_quote_close` of the redactor. */
  method QuoteClose(line: string, start: nat) returns (end: nat, closed: bool)
    requires start <= |line| && Delimiter(line, start) != ""
    ensures (end, closed) == CloseOf(line, start)
  {
    var delim := Delimiter(line, start);
    var quote, from := delim[|delim| - 1], start + |delim|;
    OnlyClose(line, start, from, |delim| - 1, quote);
    if |delim| == 1 {
      end := QuotedRun(line, from, quote);
      QuotedRunIsClose(line, from, from, quote);
      return end, end < |line| && line[end] == quote;
    }
    var at, k := from, |delim| - 1;
    while true
      invariant from <= at <= |line| && line[at - 1] != '\\'
      invariant forall p | from <= p < at :: !Stops(line, from, k, quote, p)
      decreases |line| - at
    {
      var found, s, e := NextMatch(line, at, quote);
      NoStopBetween(line, from, k, quote, at, if found then s else |line|);
      if !found { return |line|, false; }
      ClosesIsMatch(line, from, k, quote, s);
      if e == s + 1 && line[s] == '\n' {
        assert IsClose(line, from, k, quote, (s, false));
        return s, false;
      }
      if e - s == |delim| {
        assert e == s + k + 1 && IsClose(line, from, k, quote, (s, true));
        return s, true;
      }
      NoStopInside(line, from, k, quote, s, e);
      at := e;
    }
  }

  lemma NoStopBetween(line: string, from: nat, k: nat, quote: char, at: nat, to: nat)
    requires 0 < k && 0 < from <= at <= to <= |line| && IsQuote(quote) && line[from - 1] != '\\'
    requires forall p | at <= p < to :: NoMatch(line, p, quote)
    ensures forall p | at <= p < to :: !Stops(line, from, k, quote, p)
    ensures !Closes(line, from, k, quote, |line|)
  {
    forall p | at <= p < to ensures !Stops(line, from, k, quote, p) {
      ClosesIsMatch(line, from, k, quote, p);
      assert NoMatch(line, p, quote);
      assert Matches(line, p, p + 1, quote) || line[p] != '\n';
    }
  }

  /** No value closes inside a run of some other length, nor at its quote. */
  lemma NoStopInside(line: string, from: nat, k: nat, quote: char, s: nat, e: nat)
    requires 0 < k && 0 < from <= s < e <= |line| && IsQuote(quote) && line[from - 1] != '\\'
    requires RunEnd(line, s) == e - 1 && line[e - 1] == quote && e - s != k + 1
    requires s == from || line[s - 1] != '\\'
    ensures forall p | s <= p < e :: !Stops(line, from, k, quote, p)
  {
    forall p | s <= p < e ensures !Stops(line, from, k, quote, p) {
      if p + k < |line| && line[p + k] == quote {
        RunBeforeSpans(line, from, p + k);
        RunBeforeIs(line, from, s, e - 1);
      }
    }
  }

  /** `quoteClose` of the browser's redactor: one pass, counting each run of backslashes. */
  method QuoteCloseCounting(line: string, start: nat) returns (end: nat, closed: bool)
    requires start <= |line| && Delimiter(line, start) != ""
    ensures (end, closed) == CloseOf(line, start)
  {
    var delim := Delimiter(line, start);
    var quote, from := delim[|delim| - 1], start + |delim|;
    OnlyClose(line, start, from, |delim| - 1, quote);
    if |delim| == 1 {
      end := QuotedRun(line, from, quote);
      QuotedRunIsClose(line, from, from, quote);
      return end, end < |line| && line[end] == quote;
    }
    var k := |delim| - 1;
    var run, i := 0, from;
    while i < |line|
      invariant from <= i <= |line| && run == RunBefore(line, from, i)
      invariant forall p | from <= p < i :: line[p] != '\n'
      invariant forall q | from <= q < i && line[q] == quote :: RunBefore(line, from, q) != k
    {
      var c := line[i];
      if c == '\\' {
        run := run + 1;
      } else {
        if c == '\n' { NoneClosed(line, from, k, quote, i); return i, false; }
        if c == quote && run == k {
          ClosedAt(line, from, k, quote, i);
          return i - run, true;
        }
        run := 0;
      }
      i := i + 1;
    }
    NoneClosed(line, from, k, quote, |line|);
    return |line|, false;
  }

  lemma NoneClosed(line: string, from: nat, k: nat, quote: char, i: nat)
    requires 0 < k && from <= i <= |line| && (i == |line| || line[i] == '\n') && IsQuote(quote)
    requires forall p | from <= p < i :: line[p] != '\n'
    requires forall q | from <= q < i && line[q] == quote :: RunBefore(line, from, q) != k
    ensures IsClose(line, from, k, quote, (i, false))
  {
    forall p | from <= p <= i ensures !Closes(line, from, k, quote, p) {
      if p + k > i && Closes(line, from, k, quote, p) {
        RunBeforeSpans(line, from, p + k);
        assert false;
      }
    }
  }

  lemma ClosedAt(line: string, from: nat, k: nat, quote: char, i: nat)
    requires 0 < k && from <= i < |line| && line[i] == quote && RunBefore(line, from, i) == k && IsQuote(quote)
    requires forall p | from <= p < i :: line[p] != '\n'
    requires forall q | from <= q < i && line[q] == quote :: RunBefore(line, from, q) != k
    ensures IsClose(line, from, k, quote, (i - k, true))
  {
    RunBeforeSpans(line, from, i);
    forall p | from <= p < i - k ensures !Stops(line, from, k, quote, p) {
      if p + k < |line| && line[p + k] == quote { assert p + k < i; }
    }
  }
}
