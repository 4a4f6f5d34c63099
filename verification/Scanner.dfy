/** Where a secret's value ends (`_packed_value_end`, `_swallowed`, `_past_swallowed`), for
    any rule that finds where secrets start. */
module Scanner {
  import opened Basics
  import opened Quotes

  /** A value's characters, and the separators that end it only before another secret. */
  datatype ValueClass = ValueClass(id: nat, chunk: set<char>, sep: set<char>)

  /** Where the value of a secret starts and how it is read. */
  datatype Head = Head(start: nat, value: ValueClass)

  /** One line, and the patterns as oracles: `head(p)` is the secret whose name starts at `p`
      (`_head`), `clientId(p)` a long client id there, and `site(p, end)` whether a swallowed
      secret may start at `p` in the line cut off at `end`. `name` is the class of a
      `NAME=value` value. */
  datatype Reader = Reader(line: string, head: nat -> Option<Head>, clientId: nat -> Option<Head>,
                           site: (nat, nat) -> bool, openers: set<char>, space: set<char>, name: ValueClass)
  {
    /** All that is asked of the patterns: a name takes at least a character, inside the line. */
    ghost predicate Valid() {
      && (forall p: nat :: head(p).Some? ==> p < head(p).value.start <= |line|)
      && (forall p: nat :: clientId(p).Some? ==> p < clientId(p).value.start <= |line|)
    }

    /** `_swallowed_head`. */
    function SwallowedHead(p: nat): Option<Head> {
      if clientId(p).Some? then clientId(p) else head(p)
    }

    function PastOpeners(p: nat): (q: nat)
      ensures q >= p
      decreases |line| - p
    {
      if p < |line| && line[p] in openers then PastOpeners(p + 1) else p
    }

    /** `_starts_secret`. */
    predicate StartsSecret(p: nat) { head(PastOpeners(p)).Some? }

    /** A character that does not end a value of class `v`. */
    predicate Absorbs(v: ValueClass, p: nat)
      requires p < |line|
    {
      line[p] in v.chunk || (line[p] in v.sep && !StartsSecret(p + 1))
    }

    /** The first position from `p` on that ends a value of class `v`. */
    function PackedEnd(v: ValueClass, p: nat): (e: nat)
      requires p <= |line|
      ensures p <= e <= |line|
      ensures forall q | p <= q < e :: Absorbs(v, q)
      ensures e < |line| ==> !Absorbs(v, e)
      decreases |line| - p
    {
      if p < |line| && Absorbs(v, p) then PackedEnd(v, p + 1) else p
    }

    /** `line[p..e]` less trailing whitespace. */
    function TrimEnd(p: nat, e: nat): (t: nat)
      requires p <= e <= |line|
      ensures p <= t <= e
    {
      if p < e && line[e - 1] in space then TrimEnd(p, e - 1) else e
    }

    function ValueStop(v: ValueClass, p: nat): (e: nat)
      requires p <= |line|
      ensures p <= e <= PackedEnd(v, p)
    {
      TrimEnd(p, PackedEnd(v, p))
    }

    predicate Quoted(h: Head)
      requires h.start <= |line|
    {
      Delimiter(line, h.start) != ""
    }

    /** Past the closing delimiter of the quoted value at `start`, if it has one. */
    function PastQuote(start: nat): (e: nat)
      requires start <= |line| && Delimiter(line, start) != ""
      ensures CloseOf(line, start).0 <= e <= |line|
    {
      if CloseOf(line, start).1 then CloseOf(line, start).0 + |Delimiter(line, start)| else CloseOf(line, start).0
    }

    /** Where the value of `h`, read as its own rule reads it, ends. */
    function Reach(h: Head): (e: nat)
      requires h.start <= |line|
      ensures h.start <= e <= |line|
    {
      if Quoted(h) then CloseOf(line, h.start).0 else ValueStop(h.value, h.start)
    }

    /** The value of `h` does not end inside a value that ends at `end`. */
    predicate Outlasts(h: Head, end: nat)
      requires h.start <= |line|
    {
      if Quoted(h) then Reach(h) >= end else h.start >= end || Reach(h) > end
    }

    predicate Candidate(start: nat, end: nat, p: nat) {
      start <= p < end && site(p, end) && SwallowedHead(p).Some?
    }

    ghost predicate Qualifies(start: nat, end: nat, p: nat)
      requires Valid()
    {
      Candidate(start, end, p) && Outlasts(SwallowedHead(p).value, end)
    }

    /** Every secret that starts inside `line[start..end]` has its value end by `bound`. */
    ghost predicate Covered(start: nat, end: nat, bound: nat)
      requires Valid()
    {
      forall p: nat | Candidate(start, end, p) :: Reach(SwallowedHead(p).value) <= bound
    }

    /** What `_swallowed` promises of a secret value: nothing if no secret qualifies, else the
        one that reaches furthest, the first of those. */
    ghost predicate IsSwallowed(start: nat, end: nat, r: Option<(nat, Head)>)
      requires Valid()
    {
      match r
      case None => forall p: nat :: !Qualifies(start, end, p)
      case Some((pos, h)) =>
        && Qualifies(start, end, pos) && h == SwallowedHead(pos).value
        && forall p: nat :: Yields(start, end, p, pos, h)
    }

    /** A secret at `p` that qualifies reaches no further than `h`, found at `pos`, and less
        far if it comes first. */
    ghost predicate Yields(start: nat, end: nat, p: nat, pos: nat, h: Head)
      requires Valid() && h.start <= |line|
    {
      Qualifies(start, end, p) ==>
        var reach := Reach(SwallowedHead(p).value);
        reach <= Reach(h) && (p < pos ==> reach < Reach(h))
    }

    /** A value that is not secret is cut at the first secret that starts in it. */
    ghost predicate IsFirstSecret(start: nat, end: nat, r: Option<(nat, Head)>) {
      match r
      case None => forall p: nat :: !Candidate(start, end, p)
      case Some((pos, h)) =>
        && Candidate(start, end, pos) && h == SwallowedHead(pos).value
        && forall p: nat | Candidate(start, end, p) :: pos <= p
    }
  }

  // ---- Reading one value ----

  lemma {:induction false} SamePackedEnd(rd: Reader, v: ValueClass, s: nat, t: nat)
    requires s <= |rd.line| && s <= t <= rd.PackedEnd(v, s)
    ensures rd.PackedEnd(v, t) == rd.PackedEnd(v, s)
    decreases t - s
  {
    if s < t { SamePackedEnd(rd, v, s + 1, t); }
  }

  lemma {:induction false} SameTrimEnd(rd: Reader, s: nat, t: nat, e: nat)
    requires s <= e <= |rd.line| && s <= t <= rd.TrimEnd(s, e)
    ensures rd.TrimEnd(t, e) == rd.TrimEnd(s, e)
    decreases e
  {
    if s < e && rd.line[e - 1] in rd.space { SameTrimEnd(rd, s, t, e - 1); }
  }

  /** What is trimmed is all the whitespace at the end. */
  lemma {:induction false} TrimEndTrims(rd: Reader, p: nat, e: nat)
    requires p <= e <= |rd.line|
    ensures var t := rd.TrimEnd(p, e);
            && (forall k | t <= k < e :: rd.line[k] in rd.space)
            && (p < t ==> rd.line[t - 1] !in rd.space)
  {
    if p < e && rd.line[e - 1] in rd.space { TrimEndTrims(rd, p, e - 1); }
  }

  /** A value stops before the whitespace at the end of what is packed. */
  lemma ValueStopTrims(rd: Reader, v: ValueClass, p: nat)
    requires p <= |rd.line|
    ensures var packed, stop := rd.PackedEnd(v, p), rd.ValueStop(v, p);
            && p <= stop <= packed && (forall k | stop <= k < packed :: rd.line[k] in rd.space)
            && (p < stop ==> rd.line[stop - 1] !in rd.space)
  {
    TrimEndTrims(rd, p, rd.PackedEnd(v, p));
  }

  /** What is skipped is all the openers there. */
  lemma {:induction false} PastOpenersSkips(rd: Reader, p: nat)
    requires p <= |rd.line|
    ensures var q := rd.PastOpeners(p);
            && p <= q <= |rd.line| && (forall k | p <= k < q :: rd.line[k] in rd.openers)
            && (q < |rd.line| ==> rd.line[q] !in rd.openers)
    decreases |rd.line| - p
  {
    if p < |rd.line| && rd.line[p] in rd.openers { PastOpenersSkips(rd, p + 1); }
  }

  /** The memo is sound: a start inside a value already read has that value's end. */
  lemma SameStop(rd: Reader, v: ValueClass, s: nat, t: nat)
    requires s <= |rd.line| && s <= t <= rd.ValueStop(v, s)
    ensures rd.PackedEnd(v, t) == rd.PackedEnd(v, s) && rd.ValueStop(v, t) == rd.ValueStop(v, s)
  {
    SamePackedEnd(rd, v, s, t);
    SameTrimEnd(rd, s, t, rd.PackedEnd(v, s));
  }

  /** A character of the value: one of its class, or a separator that starts no secret. */
  predicate InValue(rd: Reader, v: ValueClass, p: nat) {
    && p < |rd.line|
    && (rd.line[p] in v.chunk || (rd.line[p] in v.sep && rd.head(rd.PastOpeners(p + 1)).None?))
  }

  /** `_packed_value_end`: runs of value characters, and separators that start no secret. */
  method PackedValueEnd(rd: Reader, start: nat, v: ValueClass) returns (end: nat)
    requires start <= |rd.line|
    ensures end == rd.PackedEnd(v, start) && !InValue(rd, v, end)
    ensures start <= end && forall p | start <= p < end :: InValue(rd, v, p)
  {
    end := start;
    while true
      invariant start <= end <= rd.PackedEnd(v, start)
      decreases |rd.line| - end
    {
      while end < |rd.line| && rd.line[end] in v.chunk
        invariant start <= end <= rd.PackedEnd(v, start)
      {
        end := end + 1;
      }
      if end < |rd.line| && rd.line[end] in v.sep && !rd.StartsSecret(end + 1) {
        end := end + 1;
      } else {
        assert end == |rd.line| || !rd.Absorbs(v, end);
        break;
      }
    }
    forall p | start <= p < end ensures InValue(rd, v, p) { assert rd.Absorbs(v, p); }
  }

  // ---- Swallowed secrets ----

  /** The values already read, one per class. */
  ghost predicate Memo(rd: Reader, read: map<ValueClass, (nat, nat)>) {
    forall v | v in read :: read[v].0 <= |rd.line| && read[v].1 == rd.ValueStop(v, read[v].0)
  }

  /** `_swallowed` of a secret value, with its memo of values read: the same answer as reading
      every candidate's value afresh, which is how `Reach` reads it. */
  method Swallowed(rd: Reader, start: nat, end: nat) returns (found: Option<(nat, Head)>)
    requires rd.Valid() && end <= |rd.line|
    ensures rd.IsSwallowed(start, end, found) && found == SwallowedBy(rd, start, end)
  {
    var read: map<ValueClass, (nat, nat)> := map[];
    found := None;
    var reach: int := -1;
    var p := start;
    while p < end
      invariant Memo(rd, read)
      invariant found.None? <==> reach == -1
      invariant Best(rd, start, end, p, found)
      invariant found.Some? ==> reach == rd.Reach(found.value.1)
    {
      var head := if rd.site(p, end) then rd.SwallowedHead(p) else None;
      if head.Some? {
        var stop, outlasts;
        stop, outlasts, read := ReadValue(rd, head.value, end, read);
        if outlasts && stop > reach {
          BestNext(rd, start, end, p, found);
          found, reach := Some((p, head.value)), stop;
        } else {
          BestStays(rd, start, end, p, found);
        }
      } else {
        BestStays(rd, start, end, p, found);
      }
      p := p + 1;
    }
    SwallowedByIs(rd, start, end, found);
  }

  /** The best of the secrets starting before `upTo`. */
  ghost predicate Best(rd: Reader, start: nat, end: nat, upTo: nat, r: Option<(nat, Head)>)
    requires rd.Valid()
  {
    match r
    case None => forall p: nat | p < upTo :: !rd.Qualifies(start, end, p)
    case Some((pos, h)) =>
      && pos < upTo && rd.Qualifies(start, end, pos) && h == rd.SwallowedHead(pos).value
      && forall p: nat | p < upTo :: rd.Yields(start, end, p, pos, h)
  }

  lemma BestNext(rd: Reader, start: nat, end: nat, p: nat, found: Option<(nat, Head)>)
    requires rd.Valid() && Best(rd, start, end, p, found) && rd.Qualifies(start, end, p)
    requires found.Some? ==> rd.Reach(found.value.1) < rd.Reach(rd.SwallowedHead(p).value)
    ensures Best(rd, start, end, p + 1, Some((p, rd.SwallowedHead(p).value)))
  {
    var h := rd.SwallowedHead(p).value;
    forall q: nat | q < p + 1 ensures rd.Yields(start, end, q, p, h) {
      if q < p {
        if found.None? {
          assert !rd.Qualifies(start, end, q);
        } else {
          YieldsFurther(rd, start, end, q, found.value.0, found.value.1, p, h);
        }
      }
    }
  }

  /** What yields to one secret yields to a later one that reaches further. */
  lemma YieldsFurther(rd: Reader, start: nat, end: nat, q: nat, pos: nat, h: Head, p: nat, further: Head)
    requires rd.Valid() && h.start <= |rd.line| && further.start <= |rd.line|
    requires rd.Yields(start, end, q, pos, h) && rd.Reach(h) < rd.Reach(further)
    ensures rd.Yields(start, end, q, p, further)
  {}

  lemma BestStays(rd: Reader, start: nat, end: nat, p: nat, found: Option<(nat, Head)>)
    requires rd.Valid() && Best(rd, start, end, p, found)
    requires rd.Qualifies(start, end, p) ==>
               found.Some? && rd.Reach(rd.SwallowedHead(p).value) <= rd.Reach(found.value.1)
    ensures Best(rd, start, end, p + 1, found)
  {
    match found {
      case None =>
        forall q: nat | q < p + 1 ensures !rd.Qualifies(start, end, q) {}
      case Some((pos, h)) =>
        forall q: nat | q < p + 1 ensures rd.Yields(start, end, q, pos, h) {
          if q == p { YieldsHere(rd, start, end, p, pos, h); }
        }
    }
  }

  lemma YieldsHere(rd: Reader, start: nat, end: nat, p: nat, pos: nat, h: Head)
    requires rd.Valid() && h.start <= |rd.line| && pos < p
    requires rd.Qualifies(start, end, p) ==> rd.Reach(rd.SwallowedHead(p).value) <= rd.Reach(h)
    ensures rd.Yields(start, end, p, pos, h)
  {}

  /** The same search with no memo: every candidate's value is read afresh. */
  ghost function SwallowedBefore(rd: Reader, start: nat, end: nat, upTo: nat): (r: Option<(nat, Head)>)
    requires rd.Valid()
    ensures Best(rd, start, end, upTo, r)
  {
    if upTo == 0 then None
    else
      var p := upTo - 1;
      var r := SwallowedBefore(rd, start, end, p);
      if rd.Qualifies(start, end, p) && (r.Some? ==> rd.Reach(r.value.1) < rd.Reach(rd.SwallowedHead(p).value))
      then BestNext(rd, start, end, p, r); Some((p, rd.SwallowedHead(p).value))
      else BestStays(rd, start, end, p, r); r
  }

  ghost function SwallowedBy(rd: Reader, start: nat, end: nat): (r: Option<(nat, Head)>)
    requires rd.Valid()
    ensures r.Some? ==> start <= r.value.0 < r.value.1.start <= |rd.line|
  {
    SwallowedBefore(rd, start, end, end)
  }

  lemma SwallowedByHolds(rd: Reader, start: nat, end: nat)
    requires rd.Valid()
    ensures rd.IsSwallowed(start, end, SwallowedBy(rd, start, end))
  {}

  lemma SwallowedByIs(rd: Reader, start: nat, end: nat, found: Option<(nat, Head)>)
    requires rd.Valid() && rd.IsSwallowed(start, end, found)
    ensures found == SwallowedBy(rd, start, end)
  {
    SwallowedIsUnique(rd, start, end, found, SwallowedBy(rd, start, end));
  }

  method ReadValue(rd: Reader, h: Head, end: nat, read0: map<ValueClass, (nat, nat)>)
    returns (stop: nat, outlasts: bool, read: map<ValueClass, (nat, nat)>)
    requires h.start <= |rd.line| && Memo(rd, read0)
    ensures Memo(rd, read)
    ensures stop == rd.Reach(h) && outlasts == rd.Outlasts(h, end)
    ensures stop == if rd.Quoted(h) then CloseOf(rd.line, h.start).0 else rd.ValueStop(h.value, h.start)
    ensures outlasts <==> if rd.Quoted(h) then end <= stop else end <= h.start || end < stop
  {
    read := read0;
    if Delimiter(rd.line, h.start) != "" {
      var closed;
      stop, closed := QuoteClose(rd.line, h.start);
      outlasts := !(stop < end);
    } else {
      var last: (nat, nat) := if h.value in read then read[h.value] else (1, 0);
      if last.0 <= h.start <= last.1 {
        SameStop(rd, h.value, last.0, h.start);
      } else {
        last := (h.start, rd.ValueStop(h.value, h.start));
        read := read[h.value := last];
      }
      stop := last.1;
      outlasts := !(h.start < end && stop <= end);
    }
  }

  /** `_swallowed` of a value that is not secret. */
  method FirstSecret(rd: Reader, start: nat, end: nat) returns (found: Option<(nat, Head)>)
    ensures rd.IsFirstSecret(start, end, found)
  {
    var p := start;
    while p < end
      invariant forall q: nat | q < p :: !rd.Candidate(start, end, q)
    {
      if rd.site(p, end) && rd.SwallowedHead(p).Some? {
        return Some((p, rd.SwallowedHead(p).value));
      }
      p := p + 1;
    }
    found := None;
  }

  lemma SwallowedIsUnique(rd: Reader, start: nat, end: nat, a: Option<(nat, Head)>, b: Option<(nat, Head)>)
    requires rd.Valid() && rd.IsSwallowed(start, end, a) && rd.IsSwallowed(start, end, b)
    ensures a == b
  {
    if a.Some? && b.Some? {
      assert rd.Yields(start, end, a.value.0, b.value.0, b.value.1);
      assert rd.Yields(start, end, b.value.0, a.value.0, a.value.1);
    }
  }
}
