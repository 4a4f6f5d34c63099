/** The readers of a value (`_past_swallowed`, `_swallowing_end`, `_bare_value_end`,
    `_quoted_value_end`): what they read is `Readings`' recursion. */
module ValueEnds {
  import opened Basics
  import opened Quotes
  import opened Scanner
  import opened Readings

  // ---- What is to come ----

  /** Reading on from `r` as each of the enclosing values, innermost (last) first. */
  ghost function Unwind(rd: Reader, enclosing: seq<(ValueClass, bool)>, r: Reading): Reading
    requires rd.Valid() && r.end <= |rd.line|
  {
    if enclosing == [] then r
    else
      var v := enclosing[|enclosing| - 1];
      var rest := ReadAs(rd, v.0, v.1, r.end);
      Unwind(rd, enclosing[..|enclosing| - 1], Reading(rest.end, r.spans + rest.spans))
  }

  lemma UnwindOne(rd: Reader, v: (ValueClass, bool), r: Reading)
    requires rd.Valid() && r.end <= |rd.line|
    ensures var rest := ReadAs(rd, v.0, v.1, r.end);
            Unwind(rd, [v], r) == Reading(rest.end, r.spans + rest.spans)
  {
    var rest := ReadAs(rd, v.0, v.1, r.end);
    assert [v][..0] == [];
    assert Unwind(rd, [], Reading(rest.end, r.spans + rest.spans)) == Reading(rest.end, r.spans + rest.spans);
  }

  /** What is to come when `line[from..end]` has been read and `nested` is what it swallows. */
  ghost function Pending(rd: Reader, enclosing: seq<(ValueClass, bool)>, spans: seq<Span>, harvest: bool,
                         from: nat, end: nat, nested: Option<(nat, Head)>): Reading
    requires rd.Valid() && end <= |rd.line| && (nested.Some? ==> nested.value.1.start <= |rd.line|)
  {
    if nested.None? then Unwind(rd, enclosing, Reading(end, spans + Harvested(harvest, from, end)))
    else OnSecret(rd, enclosing, spans + Harvested(harvest, from, nested.value.0), nested.value.1)
  }

  ghost function OnSecret(rd: Reader, enclosing: seq<(ValueClass, bool)>, spans: seq<Span>, h: Head): Reading
    requires rd.Valid() && h.start <= |rd.line|
  {
    var inner := ReadSecret(rd, h);
    Unwind(rd, enclosing, Reading(inner.end, spans + inner.spans))
  }

  /** Popping the innermost enclosing value and reading on as it, pushed back if it swallows. */
  lemma PendingNext(rd: Reader, enclosing: seq<(ValueClass, bool)>, spans: seq<Span>, v: (ValueClass, bool), from: nat)
    requires rd.Valid() && from <= |rd.line|
    ensures var end := rd.ValueStop(v.0, from);
            var nested := SwallowedBy(rd, from, end);
            Unwind(rd, enclosing + [v], Reading(from, spans))
            == Pending(rd, if nested.None? then enclosing else enclosing + [v], spans, v.1, from, end, nested)
  {
    var end := rd.ValueStop(v.0, from);
    var nested := SwallowedBy(rd, from, end);
    assert (enclosing + [v])[..|enclosing|] == enclosing;
    if nested.Some? {
      var inner := ReadSecret(rd, nested.value.1);
      var rest := ReadAs(rd, v.0, v.1, inner.end);
      var front := Harvested(v.1, from, nested.value.0);
      AssociativeSpans(front, inner.spans, rest.spans);
      AssociativeSpans(spans, front + inner.spans, rest.spans);
      AssociativeSpans(spans, front, inner.spans);
    }
  }

  lemma PendingPop(rd: Reader, enclosing: seq<(ValueClass, bool)>, spans: seq<Span>, from: nat)
    requires rd.Valid() && from <= |rd.line| && enclosing != []
    ensures var v, init := enclosing[|enclosing| - 1], enclosing[..|enclosing| - 1];
            var end := rd.ValueStop(v.0, from);
            var nested := SwallowedBy(rd, from, end);
            Unwind(rd, enclosing, Reading(from, spans))
            == Pending(rd, if nested.None? then init else init + [v], spans, v.1, from, end, nested)
  {
    var v, init := enclosing[|enclosing| - 1], enclosing[..|enclosing| - 1];
    assert enclosing == init + [v];
    PendingNext(rd, init, spans, v, from);
  }

  /** Reading the value of a secret: a bare value that swallows another one encloses it... */
  lemma PendingBare(rd: Reader, enclosing: seq<(ValueClass, bool)>, spans: seq<Span>, h: Head)
    requires rd.Valid() && h.start <= |rd.line| && !rd.Quoted(h)
    ensures var v := (h.value, h.value == rd.name);
            var end := rd.ValueStop(h.value, h.start);
            var nested := SwallowedBy(rd, h.start, end);
            OnSecret(rd, enclosing, spans, h)
            == Pending(rd, if nested.None? then enclosing else enclosing + [v], spans, v.1, h.start, end, nested)
  {
    var v := (h.value, h.value == rd.name);
    assert (enclosing + [v])[..|enclosing|] == enclosing;
    PendingNext(rd, enclosing, spans, v, h.start);
  }

  /** ...and a quoted one does not. */
  lemma PendingQuoted(rd: Reader, enclosing: seq<(ValueClass, bool)>, spans: seq<Span>, h: Head, from: nat, close: nat,
                      past: nat)
    requires rd.Valid() && h.start <= from <= close <= past <= |rd.line|
    requires ReadSecret(rd, h) == ReadQuoted(rd, h.value == rd.name, h.start, from, close, past)
    ensures OnSecret(rd, enclosing, spans, h)
            == Pending(rd, enclosing, spans, h.value == rd.name, h.start, past, SwallowedBy(rd, from, close))
  {
    var nested := SwallowedBy(rd, from, close);
    if nested.Some? {
      AssociativeSpans(spans, Harvested(h.value == rd.name, h.start, nested.value.0),
                       ReadSecret(rd, nested.value.1).spans);
    }
  }

  // ---- Past the swallowed secrets ----

  /** `_past_swallowed` of a secret value that starts at `start` and swallowed `h`, whose name
      starts at `pos`. It terminates whatever the patterns say. The end it returns is past the
      value of `h`, past the value of every secret that starts in the text of a part it read, and
      one where the outer value, read on, stops at once. Between the parts it does not look. The
      harvest takes just the parts of swallowed `NAME=value` values. */
  method PastSwallowed(rd: Reader, start: nat, pos: nat, h: Head, outer: Option<ValueClass>)
    returns (end: nat, spans: seq<Span>, ghost parts: seq<Part>)
    requires rd.Valid() && start <= pos < h.start <= |rd.line|
    ensures IsPast(rd, start, pos, h, outer, end, parts, spans)
    ensures Reading(end, spans) == ReadPast(rd, start, pos, h, outer)
  {
    spans := [(start, pos, false)];
    var enclosing: seq<(ValueClass, bool)> := if outer.None? then [] else [(outer.value, false)];
    var cur := h;
    StartsReading(rd, start, pos, h, outer);
    while true
      invariant cur.start <= |rd.line|
      invariant OnSecret(rd, enclosing, spans, cur) == ReadPast(rd, start, pos, h, outer)
      decreases |rd.line| - cur.start
    {
      var nested;
      end, nested, enclosing := ReadPart(rd, cur, enclosing, spans);
      end, nested, enclosing, spans :=
        RunOn(rd, cur.start, end, cur.value == rd.name, nested, enclosing, spans, ReadPast(rd, start, pos, h, outer));
      if nested.None? { break; }
      cur := nested.value.1;
    }
    parts := PastParts(rd, h, outer);
    PastHolds(rd, start, pos, h, outer);
  }

  lemma StartsReading(rd: Reader, start: nat, pos: nat, h: Head, outer: Option<ValueClass>)
    requires rd.Valid() && h.start <= |rd.line|
    ensures OnSecret(rd, if outer.None? then [] else [(outer.value, false)], [(start, pos, false)], h)
            == ReadPast(rd, start, pos, h, outer)
  {
    var inner := ReadSecret(rd, h);
    if outer.Some? { UnwindOne(rd, (outer.value, false), Reading(inner.end, [(start, pos, false)] + inner.spans)); }
  }

  /** One value read in full: where it ends and the secret it swallows, which a bare value encloses. */
  ghost predicate ReadWhole(rd: Reader, h: Head, enclosing0: seq<(ValueClass, bool)>, end: nat,
                            nested: Option<(nat, Head)>, enclosing: seq<(ValueClass, bool)>)
    requires rd.Valid() && h.start <= |rd.line|
  {
    && end == (if rd.Quoted(h) then rd.PastQuote(h.start) else rd.Reach(h))
    && nested == SwallowedBy(rd, PartFrom(rd, h), rd.Reach(h))
    && enclosing == if nested.Some? && !rd.Quoted(h) then enclosing0 + [(h.value, h.value == rd.name)] else enclosing0
  }

  method ReadPart(rd: Reader, h: Head, enclosing0: seq<(ValueClass, bool)>, ghost spans: seq<Span>)
    returns (end: nat, nested: Option<(nat, Head)>, enclosing: seq<(ValueClass, bool)>)
    requires rd.Valid() && h.start <= |rd.line|
    ensures ReadWhole(rd, h, enclosing0, end, nested, enclosing) && h.start <= end <= |rd.line|
    ensures Pending(rd, enclosing, spans, h.value == rd.name, h.start, end, nested)
              == OnSecret(rd, enclosing0, spans, h)
    ensures nested.Some? ==> h.start < nested.value.1.start
  {
    if Delimiter(rd.line, h.start) != "" {
      end, nested := ReadQuotedPart(rd, h);
      enclosing := enclosing0;
      QuotedReads(rd, enclosing0, spans, h);
    } else {
      end := rd.ValueStop(h.value, h.start);
      nested := Swallowed(rd, h.start, end);
      enclosing := Enclose(rd, h, enclosing0, nested);
      PendingBare(rd, enclosing0, spans, h);
    }
  }

  method ReadQuotedPart(rd: Reader, h: Head) returns (end: nat, nested: Option<(nat, Head)>)
    requires rd.Valid() && h.start <= |rd.line| && rd.Quoted(h)
    ensures h.start <= end == rd.PastQuote(h.start) <= |rd.line|
    ensures nested == SwallowedBy(rd, PartFrom(rd, h), rd.Reach(h))
  {
    var text, closed := QuotedText(rd, h.start);
    end := text.past;
    assert text.from == PartFrom(rd, h) && text.to == rd.Reach(h);
    nested := Swallowed(rd, text.from, text.to);
  }

  method Enclose(rd: Reader, h: Head, enclosing0: seq<(ValueClass, bool)>, nested: Option<(nat, Head)>)
    returns (enclosing: seq<(ValueClass, bool)>)
    ensures enclosing == if nested.Some? then enclosing0 + [(h.value, h.value == rd.name)] else enclosing0
  {
    enclosing := enclosing0;
    if nested.Some? { enclosing := enclosing + [(h.value, h.value == rd.name)]; }
  }

  lemma QuotedReads(rd: Reader, enclosing: seq<(ValueClass, bool)>, spans: seq<Span>, h: Head)
    requires rd.Valid() && h.start <= |rd.line| && rd.Quoted(h)
    ensures OnSecret(rd, enclosing, spans, h)
            == Pending(rd, enclosing, spans, h.value == rd.name, h.start, rd.PastQuote(h.start),
                       SwallowedBy(rd, PartFrom(rd, h), rd.Reach(h)))
  {
    QuotedIsPart(rd, h);
    var part := QuotedPartOf(rd, h);
    PendingQuoted(rd, enclosing, spans, h, part.from, part.to, part.past);
  }

  /** The text of the quoted value at `start`, inside its delimiters. */
  method QuotedText(rd: Reader, start: nat) returns (text: Part, closed: bool)
    requires start <= |rd.line| && Delimiter(rd.line, start) != ""
    ensures text == Part(start, start + |Delimiter(rd.line, start)|, CloseOf(rd.line, start).0, rd.PastQuote(start),
                         None)
    ensures closed == CloseOf(rd.line, start).1 && IsPart(rd, text)
    ensures text.past == text.to + if closed then |Delimiter(rd.line, start)| else 0
  {
    if CloseOf(rd.line, start).1 { ClosingFence(rd.line, start); }
    var delim := Delimiter(rd.line, start);
    var close;
    close, closed := QuoteClose(rd.line, start);
    text := Part(start, start + |delim|, close, if closed then close + |delim| else close, None);
  }

  /** The inner loop of `_past_swallowed`: with nothing more swallowed, read on as each value
      the current one was inside, innermost first, until one swallows a secret or none is left. */
  method RunOn(rd: Reader, from0: nat, end0: nat, harvest0: bool, nested0: Option<(nat, Head)>,
               enclosing0: seq<(ValueClass, bool)>, spans0: seq<Span>, ghost goal: Reading)
    returns (end: nat, nested: Option<(nat, Head)>, enclosing: seq<(ValueClass, bool)>, spans: seq<Span>)
    requires rd.Valid() && from0 <= end0 <= |rd.line|
    requires nested0.Some? ==> from0 < nested0.value.1.start <= |rd.line|
    requires Pending(rd, enclosing0, spans0, harvest0, from0, end0, nested0) == goal
    ensures nested.Some? ==> from0 < nested.value.1.start <= |rd.line|
    ensures goal == if nested.None? then Reading(end, spans) else OnSecret(rd, enclosing, spans, nested.value.1)
  {
    end, nested, enclosing, spans := end0, nested0, enclosing0, spans0;
    var from, harvest := from0, harvest0;
    while nested.None? && enclosing != []
      invariant from0 <= from <= end <= |rd.line|
      invariant nested.Some? ==> from0 < nested.value.1.start <= |rd.line|
      invariant Pending(rd, enclosing, spans, harvest, from, end, nested) == goal
      decreases |enclosing| + (if nested.None? then 1 else 0)
    {
      from, end, harvest, nested, enclosing, spans := RunOut(rd, from, end, harvest, enclosing, spans, goal);
    }
    spans := spans + Harvested(harvest, from, if nested.None? then end else nested.value.0);
  }

  /** Nothing more swallowed: on as the innermost value that encloses this one. */
  method RunOut(rd: Reader, from0: nat, end0: nat, harvest0: bool, enclosing0: seq<(ValueClass, bool)>,
                spans0: seq<Span>, ghost goal: Reading)
    returns (from: nat, end: nat, harvest: bool, nested: Option<(nat, Head)>, enclosing: seq<(ValueClass, bool)>,
             spans: seq<Span>)
    requires rd.Valid() && from0 <= end0 <= |rd.line| && enclosing0 != []
    requires Pending(rd, enclosing0, spans0, harvest0, from0, end0, None) == goal
    ensures end0 == from <= end <= |rd.line| && (nested.Some? ==> from < nested.value.1.start <= |rd.line|)
    ensures |enclosing| == if nested.None? then |enclosing0| - 1 else |enclosing0|
    ensures Pending(rd, enclosing, spans, harvest, from, end, nested) == goal
  {
    spans := spans0 + Harvested(harvest0, from0, end0);
    PendingPop(rd, enclosing0, spans, end0);
    var v := enclosing0[|enclosing0| - 1];
    enclosing := enclosing0[..|enclosing0| - 1];
    from, harvest := end0, v.1;
    end := rd.ValueStop(v.0, from);
    nested := Swallowed(rd, from, end);
    if nested.Some? { enclosing := enclosing + [v]; }
  }

  // ---- Whole values ----

  /** `_swallowing_end` of a secret: past its own text or, if that swallows a secret, past that. */
  method SwallowingEnd(rd: Reader, text: Part, outer: Option<ValueClass>)
    returns (end: nat, spans: seq<Span>, ghost parts: seq<Part>)
    requires rd.Valid() && IsPart(rd, text)
    ensures text.to <= end && IsMask(rd, text, outer, end, parts, spans)
    ensures Reading(end, spans) == Whole(rd, text, outer)
  {
    var swallowed := Swallowed(rd, text.from, text.to);
    end, spans := text.past, [];
    if swallowed.Some? {
      end, spans, parts := PastSwallowed(rd, text.start, swallowed.value.0, swallowed.value.1, outer);
    }
    parts := WholeHolds(rd, text, outer);
  }

  /** The end of a value that is not secret: before the first secret in its text, else `past`. */
  ghost predicate CutAt(rd: Reader, from: nat, end: nat, past: nat, r: nat) {
    && r <= past && (forall p: nat | rd.Candidate(from, end, p) :: r <= p)
    && (r != past ==> rd.Candidate(from, end, r))
  }

  method CutEnd(rd: Reader, from: nat, end: nat, past: nat) returns (r: nat)
    requires from <= end <= past
    ensures from <= r && CutAt(rd, from, end, past, r)
  {
    var first := FirstSecret(rd, from, end);
    r := if first.Some? then first.value.0 else past;
  }

  /** `_bare_value_end`. A secret value's mask starts with the value as packed. A value that is not
      secret is cut before its first secret. */
  method BareValueEnd(rd: Reader, start: nat, v: ValueClass, secret: bool)
    returns (end: nat, spans: seq<Span>, ghost parts: seq<Part>)
    requires rd.Valid() && start <= |rd.line|
    ensures secret ==> var packed := rd.PackedEnd(v, start);
                       var text := Part(start, start, packed, packed, None);
                       && packed <= end <= |rd.line| && rd.ValueStop(v, end) == end
                       && IsMask(rd, text, Some(v), end, parts, spans)
                       && Reading(end, spans) == Whole(rd, text, Some(v))
    ensures !secret ==> CutAt(rd, start, rd.PackedEnd(v, start), rd.PackedEnd(v, start), end) && spans == []
  {
    var packed := PackedValueEnd(rd, start, v);
    if secret {
      SamePackedEnd(rd, v, start, packed);
      end, spans, parts := SwallowingEnd(rd, Part(start, start, packed, packed, None), Some(v));
    } else {
      parts := [];
      end := CutEnd(rd, start, packed, packed);
      spans := [];
    }
  }

  /** `_quoted_value_end`. A secret value's mask starts with the quoted text and never ends before
      its closing delimiter (or the end of its line). */
  method QuotedValueEnd(rd: Reader, start: nat, secret: bool)
    returns (end: nat, closed: bool, spans: seq<Span>, ghost parts: seq<Part>)
    requires rd.Valid() && start <= |rd.line| && Delimiter(rd.line, start) != ""
    ensures closed == CloseOf(rd.line, start).1
    ensures var text := Part(start, start + |Delimiter(rd.line, start)|, CloseOf(rd.line, start).0,
                             rd.PastQuote(start), None);
            && (secret ==> text.to <= end <= |rd.line| && IsMask(rd, text, None, end, parts, spans)
                           && Reading(end, spans) == Whole(rd, text, None))
            && (!secret ==> CutAt(rd, text.from, text.to, text.past, end) && spans == [])
  {
    var text: Part;
    text, closed := QuotedText(rd, start);
    if secret {
      end, spans, parts := SwallowingEnd(rd, text, None);
    } else {
      parts := [];
      end := CutEnd(rd, text.from, text.to, text.past);
      spans := [];
    }
  }

  // ---- What a mask covers ----

  /** A name or separator that no part reads: past the text of part `i`, before the value of the
      secret it swallowed, whose text is the next part. */
  ghost predicate InGap(rd: Reader, parts: seq<Part>, i: nat, p: nat)
    requires rd.Valid()
  {
    && i + 1 < |parts| && parts[i].to <= p
    && exists s: (nat, Head) ::
         && rd.IsSwallowed(parts[i].from, parts[i].to, Some(s))
         && p < s.1.start <= |rd.line| && PartFrom(rd, s.1) == parts[i + 1].from
  }

  /** The parts, the delimiters and the gaps make up the mask. */
  lemma Tiling(rd: Reader, parts: seq<Part>, p: nat) returns (i: nat)
    requires rd.Valid() && Chain(rd, parts) && parts != [] && parts[0].from <= p < parts[|parts| - 1].past
    ensures i < |parts| && (parts[i].from <= p < parts[i].to || InGap(rd, parts, i, p) || IsFence(rd.line[p]))
  {
    i := |parts| - 1;
    while p < parts[i].from
      invariant i < |parts| && (i + 1 < |parts| ==> p < parts[i + 1].from)
      decreases i
    {
      i := i - 1;
    }
    assert IsPart(rd, parts[i]);
    if parts[i].past <= p {
      assert Leads(rd, parts[i], parts[i + 1].from);
      var s: (nat, Head) :| rd.IsSwallowed(parts[i].from, parts[i].to, Some(s)) && s.1.start <= |rd.line|
                            && PartFrom(rd, s.1) == parts[i + 1].from;
      OpeningFence(rd.line, s.1.start);
    }
  }

  /** A secret whose name starts at `p`. */
  predicate SecretAt(rd: Reader, p: nat) { rd.site(p, |rd.line|) && rd.SwallowedHead(p).Some? }

  /** Where the scanner does not look for a secret: in a gap, at a quote or backslash, or where the
      pattern for a name finds none in the line cut off at the end of the part. */
  ghost predicate Unread(rd: Reader, parts: seq<Part>, p: nat)
    requires rd.Valid() && p < |rd.line|
  {
    || IsFence(rd.line[p])
    || (exists i: nat :: InGap(rd, parts, i, p))
    || (exists i: nat :: i < |parts| && parts[i].from <= p < parts[i].to && !rd.site(p, parts[i].to))
  }

  /** A mask covers the value of every secret that starts in it, if and only if it covers those that
      start where the scanner does not look. */
  lemma CoversExactly(rd: Reader, first: Part, outer: Option<ValueClass>, end: nat, parts: seq<Part>, spans: seq<Span>)
    requires rd.Valid() && end <= |rd.line| && IsMask(rd, first, outer, end, parts, spans)
    ensures (forall p: nat | first.from <= p < end && SecretAt(rd, p) :: rd.Reach(rd.SwallowedHead(p).value) <= end)
            <==> (forall p: nat | first.from <= p < end && SecretAt(rd, p) && Unread(rd, parts, p) ::
                    rd.Reach(rd.SwallowedHead(p).value) <= end)
  {
    forall p: nat | first.from <= p < end && SecretAt(rd, p) && !Unread(rd, parts, p)
      ensures rd.Reach(rd.SwallowedHead(p).value) <= end
    {
      var i := Tiling(rd, parts, p);
      assert rd.Covered(parts[i].from, parts[i].to, end);
      assert rd.Candidate(parts[i].from, parts[i].to, p);
    }
  }

  // ---- A secret left visible ----

  /** A bare value `aa` that swallows a secret at 1, whose value, at 5, is empty; and a secret at 3,
      in the gap before it, whose value is the `xx` at the end. */
  const A := ValueClass(0, {'a'}, {})
  const B := ValueClass(1, {}, {})
  const C := ValueClass(2, {'x'}, {})

  function GapHead(p: nat): Option<Head> {
    if p == 1 then Some(Head(5, B)) else if p == 3 then Some(Head(8, C)) else None
  }

  const GAP := Reader("aa---???xx", GapHead, p => None, (p, end) => p == 1 || p == 3, {}, {}, B)

  lemma GapReads()
    ensures GAP.Valid() && GAP.PackedEnd(A, 0) == 2
    ensures GAP.ValueStop(B, 5) == 5 && GAP.ValueStop(A, 5) == 5 && GAP.ValueStop(C, 8) == 10
    ensures GAP.Reach(Head(5, B)) == 5 && GAP.Reach(Head(8, C)) == 10
  {
    assert GAP.PackedEnd(A, 1) == 2 && GAP.PackedEnd(C, 9) == 10;
  }

  /** What it covers is not all: the mask ends at 5, before the value of the secret that starts in
      it at 3, for the bare value at 0. */
  method GapStaysVisible() returns (end: nat)
    ensures GAP.Valid() && end == 5
    ensures SecretAt(GAP, 3) && GAP.Reach(GAP.SwallowedHead(3).value) == 10
  {
    GapReads();
    ghost var parts;
    var found;
    end, found, parts := BareValueEnd(GAP, 0, A, true);
    GapRead();
  }

  lemma GapRead()
    ensures GAP.Valid() && Whole(GAP, Part(0, 0, 2, 2, None), Some(A)).end == 5
  {
    GapReads();
    var h := Head(5, B);
    assert GAP.Qualifies(0, 2, 1) && forall p: nat :: GAP.Yields(0, 2, p, 1, h);
    SwallowedByIs(GAP, 0, 2, Some((1, h)));
    SwallowedByIs(GAP, 5, 5, None);
    assert ReadAs(GAP, B, true, 5).end == 5 && ReadSecret(GAP, h).end == 5;
    assert ReadAs(GAP, A, false, 5).end == 5;
    assert Whole(GAP, Part(0, 0, 2, 2, None), Some(A)) == ReadPast(GAP, 0, 1, h, Some(A));
  }
}
