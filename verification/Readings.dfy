/** What the mask of a secret takes in, by recursion: the parts it reads, where it ends, and which
    parts the harvest takes. */
module Readings {
  import opened Basics
  import opened Quotes
  import opened Scanner

  type Span = (nat, nat, bool)

  /** Where a reading ends, and the parts of it, each with whether the harvest takes it. */
  datatype Reading = Reading(end: nat, spans: seq<Span>)

  function Harvested(harvest: bool, from: nat, to: nat): seq<Span> {
    if harvest then [(from, to, true)] else []
  }

  /** A value of class `v` read from `from` on: to its stop or, if it swallows a secret, past that
      secret's value and then on as `v` again. */
  ghost function ReadAs(rd: Reader, v: ValueClass, harvest: bool, from: nat): (r: Reading)
    requires rd.Valid() && from <= |rd.line|
    ensures from <= r.end <= |rd.line|
    decreases |rd.line| - from, 0
  {
    var end := rd.ValueStop(v, from);
    var nested := SwallowedBy(rd, from, end);
    if nested.None? then Reading(end, Harvested(harvest, from, end))
    else
      var inner := ReadSecret(rd, nested.value.1);
      var rest := ReadAs(rd, v, harvest, inner.end);
      Reading(rest.end, Harvested(harvest, from, nested.value.0) + inner.spans + rest.spans)
  }

  /** The value of a secret: bare, as its class reads; quoted, past its closing delimiter or past
      the secret its text swallows. */
  ghost function ReadSecret(rd: Reader, h: Head): (r: Reading)
    requires rd.Valid() && h.start <= |rd.line|
    ensures h.start <= r.end <= |rd.line|
    decreases |rd.line| - h.start, 1
  {
    var harvest := h.value == rd.name;
    if !rd.Quoted(h) then ReadAs(rd, h.value, harvest, h.start)
    else ReadQuoted(rd, harvest, h.start, PartFrom(rd, h), CloseOf(rd.line, h.start).0, rd.PastQuote(h.start))
  }

  ghost function ReadQuoted(rd: Reader, harvest: bool, start: nat, from: nat, close: nat, past: nat): (r: Reading)
    requires rd.Valid() && start <= from <= close <= past <= |rd.line|
    ensures start <= r.end <= |rd.line|
    decreases |rd.line| - start, 0
  {
    var nested := SwallowedBy(rd, from, close);
    if nested.None? then Reading(past, Harvested(harvest, start, past))
    else
      var inner := ReadSecret(rd, nested.value.1);
      Reading(inner.end, Harvested(harvest, start, nested.value.0) + inner.spans)
  }

  /** A value of class `outer` (none if quoted) at `start` that swallowed the secret `h` at `pos`. */
  ghost function ReadPast(rd: Reader, start: nat, pos: nat, h: Head, outer: Option<ValueClass>): (r: Reading)
    requires rd.Valid() && h.start <= |rd.line|
  {
    var inner := ReadSecret(rd, h);
    var spans := [(start, pos, false)] + inner.spans;
    if outer.None? then Reading(inner.end, spans)
    else
      var rest := ReadAs(rd, outer.value, false, inner.end);
      Reading(rest.end, spans + rest.spans)
  }

  // ---- The parts ----

  /** A stretch a mask reads: its value starts at `start` and its text, quotes aside, is
      `line[from..to]`; reading goes on at `past`. `owner` is the secret whose value it is, or is a
      stretch of; none for the value that is masked itself. */
  datatype Part = Part(start: nat, from: nat, to: nat, past: nat, owner: Option<Head>)

  /** Where the text of a value starts: after its opening delimiter, if it has one. */
  function PartFrom(rd: Reader, h: Head): nat
    requires h.start <= |rd.line|
  {
    h.start + |Delimiter(rd.line, h.start)|
  }

  /** The parts of a value of class `v` read from `from` on. */
  ghost function PartsAs(rd: Reader, owner: Option<Head>, v: ValueClass, from: nat): (parts: seq<Part>)
    requires rd.Valid() && from <= |rd.line|
    ensures parts != []
    decreases |rd.line| - from, 0
  {
    var end := rd.ValueStop(v, from);
    var nested := SwallowedBy(rd, from, end);
    var part := Part(from, from, end, end, owner);
    if nested.None? then [part]
    else [part] + PartsOf(rd, nested.value.1) + PartsAs(rd, owner, v, ReadSecret(rd, nested.value.1).end)
  }

  /** The parts of the value of a secret. */
  ghost function PartsOf(rd: Reader, h: Head): (parts: seq<Part>)
    requires rd.Valid() && h.start <= |rd.line|
    ensures parts != []
    decreases |rd.line| - h.start, 1
  {
    if !rd.Quoted(h) then PartsAs(rd, Some(h), h.value, h.start)
    else
      PartsQuoted(rd, QuotedPartOf(rd, h))
  }

  function QuotedPartOf(rd: Reader, h: Head): Part
    requires h.start <= |rd.line| && rd.Quoted(h)
  {
    Part(h.start, PartFrom(rd, h), CloseOf(rd.line, h.start).0, rd.PastQuote(h.start), Some(h))
  }

  lemma QuotedIsPart(rd: Reader, h: Head)
    requires h.start <= |rd.line| && rd.Quoted(h)
    ensures IsPart(rd, QuotedPartOf(rd, h)) && QuotedPartOf(rd, h).to == rd.Reach(h)
  {
    if CloseOf(rd.line, h.start).1 { ClosingFence(rd.line, h.start); }
  }

  ghost function PartsQuoted(rd: Reader, part: Part): (parts: seq<Part>)
    requires rd.Valid() && part.start <= part.from <= |rd.line|
    ensures parts != []
    decreases |rd.line| - part.start, 0
  {
    var nested := SwallowedBy(rd, part.from, part.to);
    if nested.None? then [part] else [part] + PartsOf(rd, nested.value.1)
  }

  lemma AssociativeSpans(a: seq<Span>, b: seq<Span>, c: seq<Span>)
    ensures a + b + c == a + (b + c)
  {}

  lemma AssociativeParts(a: seq<Part>, b: seq<Part>, c: seq<Part>)
    ensures a + b + c == a + (b + c)
  {}

  // ---- What holds of any sequence of parts ----

  /** Between the text of a part and where reading goes on there is at most its closing delimiter. */
  ghost predicate IsPart(rd: Reader, part: Part) {
    && part.start <= part.from <= part.to <= part.past <= |rd.line|
    && forall k | part.to <= k < part.past :: IsFence(rd.line[k])
  }

  /** How reading gets from a part to text at `from`: it runs on where the part ended, as a
      value the part was inside, or goes on with the value of the secret the part swallowed. */
  ghost predicate Leads(rd: Reader, a: Part, from: nat)
    requires rd.Valid()
  {
    || from == a.past
    || exists s: (nat, Head) ::
         rd.IsSwallowed(a.from, a.to, Some(s)) && s.1.start <= |rd.line| && PartFrom(rd, s.1) == from
  }

  ghost predicate Chain(rd: Reader, parts: seq<Part>)
    requires rd.Valid()
  {
    && (forall i | 0 <= i < |parts| :: IsPart(rd, parts[i]))
    && (forall i | 0 <= i < |parts| - 1 :: Leads(rd, parts[i], parts[i + 1].from))
  }

  /** Every secret that starts in the text of any of the parts has its own value end by `bound`. */
  ghost predicate AllCovered(rd: Reader, parts: seq<Part>, bound: nat)
    requires rd.Valid()
  {
    forall i | 0 <= i < |parts| :: rd.Covered(parts[i].from, parts[i].to, bound)
  }

  /** The parts of the mask given to the harvest follow one another inside `line[from..to]`. */
  ghost predicate Ordered(spans: seq<Span>, from: nat, to: nat) {
    && (forall i | 0 <= i < |spans| :: from <= spans[i].0 <= spans[i].1 <= to)
    && (forall i, j | 0 <= i < j < |spans| :: spans[i].1 <= spans[j].0)
  }

  lemma CoveredBy(rd: Reader, start: nat, end: nat, r: Option<(nat, Head)>, bound: nat)
    requires rd.Valid() && end <= |rd.line| && rd.IsSwallowed(start, end, r)
    requires end <= bound && (r.Some? ==> rd.Reach(r.value.1) <= bound)
    ensures rd.Covered(start, end, bound)
    ensures r.Some? ==> end <= rd.Reach(r.value.1)
  {
    forall p: nat | rd.Candidate(start, end, p) ensures rd.Reach(rd.SwallowedHead(p).value) <= bound {
      if rd.Qualifies(start, end, p) { assert r.Some? && rd.Yields(start, end, p, r.value.0, r.value.1); }
    }
  }

  // ---- What the harvest takes ----

  /** The part is of the value of a swallowed `NAME=value` secret. */
  predicate Named(rd: Reader, part: Part) { part.owner.Some? && part.owner.value.value == rd.name }

  /** From where its value starts to where it ends, or to the name of the secret it swallowed. */
  ghost function SpanOf(rd: Reader, part: Part): Span
    requires rd.Valid()
  {
    var swallowed := SwallowedBy(rd, part.from, part.to);
    (part.start, if swallowed.None? then part.past else swallowed.value.0, true)
  }

  /** The spans are those of the parts of such values, one each, in order. */
  ghost predicate Flagged(rd: Reader, parts: seq<Part>, spans: seq<Span>)
    requires rd.Valid()
  {
    if parts == [] then spans == []
    else if Named(rd, parts[0]) then
      spans != [] && spans[0] == SpanOf(rd, parts[0]) && Flagged(rd, parts[1..], spans[1..])
    else Flagged(rd, parts[1..], spans)
  }

  // ---- The parts of a reading ----

  /** A reading from `start` to `end`: its parts, and the spans it gives the harvest. */
  ghost predicate ReadsTo(rd: Reader, parts: seq<Part>, spans: seq<Span>, start: nat, end: nat)
    requires rd.Valid()
  {
    && parts != [] && parts[|parts| - 1].past == end && start <= end <= |rd.line|
    && Chain(rd, parts) && AllCovered(rd, parts, end) && Ordered(spans, start, end) && Flagged(rd, parts, spans)
  }

  lemma ChainJoined(rd: Reader, a: seq<Part>, b: seq<Part>)
    requires rd.Valid() && Chain(rd, a) && Chain(rd, b) && a != [] && b != []
    requires Leads(rd, a[|a| - 1], b[0].from)
    ensures Chain(rd, a + b)
  {
    var all := a + b;
    forall i | 0 <= i < |all| - 1 ensures Leads(rd, all[i], all[i + 1].from) {
      if i < |a| - 1 {
        assert Leads(rd, a[i], a[i + 1].from);
      } else if i >= |a| {
        assert Leads(rd, b[i - |a|], b[i - |a| + 1].from);
      }
    }
  }

  lemma CoveredJoined(rd: Reader, a: seq<Part>, b: seq<Part>, m: nat, end: nat)
    requires rd.Valid() && AllCovered(rd, a, m) && AllCovered(rd, b, end) && m <= end
    ensures AllCovered(rd, a + b, end)
  {
    var all := a + b;
    forall i | 0 <= i < |all| ensures rd.Covered(all[i].from, all[i].to, end) {
      if i < |a| {
        assert rd.Covered(a[i].from, a[i].to, m);
      } else {
        assert rd.Covered(b[i - |a|].from, b[i - |a|].to, end);
      }
    }
  }

  lemma OrderedJoined(s: seq<Span>, t: seq<Span>, start: nat, m: nat, from: nat, end: nat)
    requires Ordered(s, start, m) && Ordered(t, from, end) && start <= m <= from <= end
    ensures Ordered(s + t, start, end)
  {}

  lemma {:induction false} FlaggedJoined(rd: Reader, a: seq<Part>, s: seq<Span>, b: seq<Part>, t: seq<Span>)
    requires rd.Valid() && Flagged(rd, a, s) && Flagged(rd, b, t)
    ensures Flagged(rd, a + b, s + t)
  {
    if a == [] {
      assert a + b == b && s + t == t;
    } else if Named(rd, a[0]) {
      FlaggedJoined(rd, a[1..], s[1..], b, t);
      assert (a + b)[1..] == a[1..] + b && (s + t)[1..] == s[1..] + t;
    } else {
      FlaggedJoined(rd, a[1..], s, b, t);
      assert (a + b)[1..] == a[1..] + b;
    }
  }

  /** One reading after another. */
  lemma Joined(rd: Reader, a: seq<Part>, s: seq<Span>, start: nat, m: nat, b: seq<Part>, t: seq<Span>, from: nat,
               end: nat)
    requires rd.Valid() && ReadsTo(rd, a, s, start, m) && ReadsTo(rd, b, t, from, end)
    requires m <= from && Leads(rd, a[|a| - 1], b[0].from)
    ensures ReadsTo(rd, a + b, s + t, start, end)
  {
    ChainJoined(rd, a, b);
    CoveredJoined(rd, a, b, m, end);
    OrderedJoined(s, t, start, m, from, end);
    FlaggedJoined(rd, a, s, b, t);
  }

  ghost function Flag(rd: Reader, part: Part): seq<Span>
    requires rd.Valid()
  {
    Harvested(Named(rd, part), part.start, SpanOf(rd, part).1)
  }

  lemma OneFlag(rd: Reader, part: Part)
    requires rd.Valid()
    ensures Flagged(rd, [part], Flag(rd, part))
  {
    assert Flagged(rd, [], []);
    assert [part][1..] == [] && Flag(rd, part)[|Flag(rd, part)|..] == [];
  }

  lemma OneChain(rd: Reader, part: Part)
    requires rd.Valid() && IsPart(rd, part)
    ensures Chain(rd, [part])
  {}

  lemma OneCovered(rd: Reader, part: Part, end: nat)
    requires rd.Valid() && rd.Covered(part.from, part.to, end)
    ensures AllCovered(rd, [part], end)
  {}

  lemma OneOrdered(harvest: bool, from: nat, to: nat)
    requires from <= to
    ensures Ordered(Harvested(harvest, from, to), from, to)
  {}

  /** A part that swallows nothing. */
  lemma Alone(rd: Reader, part: Part)
    requires rd.Valid() && IsPart(rd, part) && SwallowedBy(rd, part.from, part.to).None?
    ensures ReadsTo(rd, [part], Harvested(Named(rd, part), part.start, part.past), part.start, part.past)
  {
    NothingCovered(rd, part);
    OneChain(rd, part);
    OneCovered(rd, part, part.past);
    OneOrdered(Named(rd, part), part.start, part.past);
    OneFlag(rd, part);
  }

  lemma NothingCovered(rd: Reader, part: Part)
    requires rd.Valid() && IsPart(rd, part) && SwallowedBy(rd, part.from, part.to).None?
    ensures rd.Covered(part.from, part.to, part.past)
  {
    CoveredBy(rd, part.from, part.to, None, part.past);
  }

  lemma SwallowedCovered(rd: Reader, part: Part, end: nat)
    requires rd.Valid() && IsPart(rd, part) && SwallowedBy(rd, part.from, part.to).Some?
    requires rd.Reach(SwallowedBy(rd, part.from, part.to).value.1) <= end
    ensures rd.Covered(part.from, part.to, end) && part.to <= end
    ensures Leads(rd, part, PartFrom(rd, SwallowedBy(rd, part.from, part.to).value.1))
  {
    var s := SwallowedBy(rd, part.from, part.to);
    CoveredBy(rd, part.from, part.to, s, rd.Reach(s.value.1));
    assert rd.IsSwallowed(part.from, part.to, Some(s.value));
  }

  /** A part, and the reading of the secret it swallowed after it. */
  lemma Before(rd: Reader, part: Part, b: seq<Part>, t: seq<Span>, end: nat)
    requires rd.Valid() && IsPart(rd, part) && SwallowedBy(rd, part.from, part.to).Some?
    requires var s := SwallowedBy(rd, part.from, part.to).value;
             && ReadsTo(rd, b, t, s.1.start, end) && b[0].from == PartFrom(rd, s.1) && rd.Reach(s.1) <= end
    ensures var s := SwallowedBy(rd, part.from, part.to).value;
            ReadsTo(rd, [part] + b, Harvested(Named(rd, part), part.start, s.0) + t, part.start, end)
    ensures part.to <= end
  {
    var s := SwallowedBy(rd, part.from, part.to).value;
    SwallowedCovered(rd, part, end);
    OneChain(rd, part);
    ChainJoined(rd, [part], b);
    OneCovered(rd, part, end);
    CoveredJoined(rd, [part], b, end, end);
    OneFlag(rd, part);
    FlaggedJoined(rd, [part], Flag(rd, part), b, t);
    OneOrdered(Named(rd, part), part.start, s.0);
    OrderedJoined(Harvested(Named(rd, part), part.start, s.0), t, part.start, s.0, s.1.start, end);
  }

  /** A value read on: its parts, and where it ends it stops at once. */
  lemma {:induction false} ReadAsParts(rd: Reader, owner: Option<Head>, v: ValueClass, from: nat)
    requires rd.Valid() && from <= |rd.line|
    ensures var named := owner.Some? && owner.value.value == rd.name;
            var r := ReadAs(rd, v, named, from);
            && ReadsTo(rd, PartsAs(rd, owner, v, from), r.spans, from, r.end)
            && rd.ValueStop(v, r.end) == r.end && rd.ValueStop(v, from) <= r.end
    ensures PartsAs(rd, owner, v, from)[0].from == from
    decreases |rd.line| - from, 0
  {
    var end := rd.ValueStop(v, from);
    var nested := SwallowedBy(rd, from, end);
    var part := Part(from, from, end, end, owner);
    if nested.None? {
      Alone(rd, part);
      SameStop(rd, v, from, end);
    } else {
      var h := nested.value.1;
      var m := ReadSecret(rd, h).end;
      ReadSecretParts(rd, h);
      ReadAsParts(rd, owner, v, m);
      var named := Named(rd, part);
      var inner, rest := ReadSecret(rd, h), ReadAs(rd, v, named, m);
      Joined(rd, PartsOf(rd, h), inner.spans, h.start, m, PartsAs(rd, owner, v, m), rest.spans, m, rest.end);
      Before(rd, part, PartsOf(rd, h) + PartsAs(rd, owner, v, m), inner.spans + rest.spans, rest.end);
      AssociativeParts([part], PartsOf(rd, h), PartsAs(rd, owner, v, m));
      AssociativeSpans(Harvested(named, from, nested.value.0), inner.spans, rest.spans);
    }
  }

  /** The value of a secret: its parts, and it ends no earlier than read alone. */
  lemma {:induction false} ReadSecretParts(rd: Reader, h: Head)
    requires rd.Valid() && h.start <= |rd.line|
    ensures var r := ReadSecret(rd, h);
            ReadsTo(rd, PartsOf(rd, h), r.spans, h.start, r.end) && rd.Reach(h) <= r.end
    ensures PartsOf(rd, h)[0].from == PartFrom(rd, h)
    decreases |rd.line| - h.start, 1
  {
    if !rd.Quoted(h) {
      ReadAsParts(rd, Some(h), h.value, h.start);
    } else {
      QuotedIsPart(rd, h);
      var part := QuotedPartOf(rd, h);
      var nested := SwallowedBy(rd, part.from, part.to);
      if nested.None? {
        Alone(rd, part);
      } else {
        ReadSecretParts(rd, nested.value.1);
        var inner := ReadSecret(rd, nested.value.1);
        Before(rd, part, PartsOf(rd, nested.value.1), inner.spans, inner.end);
      }
    }
  }

  // ---- In what order ----

  /** The class a stretch is read as: its owner's, or that of the value that is masked itself. */
  function ClassOf(owner: Option<Head>, outer: Option<ValueClass>): Option<ValueClass> {
    if owner.Some? then Some(owner.value.value) else outer
  }

  /** The value of the secret `h` as its own rule reads it. */
  predicate IsValueOf(rd: Reader, part: Part, h: Head)
    requires h.start <= |rd.line|
  {
    && part.owner == Some(h) && part.start == h.start && part.from == PartFrom(rd, h) && part.to == rd.Reach(h)
    && part.past == (if rd.Quoted(h) then rd.PastQuote(h.start) else rd.Reach(h))
  }

  /** A value of class `v` read on at `at`. */
  predicate IsReadOn(rd: Reader, part: Part, v: ValueClass, at: nat) {
    at <= |rd.line| && part.start == part.from == at && part.to == part.past == rd.ValueStop(v, at)
  }

  /** Reading goes on at `at`, or with the value of the secret just swallowed, while the bare values
      of `open` are still open, innermost last. The first part is that secret's value or, with
      nothing swallowed, the innermost of them read on; a bare value that swallows a secret is open
      until reading has come past that secret. At the last part none is open. */
  ghost predicate Follows(rd: Reader, open: seq<Option<Head>>, outer: Option<ValueClass>, at: nat,
                          swallowed: Option<Head>, parts: seq<Part>)
    requires rd.Valid() && (swallowed.Some? ==> swallowed.value.start <= |rd.line|)
    decreases |parts|
  {
    if parts == [] then swallowed.None? && open == []
    else
      && IsNext(rd, open, outer, at, swallowed, parts[0])
      && Follows(rd, StillOpen(rd, open, swallowed, parts[0]), outer, parts[0].past,
                 HeadOf(SwallowedBy(rd, parts[0].from, parts[0].to)), parts[1..])
  }

  ghost predicate IsNext(rd: Reader, open: seq<Option<Head>>, outer: Option<ValueClass>, at: nat,
                         swallowed: Option<Head>, part: Part)
    requires rd.Valid() && (swallowed.Some? ==> swallowed.value.start <= |rd.line|)
  {
    if swallowed.Some? then IsValueOf(rd, part, swallowed.value)
    else
      && open != [] && part.owner == open[|open| - 1] && ClassOf(part.owner, outer).Some?
      && IsReadOn(rd, part, ClassOf(part.owner, outer).value, at)
  }

  /** The bare values open after `part`. */
  ghost function StillOpen(rd: Reader, open: seq<Option<Head>>, swallowed: Option<Head>, part: Part): seq<Option<Head>>
    requires rd.Valid() && (swallowed.None? ==> open != [])
  {
    var before := if swallowed.None? then open[..|open| - 1] else open;
    if part.start == part.from && SwallowedBy(rd, part.from, part.to).Some? then before + [part.owner] else before
  }

  function HeadOf(s: Option<(nat, Head)>): (h: Option<Head>) {
    if s.None? then None else Some(s.value.1)
  }

  /** The parts of a value read on follow one another, and what follows that value follows them. */
  lemma {:induction false} FollowsAs(rd: Reader, open: seq<Option<Head>>, outer: Option<ValueClass>,
                                     owner: Option<Head>, harvest: bool, from: nat, tail: seq<Part>)
    requires rd.Valid() && from <= |rd.line| && ClassOf(owner, outer).Some?
    requires var v := ClassOf(owner, outer).value;
             Follows(rd, open, outer, ReadAs(rd, v, harvest, from).end, None, tail)
    ensures Follows(rd, open + [owner], outer, from, None, PartsAs(rd, owner, ClassOf(owner, outer).value, from) + tail)
    decreases |rd.line| - from, 0
  {
    var v := ClassOf(owner, outer).value;
    var part := ReadOnPart(rd, owner, v, from);
    var nested := SwallowedBy(rd, part.from, part.to);
    AsParts(rd, owner, v, harvest, from);
    if nested.None? {
      ReadOnThen(rd, open, outer, owner, from, part, tail);
    } else {
      var m := ReadSecret(rd, nested.value.1).end;
      var rest := PartsAs(rd, owner, v, m);
      FollowsAs(rd, open, outer, owner, harvest, m, tail);
      FollowsSecret(rd, open + [owner], outer, part.past, nested.value.1, rest + tail);
      ReadOnThen(rd, open, outer, owner, from, part, PartsOf(rd, nested.value.1) + (rest + tail));
      Regroup(part, PartsOf(rd, nested.value.1), rest, tail);
    }
  }

  function ReadOnPart(rd: Reader, owner: Option<Head>, v: ValueClass, from: nat): Part
    requires from <= |rd.line|
  {
    var end := rd.ValueStop(v, from);
    Part(from, from, end, end, owner)
  }

  lemma AsParts(rd: Reader, owner: Option<Head>, v: ValueClass, harvest: bool, from: nat)
    requires rd.Valid() && from <= |rd.line|
    ensures var part := ReadOnPart(rd, owner, v, from);
            var nested := SwallowedBy(rd, part.from, part.to);
            && (nested.None? ==> PartsAs(rd, owner, v, from) == [part] && ReadAs(rd, v, harvest, from).end == part.past)
            && (nested.Some? ==>
                  var m := ReadSecret(rd, nested.value.1).end;
                  && from < m <= |rd.line|
                  && PartsAs(rd, owner, v, from) == [part] + PartsOf(rd, nested.value.1) + PartsAs(rd, owner, v, m)
                  && ReadAs(rd, v, harvest, from).end == ReadAs(rd, v, harvest, m).end)
  {}

  lemma ReadOnThen(rd: Reader, open: seq<Option<Head>>, outer: Option<ValueClass>, owner: Option<Head>, at: nat,
                   part: Part, tail: seq<Part>)
    requires rd.Valid() && at <= |rd.line| && ClassOf(owner, outer).Some?
    requires part == ReadOnPart(rd, owner, ClassOf(owner, outer).value, at)
    requires var swallowed := SwallowedBy(rd, part.from, part.to);
             Follows(rd, if swallowed.None? then open else open + [owner], outer, part.past, HeadOf(swallowed), tail)
    ensures Follows(rd, open + [owner], outer, at, None, [part] + tail)
  {
    PopLast(open, owner);
    FirstOf(part, tail);
  }

  /** So do those of the value of a secret. */
  lemma {:induction false} FollowsSecret(rd: Reader, open: seq<Option<Head>>, outer: Option<ValueClass>, at: nat,
                                         h: Head, tail: seq<Part>)
    requires rd.Valid() && h.start <= |rd.line|
    requires Follows(rd, open, outer, ReadSecret(rd, h).end, None, tail)
    ensures Follows(rd, open, outer, at, Some(h), PartsOf(rd, h) + tail)
    decreases |rd.line| - h.start, 2
  {
    if rd.Quoted(h) { FollowsQuoted(rd, open, outer, at, h, tail); } else { FollowsBare(rd, open, outer, at, h, tail); }
  }

  lemma {:induction false} FollowsQuoted(rd: Reader, open: seq<Option<Head>>, outer: Option<ValueClass>, at: nat,
                                         h: Head, tail: seq<Part>)
    requires rd.Valid() && h.start <= |rd.line| && rd.Quoted(h)
    requires Follows(rd, open, outer, ReadSecret(rd, h).end, None, tail)
    ensures Follows(rd, open, outer, at, Some(h), PartsOf(rd, h) + tail)
    decreases |rd.line| - h.start, 1
  {
    var part := QuotedPartOf(rd, h);
    var nested := SwallowedBy(rd, part.from, part.to);
    QuotedParts(rd, h);
    if nested.None? {
      ValueThen(rd, open, outer, at, h, part, tail);
    } else {
      FollowsSecret(rd, open, outer, part.past, nested.value.1, tail);
      ValueThen(rd, open, outer, at, h, part, PartsOf(rd, nested.value.1) + tail);
      AssociativeParts([part], PartsOf(rd, nested.value.1), tail);
    }
  }

  lemma {:induction false} FollowsBare(rd: Reader, open: seq<Option<Head>>, outer: Option<ValueClass>, at: nat,
                                       h: Head, tail: seq<Part>)
    requires rd.Valid() && h.start <= |rd.line| && !rd.Quoted(h)
    requires Follows(rd, open, outer, ReadSecret(rd, h).end, None, tail)
    ensures Follows(rd, open, outer, at, Some(h), PartsOf(rd, h) + tail)
    decreases |rd.line| - h.start, 1
  {
    var part := ReadOnPart(rd, Some(h), h.value, h.start);
    var nested := SwallowedBy(rd, part.from, part.to);
    BareParts(rd, h);
    if nested.None? {
      ValueThen(rd, open, outer, at, h, part, tail);
    } else {
      var m := ReadSecret(rd, nested.value.1).end;
      var rest := PartsAs(rd, Some(h), h.value, m);
      FollowsAs(rd, open, outer, Some(h), h.value == rd.name, m, tail);
      FollowsSecret(rd, open + [Some(h)], outer, part.past, nested.value.1, rest + tail);
      ValueThen(rd, open, outer, at, h, part, PartsOf(rd, nested.value.1) + (rest + tail));
      Regroup(part, PartsOf(rd, nested.value.1), rest, tail);
    }
  }

  lemma QuotedParts(rd: Reader, h: Head)
    requires rd.Valid() && h.start <= |rd.line| && rd.Quoted(h)
    ensures var part := QuotedPartOf(rd, h);
            var nested := SwallowedBy(rd, part.from, part.to);
            && IsValueOf(rd, part, h) && part.start < part.from
            && PartsOf(rd, h) == (if nested.None? then [part] else [part] + PartsOf(rd, nested.value.1))
            && ReadSecret(rd, h).end == if nested.None? then part.past else ReadSecret(rd, nested.value.1).end
  {
    QuotedIsPart(rd, h);
    var part := QuotedPartOf(rd, h);
    assert ReadSecret(rd, h) == ReadQuoted(rd, h.value == rd.name, h.start, part.from, part.to, part.past);
  }

  lemma BareParts(rd: Reader, h: Head)
    requires rd.Valid() && h.start <= |rd.line| && !rd.Quoted(h)
    ensures var part := ReadOnPart(rd, Some(h), h.value, h.start);
            var nested := SwallowedBy(rd, part.from, part.to);
            && IsValueOf(rd, part, h) && part.start == part.from
            && (nested.None? ==> PartsOf(rd, h) == [part] && ReadSecret(rd, h).end == part.past)
            && (nested.Some? ==>
                  var m := ReadSecret(rd, nested.value.1).end;
                  && PartsOf(rd, h) == [part] + PartsOf(rd, nested.value.1) + PartsAs(rd, Some(h), h.value, m)
                  && ReadSecret(rd, h).end == ReadAs(rd, h.value, h.value == rd.name, m).end)
  {
    assert PartsOf(rd, h) == PartsAs(rd, Some(h), h.value, h.start);
    assert ReadSecret(rd, h) == ReadAs(rd, h.value, h.value == rd.name, h.start);
  }

  lemma ValueThen(rd: Reader, open: seq<Option<Head>>, outer: Option<ValueClass>, at: nat, h: Head, part: Part,
                  tail: seq<Part>)
    requires rd.Valid() && h.start <= |rd.line| && IsValueOf(rd, part, h)
    requires Follows(rd, StillOpen(rd, open, Some(h), part), outer, part.past,
                     HeadOf(SwallowedBy(rd, part.from, part.to)), tail)
    ensures Follows(rd, open, outer, at, Some(h), [part] + tail)
  {
    FirstOf(part, tail);
  }

  lemma PopLast(open: seq<Option<Head>>, owner: Option<Head>)
    ensures (open + [owner])[..|open|] == open
  {}

  lemma FirstOf(part: Part, tail: seq<Part>)
    ensures ([part] + tail)[0] == part && ([part] + tail)[1..] == tail
  {}

  lemma Regroup(part: Part, a: seq<Part>, b: seq<Part>, tail: seq<Part>)
    ensures [part] + a + b + tail == [part] + (a + (b + tail))
  {}

  /** What follows is determined. */
  lemma {:induction false} FollowsIsUnique(rd: Reader, open: seq<Option<Head>>, outer: Option<ValueClass>, at: nat,
                                           swallowed: Option<Head>, a: seq<Part>, b: seq<Part>)
    requires rd.Valid() && (swallowed.Some? ==> swallowed.value.start <= |rd.line|)
    requires Follows(rd, open, outer, at, swallowed, a) && Follows(rd, open, outer, at, swallowed, b)
    ensures a == b
    decreases |a|
  {
    if a != [] && b != [] {
      FollowsIsUnique(rd, StillOpen(rd, open, swallowed, a[0]), outer, a[0].past,
                      HeadOf(SwallowedBy(rd, a[0].from, a[0].to)), a[1..], b[1..]);
      assert a == [a[0]] + a[1..] && b == [b[0]] + b[1..];
    }
  }

  // ---- The whole mask ----

  function Outermost(outer: Option<ValueClass>): seq<Option<Head>> {
    if outer.None? then [] else [None]
  }

  /** What is read past a swallowed secret `h`, whose name starts at `pos`, in a value of class
      `outer` at `start`: the parts follow one another from the value of `h` to `end`, where the
      outer value, read on, stops at once; every secret that starts in the text of one of them has
      its value end by `end`; the first span is the value's own, up to `pos`, and not for the
      harvest; the others are those of the parts of swallowed `NAME=value` values. */
  ghost predicate IsPast(rd: Reader, start: nat, pos: nat, h: Head, outer: Option<ValueClass>, end: nat,
                         parts: seq<Part>, spans: seq<Span>)
    requires rd.Valid() && h.start <= |rd.line|
  {
    && rd.Reach(h) <= end <= |rd.line| && (outer.Some? ==> rd.ValueStop(outer.value, end) == end)
    && parts != [] && parts[0].from == PartFrom(rd, h) && parts[|parts| - 1].past == end
    && Chain(rd, parts) && AllCovered(rd, parts, end) && Ordered(spans, start, end)
    && Follows(rd, Outermost(outer), outer, start, Some(h), parts)
    && spans != [] && spans[0] == (start, pos, false) && Flagged(rd, parts, spans[1..])
  }

  ghost function PastParts(rd: Reader, h: Head, outer: Option<ValueClass>): seq<Part>
    requires rd.Valid() && h.start <= |rd.line|
  {
    if outer.None? then PartsOf(rd, h)
    else PartsOf(rd, h) + PartsAs(rd, None, outer.value, ReadSecret(rd, h).end)
  }

  lemma PastReadsTo(rd: Reader, start: nat, pos: nat, h: Head, outer: Option<ValueClass>)
    requires rd.Valid() && h.start <= |rd.line|
    ensures var r := ReadPast(rd, start, pos, h, outer);
            && r.spans != [] && r.spans[0] == (start, pos, false)
            && ReadsTo(rd, PastParts(rd, h, outer), r.spans[1..], h.start, r.end)
            && rd.Reach(h) <= r.end && PastParts(rd, h, outer)[0].from == PartFrom(rd, h)
            && (outer.Some? ==> rd.ValueStop(outer.value, r.end) == r.end)
  {
    ReadSecretParts(rd, h);
    if outer.Some? { PastReadsOn(rd, h, outer.value); }
    AfterFirst((start, pos, false), ReadSecret(rd, h).spans,
               if outer.None? then [] else ReadAs(rd, outer.value, false, ReadSecret(rd, h).end).spans);
  }

  lemma PastReadsOn(rd: Reader, h: Head, v: ValueClass)
    requires rd.Valid() && h.start <= |rd.line|
    requires var r := ReadSecret(rd, h); ReadsTo(rd, PartsOf(rd, h), r.spans, h.start, r.end)
    ensures var r := ReadSecret(rd, h);
            var rest := ReadAs(rd, v, false, r.end);
            && ReadsTo(rd, PartsOf(rd, h) + PartsAs(rd, None, v, r.end), r.spans + rest.spans, h.start, rest.end)
            && rd.ValueStop(v, rest.end) == rest.end
  {
    var r := ReadSecret(rd, h);
    var rest := ReadAs(rd, v, false, r.end);
    ReadAsParts(rd, None, v, r.end);
    Joined(rd, PartsOf(rd, h), r.spans, h.start, r.end, PartsAs(rd, None, v, r.end), rest.spans, r.end, rest.end);
  }

  lemma AfterFirst(first: Span, a: seq<Span>, b: seq<Span>)
    ensures ([first] + a)[0] == first == ([first] + a + b)[0] && ([first] + a)[1..] == a
    ensures ([first] + a + b)[1..] == a + b
  {}

  lemma PastFollows(rd: Reader, at: nat, h: Head, outer: Option<ValueClass>)
    requires rd.Valid() && h.start <= |rd.line|
    ensures Follows(rd, Outermost(outer), outer, at, Some(h), PastParts(rd, h, outer))
  {
    var m := ReadSecret(rd, h).end;
    var rest := if outer.None? then [] else PartsAs(rd, None, outer.value, m);
    if outer.Some? {
      FollowsAs(rd, [], outer, None, false, m, []);
      assert [] + [None] == Outermost(outer) && rest + [] == rest;
    }
    FollowsSecret(rd, Outermost(outer), outer, at, h, rest);
    assert outer.None? ==> PartsOf(rd, h) + [] == PartsOf(rd, h);
  }

  lemma PastHolds(rd: Reader, start: nat, pos: nat, h: Head, outer: Option<ValueClass>)
    requires rd.Valid() && start <= pos < h.start <= |rd.line|
    ensures var r := ReadPast(rd, start, pos, h, outer);
            IsPast(rd, start, pos, h, outer, r.end, PastParts(rd, h, outer), r.spans)
  {
    PastReadsTo(rd, start, pos, h, outer);
    PastFollows(rd, start, h, outer);
    var r := ReadPast(rd, start, pos, h, outer);
    FirstSpan((start, pos, false), r.spans[1..], start, h.start, r.end);
    assert r.spans == [(start, pos, false)] + r.spans[1..];
  }

  lemma FirstSpan(first: Span, spans: seq<Span>, start: nat, from: nat, end: nat)
    requires start == first.0 <= first.1 <= from <= end && Ordered(spans, from, end)
    ensures Ordered([first] + spans, start, end)
  {}

  /** The value whose own text is `first`: it ends where that does, or past the secret that the
      text swallows. */
  ghost function Whole(rd: Reader, first: Part, outer: Option<ValueClass>): Reading
    requires rd.Valid()
  {
    var swallowed := SwallowedBy(rd, first.from, first.to);
    if swallowed.None? then Reading(first.past, [])
    else ReadPast(rd, first.start, swallowed.value.0, swallowed.value.1, outer)
  }

  /** The mask of a value whose own text is `first`: the parts it takes in, from that text to `end`,
      with every secret that starts in the text of one of them, and what it gives the harvest. */
  ghost predicate IsMask(rd: Reader, first: Part, outer: Option<ValueClass>, end: nat, parts: seq<Part>,
                         spans: seq<Span>)
    requires rd.Valid()
  {
    && parts != [] && parts[0] == first && parts[|parts| - 1].past == end
    && Chain(rd, parts) && AllCovered(rd, parts, end)
    && match SwallowedBy(rd, first.from, first.to)
       case None => parts == [first] && spans == []
       case Some((pos, h)) => IsPast(rd, first.start, pos, h, outer, end, parts[1..], spans)
  }

  lemma WholeHolds(rd: Reader, first: Part, outer: Option<ValueClass>) returns (parts: seq<Part>)
    requires rd.Valid() && IsPart(rd, first)
    ensures var r := Whole(rd, first, outer); IsMask(rd, first, outer, r.end, parts, r.spans) && first.to <= r.end
  {
    var r := Whole(rd, first, outer);
    OneChain(rd, first);
    var swallowed := SwallowedBy(rd, first.from, first.to);
    if swallowed.None? {
      parts := [first];
      NothingCovered(rd, first);
      OneCovered(rd, first, first.past);
    } else {
      var (pos, h) := swallowed.value;
      PastHolds(rd, first.start, pos, h, outer);
      SwallowedCovered(rd, first, r.end);
      OneCovered(rd, first, r.end);
      var rest := PastParts(rd, h, outer);
      CoveredJoined(rd, [first], rest, r.end, r.end);
      ChainJoined(rd, [first], rest);
      FirstOf(first, rest);
      parts := [first] + rest;
    }
  }

  /** The mask of a value is determined: its end, its parts and what it gives the harvest. */
  lemma MaskIsUnique(rd: Reader, first: Part, outer: Option<ValueClass>, end1: nat, parts1: seq<Part>,
                     spans1: seq<Span>, end2: nat, parts2: seq<Part>, spans2: seq<Span>)
    requires rd.Valid() && IsMask(rd, first, outer, end1, parts1, spans1)
    requires IsMask(rd, first, outer, end2, parts2, spans2)
    ensures end1 == end2 && parts1 == parts2 && spans1 == spans2
  {
    var swallowed := SwallowedBy(rd, first.from, first.to);
    if swallowed.Some? {
      FollowsIsUnique(rd, Outermost(outer), outer, first.start, Some(swallowed.value.1), parts1[1..], parts2[1..]);
      assert parts1 == [first] + parts1[1..] && parts2 == [first] + parts2[1..];
      FlaggedIsUnique(rd, parts1[1..], spans1[1..], spans2[1..]);
      assert spans1 == [spans1[0]] + spans1[1..] && spans2 == [spans2[0]] + spans2[1..];
    }
  }

  lemma {:induction false} FlaggedIsUnique(rd: Reader, parts: seq<Part>, s: seq<Span>, t: seq<Span>)
    requires rd.Valid() && Flagged(rd, parts, s) && Flagged(rd, parts, t)
    ensures s == t
  {
    if parts != [] {
      if Named(rd, parts[0]) {
        FlaggedIsUnique(rd, parts[1..], s[1..], t[1..]);
        assert s == [s[0]] + s[1..] && t == [t[0]] + t[1..];
      } else {
        FlaggedIsUnique(rd, parts[1..], s, t);
      }
    }
  }
}
