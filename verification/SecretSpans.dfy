/** `secret_spans`: read the masked stretches of a text off its masked copy. */
module SecretSpans {
  import opened Basics
  import opened Text
  import opened Pieces

  // ---- `str.find` and `str.split` ----

  /** The first occurrence of `lit` from `from` on. */
  function Find(text: string, lit: string, from: nat): (r: Option<nat>)
    ensures r.Some? ==> from <= r.value && OccursAt(lit, text, r.value)
    decreases |text| - from
  {
    if from + |lit| > |text| then None
    else if OccursAt(lit, text, from) then Some(from)
    else Find(text, lit, from + 1)
  }

  lemma {:induction false} FindIsFirst(text: string, lit: string, from: nat, p: nat)
    requires from <= p && OccursAt(lit, text, p)
    ensures Find(text, lit, from).Some? && Find(text, lit, from).value <= p
    decreases |text| - from
  {
    if !OccursAt(lit, text, from) { FindIsFirst(text, lit, from + 1, p); }
  }

  /** `s.split(MASK)`. */
  function Split(s: string): (pieces: seq<string>)
    ensures pieces != []
    decreases |s|
  {
    var p := Find(s, MASK, 0);
    if p.None? then [s] else [s[..p.value]] + Split(s[p.value + |MASK|..])
  }

  /** Splitting at the masks loses nothing. */
  lemma {:induction false} JoinSplit(s: string)
    ensures Join(Split(s), MASK) == s
    decreases |s|
  {
    var p := Find(s, MASK, 0);
    if p.Some? {
      var rest := s[p.value + |MASK|..];
      JoinSplit(rest);
      JoinCons(s[..p.value], Split(rest), MASK);
      CutAt(s, MASK, p.value);
    }
  }

  /** Every cut is at the leftmost mask, and none is left. */
  lemma {:induction false} SplitCuts(s: string)
    ensures Cuts(Split(s), MASK)
    decreases |s|
  {
    var p := Find(s, MASK, 0);
    if p.None? {
      forall k: nat ensures !OccursAt(MASK, s, k) {
        if OccursAt(MASK, s, k) { FindIsFirst(s, MASK, 0, k); assert false; }
      }
    } else {
      var first, rest := s[..p.value], s[p.value + |MASK|..];
      SplitCuts(rest);
      CutAt(s, MASK, p.value);
      forall k: nat | k < |first| ensures !OccursAt(MASK, first + MASK, k) {
        OccursInPrefix(MASK, first + MASK, rest, k);
        if OccursAt(MASK, s, k) { FindIsFirst(s, MASK, 0, k); assert false; }
      }
      CutsCons(first, Split(rest), MASK);
    }
  }

  lemma CutsCons(first: string, pieces: seq<string>, sep: string)
    requires NoneBefore(first, sep) && Cuts(pieces, sep)
    ensures Cuts([first] + pieces, sep)
  {
    var all := [first] + pieces;
    assert all[|all| - 1] == pieces[|pieces| - 1];
    forall i | 0 <= i < |all| - 1 ensures NoneBefore(all[i], sep) {
      if i > 0 { assert all[i] == pieces[i - 1]; }
    }
  }

  lemma CutAt(s: string, mask: string, p: nat)
    requires OccursAt(mask, s, p)
    ensures s == s[..p] + mask + s[p + |mask|..]
  {}

  // ---- Spans ----

  /** Increasing, disjoint, not empty, and inside a text of `n` characters. */
  ghost predicate Spans(spans: seq<(nat, nat)>, n: nat) {
    && (forall i | 0 <= i < |spans| :: spans[i].0 < spans[i].1 <= n)
    && (forall i, j | 0 <= i < j < |spans| :: spans[i].1 <= spans[j].0)
  }

  /** `text[..at]` with a mask in place of every span. */
  function Masked(text: string, spans: seq<(nat, nat)>, at: nat): string
    decreases |spans|
  {
    if at > |text| then ""
    else if spans == [] then text[..at]
    else
      var (s, e) := spans[|spans| - 1];
      if s < e <= at then Masked(text, spans[..|spans| - 1], s) + MASK + text[e..at] else ""
  }

  /** `head` and `tail` characters at the two ends are common to both texts, and the shorter is
      not exhausted by more of them. */
  ghost predicate CommonEnds(text: string, masked: string, head: nat, tail: nat) {
    && head + tail <= |text| && head + tail <= |masked|
    && text[..head] == masked[..head] && text[|text| - tail..] == masked[|masked| - tail..]
    && (head < |text| && head < |masked| ==> text[head] != masked[head])
  }

  lemma SameHead(a: string, b: string, n: nat)
    requires n < |a| && n < |b| && a[..n] == b[..n] && a[n] == b[n]
    ensures a[..n + 1] == b[..n + 1]
  {
    assert a[..n + 1] == a[..n] + [a[n]] && b[..n + 1] == b[..n] + [b[n]];
  }

  lemma SameTail(a: string, i: nat, b: string, j: nat)
    requires i < |a| && j < |b| && a[i] == b[j] && a[i + 1..] == b[j + 1..]
    ensures a[i..] == b[j..]
  {
    assert a[i..] == [a[i]] + a[i + 1..] && b[j..] == [b[j]] + b[j + 1..];
  }

  /** The prefix and suffix scans of the fallback. */
  method Differences(text: string, masked: string) returns (head: nat, tail: nat)
    ensures CommonEnds(text, masked, head, tail)
    ensures head + tail < |text| && head + tail < |masked| ==> text[|text| - 1 - tail] != masked[|masked| - 1 - tail]
  {
    head := 0;
    while head < |text| && head < |masked| && text[head] == masked[head]
      invariant head <= |text| && head <= |masked| && text[..head] == masked[..head]
    {
      SameHead(text, masked, head);
      head := head + 1;
    }
    tail := 0;
    while head + tail < |text| && head + tail < |masked| && text[|text| - 1 - tail] == masked[|masked| - 1 - tail]
      invariant head + tail <= |text| && head + tail <= |masked|
      invariant text[|text| - tail..] == masked[|masked| - tail..]
    {
      SameTail(text, |text| - 1 - tail, masked, |masked| - 1 - tail);
      tail := tail + 1;
    }
  }

  /** What the loop has aligned: the pieces before `index` and the masks between them are what
      `text[..at]` shows. Past the text's end the spans no longer fit, and the loop will fail. */
  ghost predicate Aligned(text: string, pieces: seq<string>, index: nat, spans: seq<(nat, nat)>, at: nat)
    requires 0 < index <= |pieces|
  {
    forall n: nat {:trigger Look(n)} | Look(n) && n == index ::
      at <= |text| ==> Spans(spans, at) && Masked(text, spans, at) == Join(pieces[..n], MASK)
  }

  /** Names a count of pieces to look at: `Aligned` unfolds for these only. */
  ghost predicate Look(n: nat) { true }

  lemma AlignOne(text: string, pieces: seq<string>, index: nat, spans: seq<(nat, nat)>, at: nat, end: nat)
    requires 0 < index < |pieces| && Aligned(text, pieces, index, spans, at)
    requires at < end && end + |pieces[index]| <= |text| && text[end..end + |pieces[index]|] == pieces[index]
    ensures Aligned(text, pieces, index + 1, spans + [(at, end)], end + |pieces[index]|)
  {
    var piece := pieces[index];
    assert Look(index);
    assert pieces[..index + 1] == pieces[..index] + [piece];
    JoinSnoc(pieces[..index], piece, MASK);
    if at <= |text| { MaskedSnoc(text, spans, at, end, end + |piece|); }
  }

  lemma LastEmpty(pieces: seq<string>)
    requires |pieces| > 1 && pieces[|pieces| - 1] == ""
    ensures Join(pieces, MASK) == Join(pieces[..|pieces| - 1], MASK) + MASK
  {}

  lemma MaskedSnoc(text: string, spans: seq<(nat, nat)>, at: nat, end: nat, to: nat)
    requires at < end <= to <= |text|
    ensures Masked(text, spans + [(at, end)], to) == Masked(text, spans, at) + MASK + text[end..to]
  {
    assert (spans + [(at, end)])[..|spans|] == spans;
  }

  /** The pieces stand in the text at `starts`, in order and from end to end, with at least a
      character between two; only a last, empty piece may follow at once. */
  ghost predicate Placed(text: string, pieces: seq<string>, starts: seq<nat>) {
    && |starts| == |pieces| > 0 && starts[0] == 0
    && (forall i | 0 <= i < |pieces| :: OccursAt(pieces[i], text, starts[i]))
    && (forall i | 0 < i < |pieces| :: GapBefore(pieces, starts, i))
    && starts[|pieces| - 1] + |pieces[|pieces| - 1]| == |text|
  }

  ghost predicate GapBefore(pieces: seq<string>, starts: seq<nat>, i: nat)
    requires 0 < i < |pieces| == |starts|
  {
    var end := starts[i - 1] + |pieces[i - 1]|;
    end < starts[i] || (end == starts[i] && i == |pieces| - 1 && pieces[i] == "")
  }

  /** However the pieces can be placed, the first `index` of them do not end before `at`. */
  ghost predicate Earliest(text: string, pieces: seq<string>, index: nat, at: nat)
    requires 0 < index <= |pieces|
  {
    forall starts | Placed(text, pieces, starts) :: at <= starts[index - 1] + |pieces[index - 1]|
  }

  ghost predicate Unplaceable(text: string, pieces: seq<string>) {
    |pieces| == 1 || forall starts :: !Placed(text, pieces, starts)
  }

  // ---- Where the spans lie ----

  /** Where piece `k` ends, once the spans up to it are laid. */
  function EndAt(pieces: seq<string>, spans: seq<(nat, nat)>, k: nat): nat
    requires k < |pieces| && k <= |spans|
  {
    (if k == 0 then 0 else spans[k - 1].1) + |pieces[k]|
  }

  /** Span `k` runs from the end of its piece to where the next piece stands, which is as early as
      any placement of the pieces has it. */
  ghost predicate LaidAt(text: string, pieces: seq<string>, spans: seq<(nat, nat)>, k: nat)
    requires k < |spans| < |pieces|
  {
    && spans[k].0 == EndAt(pieces, spans, k) < spans[k].1
    && (EndAt(pieces, spans, k + 1) <= |text| ==> OccursAt(pieces[k + 1], text, spans[k].1))
    && Earliest(text, pieces, k + 2, EndAt(pieces, spans, k + 1))
  }

  ghost predicate Laid(text: string, pieces: seq<string>, spans: seq<(nat, nat)>) {
    && |spans| < |pieces| && OccursAt(pieces[0], text, 0)
    && forall k | 0 <= k < |spans| :: LaidAt(text, pieces, spans, k)
  }

  lemma LaidNext(text: string, pieces: seq<string>, spans: seq<(nat, nat)>, end: nat)
    requires Laid(text, pieces, spans) && |spans| + 1 < |pieces|
    requires var k := |spans|;
             && EndAt(pieces, spans, k) < end && Earliest(text, pieces, k + 2, end + |pieces[k + 1]|)
             && (end + |pieces[k + 1]| <= |text| ==> OccursAt(pieces[k + 1], text, end))
    ensures var spans' := spans + [(EndAt(pieces, spans, |spans|), end)];
            Laid(text, pieces, spans') && EndAt(pieces, spans', |spans'|) == end + |pieces[|spans'|]|
  {
    var spans' := spans + [(EndAt(pieces, spans, |spans|), end)];
    forall k | 0 <= k < |spans'| ensures LaidAt(text, pieces, spans', k) {
      if k < |spans| {
        assert LaidAt(text, pieces, spans, k);
        assert EndAt(pieces, spans', k) == EndAt(pieces, spans, k);
        assert EndAt(pieces, spans', k + 1) == EndAt(pieces, spans, k + 1);
      }
    }
  }

  /** The spans say where the pieces stand: all of them, or all but a last, empty one. */
  lemma LaidIsPlaced(text: string, pieces: seq<string>, spans: seq<(nat, nat)>)
    requires |pieces| > 1 && Laid(text, pieces, spans) && EndAt(pieces, spans, |spans|) == |text|
    requires |spans| == |pieces| - 1 || (|spans| == |pieces| - 2 && pieces[|pieces| - 1] == "")
    ensures !Unplaceable(text, pieces)
  {
    var n := |spans|;
    var starts := seq(|pieces|, i requires 0 <= i < |pieces| =>
      if i == 0 then 0 else if i <= n then spans[i - 1].1 else |text|);
    forall i | 0 <= i < |pieces| ensures OccursAt(pieces[i], text, starts[i]) {
      if 0 < i <= n {
        assert LaidAt(text, pieces, spans, i - 1);
        if i < n { LaidInside(text, pieces, spans, i); }
      }
    }
    forall i | 0 < i < |pieces| ensures GapBefore(pieces, starts, i) {
      if i <= n { assert LaidAt(text, pieces, spans, i - 1); }
    }
    assert Placed(text, pieces, starts);
  }

  lemma {:induction false} LaidInside(text: string, pieces: seq<string>, spans: seq<(nat, nat)>, k: nat)
    requires Laid(text, pieces, spans) && k <= |spans|
    ensures EndAt(pieces, spans, k) <= EndAt(pieces, spans, |spans|)
    decreases |spans| - k
  {
    if k < |spans| {
      assert LaidAt(text, pieces, spans, k);
      LaidInside(text, pieces, spans, k + 1);
    }
  }

  // ---- The alignment ----

  /** Where the next piece can stand at the earliest. */
  lemma NextPlace(text: string, pieces: seq<string>, index: nat, at: nat, starts: seq<nat>)
    requires 0 < index < |pieces| && Placed(text, pieces, starts) && Earliest(text, pieces, index, at)
    ensures var piece, p := pieces[index], starts[index];
            if index == |pieces| - 1
            then p == |text| - |piece| && IsSuffixOf(piece, text) && (at < p || (piece == "" && at == p == |text|))
            else at < p && (piece != "" ==> Find(text, piece, at + 1).Some? && Find(text, piece, at + 1).value <= p)
  {
    assert GapBefore(pieces, starts, index) && OccursAt(pieces[index], text, starts[index]);
    if index < |pieces| - 1 { FindIsFirst(text, pieces[index], at + 1, starts[index]); }
  }

  /** One round: a piece placed as early as can be keeps all as early as can be, and a piece
      that has no place has none at all. */
  lemma RoundEarliest(text: string, pieces: seq<string>, index: nat, at: nat, end: int, aligned: bool)
    requires 0 < index < |pieces| && Earliest(text, pieces, index, at)
    requires var piece := pieces[index];
             if index == |pieces| - 1
             then !(piece == "" && at == |text|) && end == |text| - |piece|
                    && aligned == (end > at && IsSuffixOf(piece, text))
             else && end == (if piece == "" then at + 1
                             else match Find(text, piece, at + 1) case None => -1 case Some(p) => p)
                  && aligned == (end > at)
    ensures !aligned ==> Unplaceable(text, pieces)
    ensures aligned ==> Earliest(text, pieces, index + 1, end + |pieces[index]|)
  {
    forall starts | Placed(text, pieces, starts) ensures aligned && end <= starts[index] {
      NextPlace(text, pieces, index, at, starts);
    }
  }

  lemma FirstPiece(text: string, pieces: seq<string>)
    requires pieces != []
    ensures !IsPrefixOf(pieces[0], text) ==> Unplaceable(text, pieces)
    ensures Earliest(text, pieces, 1, |pieces[0]|)
    ensures IsPrefixOf(pieces[0], text) ==>
              Aligned(text, pieces, 1, [], |pieces[0]|) && LaidTo(text, pieces, 1, [], |pieces[0]|)
  {
    assert pieces[..1] == [pieces[0]];
    forall starts | Placed(text, pieces, starts) ensures IsPrefixOf(pieces[0], text) {
      assert OccursAt(pieces[0], text, starts[0]);
    }
  }

  /** One round of the loop: where the next piece goes. `over` is whether the last mask covers
      nothing of the text. */
  method NextEnd(text: string, pieces: seq<string>, index: nat, at: nat) returns (aligned: bool, over: bool, end: nat)
    requires 0 < index < |pieces| && Earliest(text, pieces, index, at)
    ensures over ==> index == |pieces| - 1 && pieces[index] == "" && at == |text|
    ensures !aligned ==> Unplaceable(text, pieces)
    ensures aligned && !over ==> at < end && Earliest(text, pieces, index + 1, end + |pieces[index]|)
    ensures aligned && !over && end + |pieces[index]| <= |text| ==> OccursAt(pieces[index], text, end)
    ensures aligned && !over && index == |pieces| - 1 ==> end + |pieces[index]| == |text|
  {
    var piece, to: int := pieces[index], 0;
    over := index == |pieces| - 1 && piece == "" && at == |text|;
    if over { return true, true, at; }
    if index == |pieces| - 1 {
      to := |text| - |piece|;
      aligned := to > at && IsSuffixOf(piece, text);
    } else {
      if piece == "" {
        to := at + 1;
      } else {
        var found := Find(text, piece, at + 1);
        to := if found.None? then -1 else found.value;
      }
      aligned := to > at;
    }
    RoundEarliest(text, pieces, index, at, to, aligned);
    end := if aligned then to else at;
  }

  /** The alignment loop. `last` is whether a final mask covers nothing of the text. It fails only
      where the pieces cannot be placed in the text at all. */
  method Align(text: string, pieces: seq<string>)
    returns (aligned: bool, spans: seq<(nat, nat)>, ghost last: bool)
    requires pieces != []
    ensures aligned ==> Spans(spans, |text|)
    ensures aligned && !last ==> Masked(text, spans, |text|) == Join(pieces, MASK)
    ensures aligned && last ==> Masked(text, spans, |text|) + MASK == Join(pieces, MASK)
    ensures aligned <==> !Unplaceable(text, pieces)
    ensures aligned ==> Laid(text, pieces, spans) && |spans| == (if last then |pieces| - 2 else |pieces| - 1)
    ensures aligned && last ==> pieces[|pieces| - 1] == ""
  {
    var index;
    aligned, spans, index := AlignPieces(text, pieces);
    last := index < |pieces|;
    if aligned {
      LaidDone(text, pieces, index, spans);
      if last { AlignedLast(text, pieces, spans); } else { AlignedAll(text, pieces, spans); }
    }
  }

  /** It ends at the last piece if that one stands, empty, at the text's end. */
  method AlignPieces(text: string, pieces: seq<string>)
    returns (aligned: bool, spans: seq<(nat, nat)>, index: nat)
    requires pieces != []
    ensures aligned ==> |pieces| > 1 && 0 < index <= |pieces| && Aligned(text, pieces, index, spans, |text|)
    ensures aligned && index < |pieces| ==> index == |pieces| - 1 && pieces[index] == ""
    ensures aligned ==> LaidTo(text, pieces, index, spans, |text|)
    ensures !aligned ==> Unplaceable(text, pieces)
  {
    spans := [];
    var at: nat := |pieces[0]|;
    aligned := |pieces| > 1 && IsPrefixOf(pieces[0], text);
    FirstPiece(text, pieces);
    index := 1;
    var over := false;
    while index < |pieces| && aligned && !over
      invariant 1 <= index <= |pieces|
      invariant aligned ==>
                  |pieces| > 1 && Aligned(text, pieces, index, spans, at) && LaidTo(text, pieces, index, spans, at)
      invariant aligned && (over || index == |pieces|) ==> at == |text|
      invariant aligned && over ==> index == |pieces| - 1 && pieces[index] == ""
      invariant !aligned ==> Unplaceable(text, pieces)
      decreases |pieces| - index, !over
    {
      aligned, over, spans, at := LayPiece(text, pieces, index, spans, at);
      if !over { index := index + 1; }
    }
  }

  /** One round: the next piece laid, unless it has no place or is the last mask, over the end. */
  method LayPiece(text: string, pieces: seq<string>, index: nat, spans0: seq<(nat, nat)>, at0: nat)
    returns (aligned: bool, over: bool, spans: seq<(nat, nat)>, at: nat)
    requires 0 < index < |pieces|
    requires Aligned(text, pieces, index, spans0, at0) && LaidTo(text, pieces, index, spans0, at0)
    ensures !aligned ==> Unplaceable(text, pieces)
    ensures aligned && over ==> index == |pieces| - 1 && pieces[index] == "" && at == at0 == |text| && spans == spans0
    ensures aligned && !over ==>
              Aligned(text, pieces, index + 1, spans, at) && LaidTo(text, pieces, index + 1, spans, at)
    ensures aligned && !over && index == |pieces| - 1 ==> at == |text|
  {
    LaidEarliest(text, pieces, index, spans0, at0);
    var end: nat;
    aligned, over, end := NextEnd(text, pieces, index, at0);
    spans, at := spans0, at0;
    if aligned && !over {
      AlignRound(text, pieces, index, spans0, at0, end);
      LaidRound(text, pieces, index, spans0, at0, end);
      spans := spans + [(at0, end)];
      at := end + |pieces[index]|;
    }
  }

  /** The spans before piece `index` are laid, and the piece before it ends at `at`. */
  ghost predicate LaidTo(text: string, pieces: seq<string>, index: nat, spans: seq<(nat, nat)>, at: nat)
    requires 0 < index <= |pieces|
  {
    forall n: nat {:trigger Look(n)} | Look(n) && n == index ::
      && |spans| == n - 1 && Laid(text, pieces, spans) && EndAt(pieces, spans, n - 1) == at
      && Earliest(text, pieces, n, at)
  }

  lemma LaidEarliest(text: string, pieces: seq<string>, index: nat, spans: seq<(nat, nat)>, at: nat)
    requires 0 < index <= |pieces| && LaidTo(text, pieces, index, spans, at)
    ensures Earliest(text, pieces, index, at)
  {
    assert Look(index);
  }

  lemma LaidRound(text: string, pieces: seq<string>, index: nat, spans: seq<(nat, nat)>, at: nat, end: nat)
    requires 0 < index < |pieces| && LaidTo(text, pieces, index, spans, at)
    requires at < end && Earliest(text, pieces, index + 1, end + |pieces[index]|)
    requires end + |pieces[index]| <= |text| ==> OccursAt(pieces[index], text, end)
    ensures LaidTo(text, pieces, index + 1, spans + [(at, end)], end + |pieces[index]|)
  {
    assert Look(index);
    LaidNext(text, pieces, spans, end);
  }

  lemma LaidDone(text: string, pieces: seq<string>, index: nat, spans: seq<(nat, nat)>)
    requires |pieces| > 1 && 0 < index <= |pieces| && LaidTo(text, pieces, index, spans, |text|)
    requires index < |pieces| ==> index == |pieces| - 1 && pieces[index] == ""
    ensures Laid(text, pieces, spans) && |spans| == index - 1 && !Unplaceable(text, pieces)
  {
    assert Look(index);
    LaidIsPlaced(text, pieces, spans);
  }

  lemma AlignedAll(text: string, pieces: seq<string>, spans: seq<(nat, nat)>)
    requires pieces != [] && Aligned(text, pieces, |pieces|, spans, |text|)
    ensures Spans(spans, |text|) && Masked(text, spans, |text|) == Join(pieces, MASK)
  {
    assert Look(|pieces|) && pieces[..|pieces|] == pieces;
  }

  lemma AlignedLast(text: string, pieces: seq<string>, spans: seq<(nat, nat)>)
    requires |pieces| > 1 && pieces[|pieces| - 1] == "" && Aligned(text, pieces, |pieces| - 1, spans, |text|)
    ensures Spans(spans, |text|) && Masked(text, spans, |text|) + MASK == Join(pieces, MASK)
  {
    assert Look(|pieces| - 1);
    LastEmpty(pieces);
  }

  lemma AlignRound(text: string, pieces: seq<string>, index: nat, spans: seq<(nat, nat)>, at: nat, end: nat)
    requires 0 < index < |pieces| && Aligned(text, pieces, index, spans, at) && at < end
    requires end + |pieces[index]| <= |text| ==> OccursAt(pieces[index], text, end)
    ensures Aligned(text, pieces, index + 1, spans + [(at, end)], end + |pieces[index]|)
  {
    if end + |pieces[index]| <= |text| { AlignOne(text, pieces, index, spans, at, end); }
  }

  /** One span from the first difference on, and what lies outside it is common to both texts; or
      none, just if all that differs comes after the text's end. */
  ghost predicate OneDifference(text: string, masked: string, spans: seq<(nat, nat)>) {
    && |spans| <= 1 && Spans(spans, |text|)
    && (spans == [] <==> |text| < |masked| && text == masked[..|text|])
    && (spans != [] ==>
          var (start, end) := spans[0];
          && CommonEnds(text, masked, start, |text| - end)
          && (|| end == start + 1 || start + (|text| - end) == |masked|
              || text[end - 1] != masked[|masked| - 1 - (|text| - end)]))
  }

  /** The spans of two texts that differ and align: one for each mask, less a last one that covers
      nothing, each as early as can be; and a mask in each gives the masked text. */
  ghost predicate OneForEach(text: string, masked: string, pieces: seq<string>, spans: seq<(nat, nat)>) {
    && |pieces| > 1 && Spans(spans, |text|) && Laid(text, pieces, spans)
    && (|| (|spans| == |pieces| - 1 && Masked(text, spans, |text|) == masked)
        || (|spans| == |pieces| - 2 && Masked(text, spans, |text|) + MASK == masked && pieces[|pieces| - 1] == ""))
  }

  /** `secret_spans`, given the masked text; `pieces` are what its masks cut it into. No span if the
      redactor left the text as it was; else one for each mask if the two texts align, and one for
      all only if they cannot be aligned. */
  method SecretSpans(text: string, masked: string)
    returns (spans: seq<(nat, nat)>, ghost aligned: bool, ghost pieces: seq<string>)
    ensures Spans(spans, |text|)
    ensures pieces != [] && Join(pieces, MASK) == masked && Cuts(pieces, MASK)
    ensures text == masked ==> spans == []
    ensures text != masked ==>
              if Unplaceable(text, pieces) then OneDifference(text, masked, spans)
              else OneForEach(text, masked, pieces, spans)
    ensures aligned <==> text == masked || !Unplaceable(text, pieces)
    ensures aligned ==> Masked(text, spans, |text|) == masked || Masked(text, spans, |text|) + MASK == masked
  {
    pieces := Split(masked);
    JoinSplit(masked);
    SplitCuts(masked);
    aligned := true;
    if text == masked {
      spans := [];
    } else {
      var ok, found, last := Align(text, Split(masked));
      aligned := ok;
      if ok {
        spans := CutToText(found, |text|);
      } else {
        spans := Fallback(text, masked);
      }
    }
  }

  /** The converse does not hold: there is no span either where all that is masked is a mask after
      the text, and with no alignment where the masked text only adds to the text. */
  lemma NoSpans(text: string, masked: string, pieces: seq<string>, spans: seq<(nat, nat)>)
    requires pieces != [] && Join(pieces, MASK) == masked
    requires if Unplaceable(text, pieces) then OneDifference(text, masked, spans)
             else OneForEach(text, masked, pieces, spans)
    ensures spans == [] <==>
            if Unplaceable(text, pieces) then |text| < |masked| && text == masked[..|text|]
            else pieces == [text, ""]
  {
    if !Unplaceable(text, pieces) {
      if spans == [] { NoneLaid(text, masked, pieces); }
      if spans != [] { assert LaidAt(text, pieces, spans, 0); }
    }
  }

  lemma NoneLaid(text: string, masked: string, pieces: seq<string>)
    requires pieces != [] && Join(pieces, MASK) == masked && OneForEach(text, masked, pieces, [])
    ensures pieces == [text, ""]
  {
    var first := pieces[0];
    assert pieces == [first, ""] && pieces[..1] == [first];
    assert Join(pieces, MASK) == first + MASK + "" == first + MASK;
    assert text + MASK == masked;
    assert |first| == |text| && (first + MASK)[..|first|] == (text + MASK)[..|text|];
  }

  method Fallback(text: string, masked: string) returns (spans: seq<(nat, nat)>)
    requires text != masked
    ensures OneDifference(text, masked, spans)
  {
    var head, tail := Differences(text, masked);
    HeadIsAll(text, masked, head, tail);
    var end := if head + 1 > |text| - tail then head + 1 else |text| - tail;
    spans := CutToText([(head, end)], |text|);
    if head < |text| { OneSpan(text, masked, head, tail, end); }
  }

  /** The whole text is a prefix of the masked one just when the first scan takes in all of it. */
  lemma HeadIsAll(text: string, masked: string, head: nat, tail: nat)
    requires CommonEnds(text, masked, head, tail) && text != masked
    ensures head == |text| <==> |text| < |masked| && text == masked[..|text|]
  {
    assert text[..|text|] == text && masked[..|masked|] == masked;
    if |text| <= |masked| && text == masked[..|text|] {
      forall k | 0 <= k < |text| ensures text[k] == masked[k] {}
    }
  }

  lemma OneSpan(text: string, masked: string, head: nat, tail: nat, end: nat)
    requires CommonEnds(text, masked, head, tail) && head < |text|
    requires head + tail < |text| && head + tail < |masked| ==> text[|text| - 1 - tail] != masked[|masked| - 1 - tail]
    requires end == if head + 1 > |text| - tail then head + 1 else |text| - tail
    ensures OneDifference(text, masked, [(head, end)]) || (|text| < |masked| && text == masked[..|text|])
  {
    var kept := |text| - end;
    assert kept <= tail;
    if kept < tail {
      Shorter(text, masked, tail, kept);
    }
  }

  /** Fewer characters at the end are common too. */
  lemma Shorter(text: string, masked: string, tail: nat, kept: nat)
    requires kept <= tail <= |text| && tail <= |masked|
    requires text[|text| - tail..] == masked[|masked| - tail..]
    ensures text[|text| - kept..] == masked[|masked| - kept..]
  {
    assert text[|text| - kept..] == text[|text| - tail..][tail - kept..];
    assert masked[|masked| - kept..] == masked[|masked| - tail..][tail - kept..];
  }

  /** Cut every span to the text and drop one that covers nothing of it. */
  method CutToText(found: seq<(nat, nat)>, n: nat) returns (spans: seq<(nat, nat)>)
    ensures Spans(found, n) ==> spans == found
    ensures |found| == 1 ==>
              spans == (if found[0].0 < n then [(found[0].0, if found[0].1 < n then found[0].1 else n)] else [])
  {
    spans := [];
    for i := 0 to |found|
      invariant Spans(found, n) ==> spans == found[..i]
      invariant i == 0 ==> spans == []
      invariant i == 1 ==>
                  spans == (if found[0].0 < n then [(found[0].0, if found[0].1 < n then found[0].1 else n)] else [])
    {
      var (start, end) := found[i];
      if start < n { spans := spans + [(start, if end < n then end else n)]; }
      assert found[..i + 1] == found[..i] + [found[i]];
    }
    assert found[..|found|] == found;
  }
}
