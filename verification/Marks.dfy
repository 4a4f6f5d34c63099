/** A text with some of its substrings masked, kept at the text's own positions, so
    masking a literal never moves anything: the mark array of `_mask_literals`. */
module Marks {
  import opened Text

  /** `Free` is a character still shown; `Head` starts a masked span and `Tail` continues it. */
  datatype Mark = Free | Head | Tail

  predicate WellFormed(marks: seq<Mark>) {
    forall i | 0 <= i < |marks| && marks[i].Tail? :: 0 < i && !marks[i - 1].Free?
  }

  function Glyph(c: char, m: Mark): string {
    match m case Free => [c] case Head => MASK case Tail => ""
  }

  /** The masked text, from position `p` on. */
  function Render(text: string, marks: seq<Mark>, p: nat): string
    requires |marks| == |text| && p <= |text|
    decreases |text| - p
  {
    if p == |text| then "" else Glyph(text[p], marks[p]) + Render(text, marks, p + 1)
  }

  /** `lit` occurs at `p` and no character of the occurrence is masked. */
  predicate Fits(text: string, marks: seq<Mark>, lit: string, p: nat)
    requires |marks| == |text|
  {
    OccursAt(lit, text, p) && forall k | p <= k < p + |lit| :: marks[k].Free?
  }

  function Place(marks: seq<Mark>, p: nat, n: nat): (r: seq<Mark>)
    requires p + n <= |marks|
    ensures |r| == |marks|
  {
    seq(|marks|, i requires 0 <= i < |marks| =>
      if i == p && n > 0 then Head else if p < i < p + n then Tail else marks[i])
  }

  /** Mask `lit` wherever it still fits, left to right from position `p`. */
  function Greedy(text: string, marks: seq<Mark>, lit: string, p: nat): (r: seq<Mark>)
    requires |marks| == |text| && p <= |text|
    ensures |r| == |text|
    decreases |text| - p
  {
    if p == |text| then marks
    else Greedy(text, if Fits(text, marks, lit, p) then Place(marks, p, |lit|) else marks, lit, p + 1)
  }

  lemma {:induction false} RenderLocal(text: string, a: seq<Mark>, b: seq<Mark>, p: nat)
    requires |a| == |b| == |text| && p <= |text| && a[p..] == b[p..]
    ensures Render(text, a, p) == Render(text, b, p)
    decreases |text| - p
  {
    if p < |text| {
      assert a[p] == a[p..][0] && b[p] == b[p..][0];
      assert a[p + 1..] == a[p..][1..] && b[p + 1..] == b[p..][1..];
      RenderLocal(text, a, b, p + 1);
    }
  }

  lemma {:induction false} RenderFree(text: string, marks: seq<Mark>, p: nat, q: nat)
    requires |marks| == |text| && p <= q <= |text|
    requires forall k | p <= k < q :: marks[k].Free?
    ensures Render(text, marks, p) == text[p..q] + Render(text, marks, q)
    decreases q - p
  {
    if p < q {
      RenderFree(text, marks, p + 1, q);
      assert text[p..q] == [text[p]] + text[p + 1..q];
      Associative([text[p]], text[p + 1..q], Render(text, marks, q));
    }
  }

  lemma {:induction false} RenderTails(text: string, marks: seq<Mark>, p: nat, q: nat)
    requires |marks| == |text| && p <= q <= |text|
    requires forall k | p <= k < q :: marks[k].Tail?
    ensures Render(text, marks, p) == Render(text, marks, q)
    decreases q - p
  {
    if p < q {
      RenderTails(text, marks, p + 1, q);
      NothingBefore(Render(text, marks, p + 1));
    }
  }

  lemma NothingBefore(s: string)
    ensures "" + s == s
  {}

  lemma RenderAllFree(text: string, marks: seq<Mark>)
    requires |marks| == |text| && forall k | 0 <= k < |text| :: marks[k].Free?
    ensures Render(text, marks, 0) == text
  {
    RenderFree(text, marks, 0, |text|);
    assert text[0..|text|] + "" == text;
  }

  lemma MaskFirst(after: string)
    ensures OccursAt(MASK, MASK + after, 0)
  {
    assert (MASK + after)[..|MASK|] == MASK;
  }

  /** The key fact: a literal that cannot match part of a mask is found in the masked
      text exactly where it fits, that is, where an original occurrence meets no mask. */
  lemma FoundIffFits(text: string, marks: seq<Mark>, lit: string, p: nat)
    requires |marks| == |text| && p < |text| && WellFormed(marks)
    requires marks[p].Free? && Clear(lit)
    ensures OccursAt(lit, Render(text, marks, p), 0) <==> Fits(text, marks, lit, p)
  {
    if Fits(text, marks, lit, p) {
      RenderFree(text, marks, p, p + |lit|);
      assert Render(text, marks, p)[0..|lit|] == text[p..p + |lit|];
    }
    if OccursAt(lit, Render(text, marks, p), 0) {
      FoundFits(text, marks, lit, p);
    }
  }

  lemma FoundFits(text: string, marks: seq<Mark>, lit: string, p: nat)
    requires |marks| == |text| && p < |text| && WellFormed(marks)
    requires marks[p].Free? && Clear(lit) && OccursAt(lit, Render(text, marks, p), 0)
    ensures Fits(text, marks, lit, p)
  {
    var q := FreeUpTo(marks, p, |lit|);
    RenderFree(text, marks, p, q);
    FoundInFree(lit, text[p..q], Render(text, marks, q), q < |text| && marks[q].Head?,
                if q < |text| then Render(text, marks, q + 1) else "");
    SliceOfSlice(text, p, q, |lit|, Render(text, marks, q));
  }

  /** An occurrence at the start of `free`, cut off by a mask or by the end, lies within `free`. */
  lemma FoundInFree(lit: string, free: string, rest: string, masked: bool, after: string)
    requires Clear(lit) && free != "" && OccursAt(lit, free + rest, 0)
    requires if masked then rest == MASK + after else rest == "" || |free| == |lit|
    ensures |lit| <= |free|
  {
    if masked { BeforeMask(MASK, lit, free, after); }
  }

  lemma BeforeMask(mask: string, lit: string, free: string, after: string)
    requires forall text, p: nat, m: nat :: OccursAt(mask, text, m) && OccursAt(lit, text, p) ==>
                                              p + |lit| <= m || m + |mask| <= p
    requires mask != "" && OccursAt(lit, free + (mask + after), 0)
    ensures |lit| <= |free|
  {
    var text := free + (mask + after);
    assert OccursAt(mask, text, |free|) by { assert (mask + after)[..|mask|] == mask; }
    assert 0 + |lit| <= |free| || |free| + |mask| <= 0;
  }

  lemma SliceOfSlice(text: string, p: nat, q: nat, n: nat, rest: string)
    requires p + n <= q <= |text|
    ensures (text[p..q] + rest)[..n] == text[p..p + n]
  {}

  /** The end of the run of free marks at `p`, at most `n` of them: past it a span starts. */
  lemma FreeUpTo(marks: seq<Mark>, p: nat, n: nat) returns (q: nat)
    requires p < |marks| && WellFormed(marks) && marks[p].Free? && 0 < n
    ensures p < q <= |marks| && q <= p + n && forall k | p <= k < q :: marks[k].Free?
    ensures q == p + n || q == |marks| || marks[q].Head?
  {
    q := p + 1;
    while q < |marks| && q < p + n && marks[q].Free?
      invariant p < q <= |marks| && q <= p + n
      invariant forall k | p <= k < q :: marks[k].Free?
    {
      q := q + 1;
    }
    assert marks[q - 1].Free?;
  }

  lemma ReplacePastMask(lit: string, rest: string)
    requires Clear(lit)
    ensures Replace(MASK + rest, lit) == MASK + Replace(rest, lit)
  {
    MaskFirst(rest);
    ReplaceSkips(MASK, rest, lit);
  }

  lemma {:induction false} GreedyKeeps(text: string, marks: seq<Mark>, lit: string, p: nat)
    requires |marks| == |text| && p <= |text| && lit != ""
    ensures forall k | 0 <= k < |text| && !marks[k].Free? :: Greedy(text, marks, lit, p)[k] == marks[k]
    ensures forall k | 0 <= k < p :: Greedy(text, marks, lit, p)[k] == marks[k]
    decreases |text| - p
  {
    if p < |text| {
      GreedyKeeps(text, if Fits(text, marks, lit, p) then Place(marks, p, |lit|) else marks, lit, p + 1);
    }
  }

  lemma {:induction false} GreedyWellFormed(text: string, marks: seq<Mark>, lit: string, p: nat)
    requires |marks| == |text| && p <= |text| && lit != "" && WellFormed(marks)
    ensures WellFormed(Greedy(text, marks, lit, p))
    decreases |text| - p
  {
    if p < |text| {
      GreedyWellFormed(text, if Fits(text, marks, lit, p) then Place(marks, p, |lit|) else marks, lit, p + 1);
    }
  }

  /** Over already masked positions the greedy pass changes nothing. */
  lemma {:induction false} GreedySkips(text: string, marks: seq<Mark>, lit: string, p: nat, q: nat)
    requires |marks| == |text| && p <= q <= |text| && lit != ""
    requires forall k | p <= k < q :: !Fits(text, marks, lit, k)
    ensures Greedy(text, marks, lit, p) == Greedy(text, marks, lit, q)
    decreases q - p
  {
    if p < q { GreedySkips(text, marks, lit, p + 1, q); }
  }

  /** One literal: `str.replace` on the masked text is the greedy pass at the original positions. */
  lemma {:induction false} ReplaceIsGreedy(text: string, marks: seq<Mark>, lit: string, p: nat)
    requires |marks| == |text| && p <= |text| && WellFormed(marks)
    requires Clear(lit)
    ensures Replace(Render(text, marks, p), lit) == Render(text, Greedy(text, marks, lit, p), p)
    decreases |text| - p
  {
    if p == |text| {
    } else if Fits(text, marks, lit, p) {
      ReplaceAtFit(text, marks, lit, p);
    } else {
      GreedyKeeps(text, marks, lit, p + 1);
      ReplaceIsGreedy(text, marks, lit, p + 1);
      ReplaceOne(text, marks, Greedy(text, marks, lit, p), lit, p);
    }
  }

  /** A position where the literal does not fit is copied. */
  lemma ReplaceOne(text: string, marks: seq<Mark>, after: seq<Mark>, lit: string, p: nat)
    requires |marks| == |text| == |after| && p < |text| && WellFormed(marks) && Clear(lit)
    requires !Fits(text, marks, lit, p) && after[p] == marks[p]
    requires Replace(Render(text, marks, p + 1), lit) == Render(text, after, p + 1)
    ensures Replace(Render(text, marks, p), lit) == Render(text, after, p)
  {
    var rest := Render(text, marks, p + 1);
    match marks[p] {
      case Free =>
        FoundIffFits(text, marks, lit, p);
        ReplaceMiss(text[p], rest, lit);
      case Head =>
        ReplacePastMask(lit, rest);
      case Tail =>
        NothingBefore(rest);
        NothingBefore(Render(text, after, p + 1));
    }
  }

  lemma {:induction false} ReplaceAtFit(text: string, marks: seq<Mark>, lit: string, p: nat)
    requires |marks| == |text| && p < |text| && WellFormed(marks)
    requires Clear(lit) && Fits(text, marks, lit, p)
    ensures Replace(Render(text, marks, p), lit) == Render(text, Greedy(text, marks, lit, p), p)
    decreases |text| - p, 0
  {
    var q, placed := p + |lit|, Place(marks, p, |lit|);
    RenderFree(text, marks, p, q);
    ReplaceHit(lit, Render(text, marks, q));
    assert placed[q..] == marks[q..];
    RenderLocal(text, marks, placed, q);
    ReplaceIsGreedy(text, placed, lit, q);
    forall k | p + 1 <= k < q ensures !Fits(text, placed, lit, k) { assert placed[k].Tail?; }
    GreedySkips(text, placed, lit, p + 1, q);
    GreedyKeeps(text, placed, lit, q);
    RenderSpan(text, Greedy(text, placed, lit, q), p, q);
  }

  lemma RenderSpan(text: string, marks: seq<Mark>, p: nat, q: nat)
    requires |marks| == |text| && p < q <= |text| && marks[p].Head? && forall k | p < k < q :: marks[k].Tail?
    ensures Render(text, marks, p) == MASK + Render(text, marks, q)
  {
    RenderTails(text, marks, p + 1, q);
  }

  /** After the pass the literal fits nowhere: greedy masking is maximal. */
  lemma {:induction false} GreedyMaximal(text: string, marks: seq<Mark>, lit: string, p: nat, k: nat)
    requires |marks| == |text| && p <= k < |text| && lit != ""
    ensures !Fits(text, Greedy(text, marks, lit, p), lit, k)
    decreases |text| - p
  {
    var next := if Fits(text, marks, lit, p) then Place(marks, p, |lit|) else marks;
    if p < k {
      GreedyMaximal(text, next, lit, p + 1, k);
    } else {
      GreedyKeeps(text, next, lit, p + 1);
      var after := Greedy(text, marks, lit, p);
      if Fits(text, marks, lit, p) {
        assert after[p] == next[p] == Head;
      } else if OccursAt(lit, text, p) {
        var j :| p <= j < p + |lit| && !marks[j].Free?;
        assert after[j] == marks[j];
      }
    }
  }

  /** A literal that fits nowhere is left alone by a second pass. */
  lemma GreedyIdle(text: string, marks: seq<Mark>, lit: string)
    requires |marks| == |text| && lit != ""
    requires forall k | 0 <= k < |text| :: !Fits(text, marks, lit, k)
    ensures Greedy(text, marks, lit, 0) == marks
  {
    GreedySkips(text, marks, lit, 0, |text|);
  }

  /** Where a literal that cannot match part of a mask is shown, it fits; a literal that
      fits nowhere is not shown anywhere, next to the masks or across them. */
  lemma {:induction false} ShownFits(text: string, marks: seq<Mark>, lit: string, p: nat, at: nat) returns (k: nat)
    requires |marks| == |text| && p <= |text| && WellFormed(marks)
    requires Clear(lit) && OccursAt(lit, Render(text, marks, p), at)
    ensures k < |text| && Fits(text, marks, lit, k)
    decreases |text| - p
  {
    var shown, rest := Render(text, marks, p), Render(text, marks, p + 1);
    var n := |Glyph(text[p], marks[p])|;
    if at >= n {
      OccursInSuffix(lit, Glyph(text[p], marks[p]), rest, at - n);
      k := ShownFits(text, marks, lit, p + 1, at - n);
    } else if marks[p].Free? {
      FoundIffFits(text, marks, lit, p);
      k := p;
    } else {
      MaskFirst(rest);
      assert false;
    }
  }

  // ---- A list of literals ----

  /** The marks left by the greedy passes of `literals`, one after another. */
  function GreedyEach(text: string, literals: seq<string>): (marks: seq<Mark>)
    ensures |marks| == |text|
    decreases |literals|
  {
    if literals == [] then seq(|text|, _ => Free)
    else Greedy(text, GreedyEach(text, literals[..|literals| - 1]), literals[|literals| - 1], 0)
  }

  ghost predicate AllClear(literals: seq<string>) {
    forall lit | lit in literals :: Clear(lit)
  }

  /** The loop of `str.replace` calls is the list of greedy passes over the original text. */
  lemma {:induction false} ReplaceEachIsGreedy(text: string, literals: seq<string>)
    requires AllClear(literals)
    ensures WellFormed(GreedyEach(text, literals))
    ensures ReplaceEach(text, literals) == Render(text, GreedyEach(text, literals), 0)
    decreases |literals|
  {
    if literals == [] {
      RenderAllFree(text, GreedyEach(text, literals));
    } else {
      var init, last := literals[..|literals| - 1], literals[|literals| - 1];
      assert literals == init + [last] && last in literals;
      ReplaceEachIsGreedy(text, init);
      var marks := GreedyEach(text, init);
      GreedyWellFormed(text, marks, last, 0);
      ReplaceIsGreedy(text, marks, last, 0);
      ReplaceEachAppend(text, init, [last]);
      assert ReplaceEach(Render(text, marks, 0), [last]) == Replace(Render(text, marks, 0), last);
    }
  }

  /** No literal of the list fits anywhere once every pass has run. */
  lemma {:induction false} NoneFits(text: string, literals: seq<string>, i: nat, k: nat)
    requires AllClear(literals) && i < |literals| && k < |text|
    ensures !Fits(text, GreedyEach(text, literals), literals[i], k)
    decreases |literals|
  {
    var init, last := literals[..|literals| - 1], literals[|literals| - 1];
    assert last in literals;
    var marks := GreedyEach(text, init);
    if i == |init| {
      GreedyMaximal(text, marks, last, 0, k);
    } else {
      assert literals[i] == init[i];
      NoneFits(text, init, i, k);
      GreedyKeeps(text, marks, last, 0);
      if OccursAt(literals[i], text, k) {
        var j :| k <= j < k + |literals[i]| && !marks[j].Free?;
        assert GreedyEach(text, literals)[j] == marks[j];
      }
    }
  }
}
