/** Strings as `src/hal0/redaction.py` reads them: occurrences, `str.replace` and the mask. */
module Text {

  /** The sentinel every masked value becomes. */
  const MASK: string := "***REDACTED***"

  predicate OccursAt(lit: string, text: string, p: nat) {
    p + |lit| <= |text| && text[p..p + |lit|] == lit
  }

  ghost predicate Contains(text: string, lit: string) {
    exists p: nat :: OccursAt(lit, text, p)
  }

  /** `text.replace(lit, MASK)`: leftmost occurrences first, none overlapping.
      An empty `lit` puts a mask around every character, as Python does. */
  function Replace(text: string, lit: string): string {
    if lit == "" then Interleave(text)
    else if |text| < |lit| then text
    else if text[..|lit|] == lit then MASK + Replace(text[|lit|..], lit)
    else [text[0]] + Replace(text[1..], lit)
  }

  function Interleave(text: string): string {
    if text == "" then MASK else MASK + [text[0]] + Interleave(text[1..])
  }

  /** The loop `for lit in literals: text = text.replace(lit, MASK)`. */
  function ReplaceEach(text: string, literals: seq<string>): string
    decreases |literals|
  {
    if literals == [] then text else ReplaceEach(Replace(text, literals[0]), literals[1..])
  }

  lemma {:induction false} ReplaceEachAppend(text: string, first: seq<string>, second: seq<string>)
    ensures ReplaceEach(text, first + second) == ReplaceEach(ReplaceEach(text, first), second)
    decreases |first|
  {
    if first == [] {
      assert first + second == second;
    } else {
      assert (first + second)[1..] == first[1..] + second;
      ReplaceEachAppend(Replace(text, first[0]), first[1..], second);
    }
  }

  predicate IsPrefixOf(a: string, b: string) {
    |a| <= |b| && b[..|a|] == a
  }

  predicate IsSuffixOf(a: string, b: string) {
    |a| <= |b| && b[|b| - |a|..] == a
  }

  /** `lit` starts with the rest of a mask after its first `i` characters, or ends with those `i`. */
  predicate Straddles(lit: string, i: nat)
    requires i <= |MASK|
  {
    IsPrefixOf(MASK[i..], lit) || IsSuffixOf(MASK[..i], lit)
  }

  /** `_may_match_a_mask`: an occurrence of `lit` could take in part of an inserted mask. */
  predicate MayMatchMask(lit: string) {
    || (exists p | 0 <= p <= |MASK| :: OccursAt(lit, MASK, p))
    || (exists p | 0 <= p <= |lit| :: OccursAt(MASK, lit, p))
    || (exists i | 1 <= i < |MASK| :: Straddles(lit, i))
  }

  /** The test misses nothing: a literal that shares a character with a mask in some
      text is one it flags. */
  lemma OverlapIsFlagged(lit: string, text: string, p: nat, m: nat)
    requires OccursAt(MASK, text, m) && OccursAt(lit, text, p)
    requires p < m + |MASK| && m < p + |lit|
    ensures MayMatchMask(lit)
  {
    forall k | 0 <= k < |lit| ensures lit[k] == text[p + k] { assert text[p..p + |lit|][k] == text[p + k]; }
    forall k | 0 <= k < |MASK| ensures MASK[k] == text[m + k] { assert text[m..m + |MASK|][k] == text[m + k]; }
    if m <= p && p + |lit| <= m + |MASK| {
      assert MASK[p - m..p - m + |lit|] == lit;
      assert OccursAt(lit, MASK, p - m);
    } else if p <= m && m + |MASK| <= p + |lit| {
      assert lit[m - p..m - p + |MASK|] == MASK;
      assert OccursAt(MASK, lit, m - p);
    } else if p < m {
      var i := p + |lit| - m;
      assert lit[|lit| - i..] == MASK[..i];
      assert Straddles(lit, i);
    } else {
      var i := p - m;
      assert lit[..|MASK| - i] == MASK[i..];
      assert Straddles(lit, i);
    }
  }

  /** What `_may_match_a_mask` is asked for: in no text does `lit` share a character with a mask. */
  ghost predicate Clear(lit: string) {
    && lit != ""
    && forall text, p: nat, m: nat :: OccursAt(MASK, text, m) && OccursAt(lit, text, p) ==>
                                        p + |lit| <= m || m + |MASK| <= p
  }

  /** The test is exact: it flags a literal just when some text puts the literal over part of a mask. */
  lemma MaskTestIsExact(lit: string)
    requires lit != ""
    ensures MayMatchMask(lit) <==> !Clear(lit)
  {
    if MayMatchMask(lit) {
      FlaggedOverlaps(lit);
    }
    forall text, p: nat, m: nat | !MayMatchMask(lit) && OccursAt(MASK, text, m) && OccursAt(lit, text, p)
      ensures p + |lit| <= m || m + |MASK| <= p
    {
      if p < m + |MASK| && m < p + |lit| { OverlapIsFlagged(lit, text, p, m); }
    }
  }

  lemma FlaggedOverlaps(lit: string)
    requires lit != "" && MayMatchMask(lit)
    ensures !Clear(lit)
  {
    if p :| 0 <= p <= |MASK| && OccursAt(lit, MASK, p) {
      assert OccursAt(MASK, MASK, 0);
    } else if p :| 0 <= p <= |lit| && OccursAt(MASK, lit, p) {
      assert OccursAt(lit, lit, 0);
    } else {
      var i :| 1 <= i < |MASK| && Straddles(lit, i);
      if IsPrefixOf(MASK[i..], lit) {
        MaskThenLiteral(MASK, lit, i);
      } else {
        LiteralThenMask(MASK, lit, i);
      }
    }
  }

  lemma MaskThenLiteral(mask: string, lit: string, i: nat)
    requires 1 <= i < |mask| && IsPrefixOf(mask[i..], lit)
    ensures OccursAt(mask, mask[..i] + lit, 0) && OccursAt(lit, mask[..i] + lit, i)
  {
    var text := mask[..i] + lit;
    assert text[..|mask|] == mask;
  }

  lemma LiteralThenMask(mask: string, lit: string, i: nat)
    requires 1 <= i < |mask| && IsSuffixOf(mask[..i], lit)
    ensures OccursAt(mask, lit + mask[i..], |lit| - i) && OccursAt(lit, lit + mask[i..], 0)
  {
    var text := lit + mask[i..];
    assert text[|lit| - i..] == lit[|lit| - i..] + mask[i..] == mask[..i] + mask[i..] == mask;
  }

  lemma ReplaceHit(lit: string, rest: string)
    requires lit != ""
    ensures Replace(lit + rest, lit) == MASK + Replace(rest, lit)
  {
    assert (lit + rest)[..|lit|] == lit && (lit + rest)[|lit|..] == rest;
  }

  lemma Associative(a: string, b: string, c: string)
    ensures (a + b) + c == a + (b + c)
  {}

  lemma ReplaceMiss(c: char, rest: string, lit: string)
    requires lit != "" && !OccursAt(lit, [c] + rest, 0)
    ensures Replace([c] + rest, lit) == [c] + Replace(rest, lit)
  {
    assert ([c] + rest)[1..] == rest;
  }

  lemma OccursInSuffix(lit: string, a: string, b: string, p: nat)
    ensures OccursAt(lit, b, p) <==> OccursAt(lit, a + b, |a| + p)
  {
    if p + |lit| <= |b| { assert (a + b)[|a| + p..|a| + p + |lit|] == b[p..p + |lit|]; }
  }

  /** `str.replace` copies a stretch in which no occurrence starts. */
  lemma {:induction false} ReplaceSkips(head: string, rest: string, lit: string)
    requires lit != "" && forall k | 0 <= k < |head| :: !OccursAt(lit, head + rest, k)
    ensures Replace(head + rest, lit) == head + Replace(rest, lit)
    decreases |head|
  {
    if head == "" {
      assert head + rest == rest;
    } else {
      var tail := head[1..] + rest;
      assert head + rest == [head[0]] + tail;
      forall k | 0 <= k < |head[1..]| ensures !OccursAt(lit, tail, k) {
        OccursInSuffix(lit, [head[0]], tail, k);
      }
      ReplaceSkips(head[1..], rest, lit);
      ReplaceMiss(head[0], tail, lit);
      assert head == [head[0]] + head[1..];
      Associative([head[0]], head[1..], Replace(rest, lit));
    }
  }
}
