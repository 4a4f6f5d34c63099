/** Cutting a text at every occurrence of a separator, and what `str.replace` and `str.split` make
    of the pieces. */
module Pieces {
  import opened Text

  /** The pieces with `sep` between them. */
  function Join(pieces: seq<string>, sep: string): string
    requires pieces != []
  {
    if |pieces| == 1 then pieces[0] else Join(pieces[..|pieces| - 1], sep) + sep + pieces[|pieces| - 1]
  }

  /** No occurrence of `sep` starts before the one that follows `piece`. */
  ghost predicate NoneBefore(piece: string, sep: string) {
    forall p: nat | p < |piece| :: !OccursAt(sep, piece + sep, p)
  }

  /** Every cut is at the leftmost occurrence, and none is left in the last piece. */
  ghost predicate Cuts(pieces: seq<string>, sep: string) {
    && sep != "" && pieces != []
    && (forall i | 0 <= i < |pieces| - 1 :: NoneBefore(pieces[i], sep))
    && !Contains(pieces[|pieces| - 1], sep)
  }

  /** An empty separator cuts around every character. */
  ghost predicate CutsAll(pieces: seq<string>, text: string) {
    && |pieces| == |text| + 2 && pieces[0] == "" && pieces[|text| + 1] == ""
    && forall i | 0 <= i < |text| :: pieces[i + 1] == [text[i]]
  }

  /** What Python's `before.replace(lit, MASK)` means. */
  ghost predicate Replaced(before: string, lit: string, after: string) {
    exists pieces: seq<string> ::
      && pieces != [] && before == Join(pieces, lit) && after == Join(pieces, MASK)
      && (if lit == "" then CutsAll(pieces, before) else Cuts(pieces, lit))
  }

  lemma {:induction false} JoinCons(first: string, pieces: seq<string>, sep: string)
    requires pieces != []
    ensures Join([first] + pieces, sep) == first + sep + Join(pieces, sep)
    decreases |pieces|
  {
    var all := [first] + pieces;
    if |pieces| == 1 {
      assert all[..1] == [first];
    } else {
      var init, last := pieces[..|pieces| - 1], pieces[|pieces| - 1];
      assert all[..|all| - 1] == [first] + init;
      JoinCons(first, init, sep);
      Nested(first, sep, Join(init, sep), last);
    }
  }

  lemma Nested(a: string, sep: string, b: string, c: string)
    ensures a + sep + b + sep + c == a + sep + (b + sep + c)
  {
    Associative(a + sep, b, sep);
    Associative(a + sep, b + sep, c);
  }

  lemma JoinSnoc(pieces: seq<string>, piece: string, sep: string)
    requires pieces != []
    ensures Join(pieces + [piece], sep) == Join(pieces, sep) + sep + piece
  {
    assert (pieces + [piece])[..|pieces|] == pieces;
  }

  /** The first piece with a character put before it. */
  function Grown(c: char, pieces: seq<string>): seq<string>
    requires pieces != []
  {
    [[c] + pieces[0]] + pieces[1..]
  }

  lemma JoinGrown(c: char, pieces: seq<string>, sep: string)
    requires pieces != []
    ensures Join(Grown(c, pieces), sep) == [c] + Join(pieces, sep)
  {
    if |pieces| > 1 {
      assert pieces == [pieces[0]] + pieces[1..];
      JoinCons([c] + pieces[0], pieces[1..], sep);
      JoinCons(pieces[0], pieces[1..], sep);
      Associative([c], pieces[0] + sep, Join(pieces[1..], sep));
      Associative([c], pieces[0], sep);
    } else {
      assert pieces[1..] == [];
    }
  }

  /** A literal that does not start the text: the cuts are those of what follows its first character. */
  lemma CutsGrown(c: char, pieces: seq<string>, sep: string)
    requires Cuts(pieces, sep) && !OccursAt(sep, [c] + Join(pieces, sep), 0)
    ensures Cuts(Grown(c, pieces), sep)
  {
    var text, first := [c] + Join(pieces, sep), [c] + pieces[0];
    if |pieces| == 1 {
      forall p: nat ensures !OccursAt(sep, first, p) {
        if p > 0 { assert !OccursAt(sep, pieces[0], p - 1); OccursInSuffix(sep, [c], pieces[0], p - 1); }
      }
    } else {
      assert pieces == [pieces[0]] + pieces[1..];
      JoinCons(pieces[0], pieces[1..], sep);
      forall p: nat | p < |first| ensures !OccursAt(sep, first + sep, p) {
        assert first + sep == [c] + (pieces[0] + sep);
        if p == 0 {
          Associative([c], pieces[0] + sep, Join(pieces[1..], sep));
          FirstOccurs(sep, [c] + (pieces[0] + sep), Join(pieces[1..], sep), text);
        } else {
          OccursInSuffix(sep, [c], pieces[0] + sep, p - 1);
        }
      }
    }
  }

  lemma FirstOccurs(sep: string, start: string, rest: string, text: string)
    requires text == start + rest
    ensures OccursAt(sep, start, 0) ==> OccursAt(sep, text, 0)
  {
    if OccursAt(sep, start, 0) { assert text[..|sep|] == start[..|sep|]; }
  }

  lemma JoinEmpty(pieces: seq<string>, sep: string)
    requires pieces != []
    ensures Join([""] + pieces, sep) == sep + Join(pieces, sep)
  {
    JoinCons("", pieces, sep);
    assert "" + sep == sep;
  }

  lemma CutsEmpty(pieces: seq<string>, sep: string)
    requires Cuts(pieces, sep)
    ensures Cuts([""] + pieces, sep)
  {
    var all := [""] + pieces;
    assert all[|all| - 1] == pieces[|pieces| - 1];
    forall i | 0 <= i < |all| - 1 ensures NoneBefore(all[i], sep) {
      if i > 0 { assert all[i] == pieces[i - 1]; }
    }
  }

  /** `str.replace` of a literal that is not empty, flagged or not. */
  lemma {:induction false} ReplaceCuts(text: string, lit: string) returns (pieces: seq<string>)
    requires lit != ""
    ensures Cuts(pieces, lit) && Join(pieces, lit) == text && Join(pieces, MASK) == Replace(text, lit)
    decreases |text|
  {
    if |text| < |lit| {
      pieces := [text];
    } else if text[..|lit|] == lit {
      var rest := ReplaceCuts(text[|lit|..], lit);
      assert lit + text[|lit|..] == text;
      JoinEmpty(rest, lit);
      JoinEmpty(rest, MASK);
      CutsEmpty(rest, lit);
      pieces := [""] + rest;
    } else {
      var rest := ReplaceCuts(text[1..], lit);
      assert [text[0]] + text[1..] == text;
      JoinGrown(text[0], rest, lit);
      JoinGrown(text[0], rest, MASK);
      CutsGrown(text[0], rest, lit);
      pieces := Grown(text[0], rest);
    }
  }

  /** And of the empty one. */
  lemma {:induction false} ReplaceCutsAll(text: string) returns (pieces: seq<string>)
    ensures CutsAll(pieces, text) && Join(pieces, "") == text && Join(pieces, MASK) == Interleave(text)
    decreases |text|
  {
    if text == "" {
      pieces := ["", ""];
      assert pieces[..1] == [""];
      assert Join(pieces, MASK) == "" + MASK + "";
      assert Join(pieces, "") == "" + "" + "";
    } else {
      var rest := ReplaceCutsAll(text[1..]);
      var tail := [[text[0]]] + rest[1..];
      assert rest == [""] + rest[1..];
      pieces := [""] + tail;
      SplitOff(text, rest, MASK);
      SplitOff(text, rest, "");
      assert MASK + [text[0]] + Interleave(text[1..]) == Interleave(text);
      assert [text[0]] + text[1..] == text;
    }
  }

  lemma SplitOff(text: string, rest: seq<string>, sep: string)
    requires text != "" && |rest| > 1 && rest[0] == ""
    ensures Join([""] + ([[text[0]]] + rest[1..]), sep) == sep + [text[0]] + Join(rest, sep)
  {
    assert rest == [""] + rest[1..];
    JoinCons("", rest[1..], sep);
    JoinCons([text[0]], rest[1..], sep);
    JoinCons("", [[text[0]]] + rest[1..], sep);
    assert "" + sep == sep;
    Associative(sep, [text[0]], sep + Join(rest[1..], sep));
    Associative([text[0]], sep, Join(rest[1..], sep));
  }

  /** One step of the loop is Python's replace, whatever the literal. */
  lemma ReplaceIs(text: string, lit: string)
    ensures Replaced(text, lit, Replace(text, lit))
  {
    if lit == "" {
      var pieces := ReplaceCutsAll(text);
    } else {
      var pieces := ReplaceCuts(text, lit);
    }
  }

  // ---- The cuts are determined ----

  lemma FirstCut(pieces: seq<string>, sep: string, text: string)
    requires Cuts(pieces, sep) && Join(pieces, sep) == text && |pieces| > 1
    ensures IsFirstCut(text, sep, |pieces[0]|) && pieces[0] == text[..|pieces[0]|]
    ensures Join(pieces[1..], sep) == text[|pieces[0]| + |sep|..] && Cuts(pieces[1..], sep)
  {
    assert pieces == [pieces[0]] + pieces[1..];
    CutsTail(pieces, sep);
    JoinCons(pieces[0], pieces[1..], sep);
    CutHere(pieces[0], sep, Join(pieces[1..], sep), text);
  }

  lemma OccursInPrefix(lit: string, a: string, b: string, p: nat)
    ensures p + |lit| <= |a| ==> (OccursAt(lit, a, p) <==> OccursAt(lit, a + b, p))
  {
    if p + |lit| <= |a| { assert (a + b)[p..p + |lit|] == a[p..p + |lit|]; }
  }

  lemma CutsTail(pieces: seq<string>, sep: string)
    requires Cuts(pieces, sep) && |pieces| > 1
    ensures Cuts(pieces[1..], sep) && NoneBefore(pieces[0], sep)
  {
    var tail := pieces[1..];
    assert tail[|tail| - 1] == pieces[|pieces| - 1];
    forall i | 0 <= i < |tail| - 1 ensures NoneBefore(tail[i], sep) { assert tail[i] == pieces[i + 1]; }
  }

  ghost predicate IsFirstCut(text: string, sep: string, at: nat) {
    OccursAt(sep, text, at) && forall p: nat | p < at :: !OccursAt(sep, text, p)
  }

  lemma CutHere(first: string, sep: string, rest: string, text: string)
    requires NoneBefore(first, sep) && text == first + sep + rest
    ensures IsFirstCut(text, sep, |first|) && first == text[..|first|] && rest == text[|first| + |sep|..]
  {
    assert text[|first|..|first| + |sep|] == sep;
    forall p: nat | p < |first| ensures !OccursAt(sep, text, p) {
      OccursInPrefix(sep, first + sep, rest, p);
    }
  }

  lemma {:induction false} CutsUnique(a: seq<string>, b: seq<string>, sep: string)
    requires Cuts(a, sep) && Cuts(b, sep) && Join(a, sep) == Join(b, sep)
    ensures a == b
    decreases |a|
  {
    var text := Join(a, sep);
    if |a| > 1 { FirstCut(a, sep, text); }
    if |b| > 1 { FirstCut(b, sep, text); }
    if |a| > 1 && |b| > 1 {
      CutsUnique(a[1..], b[1..], sep);
      assert a == [a[0]] + a[1..] && b == [b[0]] + b[1..];
    }
  }

  /** So `Replaced` says what the text becomes, and not only that it may. */
  lemma ReplacedIsUnique(before: string, lit: string, a: string, b: string)
    requires Replaced(before, lit, a) && Replaced(before, lit, b)
    ensures a == b
  {
    var p: seq<string> :| p != [] && before == Join(p, lit) && a == Join(p, MASK)
                          && (if lit == "" then CutsAll(p, before) else Cuts(p, lit));
    var q: seq<string> :| q != [] && before == Join(q, lit) && b == Join(q, MASK)
                          && (if lit == "" then CutsAll(q, before) else Cuts(q, lit));
    if lit == "" {
      forall i | 0 <= i < |p| ensures p[i] == q[i] {
        if 0 < i < |p| - 1 { assert p[(i - 1) + 1] == [before[i - 1]] == q[(i - 1) + 1]; }
      }
      assert p == q;
    } else {
      CutsUnique(p, q, lit);
    }
  }

  // ---- A list of literals ----

  /** `texts` are the texts in between: each is the one before with the next literal replaced. */
  ghost predicate Steps(texts: seq<string>, literals: seq<string>) {
    && |texts| == |literals| + 1
    && forall i | 0 <= i < |literals| :: Replaced(texts[i], literals[i], texts[i + 1])
  }

  ghost predicate ReplacedEach(before: string, literals: seq<string>, after: string) {
    exists texts: seq<string> :: Steps(texts, literals) && texts[0] == before && texts[|literals|] == after
  }

  /** The loop replaces every literal in turn, whether or not it could match part of a mask. */
  lemma {:induction false} EachIsReplaced(text: string, literals: seq<string>)
    ensures ReplacedEach(text, literals, ReplaceEach(text, literals))
    decreases |literals|
  {
    if literals == [] {
      assert Steps([text], literals);
    } else {
      var next := Replace(text, literals[0]);
      ReplaceIs(text, literals[0]);
      EachIsReplaced(next, literals[1..]);
      var texts :| Steps(texts, literals[1..]) && texts[0] == next
                   && texts[|literals[1..]|] == ReplaceEach(next, literals[1..]);
      FirstStep(text, texts, literals);
    }
  }

  lemma FirstStep(text: string, texts: seq<string>, literals: seq<string>)
    requires literals != [] && Steps(texts, literals[1..]) && Replaced(text, literals[0], texts[0])
    ensures Steps([text] + texts, literals)
  {
    var all := [text] + texts;
    forall i | 0 <= i < |literals| ensures Replaced(all[i], literals[i], all[i + 1]) {
      if i > 0 { assert Replaced(texts[i - 1], literals[1..][i - 1], texts[i]); }
    }
  }

  /** And that determines the result. */
  lemma {:induction false} EachIsUnique(s: seq<string>, t: seq<string>, literals: seq<string>, n: nat)
    requires Steps(s, literals) && Steps(t, literals) && s[0] == t[0] && n <= |literals|
    ensures s[n] == t[n]
  {
    if n > 0 {
      EachIsUnique(s, t, literals, n - 1);
      assert Replaced(s[n - 1], literals[n - 1], s[n]) && Replaced(t[n - 1], literals[n - 1], t[n]);
      ReplacedIsUnique(s[n - 1], literals[n - 1], s[n], t[n]);
    }
  }
}
