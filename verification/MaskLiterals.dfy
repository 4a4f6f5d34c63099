/** `_mask_literals`: one scan of the text in place of one `str.replace` per literal. */
module MaskLiterals {
  import opened Basics
  import opened Text
  import opened Pieces
  import opened Marks
  import opened LiteralTrie

  const LITERAL_SCAN_MAX: nat := 128
  const LITERAL_REPLACE_BUDGET: nat := 500_000_000
  const OCCURRENCES_PER_CHAR_MAX: nat := 4

  // ---- Ids and prefix lists ----

  /** The first index of a repeated literal owns its occurrences. */
  predicate Owner(literals: seq<string>, i: nat) {
    i < |literals| && forall j | 0 <= j < i :: literals[j] != literals[i]
  }

  /** The trie holds exactly the literals, each with its owner's id. */
  ghost predicate Indexes(t: Trie, literals: seq<string>) {
    && (forall w :: Lookup(t, w).Some? ==>
                      Owner(literals, Lookup(t, w).value) && literals[Lookup(t, w).value] == w)
    && (forall i | 0 <= i < |literals| :: Lookup(t, literals[i]).Some?)
  }

  method BuildTrie(literals: seq<string>) returns (t: Trie)
    ensures Indexes(t, literals)
    ensures literals != [] ==> Live(t)
  {
    t := EMPTY;
    for i := 0 to |literals|
      invariant Indexes(t, literals[..i])
      invariant if i == 0 then t == EMPTY else Live(t)
    {
      InsertLive(t, literals[i], i);
      InsertIndexes(t, literals, i);
      t := Insert(t, literals[i], i);
    }
    assert literals[..|literals|] == literals;
  }

  lemma InsertIndexes(t: Trie, literals: seq<string>, i: nat)
    requires i < |literals| && Indexes(t, literals[..i])
    ensures Indexes(Insert(t, literals[i], i), literals[..i + 1])
  {
    var before, after, t' := literals[..i], literals[..i + 1], Insert(t, literals[i], i);
    assert forall j | 0 <= j < i :: after[j] == before[j] == literals[j];
    assert after[i] == literals[i];
    forall w ensures Lookup(t', w).Some? ==>
                       Owner(after, Lookup(t', w).value) && after[Lookup(t', w).value] == w {
      LookupInsert(t, literals[i], i, w);
      if Lookup(t, w).Some? { assert Owner(before, Lookup(t, w).value); }
    }
    forall j | 0 <= j < i + 1 ensures Lookup(t', after[j]).Some? {
      LookupInsert(t, literals[i], i, after[j]);
      if j < i { assert Lookup(t, before[j]).Some?; }
    }
  }

  /** `ids` are the owners of the literals that start `w`, each once. */
  ghost predicate PrefixOwners(literals: seq<string>, w: string, ids: seq<nat>) {
    && (forall i: nat :: i in ids <==> Owner(literals, i) && IsPrefixOf(literals[i], w))
    && (forall j, k | 0 <= j < k < |ids| :: ids[j] != ids[k])
  }

  method PrefixIds(t: Trie, literals: seq<string>, w: string) returns (ids: seq<nat>)
    requires Indexes(t, literals) && w in literals && "" !in literals
    ensures PrefixOwners(literals, w, ids)
    ensures ids != [] && ids[|ids| - 1] < |literals| && literals[ids[|ids| - 1]] == w
  {
    var node := t;
    ids := [];
    for n := 0 to |w|
      invariant Walk(t, w[..n]) == Some(node)
      invariant PrefixOwners(literals, w[..n], ids)
      invariant n > 0 ==> (Lookup(t, w[..n]).Some?
                           ==> ids != [] && ids[|ids| - 1] < |literals| && literals[ids[|ids| - 1]] == w[..n])
    {
      WalkDown(t, node, w, n);
      node := node.kids[w[n]];
      PrefixesGrow(t, literals, w, n, ids);
      if node.end.Some? {
        ids := ids + [node.end.value];
      }
    }
    assert w[..|w|] == w;
  }

  /** The node for a prefix of a literal has a child for the literal's next character. */
  lemma WalkDown(t: Trie, node: Trie, w: string, n: nat)
    requires n < |w| && Lookup(t, w).Some? && Walk(t, w[..n]) == Some(node)
    ensures w[n] in node.kids && Walk(t, w[..n + 1]) == Some(node.kids[w[n]])
    ensures Lookup(t, w[..n + 1]) == node.kids[w[n]].end
  {
    assert w[..n] + w[n..] == w && w[..n] + [w[n]] == w[..n + 1] && w[..n + 1] + "" == w[..n + 1];
    LookupWalk(t, w[..n], w[n..]);
    WalkOne(t, w[..n], w[n]);
    LookupWalk(t, w[..n + 1], "");
  }

  lemma PrefixesGrow(t: Trie, literals: seq<string>, w: string, n: nat, ids: seq<nat>)
    requires Indexes(t, literals) && n < |w| && PrefixOwners(literals, w[..n], ids)
    ensures var hit := Lookup(t, w[..n + 1]);
            PrefixOwners(literals, w[..n + 1], ids + (if hit.Some? then [hit.value] else []))
  {
    var hit := Lookup(t, w[..n + 1]);
    var grown := ids + (if hit.Some? then [hit.value] else []);
    forall i: nat ensures i in grown <==> Owner(literals, i) && IsPrefixOf(literals[i], w[..n + 1]) {
      if Owner(literals, i) {
        if |literals[i]| <= n {
          assert w[..n + 1][..|literals[i]|] == w[..n][..|literals[i]|];
        } else if |literals[i]| == n + 1 {
          assert w[..n + 1][..n + 1] == w[..n + 1];
          assert Lookup(t, literals[i]).Some?;
          if literals[i] == w[..n + 1] { SameOwner(literals, i, hit.value); }
        }
      }
    }
  }

  lemma SameOwner(literals: seq<string>, i: nat, j: nat)
    requires Owner(literals, i) && Owner(literals, j) && literals[i] == literals[j]
    ensures i == j
  {}

  ghost predicate Listed(literals: seq<string>, litId: map<string, nat>, ends: seq<seq<nat>>, n: nat)
    requires n <= |literals|
  {
    && |ends| == n
    && (forall i | 0 <= i < n :: PrefixOwners(literals, literals[i], ends[i]))
    && (forall i | 0 <= i < n :: literals[i] in litId)
    && (forall w | w in litId :: litId[w] < |literals| && literals[litId[w]] == w && Owner(literals, litId[w]))
  }

  lemma ListedAt(literals: seq<string>, litId: map<string, nat>, ends: seq<seq<nat>>, w: string)
    requires Listed(literals, litId, ends, |literals|) && w in literals
    ensures w in litId && litId[w] < |ends| && PrefixOwners(literals, w, ends[litId[w]])
  {
    var k :| 0 <= k < |literals| && literals[k] == w;
    assert literals[k] in litId;
  }

  /** `lit_id` and `ends`. */
  method PrefixLists(t: Trie, literals: seq<string>) returns (litId: map<string, nat>, ends: seq<seq<nat>>)
    requires Indexes(t, literals) && "" !in literals
    ensures Listed(literals, litId, ends, |literals|)
  {
    litId, ends := map[], [];
    for i := 0 to |literals|
      invariant Listed(literals, litId, ends, i)
    {
      var ids := PrefixIds(t, literals, literals[i]);
      ListOne(literals, litId, ends, i, ids);
      litId := litId[literals[i] := ids[|ids| - 1]];
      ends := ends + [ids];
    }
  }

  lemma ListOne(literals: seq<string>, litId: map<string, nat>, ends: seq<seq<nat>>, i: nat, ids: seq<nat>)
    requires i < |literals| && Listed(literals, litId, ends, i) && PrefixOwners(literals, literals[i], ids)
    requires ids != [] && ids[|ids| - 1] < |literals| && literals[ids[|ids| - 1]] == literals[i]
    ensures Listed(literals, litId[literals[i] := ids[|ids| - 1]], ends + [ids], i + 1)
  {
    var id := ids[|ids| - 1];
    var litId', ends' := litId[literals[i] := id], ends + [ids];
    assert Owner(literals, id) by { assert id in ids; }
    forall k | 0 <= k < i + 1 ensures PrefixOwners(literals, literals[k], ends'[k]) && literals[k] in litId' {
      if k < i {
        assert ends'[k] == ends[k] && PrefixOwners(literals, literals[k], ends[k]);
      } else {
        assert ends'[k] == ids;
      }
    }
    forall w | w in litId' ensures litId'[w] < |literals| && literals[litId'[w]] == w && Owner(literals, litId'[w]) {
      assert w == literals[i] || (w in litId && litId'[w] == litId[w]);
    }
  }

  // ---- The scan ----

  /** Every position below `hi` where `lit` occurs, ascending. */
  function Positions(text: string, lit: string, hi: nat): seq<nat> {
    if hi == 0 then []
    else Positions(text, lit, hi - 1) + (if OccursAt(lit, text, hi - 1) then [hi - 1] else [])
  }

  lemma {:induction false} PositionIff(text: string, lit: string, hi: nat, p: nat)
    ensures p in Positions(text, lit, hi) <==> p < hi && OccursAt(lit, text, p)
  {
    if hi > 0 { PositionIff(text, lit, hi - 1, p); }
  }

  lemma {:induction false} PositionsAscend(text: string, lit: string, hi: nat)
    ensures forall i | 0 <= i < |Positions(text, lit, hi)| :: Positions(text, lit, hi)[i] < hi
    ensures forall i, j | 0 <= i < j < |Positions(text, lit, hi)| ::
              Positions(text, lit, hi)[i] < Positions(text, lit, hi)[j]
  {
    if hi > 0 { PositionsAscend(text, lit, hi - 1); }
  }

  /** What the scan has recorded for each id before position `hi`. */
  function Recorded(text: string, literals: seq<string>, i: nat, hi: nat): seq<nat>
    requires i < |literals|
  {
    if Owner(literals, i) then Positions(text, literals[i], hi) else []
  }

  /** Names a list of literals to look at: `Tables` unfolds for these only. */
  ghost predicate Look(literals: seq<string>) { true }

  /** What the scan is given: the trie, its pattern, `lit_id` and `ends`. */
  ghost predicate Tables(literals: seq<string>, t: Trie, r: Regex, litId: map<string, nat>, ends: seq<seq<nat>>) {
    forall x {:trigger Look(x)} | Look(x) && x == literals ::
      Indexes(t, x) && Compiles(t, r) && Listed(x, litId, ends, |x|)
  }

  /** `ids` are the distinct literals that occur at `p`, each once. */
  ghost predicate HereOnce(text: string, literals: seq<string>, ids: seq<nat>, p: nat) {
    && (forall i: nat :: i in ids <==> Owner(literals, i) && OccursAt(literals[i], text, p))
    && (forall j, k | 0 <= j < k < |ids| :: ids[j] != ids[k])
  }

  /** The distinct literals that occur at `p`. */
  function Here(text: string, literals: seq<string>, p: nat): set<nat> {
    set i: nat | i < |literals| && Owner(literals, i) && OccursAt(literals[i], text, p)
  }

  /** How many occurrences there are before position `hi`. */
  function Found(text: string, literals: seq<string>, hi: nat): nat {
    if hi == 0 then 0 else Found(text, literals, hi - 1) + |Here(text, literals, hi - 1)|
  }

  lemma {:induction false} FoundGrows(text: string, literals: seq<string>, a: nat, b: nat)
    requires a <= b
    ensures Found(text, literals, a) <= Found(text, literals, b)
    decreases b
  {
    if a < b { FoundGrows(text, literals, a, b - 1); }
  }

  lemma CountHere(text: string, literals: seq<string>, ids: seq<nat>, p: nat)
    requires HereOnce(text, literals, ids, p)
    ensures Found(text, literals, p + 1) == Found(text, literals, p) + |ids|
  {
    CountOnce(ids, Here(text, literals, p));
  }

  lemma {:induction false} CountOnce(ids: seq<nat>, all: set<nat>)
    requires (forall i: nat :: i in ids <==> i in all) && forall j, k | 0 <= j < k < |ids| :: ids[j] != ids[k]
    ensures |ids| == |all|
    decreases |ids|
  {
    if ids == [] {
      assert all == {};
    } else {
      var init, last := ids[..|ids| - 1], ids[|ids| - 1];
      assert ids == init + [last] && last !in init;
      CountOnce(init, all - {last});
    }
  }

  /** The scan for matches of the compiled trie: for each distinct literal it records exactly
      the ascending list of its occurrences. `None` just when there are more occurrences in all
      than the budget allows. */
  method Scan(text: string, literals: seq<string>, t: Trie, r: Regex, litId: map<string, nat>, ends: seq<seq<nat>>)
    returns (occurrences: Option<seq<seq<nat>>>)
    requires Tables(literals, t, r, litId, ends)
    ensures occurrences.Some? ==>
              && |occurrences.value| == |literals|
              && forall i | 0 <= i < |literals| :: occurrences.value[i] == Recorded(text, literals, i, |text|)
    ensures occurrences.None? <==> Found(text, literals, |text|) > OCCURRENCES_PER_CHAR_MAX * |text| + |literals|
  {
    var occ: seq<seq<nat>> := seq(|literals|, _ => []);
    var budget: int := OCCURRENCES_PER_CHAR_MAX * |text| + |literals|;
    for p := 0 to |text|
      invariant AllRecorded(text, literals, occ, p)
      invariant 0 <= budget == OCCURRENCES_PER_CHAR_MAX * |text| + |literals| - Found(text, literals, p)
    {
      var ids := MatchAt(text, literals, t, r, litId, ends, p);
      CountHere(text, literals, ids, p);
      budget := budget - |ids|;
      if budget < 0 {
        FoundGrows(text, literals, p + 1, |text|);
        return None;
      }
      ghost var before := occ;
      occ := Record(occ, text, literals, ids, p);
      AllRecordedNext(text, literals, before, occ, ids, p);
    }
    occurrences := Some(occ);
  }

  ghost predicate AllRecorded(text: string, literals: seq<string>, occ: seq<seq<nat>>, hi: nat) {
    |occ| == |literals| && forall i | 0 <= i < |literals| :: occ[i] == Recorded(text, literals, i, hi)
  }

  lemma AllRecordedNext(text: string, literals: seq<string>, before: seq<seq<nat>>, occ: seq<seq<nat>>, ids: seq<nat>,
                        p: nat)
    requires AllRecorded(text, literals, before, p) && |occ| == |literals|
    requires forall i | 0 <= i < |literals| :: occ[i] == before[i] + (if i in ids then [p] else [])
    requires HereOnce(text, literals, ids, p)
    ensures AllRecorded(text, literals, occ, p + 1)
  {
    forall i | 0 <= i < |literals| ensures occ[i] == Recorded(text, literals, i, p + 1) {
      RecordedNext(text, literals, i, p);
    }
  }

  lemma RecordedNext(text: string, literals: seq<string>, i: nat, p: nat)
    requires i < |literals|
    ensures Recorded(text, literals, i, p + 1)
            == Recorded(text, literals, i, p)
              + (if Owner(literals, i) && OccursAt(literals[i], text, p) then [p] else [])
  {}

  /** The ids of the literals that start at `p`, each once, read off the one match there. */
  method MatchAt(text: string, literals: seq<string>, t: Trie, r: Regex, litId: map<string, nat>, ends: seq<seq<nat>>,
                 p: nat)
    returns (ids: seq<nat>)
    requires Tables(literals, t, r, litId, ends) && p < |text|
    ensures HereOnce(text, literals, ids, p)
  {
    var tries := Tries(r, text[p..]);
    if tries == [] {
      NothingHere(text, literals, t, r, litId, ends, p);
      ids := [];
    } else {
      MatchedHere(text, literals, t, r, litId, ends, p, tries[0]);
      ids := ends[litId[text[p..p + tries[0]]]];
    }
  }

  lemma MatchedHere(text: string, literals: seq<string>, t: Trie, r: Regex, litId: map<string, nat>,
                    ends: seq<seq<nat>>, p: nat, n: nat)
    requires Tables(literals, t, r, litId, ends) && p < |text|
    requires Tries(r, text[p..]) != [] && n == Tries(r, text[p..])[0]
    ensures p + n <= |text| && text[p..p + n] in litId && litId[text[p..p + n]] < |ends|
    ensures HereOnce(text, literals, ends[litId[text[p..p + n]]], p)
  {
    WordHere(text, literals, t, r, litId, ends, p, n);
    var w := text[p..p + n];
    forall i | 0 <= i < |literals| ensures OccursAt(literals[i], text, p) <==> IsPrefixOf(literals[i], w) {
      PrefixHere(text, literals, i, t, r, litId, ends, p, n);
    }
    OwnersHere(text, literals, p, w, ends[litId[w]]);
  }

  /** The match is a literal, and its list is that of its prefixes. */
  lemma WordHere(text: string, literals: seq<string>, t: Trie, r: Regex, litId: map<string, nat>, ends: seq<seq<nat>>,
                 p: nat, n: nat)
    requires Tables(literals, t, r, litId, ends) && p < |text|
    requires Tries(r, text[p..]) != [] && n == Tries(r, text[p..])[0]
    ensures p + n <= |text| && text[p..p + n] in litId && litId[text[p..p + n]] < |ends|
    ensures PrefixOwners(literals, text[p..p + n], ends[litId[text[p..p + n]]])
  {
    assert Look(literals);
    var s := text[p..];
    assert n in Lengths(t, s);
    LengthsAreLiterals(t, s, n);
    assert s[..n] == text[p..p + n];
    ListedAt(literals, litId, ends, text[p..p + n]);
  }

  /** The literals that occur here are its prefixes. */
  lemma PrefixHere(text: string, literals: seq<string>, i: nat, t: Trie, r: Regex, litId: map<string, nat>,
                   ends: seq<seq<nat>>, p: nat, n: nat)
    requires Tables(literals, t, r, litId, ends) && p + n <= |text| && i < |literals|
    requires Tries(r, text[p..]) != [] && n == Tries(r, text[p..])[0]
    ensures OccursAt(literals[i], text, p) <==> IsPrefixOf(literals[i], text[p..p + n])
  {
    assert Look(literals);
    PrefixOfMatch(text, literals[i], t, r, p, n);
  }

  lemma PrefixOfMatch(text: string, lit: string, t: Trie, r: Regex, p: nat, n: nat)
    requires Compiles(t, r) && p + n <= |text| && Lookup(t, lit).Some?
    requires Tries(r, text[p..]) != [] && n == Tries(r, text[p..])[0]
    ensures OccursAt(lit, text, p) <==> IsPrefixOf(lit, text[p..p + n])
  {
    OccursIsPrefix(lit, text, p, n);
    if OccursAt(lit, text, p) {
      assert text[p..][..|lit|] == lit;
      FirstTryIsLongest(t, r, text[p..], |lit|);
    }
  }

  lemma OwnersHere(text: string, literals: seq<string>, p: nat, w: string, ids: seq<nat>)
    requires PrefixOwners(literals, w, ids)
    requires forall i | 0 <= i < |literals| :: OccursAt(literals[i], text, p) <==> IsPrefixOf(literals[i], w)
    ensures forall i: nat :: i in ids <==> Owner(literals, i) && OccursAt(literals[i], text, p)
  {}

  method Record(before: seq<seq<nat>>, ghost text: string, literals: seq<string>, ids: seq<nat>, p: nat)
    returns (occ: seq<seq<nat>>)
    requires |before| == |literals| && HereOnce(text, literals, ids, p)
    ensures |occ| == |literals|
    ensures forall i | 0 <= i < |literals| :: occ[i] == before[i] + (if i in ids then [p] else [])
  {
    occ := before;
    for k := 0 to |ids|
      invariant |occ| == |literals|
      invariant forall i | 0 <= i < |literals| :: occ[i] == before[i] + (if i in ids[..k] then [p] else [])
    {
      assert ids[k] in ids && ids[k] !in ids[..k];
      assert ids[..k + 1] == ids[..k] + [ids[k]];
      occ := occ[ids[k] := occ[ids[k]] + [p]];
    }
    assert ids[..|ids|] == ids;
  }

  lemma OccursIsPrefix(lit: string, text: string, p: nat, n: nat)
    requires p + n <= |text|
    ensures IsPrefixOf(lit, text[p..p + n]) <==> |lit| <= n && OccursAt(lit, text, p)
  {
    if |lit| <= n { assert text[p..p + n][..|lit|] == text[p..p + |lit|]; }
  }

  lemma NothingHere(text: string, literals: seq<string>, t: Trie, r: Regex, litId: map<string, nat>,
                    ends: seq<seq<nat>>, p: nat)
    requires Tables(literals, t, r, litId, ends) && p < |text| && Tries(r, text[p..]) == []
    ensures HereOnce(text, literals, [], p)
  {
    forall i | 0 <= i < |literals| ensures !OccursAt(literals[i], text, p) {
      if OccursAt(literals[i], text, p) {
        assert Look(literals);
        assert text[p..][..|literals[i]|] == literals[i];
        FirstTryIsLongest(t, r, text[p..], |literals[i]|);
        assert false;
      }
    }
  }

  // ---- Masking in the loop's order ----

  /** `s` is one whole masked stretch. */
  ghost predicate SpanAt(marks: seq<Mark>, s: (nat, nat)) {
    && s.0 < s.1 <= |marks| && marks[s.0].Head?
    && (forall k | s.0 < k < s.1 :: marks[k].Tail?)
    && (s.1 < |marks| ==> !marks[s.1].Tail?)
  }

  /** Some span from index `from` on starts at `k`. */
  ghost predicate Starts(spans: seq<(nat, nat)>, from: nat, k: nat) {
    exists i :: from <= i < |spans| && spans[i].0 == k
  }

  /** The spans are exactly the masked stretches, each once. */
  ghost predicate Spans(marks: seq<Mark>, spans: seq<(nat, nat)>) {
    && (forall s | s in spans :: SpanAt(marks, s))
    && (forall k | 0 <= k < |marks| && marks[k].Head? :: Starts(spans, 0, k))
    && (forall i, j | 0 <= i < j < |spans| :: spans[i].0 != spans[j].0)
  }

  lemma KeepSpan(marks: seq<Mark>, s: (nat, nat), p: nat, q: nat)
    requires SpanAt(marks, s) && p < q <= |marks| && forall k | p <= k < q :: marks[k].Free?
    ensures SpanAt(Place(marks, p, q - p), s) && s.0 != p
  {
    var after := Place(marks, p, q - p);
    forall k | s.0 < k < s.1 ensures after[k].Tail? { assert marks[k].Tail?; }
    if s.1 == p { assert after[p].Head?; }
    assert !marks[s.1 - 1].Free?;
  }

  lemma PlaceSpan(marks: seq<Mark>, spans: seq<(nat, nat)>, p: nat, q: nat)
    requires Spans(marks, spans) && WellFormed(marks) && p < q <= |marks|
    requires forall k | p <= k < q :: marks[k].Free?
    ensures WellFormed(Place(marks, p, q - p)) && Spans(Place(marks, p, q - p), spans + [(p, q)])
  {
    var after, spans' := Place(marks, p, q - p), spans + [(p, q)];
    forall k | 0 <= k < |after| && after[k].Head? ensures Starts(spans', 0, k) {
      if k == p {
        assert spans'[|spans|].0 == k;
      } else {
        assert Starts(spans, 0, k);
        var i :| 0 <= i < |spans| && spans[i].0 == k;
        assert spans'[i].0 == k;
      }
    }
    forall s | s in spans ensures SpanAt(after, s) && s.0 != p { KeepSpan(marks, s, p, q); }
    assert forall i | 0 <= i < |spans| :: spans[i] in spans;
    assert SpanAt(after, (p, q)) by { assert marks[q - 1].Free?; }
  }

  /** The marking loops: literal by literal, each over its recorded occurrences. */
  method PlaceAll(text: string, literals: seq<string>, occurrences: seq<seq<nat>>)
    returns (spans: seq<(nat, nat)>)
    requires AllClear(literals) && |occurrences| == |literals|
    requires forall i | 0 <= i < |literals| :: occurrences[i] == Recorded(text, literals, i, |text|)
    ensures Spans(GreedyEach(text, literals), spans)
  {
    var masked := new bool[|text|](_ => false);
    spans := [];
    ghost var marks := GreedyEach(text, []);
    for i := 0 to |literals|
      invariant marks == GreedyEach(text, literals[..i]) && Agrees(masked, spans, marks)
    {
      assert literals[..i + 1][..i] == literals[..i] && literals[i] in literals;
      NextPass(text, literals, i);
      spans, marks := PlaceOne(text, literals[i], occurrences[i], masked, spans, marks);
    }
    assert literals[..|literals|] == literals;
  }

  /** The pass a literal's record stands for: a repeated literal, which has no record of its
      own, has nothing left to mask. */
  lemma NextPass(text: string, literals: seq<string>, i: nat)
    requires AllClear(literals) && i < |literals|
    ensures var marks := GreedyEach(text, literals[..i]);
            || Recorded(text, literals, i, |text|) == Positions(text, literals[i], |text|)
            || (Recorded(text, literals, i, |text|) == [] && Greedy(text, marks, literals[i], 0) == marks)
  {
    if !Owner(literals, i) {
      var j :| 0 <= j < i && literals[j] == literals[i];
      var prior := literals[..i];
      forall lit | lit in prior ensures Clear(lit) { assert lit in literals; }
      forall k | 0 <= k < |text| ensures !Fits(text, GreedyEach(text, prior), literals[i], k) {
        NoneFits(text, prior, j, k);
      }
      assert literals[i] in literals;
      GreedyIdle(text, GreedyEach(text, prior), literals[i]);
    }
  }

  /** The mark array and the span list say the same as the marks. */
  ghost predicate Agrees(masked: array<bool>, spans: seq<(nat, nat)>, marks: seq<Mark>)
    reads masked
  {
    && |marks| == masked.Length && WellFormed(marks) && Spans(marks, spans)
    && forall k | 0 <= k < |marks| :: masked[k] <==> !marks[k].Free?
  }

  method PlaceOne(text: string, lit: string, starts: seq<nat>, masked: array<bool>,
                  spans0: seq<(nat, nat)>, ghost marks0: seq<Mark>)
    returns (spans: seq<(nat, nat)>, ghost marks: seq<Mark>)
    requires lit != "" && |text| == masked.Length && Agrees(masked, spans0, marks0)
    requires || starts == Positions(text, lit, |text|)
             || (starts == [] && Greedy(text, marks0, lit, 0) == marks0)
    modifies masked
    ensures marks == Greedy(text, marks0, lit, 0) && Agrees(masked, spans, marks)
  {
    spans, marks := spans0, marks0;
    var freeFrom: nat := 0;
    for n := 0 to |starts|
      invariant Agrees(masked, spans, marks) && marks == PlacedUpTo(text, marks0, lit, starts, n)
      invariant freeFrom <= |text| && forall k | (if n == 0 then 0 else starts[n - 1]) <= k < freeFrom :: masked[k]
    {
      PositionAt(text, lit, n);
      var placed: bool;
      placed, spans, marks := PlaceAt(text, lit, starts[n], freeFrom, masked, spans, marks);
      if placed { freeFrom := starts[n] + |lit|; }
    }
    if starts == Positions(text, lit, |text|) {
      AllPlaced(text, marks0, lit);
    }
  }

  lemma PositionAt(text: string, lit: string, n: nat)
    requires n < |Positions(text, lit, |text|)|
    ensures var starts := Positions(text, lit, |text|);
            OccursAt(lit, text, starts[n]) && (n > 0 ==> starts[n - 1] < starts[n])
  {
    var starts := Positions(text, lit, |text|);
    PositionsAscend(text, lit, |text|);
    assert starts[n] in starts;
    PositionIff(text, lit, |text|, starts[n]);
  }

  /** The marks once the first `n` recorded occurrences have been tried. */
  function PlacedUpTo(text: string, marks: seq<Mark>, lit: string, starts: seq<nat>, n: nat): (r: seq<Mark>)
    requires |marks| == |text| && n <= |starts|
    ensures |r| == |text|
  {
    if n == 0 then marks
    else
      var prior := PlacedUpTo(text, marks, lit, starts, n - 1);
      if Fits(text, prior, lit, starts[n - 1]) then Place(prior, starts[n - 1], |lit|) else prior
  }

  /** Trying the recorded occurrences in order is the greedy pass. */
  lemma PlacedNext(text: string, marks: seq<Mark>, lit: string, starts: seq<nat>, n: nat)
    requires |marks| == |text| && lit != "" && starts == Positions(text, lit, |text|) && n < |starts|
    ensures var from := if n == 0 then 0 else starts[n - 1] + 1;
            && from <= starts[n] < |text|
            && Greedy(text, PlacedUpTo(text, marks, lit, starts, n + 1), lit, starts[n] + 1)
               == Greedy(text, PlacedUpTo(text, marks, lit, starts, n), lit, from)
  {
    var prior := PlacedUpTo(text, marks, lit, starts, n);
    GreedyToNext(text, prior, lit, starts, n);
    assert PlacedUpTo(text, marks, lit, starts, n + 1)
        == if Fits(text, prior, lit, starts[n]) then Place(prior, starts[n], |lit|) else prior;
  }

  lemma {:induction false} PlacedIsGreedy(text: string, marks: seq<Mark>, lit: string, starts: seq<nat>, n: nat)
    requires |marks| == |text| && lit != "" && starts == Positions(text, lit, |text|) && n <= |starts|
    ensures var from := if n == 0 then 0 else starts[n - 1] + 1;
            from <= |text| && Greedy(text, PlacedUpTo(text, marks, lit, starts, n), lit, from)
              == Greedy(text, marks, lit, 0)
  {
    if n > 0 {
      PlacedIsGreedy(text, marks, lit, starts, n - 1);
      PlacedNext(text, marks, lit, starts, n - 1);
    }
  }

  lemma AllPlaced(text: string, marks: seq<Mark>, lit: string)
    requires |marks| == |text| && lit != ""
    ensures var starts := Positions(text, lit, |text|);
            PlacedUpTo(text, marks, lit, starts, |starts|) == Greedy(text, marks, lit, 0)
  {
    var starts := Positions(text, lit, |text|);
    PlacedIsGreedy(text, marks, lit, starts, |starts|);
    NoneBetween(text, lit, |starts|);
    GreedySkips(text, PlacedUpTo(text, marks, lit, starts, |starts|), lit,
                if starts == [] then 0 else starts[|starts| - 1] + 1, |text|);
  }

  method PlaceAt(text: string, lit: string, start: nat, freeFrom: nat, masked: array<bool>,
                 spans0: seq<(nat, nat)>, ghost marks0: seq<Mark>)
    returns (placed: bool, spans: seq<(nat, nat)>, ghost marks: seq<Mark>)
    requires lit != "" && |text| == masked.Length && Agrees(masked, spans0, marks0)
    requires OccursAt(lit, text, start) && freeFrom <= |text|
    requires forall k | start <= k < freeFrom :: masked[k]
    modifies masked
    ensures Agrees(masked, spans, marks)
    ensures placed <==> Fits(text, marks0, lit, start)
    ensures marks == (if placed then Place(marks0, start, |lit|) else marks0)
    ensures placed ==> forall k | start <= k < start + |lit| :: masked[k]
    ensures forall k | 0 <= k < |text| && old(masked[k]) :: masked[k]
  {
    var end := start + |lit|;
    spans, marks := spans0, marks0;
    placed := start >= freeFrom && (forall k | start <= k < end :: !masked[k]);
    if placed {
      PlaceSpan(marks, spans, start, end);
      forall k | start <= k < end { masked[k] := true; }
      marks, spans := Place(marks, start, |lit|), spans + [(start, end)];
    } else if start < freeFrom {
      assert masked[start];
    }
  }

  /** The greedy pass goes straight from one recorded occurrence to the next. */
  lemma GreedyToNext(text: string, marks: seq<Mark>, lit: string, starts: seq<nat>, n: nat)
    requires |marks| == |text| && lit != "" && starts == Positions(text, lit, |text|) && n < |starts|
    ensures var from := if n == 0 then 0 else starts[n - 1] + 1;
            && from <= starts[n] && OccursAt(lit, text, starts[n])
            && Greedy(text, marks, lit, from)
               == Greedy(text, if Fits(text, marks, lit, starts[n]) then Place(marks, starts[n], |lit|) else marks,
                         lit, starts[n] + 1)
  {
    PositionAt(text, lit, n);
    NoneBetween(text, lit, n);
    GreedySkips(text, marks, lit, if n == 0 then 0 else starts[n - 1] + 1, starts[n]);
  }

  lemma NoneBetween(text: string, lit: string, n: nat)
    requires n <= |Positions(text, lit, |text|)|
    ensures var starts := Positions(text, lit, |text|);
            var from := if n == 0 then 0 else starts[n - 1] + 1;
            var to := if n < |starts| then starts[n] else |text|;
            to <= |text| && forall k: nat | from <= k < to :: !OccursAt(lit, text, k)
  {
    var starts := Positions(text, lit, |text|);
    PositionsAscend(text, lit, |text|);
    GapInSorted(starts, n, |text|);
    var from := if n == 0 then 0 else starts[n - 1] + 1;
    var to := if n < |starts| then starts[n] else |text|;
    forall k: nat | from <= k < to ensures !OccursAt(lit, text, k) {
      PositionIff(text, lit, |text|, k);
    }
  }

  /** Between two neighbours of an ascending list there is nothing. */
  lemma GapInSorted(starts: seq<nat>, n: nat, hi: nat)
    requires n <= |starts| && forall i, j | 0 <= i < j < |starts| :: starts[i] < starts[j]
    requires forall i | 0 <= i < |starts| :: starts[i] < hi
    ensures var from := if n == 0 then 0 else starts[n - 1] + 1;
            var to := if n < |starts| then starts[n] else hi;
            to <= hi && forall k: nat | from <= k < to :: k !in starts
  {}

  // ---- The output ----

  method SortSpans(spans: seq<(nat, nat)>) returns (sorted: seq<(nat, nat)>)
    requires forall i, j | 0 <= i < j < |spans| :: spans[i].0 != spans[j].0
    ensures forall x :: x in sorted <==> x in spans
    ensures forall i, j | 0 <= i < j < |sorted| :: sorted[i].0 < sorted[j].0
  {
    sorted := [];
    for n := 0 to |spans|
      invariant forall x :: x in sorted <==> x in spans[..n]
      invariant forall i, j | 0 <= i < j < |sorted| :: sorted[i].0 < sorted[j].0
    {
      assert spans[..n + 1] == spans[..n] + [spans[n]];
      sorted := InsertSpan(sorted, spans[n]);
    }
    assert spans[..|spans|] == spans;
  }

  method InsertSpan(sorted: seq<(nat, nat)>, x: (nat, nat)) returns (r: seq<(nat, nat)>)
    requires forall i, j | 0 <= i < j < |sorted| :: sorted[i].0 < sorted[j].0
    requires forall y | y in sorted :: y.0 != x.0
    ensures forall y :: y in r <==> y in sorted || y == x
    ensures forall i, j | 0 <= i < j < |r| :: r[i].0 < r[j].0
  {
    var at := 0;
    while at < |sorted| && sorted[at].0 < x.0
      invariant at <= |sorted|
      invariant forall i | 0 <= i < at :: sorted[i].0 < x.0
    {
      at := at + 1;
    }
    if at < |sorted| { assert sorted[at] in sorted; }
    Inserted(sorted, at, x);
    r := sorted[..at] + [x] + sorted[at..];
  }

  lemma Inserted(sorted: seq<(nat, nat)>, at: nat, x: (nat, nat))
    requires forall i, j | 0 <= i < j < |sorted| :: sorted[i].0 < sorted[j].0
    requires at <= |sorted| && (forall i | 0 <= i < at :: sorted[i].0 < x.0) && (at < |sorted| ==> x.0 < sorted[at].0)
    ensures var r := sorted[..at] + [x] + sorted[at..];
            (forall y :: y in r <==> y in sorted || y == x) && forall i, j | 0 <= i < j < |r| :: r[i].0 < r[j].0
  {
    var r := sorted[..at] + [x] + sorted[at..];
    assert sorted == sorted[..at] + sorted[at..];
    forall k | 0 <= k < |r| ensures r[k] == if k < at then sorted[k] else if k == at then x else sorted[k - 1] {}
  }

  lemma {:induction false} FreeRun(marks: seq<Mark>, p: nat, q: nat)
    requires WellFormed(marks) && p <= q <= |marks|
    requires p < |marks| ==> !marks[p].Tail?
    requires forall k | p <= k < q :: !marks[k].Head?
    ensures forall k | p <= k < q :: marks[k].Free?
    decreases q
  {
    if p < q {
      FreeRun(marks, p, q - 1);
      if p < q - 1 { assert marks[q - 2].Free?; }
    }
  }

  lemma Appended(out: string, copy: string, mask: string, rest: string)
    ensures out + (copy + mask + rest) == out + copy + mask + rest
  {
    Associative(out, copy + mask, rest);
    Associative(out, copy, mask);
  }

  /** Copy what is between the spans and write a mask for each. */
  method Assemble(text: string, spans: seq<(nat, nat)>, ghost marks: seq<Mark>) returns (out: string)
    requires |marks| == |text| && WellFormed(marks) && Spans(marks, spans)
    ensures out == Render(text, marks, 0)
  {
    var sorted := SortSpans(spans);
    HeadsSorted(marks, spans, sorted);
    NothingBefore(Render(text, marks, 0));
    out := "";
    var pos: nat := 0;
    for n := 0 to |sorted|
      invariant Assembled(text, marks, sorted, n, pos, out)
    {
      AssembleNext(text, marks, sorted, n, pos, out);
      out := out + text[pos..sorted[n].0] + MASK;
      pos := sorted[n].1;
    }
    AssembleLast(text, marks, sorted, pos, out);
    out := out + text[pos..];
  }

  /** What is written so far is the masked text up to `pos`. */
  ghost predicate Assembled(text: string, marks: seq<Mark>, sorted: seq<(nat, nat)>, n: nat, pos: nat, out: string) {
    && |marks| == |text| && pos <= |text| && out + Render(text, marks, pos) == Render(text, marks, 0)
    && Reached(marks, sorted, n, pos)
  }

  lemma AssembleNext(text: string, marks: seq<Mark>, sorted: seq<(nat, nat)>, n: nat, pos: nat, out: string)
    requires Assembled(text, marks, sorted, n, pos, out) && n < |sorted|
    ensures pos <= sorted[n].0 <= |text|
    ensures Assembled(text, marks, sorted, n + 1, sorted[n].1, out + text[pos..sorted[n].0] + MASK)
  {
    var (start, end) := sorted[n];
    NextSpan(marks, sorted, n, pos);
    CopyThenMask(text, marks, pos, start, end);
    Appended(out, text[pos..start], MASK, Render(text, marks, end));
  }

  lemma AssembleLast(text: string, marks: seq<Mark>, sorted: seq<(nat, nat)>, pos: nat, out: string)
    requires Assembled(text, marks, sorted, |sorted|, pos, out)
    ensures out + text[pos..] == Render(text, marks, 0)
  {
    NoHeadLeft(marks, sorted, pos);
    RenderFree(text, marks, pos, |text|);
    assert text[pos..|text|] + "" == text[pos..];
  }

  /** `pos` is the end of the span before `sorted[n]`, and every later span is still to come. */
  ghost predicate Reached(marks: seq<Mark>, sorted: seq<(nat, nat)>, n: nat, pos: nat) {
    && n <= |sorted| && pos <= |marks| && WellFormed(marks)
    && (forall s | s in sorted :: SpanAt(marks, s))
    && (forall i, j | 0 <= i < j < |sorted| :: sorted[i].0 < sorted[j].0)
    && pos == (if n == 0 then 0 else sorted[n - 1].1)
    && (forall k | pos <= k < |marks| && marks[k].Head? :: Starts(sorted, n, k))
  }

  lemma HeadsSorted(marks: seq<Mark>, spans: seq<(nat, nat)>, sorted: seq<(nat, nat)>)
    requires WellFormed(marks) && Spans(marks, spans) && forall x :: x in sorted <==> x in spans
    requires forall i, j | 0 <= i < j < |sorted| :: sorted[i].0 < sorted[j].0
    ensures Reached(marks, sorted, 0, 0)
  {
    forall k | 0 <= k < |marks| && marks[k].Head? ensures Starts(sorted, 0, k) {
      assert Starts(spans, 0, k);
      var j :| 0 <= j < |spans| && spans[j].0 == k;
      assert spans[j] in sorted;
    }
  }

  lemma NextSpan(marks: seq<Mark>, sorted: seq<(nat, nat)>, n: nat, pos: nat)
    requires Reached(marks, sorted, n, pos) && n < |sorted|
    ensures SpanAt(marks, sorted[n]) && pos <= sorted[n].0
    ensures forall k | pos <= k < sorted[n].0 :: marks[k].Free?
    ensures Reached(marks, sorted, n + 1, sorted[n].1)
  {
    assert sorted[n] in sorted;
    if pos < |marks| { NotTail(marks, sorted, n, pos); }
    forall k | pos <= k < |marks| && marks[k].Head? ensures k >= sorted[n].0 {
      assert Starts(sorted, n, k);
    }
    if n > 0 {
      assert sorted[n - 1] in sorted && SpanAt(marks, sorted[n - 1]);
      assert sorted[n - 1].0 < sorted[n].0;
    }
    FreeRun(marks, pos, sorted[n].0);
    forall k | sorted[n].1 <= k < |marks| && marks[k].Head? ensures Starts(sorted, n + 1, k) {
      assert Starts(sorted, n, k);
      var i :| n <= i < |sorted| && sorted[i].0 == k;
      assert i != n;
    }
  }

  lemma NotTail(marks: seq<Mark>, sorted: seq<(nat, nat)>, n: nat, pos: nat)
    requires Reached(marks, sorted, n, pos) && pos < |marks|
    ensures !marks[pos].Tail?
  {
    if n > 0 { assert sorted[n - 1] in sorted && SpanAt(marks, sorted[n - 1]); }
  }

  lemma NoHeadLeft(marks: seq<Mark>, sorted: seq<(nat, nat)>, pos: nat)
    requires Reached(marks, sorted, |sorted|, pos)
    ensures forall k | pos <= k < |marks| :: marks[k].Free?
  {
    if pos < |marks| { NotTail(marks, sorted, |sorted|, pos); }
    forall k | pos <= k < |marks| ensures !marks[k].Head? {
      assert !Starts(sorted, |sorted|, k);
    }
    FreeRun(marks, pos, |marks|);
  }

  lemma CopyThenMask(text: string, marks: seq<Mark>, pos: nat, start: nat, end: nat)
    requires |marks| == |text| && pos <= start && SpanAt(marks, (start, end))
    requires forall k | pos <= k < start :: marks[k].Free?
    ensures Render(text, marks, pos) == text[pos..start] + MASK + Render(text, marks, end)
  {
    RenderFree(text, marks, pos, start);
    RenderTails(text, marks, start + 1, end);
    Associative(text[pos..start], MASK, Render(text, marks, end));
  }

  // ---- The whole function ----

  /** `_replace_each`. */
  method ReplaceLoop(text: string, literals: seq<string>) returns (out: string)
    ensures out == ReplaceEach(text, literals)
    ensures ReplacedEach(text, literals, out)
  {
    EachIsReplaced(text, literals);
    out := text;
    for i := 0 to |literals|
      invariant out == ReplaceEach(text, literals[..i])
    {
      ReplaceEachAppend(text, literals[..i], [literals[i]]);
      assert literals[..i + 1] == literals[..i] + [literals[i]];
      out := Replace(out, literals[i]);
      assert ReplaceEach(out, []) == out;
    }
    assert literals[..|literals|] == literals;
  }

  /** `_mask_literals` returns, byte for byte, what the loop of `str.replace` calls returns, by
      whichever path it takes. `compiles` is whether `re` accepts the pattern. */
  method MaskLiterals(text: string, literals: seq<string>, compiles: bool) returns (out: string)
    ensures out == ReplaceEach(text, literals)
    ensures ReplacedEach(text, literals, out)
  {
    EachIsReplaced(text, literals);
    var longRun := 0;
    while longRun < |literals| && |literals[longRun]| > LITERAL_SCAN_MAX
      invariant longRun <= |literals|
    {
      longRun := longRun + 1;
    }
    var fits := LITERAL_REPLACE_BUDGET / (if |text| > 1 then |text| else 1);
    if fits < longRun { longRun := fits; }
    assert literals == literals[..longRun] + literals[longRun..];
    ReplaceEachAppend(text, literals[..longRun], literals[longRun..]);
    var start := ReplaceLoop(text, literals[..longRun]);
    out := MaskRest(start, literals[longRun..], compiles);
  }

  /** `_mask_literals` after its longest literals have been replaced. */
  method MaskRest(text: string, literals: seq<string>, compiles: bool) returns (out: string)
    ensures out == ReplaceEach(text, literals)
  {
    if literals == [] || exists i | 0 <= i < |literals| :: MayMatchMask(literals[i]) {
      out := ReplaceLoop(text, literals);
      return;
    }
    ClearedLiterals(literals);
    var trie := BuildTrie(literals);
    var litId, ends := PrefixLists(trie, literals);
    var body := LiteralTrieRegex(trie, 0);
    if body.None? || !compiles {
      out := ReplaceLoop(text, literals);
      return;
    }
    assert Tables(literals, trie, body.value, litId, ends);
    var occurrences := Scan(text, literals, trie, body.value, litId, ends);
    if occurrences.None? {
      out := ReplaceLoop(text, literals);
      return;
    }
    var spans := PlaceAll(text, literals, occurrences.value);
    ReplaceEachIsGreedy(text, literals);
    out := Assemble(text, spans, GreedyEach(text, literals));
  }

  lemma ClearedLiterals(literals: seq<string>)
    requires forall i | 0 <= i < |literals| :: !MayMatchMask(literals[i])
    ensures AllClear(literals) && "" !in literals
  {
    forall lit | lit in literals ensures lit != "" && Clear(lit) {
      var i :| 0 <= i < |literals| && literals[i] == lit;
      if lit == "" { assert OccursAt("", MASK, 0); assert false; }
      MaskTestIsExact(lit);
    }
  }

  /** No literal is left: if none can match part of a mask, none occurs in the result, so no
      later mask recreates an occurrence of an earlier literal. */
  lemma NoLiteralSurvives(text: string, literals: seq<string>, lit: string)
    requires forall i | 0 <= i < |literals| :: !MayMatchMask(literals[i])
    requires lit in literals
    ensures !Contains(ReplaceEach(text, literals), lit)
  {
    ClearedLiterals(literals);
    ReplaceEachIsGreedy(text, literals);
    var marks := GreedyEach(text, literals);
    forall p: nat ensures !OccursAt(lit, ReplaceEach(text, literals), p) {
      if OccursAt(lit, ReplaceEach(text, literals), p) {
        var k := ShownFits(text, marks, lit, 0, p);
        var i :| 0 <= i < |literals| && literals[i] == lit;
        NoneFits(text, literals, i, k);
        assert false;
      }
    }
  }
}
