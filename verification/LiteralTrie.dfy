/** The trie of `_mask_literals` and the regular expression `_literal_trie_regex` makes of it. */
module LiteralTrie {
  import opened Basics
  import opened Text

  /** A nested dict: `end` is the entry under the key "", the id of the literal that ends here. */
  datatype Trie = Node(end: Option<nat>, kids: map<char, Trie>)

  const EMPTY := Node(None, map[])
  const MAX_NESTING := 100

  function Lookup(t: Trie, w: string): Option<nat>
    decreases |w|
  {
    if w == "" then t.end
    else if w[0] in t.kids then Lookup(t.kids[w[0]], w[1..])
    else None
  }

  /** Walk down with `setdefault`: an id already there stays. */
  function Insert(t: Trie, w: string, id: nat): Trie
    decreases |w|
  {
    if w == "" then (if t.end.None? then t.(end := Some(id)) else t)
    else
      var kid := if w[0] in t.kids then t.kids[w[0]] else EMPTY;
      t.(kids := t.kids[w[0] := Insert(kid, w[1..], id)])
  }

  /** The node reached by following `w`. */
  function Walk(t: Trie, w: string): Option<Trie>
    decreases |w|
  {
    if w == "" then Some(t)
    else if w[0] in t.kids then Walk(t.kids[w[0]], w[1..])
    else None
  }

  lemma {:induction false} LookupWalk(t: Trie, u: string, v: string)
    ensures Lookup(t, u + v) == if Walk(t, u).Some? then Lookup(Walk(t, u).value, v) else None
    decreases |u|
  {
    if u == "" {
      assert u + v == v;
    } else {
      assert (u + v)[1..] == u[1..] + v;
      if u[0] in t.kids { LookupWalk(t.kids[u[0]], u[1..], v); }
    }
  }

  lemma {:induction false} WalkOne(t: Trie, u: string, c: char)
    requires Walk(t, u).Some?
    ensures Walk(t, u + [c]) == if c in Walk(t, u).value.kids then Some(Walk(t, u).value.kids[c]) else None
    decreases |u|
  {
    if u == "" {
      assert u + [c] == [c] && [c][1..] == "";
    } else {
      assert (u + [c])[1..] == u[1..] + [c];
      WalkOne(t.kids[u[0]], u[1..], c);
    }
  }

  lemma {:induction false} LookupInsert(t: Trie, w: string, id: nat, v: string)
    ensures Lookup(Insert(t, w, id), v)
            == if v == w && Lookup(t, w).None? then Some(id) else Lookup(t, v)
    decreases |w|
  {
    if w == "" || v == "" {
    } else {
      var kid := if w[0] in t.kids then t.kids[w[0]] else EMPTY;
      LookupInsert(kid, w[1..], id, v[1..]);
      if v[0] == w[0] {
        assert v == [v[0]] + v[1..] && w == [w[0]] + w[1..];
        assert w[0] !in t.kids ==> Lookup(EMPTY, w[1..]).None? && Lookup(EMPTY, v[1..]).None?;
      }
    }
  }

  /** No dead ends: some literal ends at or below every node. */
  ghost predicate Live(t: Trie) {
    (t.end.Some? || t.kids != map[]) && forall c | c in t.kids :: Live(t.kids[c])
  }

  lemma {:induction false} InsertLive(t: Trie, w: string, id: nat)
    requires t == EMPTY || Live(t)
    ensures Live(Insert(t, w, id))
    decreases |w|
  {
    if w != "" {
      InsertLive(if w[0] in t.kids then t.kids[w[0]] else EMPTY, w[1..], id);
      assert w[0] in Insert(t, w, id).kids;
    }
  }

  // ---- What a node matches ----

  function Shift(k: nat, ns: seq<nat>): seq<nat> {
    seq(|ns|, i requires 0 <= i < |ns| => ns[i] + k)
  }

  /** The lengths of the literals of `t` that start `s`, longest first. */
  function Lengths(t: Trie, s: string): seq<nat>
    decreases |s|
  {
    (if s != "" && s[0] in t.kids then Shift(1, Lengths(t.kids[s[0]], s[1..])) else [])
    + (if t.end.Some? then [0] else [])
  }

  lemma {:induction false} LengthsAreLiterals(t: Trie, s: string, n: nat)
    ensures n in Lengths(t, s) <==> n <= |s| && Lookup(t, s[..n]).Some?
    decreases |s|
  {
    var inner := if s != "" && s[0] in t.kids then Lengths(t.kids[s[0]], s[1..]) else [];
    assert n in Shift(1, inner) <==> n > 0 && n - 1 in inner by {
      if n in Shift(1, inner) { var i :| 0 <= i < |inner| && Shift(1, inner)[i] == n; assert inner[i] == n - 1; }
      if n > 0 && n - 1 in inner { var i :| 0 <= i < |inner| && inner[i] == n - 1; assert Shift(1, inner)[i] == n; }
    }
    if 0 < n <= |s| {
      assert s[..n][0] == s[0] && s[..n][1..] == s[1..][..n - 1];
      if s[0] in t.kids { LengthsAreLiterals(t.kids[s[0]], s[1..], n - 1); }
    } else if n > |s| && s != "" && s[0] in t.kids {
      LengthsAreLiterals(t.kids[s[0]], s[1..], n - 1);
    }
  }

  lemma {:induction false} LengthsDescend(t: Trie, s: string)
    ensures forall i, j | 0 <= i < j < |Lengths(t, s)| :: Lengths(t, s)[i] > Lengths(t, s)[j]
    decreases |s|
  {
    if s != "" && s[0] in t.kids { LengthsDescend(t.kids[s[0]], s[1..]); }
  }

  // ---- Regular expressions ----

  /** The shapes the compiler emits: an escaped run then the rest, an alternation, a greedy
      optional group, and the empty pattern. */
  datatype Regex = Empty | Run(run: string, rest: Regex) | Alt(alts: seq<Regex>) | Opt(body: Regex)

  /** The lengths of the matches of `r` at the start of `s`, in the order a backtracking
      matcher tries them; `re` reports the first. */
  function Tries(r: Regex, s: string): seq<nat>
    decreases r, 0
  {
    match r
    case Empty => [0]
    case Run(run, rest) => if IsPrefixOf(run, s) then Shift(|run|, Tries(rest, s[|run|..])) else []
    case Alt(alts) => TriesOfAll(alts, s)
    case Opt(body) => Tries(body, s) + [0]
  }

  function TriesOfAll(alts: seq<Regex>, s: string): seq<nat>
    decreases alts, 1
  {
    if alts == [] then []
    else TriesOfAll(alts[..|alts| - 1], s) + Tries(alts[|alts| - 1], s)
  }

  ghost predicate Compiles(t: Trie, r: Regex) {
    forall s :: Tries(r, s) == Lengths(t, s)
  }

  lemma ShiftShift(a: nat, b: nat, ns: seq<nat>)
    ensures Shift(a, Shift(b, ns)) == Shift(a + b, ns)
  {}

  /** What the branch through the characters `run` down to `node` contributes. */
  function Branch(run: string, node: Trie, s: string): seq<nat> {
    if IsPrefixOf(run, s) then Shift(|run|, Lengths(node, s[|run|..])) else []
  }

  /** Collapsing: a node that ends no literal and has one child adds its character to the run. */
  lemma BranchExtends(run: string, node: Trie, c: char, s: string)
    requires node.end.None? && node.kids.Keys == {c}
    ensures Branch(run + [c], node.kids[c], s) == Branch(run, node, s)
  {
    PrefixExtends(run, c, s);
    if IsPrefixOf(run, s) {
      var rest := s[|run|..];
      assert Lengths(node, rest)
          == if rest != "" && rest[0] == c then Shift(1, Lengths(node.kids[c], rest[1..])) else [];
      if rest != "" && rest[0] == c {
        assert s[|run + [c]|..] == rest[1..];
        ShiftShift(|run|, 1, Lengths(node.kids[c], rest[1..]));
      }
    }
  }

  lemma PrefixExtends(run: string, c: char, s: string)
    ensures IsPrefixOf(run + [c], s) <==> IsPrefixOf(run, s) && |run| < |s| && s[|run|] == c
  {
    if |run| < |s| {
      assert s[..|run| + 1] == s[..|run|] + [s[|run|]];
      assert (run + [c])[..|run|] == run && (run + [c])[|run|] == c;
    }
  }

  method SortedKeys(keys: set<char>) returns (sorted: seq<char>)
    ensures forall c :: c in sorted <==> c in keys
    ensures forall i, j | 0 <= i < j < |sorted| :: sorted[i] < sorted[j]
  {
    sorted := [];
    var left := keys;
    while left != {}
      invariant forall c :: c in keys <==> c in sorted || c in left
      invariant forall i, j | 0 <= i < j < |sorted| :: sorted[i] < sorted[j]
      invariant forall i, d | 0 <= i < |sorted| && d in left :: sorted[i] < d
      decreases |left|
    {
      var least := Least(left);
      sorted, left := sorted + [least], left - {least};
    }
  }

  method Least(keys: set<char>) returns (least: char)
    requires keys != {}
    ensures least in keys && forall c | c in keys :: least <= c
  {
    least :| least in keys;
    var left := keys - {least};
    while left != {}
      invariant left <= keys && least in keys
      invariant forall c | c in keys :: c in left || least <= c
      decreases |left|
    {
      var c :| c in left;
      if c < least { least := c; }
      left := left - {c};
    }
  }

  ghost function KeysDone(t: Trie, keys: seq<char>, s: string): seq<nat>
  {
    if s != "" && s[0] in keys && s[0] in t.kids then Branch([s[0]], t.kids[s[0]], s) else []
  }

  lemma BranchOfOne(t: Trie, s: string)
    requires s != "" && s[0] in t.kids
    ensures Branch([s[0]], t.kids[s[0]], s) == Shift(1, Lengths(t.kids[s[0]], s[1..]))
  {
    assert s[..1] == [s[0]];
  }

  /** The node below a run of nodes that end no literal and have one child. */
  ghost function Collapsed(t: Trie): Trie
    decreases t
  {
    if t.end.None? && |t.kids| == 1 then
      var c :| c in t.kids;
      Collapsed(t.kids[c])
    else t
  }

  /** The collapsed trie nests at least `n` deep. */
  ghost predicate Nests(t: Trie, n: nat)
    decreases n
  {
    n == 0 || exists c :: c in t.kids && Nests(Collapsed(t.kids[c]), n - 1)
  }

  /** `_literal_trie_regex`: the pattern it compiles tries, at every text, exactly the
      literals that start there, the longest first. `None` just when the collapsed trie nests past
      the limit. */
  method LiteralTrieRegex(t: Trie, nesting: nat) returns (r: Option<Regex>)
    requires Live(t) && nesting <= MAX_NESTING + 1
    ensures r.Some? ==> Compiles(t, r.value)
    ensures r.None? <==> Nests(t, MAX_NESTING + 1 - nesting)
    decreases MAX_NESTING + 1 - nesting
  {
    if nesting > MAX_NESTING { return None; }
    var alts: seq<Regex> := [];
    var keys := SortedKeys(t.kids.Keys);
    var k := 0;
    while k < |keys|
      invariant k <= |keys| && |alts| == k
      invariant forall s :: TriesOfAll(alts, s) == KeysDone(t, keys[..k], s)
      invariant forall i | 0 <= i < k :: !Nests(Collapsed(t.kids[keys[i]]), MAX_NESTING - nesting)
    {
      var alt := BranchRegex(t, keys[k], nesting);
      if alt.None? { return None; }
      ExtendAlts(t, keys, k, alts, alt.value);
      alts := alts + [alt.value];
      k := k + 1;
    }
    forall c | c in t.kids ensures !Nests(Collapsed(t.kids[c]), MAX_NESTING - nesting) {
      assert c in keys;
    }
    if alts == [] {
      assert t.kids == map[];
      return Some(Empty);
    }
    var body := if |alts| == 1 then alts[0] else Alt(alts);
    forall s ensures Tries(body, s) == KeysDone(t, keys, s) {
      assert keys[..k] == keys;
      if |alts| == 1 { assert alts[..0] == [] && TriesOfAll(alts, s) == [] + Tries(alts[0], s); }
    }
    forall s ensures Tries(if t.end.Some? then Opt(body) else body, s) == Lengths(t, s) {
      if s != "" && s[0] in t.kids { BranchOfOne(t, s); }
    }
    r := Some(if t.end.Some? then Opt(body) else body);
  }

  /** One child: the run of single-child nodes below it, then the pattern of what follows. */
  method BranchRegex(t: Trie, c: char, nesting: nat) returns (r: Option<Regex>)
    requires Live(t) && c in t.kids && nesting <= MAX_NESTING
    ensures r.Some? ==> forall s :: Tries(r.value, s) == Branch([c], t.kids[c], s)
    ensures r.None? <==> Nests(Collapsed(t.kids[c]), MAX_NESTING - nesting)
    decreases MAX_NESTING + 1 - nesting, 0
  {
    var run, node := [c], t.kids[c];
    while node.end.None? && |node.kids| == 1
      invariant Live(node) && Collapsed(node) == Collapsed(t.kids[c])
      invariant forall s :: Branch(run, node, s) == Branch([c], t.kids[c], s)
      decreases node
    {
      var d :| d in node.kids;
      assert node.kids.Keys == {d} by { SingleKey(node.kids.Keys, d); }
      forall s ensures Branch(run + [d], node.kids[d], s) == Branch([c], t.kids[c], s) {
        BranchExtends(run, node, d, s);
      }
      run, node := run + [d], node.kids[d];
    }
    var rest := LiteralTrieRegex(node, nesting + 1);
    if rest.None? { return None; }
    r := Some(Run(run, rest.value));
  }

  lemma SingleKey(keys: set<char>, c: char)
    requires |keys| == 1 && c in keys
    ensures keys == {c}
  {
    assert |keys - {c}| == 0;
  }

  lemma ExtendAlts(t: Trie, keys: seq<char>, k: nat, alts: seq<Regex>, alt: Regex)
    requires k < |keys| && keys[k] in t.kids
    requires forall i, j | 0 <= i < j < |keys| :: keys[i] < keys[j]
    requires forall s :: TriesOfAll(alts, s) == KeysDone(t, keys[..k], s)
    requires forall s :: Tries(alt, s) == Branch([keys[k]], t.kids[keys[k]], s)
    ensures forall s :: TriesOfAll(alts + [alt], s) == KeysDone(t, keys[..k + 1], s)
  {
    forall s ensures TriesOfAll(alts + [alt], s) == KeysDone(t, keys[..k + 1], s) {
      assert (alts + [alt])[..|alts|] == alts;
      assert keys[..k + 1] == keys[..k] + [keys[k]];
      if s != "" && s[0] in keys[..k] {
        assert s[0] < keys[k];
      }
    }
  }

  /** The regular expression finds, at the start of any text, the longest literal there, and
      fails just when none starts there. */
  lemma FirstTryIsLongest(t: Trie, r: Regex, s: string, n: nat)
    requires Compiles(t, r) && n <= |s| && Lookup(t, s[..n]).Some?
    ensures Tries(r, s) != [] && n <= Tries(r, s)[0] <= |s|
    ensures Lookup(t, s[..Tries(r, s)[0]]).Some?
  {
    LengthsAreLiterals(t, s, n);
    LengthsDescend(t, s);
    var first := Lengths(t, s)[0];
    assert first in Lengths(t, s);
    LengthsAreLiterals(t, s, first);
  }
}
