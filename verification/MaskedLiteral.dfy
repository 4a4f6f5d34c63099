/** `_masked_literal`: read a JSON or Python-repr literal and print it with every leaf masked. */
module MaskedLiteral {
  import opened Basics
  import opened Text
  import Quotes

  predicate IsOpen(c: char) { c == '{' || c == '[' }
  function BracketFor(open: char): char { if open == '{' then '}' else ']' }

  /** `str.isspace` of one character. */
  predicate IsSpace(c: char) {
    var n := c as int;
    || 9 <= n <= 13 || 28 <= n <= 32 || n == 0x85 || n == 0xA0 || n == 0x1680
    || 0x2000 <= n <= 0x200A || n == 0x2028 || n == 0x2029 || n == 0x202F || n == 0x205F || n == 0x3000
  }

  /** The characters that end a bare scalar. */
  predicate IsStop(c: char) {
    c == ',' || c == '}' || c == ']' || c == ' ' || c == '\t' || c == '\n'
  }

  // ---- Concrete syntax ----

  /** A literal as written. */
  datatype Tree =
    | Quoted(text: string)
    | Scalar(text: string)
    | Container(open: char, items: Items)

  /** What stands between the brackets: blanks; or a last entry; or an entry, a comma and the
      rest. `key` is an entry's key, colon and blanks, empty in a list. */
  datatype Items =
    | End(blank: string)
    | Last(lead: string, key: string, value: Tree, trail: string)
    | More(lead: string, key: string, value: Tree, trail: string, rest: Items)

  function Print(t: Tree): string {
    match t
    case Quoted(text) => text
    case Scalar(text) => text
    case Container(open, items) => [open] + PrintItems(items) + [BracketFor(open)]
  }

  function PrintItems(items: Items): string {
    match items
    case End(blank) => blank
    case Last(lead, key, value, trail) => lead + key + Print(value) + trail
    case More(lead, key, value, trail, rest) => lead + key + Print(value) + trail + "," + PrintItems(rest)
  }

  /** The same literal with every leaf masked; keys, brackets, commas and blanks stay. */
  function Mask(t: Tree): Tree {
    match t
    case Quoted(text) => if text == "" then t else Quoted([text[0]] + MASK + [text[0]])
    case Scalar(_) => Scalar(MASK)
    case Container(open, items) => Container(open, MaskItems(items))
  }

  function MaskItems(items: Items): Items {
    match items
    case End(_) => items
    case Last(lead, key, value, trail) => Last(lead, key, Mask(value), trail)
    case More(lead, key, value, trail, rest) => More(lead, key, Mask(value), trail, MaskItems(rest))
  }

  // ---- What a masked literal is ----

  /** Every leaf is the mask, a string one in quotes. */
  ghost predicate AllMasked(t: Tree) {
    match t
    case Quoted(text) => |text| == |MASK| + 2 && Quotes.IsQuote(text[0]) && text == [text[0]] + MASK + [text[0]]
    case Scalar(text) => text == MASK
    case Container(_, items) => AllMaskedItems(items)
  }

  ghost predicate AllMaskedItems(items: Items) {
    match items
    case End(_) => true
    case Last(_, _, value, _) => AllMasked(value)
    case More(_, _, value, _, rest) => AllMasked(value) && AllMaskedItems(rest)
  }

  /** The same brackets, keys, commas and blanks, and leaves of the same kind, with the same quotes. */
  ghost predicate SameShape(a: Tree, b: Tree) {
    match a
    case Quoted(text) => b.Quoted? && text != "" && b.text != "" && text[0] == b.text[0]
    case Scalar(_) => b.Scalar?
    case Container(open, items) => b.Container? && b.open == open && SameItems(items, b.items)
  }

  ghost predicate SameItems(a: Items, b: Items) {
    match a
    case End(blank) => b == End(blank)
    case Last(lead, key, value, trail) =>
      b.Last? && b.lead == lead && b.key == key && b.trail == trail && SameShape(value, b.value)
    case More(lead, key, value, trail, rest) =>
      && b.More? && b.lead == lead && b.key == key && b.trail == trail
      && SameShape(value, b.value) && SameItems(rest, b.rest)
  }

  // ---- Tokens ----

  /** The number of blanks at the start of `s`. */
  function SkipBlanks(s: string): (n: nat)
    ensures n <= |s|
  {
    if s != "" && IsSpace(s[0]) then 1 + SkipBlanks(s[1..]) else 0
  }

  /** The length of the quoted string read on from `p`, if it is closed. */
  function StringEnd(s: string, p: nat, quote: char): (e: Option<nat>)
    ensures e.Some? ==> p < e.value <= |s|
    decreases |s| - p
  {
    if p >= |s| then None
    else if s[p] == '\\' then StringEnd(s, p + 2, quote)
    else if s[p] == quote then Some(p + 1)
    else StringEnd(s, p + 1, quote)
  }

  /** `_end_of_string` of a string at the start of `s`. */
  function StringLen(s: string): (n: Option<nat>)
    ensures n.Some? ==> 2 <= n.value <= |s|
  {
    if s == "" || !Quotes.IsQuote(s[0]) then None else StringEnd(s, 1, s[0])
  }

  /** The length of a key with its colon and the blanks around it. */
  function KeyLen(s: string): (n: Option<nat>)
    ensures n.Some? ==> 0 < n.value <= |s|
  {
    var e := StringLen(s);
    if e.None? then None
    else
      var colon := e.value + SkipBlanks(s[e.value..]);
      if colon == |s| || s[colon] != ':' then None
      else Some(colon + 1 + SkipBlanks(s[colon + 1..]))
  }

  function ScalarLen(s: string): (n: nat)
    ensures n <= |s|
  {
    if s != "" && !IsStop(s[0]) then 1 + ScalarLen(s[1..]) else 0
  }

  // ---- The grammar as a reader of suffixes ----

  /** The literal at the start of `s` and what follows it. */
  function Parse(s: string): (r: Option<(Tree, string)>)
    ensures r.Some? ==> |r.value.1| < |s|
    decreases |s|, 0
  {
    if s == "" then None
    else if Quotes.IsQuote(s[0]) then
      var n := StringLen(s);
      if n.None? then None else Some((Quoted(s[..n.value]), s[n.value..]))
    else if IsOpen(s[0]) then
      var items := ParseItems(s[1..], s[0]);
      if items.None? then None else Some((Container(s[0], items.value.0), items.value.1))
    else
      var n := ScalarLen(s);
      if n == 0 then None else Some((Scalar(s[..n]), s[n..]))
  }

  /** What comes next inside a container opened by `open`: its closing bracket, or an entry
      and the comma (`more`) or closing bracket after it; `rest` is what follows. */
  datatype Step =
    | Fail
    | Closed(blank: string, rest: string)
    | Read(lead: string, key: string, value: Tree, trail: string, more: bool, rest: string)

  function KeyOf(entry: string, open: char): (n: Option<nat>)
    ensures n.Some? ==> n.value <= |entry|
  {
    if open == '{' then KeyLen(entry) else Some(0)
  }

  function Ended(lead: string, key: string, value: Tree, after: string, open: char): (r: Step)
    ensures !r.Fail? ==> |r.rest| < |after|
  {
    var trail := SkipBlanks(after);
    if trail < |after| && (after[trail] == ',' || after[trail] == BracketFor(open))
    then Read(lead, key, value, after[..trail], after[trail] == ',', after[trail + 1..])
    else Fail
  }

  function Entry(lead: string, entry: string, open: char): (r: Step)
    ensures !r.Fail? ==> |r.rest| < |entry|
    decreases |entry|, 1
  {
    var key := KeyOf(entry, open);
    if key.None? then Fail
    else
      var value := Parse(entry[key.value..]);
      if value.None? then Fail
      else Ended(lead, entry[..key.value], value.value.0, value.value.1, open)
  }

  function Next(s: string, open: char): (r: Step)
    ensures !r.Fail? ==> |r.rest| < |s|
    decreases |s|, 2
  {
    var blanks := SkipBlanks(s);
    var entry := s[blanks..];
    if entry != "" && entry[0] == BracketFor(open) then Closed(s[..blanks], entry[1..])
    else Entry(s[..blanks], entry, open)
  }

  /** The entries of a container opened by `open`, and what follows its closing bracket. */
  function ParseItems(s: string, open: char): (r: Option<(Items, string)>)
    ensures r.Some? ==> |r.value.1| < |s|
    decreases |s|, 3
  {
    match Next(s, open)
    case Fail => None
    case Closed(blank, rest) => Some((End(blank), rest))
    case Read(lead, key, value, trail, more, rest) =>
      if !more then Some((Last(lead, key, value, trail), rest))
      else
        var items := ParseItems(rest, open);
        if items.None? then None
        else Some((More(lead, key, value, trail, items.value.0), items.value.1))
  }

  // ---- Which trees are literals ----

  ghost predicate Blank(s: string) { forall k | 0 <= k < |s| :: IsSpace(s[k]) }

  /** A scalar runs to a stop character or the end. */
  ghost predicate Follows(t: Tree, rest: string) {
    t.Scalar? ==> rest == "" || IsStop(rest[0])
  }

  ghost predicate WellFormed(t: Tree) {
    match t
    case Quoted(text) => StringLen(text) == Some(|text|)
    case Scalar(text) => text != "" && ScalarLen(text) == |text| && !Quotes.IsQuote(text[0]) && !IsOpen(text[0])
    case Container(open, items) => IsOpen(open) && WellFormedItems(items, open)
  }

  /** How an entry reads, apart from its value being a literal itself. */
  ghost predicate EntryReads(lead: string, key: string, value: Tree, trail: string, open: char) {
    && Blank(lead) && Blank(trail)
    && (if open == '{' then KeyLen(key) == Some(|key|) else key == "")
    && Print(value) != "" && !IsSpace(Print(value)[0])
    && (trail != "" ==> Follows(value, trail))
  }

  ghost predicate WellFormedItems(items: Items, open: char) {
    match items
    case End(blank) => Blank(blank)
    case Last(lead, key, value, trail) => EntryReads(lead, key, value, trail, open) && WellFormed(value)
    case More(lead, key, value, trail, rest) =>
      EntryReads(lead, key, value, trail, open) && WellFormed(value) && WellFormedItems(rest, open)
  }

  // ---- Tokens read alike in any context ----

  lemma {:induction false} SkipBlanksStops(s: string)
    ensures var n := SkipBlanks(s);
            Blank(s[..n]) && (n < |s| ==> !IsSpace(s[n]))
  {
    if s != "" && IsSpace(s[0]) {
      SkipBlanksStops(s[1..]);
      var n := SkipBlanks(s[1..]);
      assert s[..n + 1] == [s[0]] + s[1..][..n];
      assert n < |s[1..]| ==> s[n + 1] == s[1..][n];
    }
  }

  lemma {:induction false} ScalarLenStops(s: string)
    ensures var n := ScalarLen(s);
            (forall k | 0 <= k < n :: !IsStop(s[k])) && (n < |s| ==> IsStop(s[n]))
  {
    if s != "" && !IsStop(s[0]) {
      ScalarLenStops(s[1..]);
      assert forall k | 0 < k < ScalarLen(s) :: s[k] == s[1..][k - 1];
    }
  }

  lemma {:induction false} SkipBlanksIs(blank: string, s: string)
    requires Blank(blank) && (s == "" || !IsSpace(s[0]))
    ensures SkipBlanks(blank + s) == |blank|
    decreases |blank|
  {
    if blank == "" {
      assert blank + s == s;
    } else {
      assert (blank + s)[1..] == blank[1..] + s;
      SkipBlanksIs(blank[1..], s);
    }
  }

  lemma {:induction false} StringEndLocal(a: string, b: string, p: nat, quote: char)
    requires StringEnd(a, p, quote).Some?
    ensures StringEnd(a + b, p, quote) == StringEnd(a, p, quote)
    decreases |a| - p
  {
    if p < |a| && a[p] == '\\' {
      StringEndLocal(a, b, p + 2, quote);
    } else if p < |a| && a[p] != quote {
      StringEndLocal(a, b, p + 1, quote);
    }
  }

  lemma {:induction false} StringEndPrefix(s: string, p: nat, quote: char)
    requires StringEnd(s, p, quote).Some?
    ensures var e := StringEnd(s, p, quote).value; StringEnd(s[..e], p, quote) == Some(e)
    decreases |s| - p
  {
    if s[p] == '\\' {
      StringEndPrefix(s, p + 2, quote);
    } else if s[p] != quote {
      StringEndPrefix(s, p + 1, quote);
    }
  }

  lemma StringLocal(a: string, b: string)
    requires StringLen(a).Some?
    ensures StringLen(a + b) == StringLen(a)
  {
    StringEndLocal(a, b, 1, a[0]);
  }

  lemma StringPrefix(s: string)
    requires StringLen(s).Some?
    ensures StringLen(s[..StringLen(s).value]) == StringLen(s)
  {
    StringEndPrefix(s, 1, s[0]);
  }

  /** A key read in two steps: its string and blanks, then its colon and blanks. */
  lemma KeyParts(str: string, gap: string, tail: string, s: string)
    requires StringLen(str) == Some(|str|) && Blank(gap) && Blank(tail) && (s == "" || !IsSpace(s[0]))
    ensures KeyLen(str + gap + ":" + tail + s) == Some(|str| + |gap| + 1 + |tail|)
  {
    var whole := str + gap + ":" + tail + s;
    var afterColon := tail + s;
    var afterKey := gap + (":" + afterColon);
    KeyText(str, gap, tail, s);
    StringLocal(str, afterKey);
    assert (str + afterKey)[|str|..] == afterKey;
    SkipBlanksIs(gap, ":" + afterColon);
    assert whole[|str| + |gap|] == ':';
    assert whole[|str| + |gap| + 1..] == afterColon;
    SkipBlanksIs(tail, s);
  }

  lemma KeyText(str: string, gap: string, tail: string, s: string)
    ensures str + gap + ":" + tail + s == str + (gap + (":" + (tail + s)))
  {}

  lemma KeySplit(s: string) returns (str: string, gap: string, tail: string)
    requires KeyLen(s).Some?
    ensures StringLen(str) == Some(|str|) && Blank(gap) && Blank(tail)
    ensures s[..KeyLen(s).value] == str + gap + ":" + tail
    ensures KeyLen(s).value < |s| ==> !IsSpace(s[KeyLen(s).value])
  {
    var e := StringLen(s).value;
    var afterKey := s[e..];
    var g := SkipBlanks(afterKey);
    var afterColon := s[e + g + 1..];
    var t := SkipBlanks(afterColon);
    str, gap, tail := s[..e], afterKey[..g], afterColon[..t];
    StringPrefix(s);
    SkipBlanksStops(afterKey);
    SkipBlanksStops(afterColon);
    CutInFour(s, e, g, t);
  }

  lemma CutInFour(s: string, e: nat, g: nat, t: nat)
    requires e + g + 1 + t <= |s|
    ensures s[..e + g + 1 + t] == s[..e] + s[e..][..g] + [s[e + g]] + s[e + g + 1..][..t]
    ensures e + g + 1 + t < |s| ==> s[e + g + 1 + t] == s[e + g + 1..][t]
  {}

  lemma KeyLocal(key: string, s: string)
    requires KeyLen(key) == Some(|key|) && (s == "" || !IsSpace(s[0]))
    ensures KeyLen(key + s) == Some(|key|)
  {
    var str, gap, tail := KeySplit(key);
    assert key[..|key|] == key;
    KeyParts(str, gap, tail, s);
  }

  lemma KeyPrefix(s: string)
    requires KeyLen(s).Some?
    ensures var n := KeyLen(s).value; KeyLen(s[..n]) == Some(n) && (n < |s| ==> !IsSpace(s[n]))
  {
    var str, gap, tail := KeySplit(s);
    KeyParts(str, gap, tail, "");
    assert str + gap + ":" + tail + "" == str + gap + ":" + tail;
  }

  lemma {:induction false} ScalarLenIs(text: string, rest: string)
    requires forall k | 0 <= k < |text| :: !IsStop(text[k])
    requires rest == "" || IsStop(rest[0])
    ensures ScalarLen(text + rest) == |text|
    decreases |text|
  {
    if text == "" {
      assert text + rest == rest;
    } else {
      assert (text + rest)[1..] == text[1..] + rest;
      ScalarLenIs(text[1..], rest);
    }
  }

  // ---- The reader is the inverse of the printer ----

  /** Whatever is read is a literal, and printing it gives back the text read. */
  lemma {:induction false} ParseSound(s: string)
    requires Parse(s).Some?
    ensures var (t, rest) := Parse(s).value; s == Print(t) + rest && WellFormed(t) && Follows(t, rest)
    decreases |s|, 0
  {
    if Quotes.IsQuote(s[0]) {
      StringPrefix(s);
    } else if IsOpen(s[0]) {
      ItemsSound(s[1..], s[0]);
      var (items, rest) := ParseItems(s[1..], s[0]).value;
      assert s == [s[0]] + s[1..];
      ContainerText([s[0]], PrintItems(items), [BracketFor(s[0])], rest);
    } else {
      var n := ScalarLen(s);
      ScalarLenStops(s);
      ScalarLenIs(s[..n], "");
      assert s[..n] + "" == s[..n];
    }
  }

  lemma ContainerText(open: string, items: string, close: string, rest: string)
    ensures open + (items + close + rest) == open + items + close + rest
  {}

  lemma {:induction false} ItemsSound(s: string, open: char)
    requires IsOpen(open) && ParseItems(s, open).Some?
    ensures var (items, rest) := ParseItems(s, open).value;
            s == PrintItems(items) + [BracketFor(open)] + rest && WellFormedItems(items, open)
    decreases |s|, 3
  {
    NextSound(s, open);
    var step := Next(s, open);
    match step {
      case Closed(blank, rest) =>
      case Read(lead, key, value, trail, more, rest) =>
        EntryText(lead, key, Print(value), trail, [MarkOf(open, more)], rest);
        if more {
          ItemsSound(rest, open);
          var (items, after) := ParseItems(rest, open).value;
          MoreText(lead + key + Print(value) + trail, PrintItems(items), [BracketFor(open)], after);
        }
    }
  }

  function MarkOf(open: char, more: bool): char { if more then ',' else BracketFor(open) }

  function StepText(step: Step, open: char): string
    requires !step.Fail?
  {
    match step
    case Closed(blank, rest) => blank + [BracketFor(open)] + rest
    case Read(lead, key, value, trail, more, rest) =>
      lead + (key + (Print(value) + (trail + ([MarkOf(open, more)] + rest))))
  }

  ghost predicate StepReads(step: Step, open: char) {
    match step
    case Fail => false
    case Closed(blank, _) => Blank(blank)
    case Read(lead, key, value, trail, _, _) => EntryReads(lead, key, value, trail, open) && WellFormed(value)
  }

  lemma {:induction false} NextSound(s: string, open: char)
    requires IsOpen(open) && !Next(s, open).Fail?
    ensures s == StepText(Next(s, open), open) && StepReads(Next(s, open), open)
    decreases |s|, 2
  {
    var blanks := SkipBlanks(s);
    var entry := s[blanks..];
    SkipBlanksStops(s);
    assert s == s[..blanks] + entry;
    if entry != "" && entry[0] == BracketFor(open) {
      ClosedText(s[..blanks], entry, BracketFor(open));
    } else {
      EntrySound(s[..blanks], entry, open);
    }
  }

  lemma {:induction false} EntrySound(lead: string, entry: string, open: char)
    requires IsOpen(open) && Blank(lead) && (entry != "" ==> !IsSpace(entry[0])) && !Entry(lead, entry, open).Fail?
    ensures lead + entry == StepText(Entry(lead, entry, open), open) && StepReads(Entry(lead, entry, open), open)
    decreases |entry|, 1, 1
  {
    var n := KeyOf(entry, open).value;
    var (v, after) := Parse(entry[n..]).value;
    EntryParts(entry, open, n, v, after);
    EndedSound(lead, entry[..n], v, after, open);
  }

  /** An entry is its key, its value and the rest. */
  lemma {:induction false} EntryParts(entry: string, open: char, n: nat, v: Tree, after: string)
    requires IsOpen(open) && (entry != "" ==> !IsSpace(entry[0]))
    requires KeyOf(entry, open) == Some(n) && Parse(entry[n..]) == Some((v, after))
    ensures entry == entry[..n] + (Print(v) + after) && WellFormed(v) && Follows(v, after)
    ensures if open == '{' then KeyLen(entry[..n]) == Some(n) else n == 0
    ensures Print(v) != "" && !IsSpace(Print(v)[0])
    decreases |entry|, 1, 0
  {
    ParseSound(entry[n..]);
    if open == '{' { KeyPrefix(entry); }
    PrintStarts(v);
    assert entry[n] == entry[n..][0] == Print(v)[0];
    assert entry == entry[..n] + entry[n..];
  }

  lemma EndedSound(lead: string, key: string, v: Tree, after: string, open: char)
    requires !Ended(lead, key, v, after, open).Fail? && Follows(v, after)
    ensures var step := Ended(lead, key, v, after, open);
            && lead + (key + (Print(v) + after)) == StepText(step, open)
            && (step.trail != "" ==> Follows(v, step.trail)) && Blank(step.trail)
  {
    var k := SkipBlanks(after);
    SkipBlanksStops(after);
    assert after == after[..k] + ([after[k]] + after[k + 1..]);
  }

  lemma MoreText(front: string, items: string, close: string, rest: string)
    ensures front + "," + (items + close + rest) == front + "," + items + close + rest
  {}

  lemma ClosedText(blank: string, entry: string, close: char)
    requires entry != "" && entry[0] == close
    ensures blank + entry == blank + [close] + entry[1..]
  {}

  lemma EntryText(lead: string, key: string, value: string, trail: string, mark: string, rest: string)
    ensures lead + (key + (value + (trail + (mark + rest)))) == lead + key + value + trail + mark + rest
  {}

  /** The first character of a literal is no blank, no closing bracket, and tells its kind. */
  lemma PrintStarts(t: Tree)
    requires WellFormed(t)
    ensures Print(t) != ""
    ensures match t case Quoted(_) => Quotes.IsQuote(Print(t)[0])
                    case Scalar(_) => !Quotes.IsQuote(Print(t)[0]) && !IsOpen(Print(t)[0]) && !IsStop(Print(t)[0])
                    case Container(open, _) => Print(t)[0] == open
  {}

  /** Every literal is read back from its print, in any text that may follow it. */
  lemma {:induction false} ParseComplete(t: Tree, rest: string)
    requires WellFormed(t) && Follows(t, rest)
    ensures Parse(Print(t) + rest) == Some((t, rest))
    decreases t
  {
    var s := Print(t) + rest;
    PrintStarts(t);
    match t {
      case Quoted(text) =>
        StringLocal(text, rest);
      case Scalar(text) =>
        ScalarLenStops(text);
        ScalarLenIs(text, rest);
      case Container(open, items) =>
        assert s[1..] == PrintItems(items) + [BracketFor(open)] + rest;
        ItemsComplete(items, open, rest);
    }
  }

  lemma {:induction false} ItemsComplete(items: Items, open: char, rest: string)
    requires IsOpen(open) && WellFormedItems(items, open)
    ensures ParseItems(PrintItems(items) + [BracketFor(open)] + rest, open) == Some((items, rest))
    decreases items, 1
  {
    match items {
      case End(blank) =>
        NextClosed(blank, open, rest);
      case Last(lead, key, value, trail) =>
        EntryText(lead, key, Print(value), trail, [BracketFor(open)], rest);
        ParseComplete(value, trail + ([BracketFor(open)] + rest));
        NextRead(lead, key, value, trail, open, false, rest);
      case More(lead, key, value, trail, more) =>
        var tail := PrintItems(more) + [BracketFor(open)] + rest;
        EntryText(lead, key, Print(value), trail, ",", tail);
        MoreText(lead + key + Print(value) + trail, PrintItems(more), [BracketFor(open)], rest);
        ParseComplete(value, trail + ("," + tail));
        NextRead(lead, key, value, trail, open, true, tail);
        ItemsComplete(more, open, rest);
    }
  }

  lemma NextClosed(blank: string, open: char, rest: string)
    requires IsOpen(open) && Blank(blank)
    ensures Next(blank + [BracketFor(open)] + rest, open) == Closed(blank, rest)
  {
    var s, entry := blank + [BracketFor(open)] + rest, [BracketFor(open)] + rest;
    assert s == blank + entry;
    SkipBlanksIs(blank, entry);
    assert s[|blank|..] == entry && s[..|blank|] == blank;
  }

  lemma NextRead(lead: string, key: string, value: Tree, trail: string, open: char, more: bool, rest: string)
    requires IsOpen(open) && EntryReads(lead, key, value, trail, open) && WellFormed(value)
    requires Parse(Print(value) + (trail + ([MarkOf(open, more)] + rest)))
             == Some((value, trail + ([MarkOf(open, more)] + rest)))
    ensures Next(StepText(Read(lead, key, value, trail, more, rest), open), open)
            == Read(lead, key, value, trail, more, rest)
  {
    var after := trail + ([MarkOf(open, more)] + rest);
    var body := Print(value) + after;
    PrintStarts(value);
    assert body[0] == Print(value)[0];
    KeyStarts(key, body, open);
    SkipBlanksIs(lead, key + body);
    assert (lead + (key + body))[|lead|..] == key + body && (lead + (key + body))[..|lead|] == lead;
    assert (key + body)[|key|..] == body && (key + body)[..|key|] == key;
    EndedRead(lead, key, value, trail, open, more, rest);
  }

  lemma EndedRead(lead: string, key: string, value: Tree, trail: string, open: char, more: bool, rest: string)
    requires IsOpen(open) && Blank(trail)
    ensures Ended(lead, key, value, trail + ([MarkOf(open, more)] + rest), open)
            == Read(lead, key, value, trail, more, rest)
  {
    var after := trail + ([MarkOf(open, more)] + rest);
    SkipBlanksIs(trail, [MarkOf(open, more)] + rest);
    assert after[..|trail|] == trail && after[|trail| + 1..] == rest;
  }

  lemma KeyStarts(key: string, body: string, open: char)
    requires body != "" && !IsSpace(body[0]) && (open != '{' ==> body[0] != BracketFor(open))
    requires if open == '{' then KeyLen(key) == Some(|key|) else key == ""
    ensures !IsSpace((key + body)[0]) && (key + body)[0] != BracketFor(open)
    ensures KeyOf(key + body, open) == Some(|key|)
  {
    if open == '{' {
      KeyLocal(key, body);
    } else {
      assert key + body == body;
    }
  }

  // ---- Masking ----

  lemma {:induction false} PlainStringEnd(s: string, p: nat, quote: char)
    requires 1 <= p < |s| && s[|s| - 1] == quote && Quotes.IsQuote(quote)
    requires forall k | p <= k < |s| - 1 :: s[k] != quote && s[k] != '\\'
    ensures StringEnd(s, p, quote) == Some(|s|)
    decreases |s| - p
  {
    if p < |s| - 1 { PlainStringEnd(s, p + 1, quote); }
  }

  predicate IsMaskChar(c: char) { c == '*' || 'A' <= c <= 'Z' }

  lemma MaskChars()
    ensures forall k | 0 <= k < |MASK| :: IsMaskChar(MASK[k])
  {}

  lemma ScalarMask()
    ensures WellFormed(Scalar(MASK)) && !IsSpace(MASK[0])
  {
    MaskChars();
    PlainScalar(MASK);
  }

  lemma PlainScalar(text: string)
    requires text != "" && forall k | 0 <= k < |text| :: IsMaskChar(text[k])
    ensures WellFormed(Scalar(text)) && !IsSpace(text[0])
  {
    ScalarLenIs(text, "");
    assert text + "" == text;
  }

  lemma QuotedMask(q: char)
    requires Quotes.IsQuote(q)
    ensures WellFormed(Quoted([q] + MASK + [q]))
  {
    MaskChars();
    PlainStringEnd([q] + MASK + [q], 1, q);
  }

  lemma {:induction false} MaskWellFormed(t: Tree)
    requires WellFormed(t)
    ensures WellFormed(Mask(t)) && Mask(Mask(t)) == Mask(t)
    decreases t
  {
    match t {
      case Quoted(text) => QuotedMask(text[0]);
      case Scalar(_) => ScalarMask();
      case Container(open, items) => MaskItemsWellFormed(items, open);
    }
  }

  lemma {:induction false} MaskItemsWellFormed(items: Items, open: char)
    requires WellFormedItems(items, open)
    ensures WellFormedItems(MaskItems(items), open) && MaskItems(MaskItems(items)) == MaskItems(items)
    decreases items
  {
    match items {
      case End(_) =>
      case Last(lead, key, value, trail) => MaskStarts(value); MaskWellFormed(value);
      case More(lead, key, value, trail, rest) =>
        MaskStarts(value);
        MaskWellFormed(value);
        MaskItemsWellFormed(rest, open);
    }
  }

  /** Masking keeps how a literal starts, so it is read as before in its place. */
  lemma MaskStarts(value: Tree)
    requires WellFormed(value) && !IsSpace(Print(value)[0])
    ensures Print(Mask(value)) != "" && !IsSpace(Print(Mask(value))[0]) && (Mask(value).Scalar? <==> value.Scalar?)
  {
    if value.Scalar? { ScalarMask(); }
  }

  /** Masking what has been masked changes nothing: the printed result is read back whole, as
      a literal that masks to itself, in whatever text follows. */
  lemma MaskedReadsBack(s: string)
    requires Parse(s).Some?
    ensures var (t, rest) := Parse(s).value;
            Parse(Print(Mask(t)) + rest) == Some((Mask(t), rest)) && Mask(Mask(t)) == Mask(t)
  {
    ParseSound(s);
    var (t, rest) := Parse(s).value;
    MaskWellFormed(t);
    ParseComplete(Mask(t), rest);
  }

  lemma {:induction false} MaskMasks(t: Tree)
    requires WellFormed(t)
    ensures AllMasked(Mask(t)) && SameShape(t, Mask(t))
  {
    if t.Container? { MaskMasksItems(t.items, t.open); }
  }

  lemma {:induction false} MaskMasksItems(items: Items, open: char)
    requires WellFormedItems(items, open)
    ensures AllMaskedItems(MaskItems(items)) && SameItems(items, MaskItems(items))
  {
    match items {
      case End(_) =>
      case Last(_, _, value, _) => MaskMasks(value);
      case More(_, _, value, _, rest) =>
        MaskMasks(value);
        MaskMasksItems(rest, open);
    }
  }

  /** The output `out` for the literal `t`: read back in its place, before `rest`, it is a literal of
      the same shape with every leaf masked. */
  ghost predicate IsMasked(t: Tree, out: string, rest: string) {
    var back := Parse(out + rest);
    back.Some? && back.value.1 == rest && AllMasked(back.value.0) && SameShape(t, back.value.0)
  }

  lemma MaskedIsMasked(s: string)
    requires Parse(s).Some?
    ensures var (t, rest) := Parse(s).value; IsMasked(t, Print(Mask(t)), rest)
  {
    ParseSound(s);
    MaskMasks(Parse(s).value.0);
    MaskedReadsBack(s);
  }

  // ---- The code ----

  method SkipWs(s: string, i: nat) returns (j: nat)
    requires i <= |s|
    ensures j == i + SkipBlanks(s[i..])
  {
    j := i;
    while j < |s| && IsSpace(s[j])
      invariant i <= j <= |s|
      invariant j + SkipBlanks(s[j..]) == i + SkipBlanks(s[i..])
    {
      assert s[j..][1..] == s[j + 1..];
      j := j + 1;
    }
  }

  /** `_end_of_string`: `None` where it raises. */
  method EndOfString(s: string, start: nat) returns (j: Option<nat>)
    requires start < |s| && Quotes.IsQuote(s[start])
    ensures j == (match StringLen(s[start..]) case None => None case Some(n) => Some(start + n))
  {
    var quote, i := s[start], start + 1;
    ghost var t := s[start..];
    while i < |s|
      invariant start < i && StringEnd(t, 1, quote) == StringEnd(t, i - start, quote)
      decreases |s| - i
    {
      assert t[i - start] == s[i];
      if s[i] == '\\' {
        i := i + 2;
      } else if s[i] == quote {
        return Some(i + 1);
      } else {
        i := i + 1;
      }
    }
    j := None;
  }

  /** The masked text and the index after the entries `r` of a container, after the text
      `front` already written. */
  function Finish(s: string, front: string, open: char, r: Option<(Items, string)>): Option<(string, nat)>
    requires r.Some? ==> |r.value.1| <= |s|
  {
    match r
    case None => None
    case Some((items, rest)) => Some((front + PrintItems(MaskItems(items)) + [BracketFor(open)], |s| - |rest|))
  }

  /** `_masked_literal`: the print of the masked syntax tree of the literal at `s[i]` and the
      index past it, or `None`, where it raises, if no literal starts there. */
  method MaskedLiteral(s: string, i: nat) returns (r: Option<(string, nat)>, ghost t: Tree)
    requires i <= |s|
    ensures r.None? <==> Parse(s[i..]).None?
    ensures r.Some? ==> i < r.value.1 <= |s| && Parse(s[i..]) == Some((t, s[r.value.1..]))
    ensures r.Some? ==> r.value.0 == Print(Mask(t)) && IsMasked(t, r.value.0, s[r.value.1..])
    decreases |s| - i, 0, 0
  {
    r, t := None, Scalar("");
    if i < |s| {
      var ch := s[i];
      if Quotes.IsQuote(ch) {
        var j := EndOfString(s, i);
        if j.Some? {
          SliceTwice(s, i, j.value);
          r, t := Some(([ch] + MASK + [ch], j.value)), Quoted(s[i..j.value]);
        }
      } else if IsOpen(ch) {
        r, t := MaskedContainer(s, i);
      } else {
        var j := EndOfScalar(s, i);
        SliceTwice(s, i, j);
        if j > i { r, t := Some((MASK, j)), Scalar(s[i..j]); }
      }
    }
    if r.Some? { MaskedIsMasked(s[i..]); }
  }

  method MaskedContainer(s: string, i: nat) returns (r: Option<(string, nat)>, ghost t: Tree)
    requires i < |s| && IsOpen(s[i])
    ensures r.None? <==> Parse(s[i..]).None?
    ensures r.Some? ==> i < r.value.1 <= |s| && Parse(s[i..]) == Some((t, s[r.value.1..]))
    ensures r.Some? ==> r.value.0 == Print(Mask(t))
    decreases |s| - i, -1
  {
    t := Scalar("");
    ghost var items;
    r, items := MaskedItems(s, i + 1, s[i]);
    assert Look(s[i]);
    SliceTwice(s, i, i + 1);
    if r.Some? {
      t := Parse(s[i..]).value.0;
      ParseSuffix(s, i);
    }
  }

  method EndOfScalar(s: string, i: nat) returns (j: nat)
    requires i <= |s|
    ensures j == i + ScalarLen(s[i..])
  {
    j := i;
    while j < |s| && !IsStop(s[j])
      invariant i <= j <= |s|
      invariant j + ScalarLen(s[j..]) == i + ScalarLen(s[i..])
    {
      assert s[j..][1..] == s[j + 1..];
      j := j + 1;
    }
  }

  /** The container branch of `_masked_literal`, from the character after the bracket. */
  method MaskedItems(s: string, start: nat, open: char)
    returns (r: Option<(string, nat)>, ghost items: Option<(Items, string)>)
    requires start <= |s| && IsOpen(open)
    ensures ItemsAt(s, start, open, items) && r == Finish(s, [open], open, items)
    ensures r.Some? ==> start < r.value.1 <= |s|
    decreases |s| - start, 5
  {
    var parts, i := [open], start;
    items := ItemsHere(s, start, open);
    ghost var rest := items;
    while true
      invariant start <= i <= |s| && ItemsAt(s, start, open, items)
      invariant ItemsAt(s, i, open, rest) && Finish(s, parts, open, rest) == Finish(s, [open], open, items)
      decreases |s| - i
    {
      var text, j, again;
      text, j, again, rest := LoopStep(s, parts, i, open, rest);
      if text.None? { return None, items; }
      parts := parts + text.value;
      if !again { return Some((parts, j)), items; }
      i := j;
    }
  }

  /** One round of the loop. */
  method LoopStep(s: string, ghost parts: string, i: nat, open: char, ghost items: Option<(Items, string)>)
    returns (text: Option<string>, j: nat, again: bool, ghost rest: Option<(Items, string)>)
    requires i <= |s| && IsOpen(open) && ItemsAt(s, i, open, items)
    ensures Stepped(s, parts, i, open, items, text, j, again, rest)
    decreases |s| - i, 4
  {
    ghost var step;
    text, j, again, step := MaskedStep(s, i, open);
    rest := RoundIs(s, parts, i, open, items, step, text, j, again);
  }

  lemma RoundIs(s: string, parts: string, i: nat, open: char, items: Option<(Items, string)>, step: Step,
                text: Option<string>, j: nat, again: bool)
    returns (rest: Option<(Items, string)>)
    requires i <= |s| && ItemsAt(s, i, open, items)
    requires StepAt(s, i, open, step) && (text.None? <==> step.Fail?)
    requires text.Some? ==> text.value == StepOut(step, open) && again == Again(step)
    requires text.Some? ==> i < j <= |s| && step.rest == s[j..]
    ensures Stepped(s, parts, i, open, items, text, j, again, rest)
  {
    rest := ItemsStep(s, parts, i, open, items, step);
    RoundDone(s, parts, i, open, items, step, text, j, again, rest);
  }

  /** What one round leaves: no entries at all, the whole container, or the rest of the entries. */
  ghost predicate Stepped(s: string, parts: string, i: nat, open: char, items: Option<(Items, string)>,
                          text: Option<string>, j: nat, again: bool, rest: Option<(Items, string)>)
    requires i <= |s| && (items.Some? ==> |items.value.1| <= |s|)
  {
    if text.None? then items.None?
    else
      && i < j <= |s|
      && (if again
          then ItemsAt(s, j, open, rest) && Finish(s, parts + text.value, open, rest) == Finish(s, parts, open, items)
          else Finish(s, parts, open, items) == Some((parts + text.value, j)))
  }

  lemma RoundDone(s: string, parts: string, i: nat, open: char, items: Option<(Items, string)>, step: Step,
                  text: Option<string>, j: nat, again: bool, rest: Option<(Items, string)>)
    requires i <= |s| && (items.Some? ==> |items.value.1| <= |s|)
    requires step.Fail? ==> items.None?
    requires text.None? <==> step.Fail?
    requires text.Some? ==> text.value == StepOut(step, open) && i < j <= |s| && j == |s| - |step.rest|
    requires text.Some? && !again ==> Finish(s, parts, open, items) == Some((parts + StepOut(step, open), j))
    requires text.Some? && again ==>
               ItemsAt(s, j, open, rest)
               && Finish(s, parts + StepOut(step, open), open, rest) == Finish(s, parts, open, items)
    ensures Stepped(s, parts, i, open, items, text, j, again, rest)
  {}

  lemma ItemsHere(s: string, i: nat, open: char) returns (items: Option<(Items, string)>)
    requires i <= |s|
    ensures ItemsAt(s, i, open, items)
  {
    items := ParseItems(s[i..], open);
  }

  /** Names a bracket to look at: `ItemsAt` unfolds for these only. */
  ghost predicate Look(c: char) { true }

  /** The entries read from `s[i..]` in a container opened by `open` are `items`. */
  ghost predicate ItemsAt(s: string, i: nat, open: char, items: Option<(Items, string)>)
    requires i <= |s|
  {
    (items.Some? ==> |items.value.1| <= |s|)
    && forall c {:trigger Look(c)} | Look(c) && c == open :: items == ParseItems(s[i..], c)
  }

  /** The step at `s[i..]` in a container opened by `open` is `step`. */
  ghost predicate StepAt(s: string, i: nat, open: char, step: Step)
    requires i <= |s|
  {
    forall c {:trigger Look(c)} | Look(c) && c == open :: step == Next(s[i..], c)
  }

  /** One step of the loop, seen from what is left to read. */
  lemma ItemsStep(s: string, parts: string, i: nat, open: char, items: Option<(Items, string)>, step: Step)
    returns (rest: Option<(Items, string)>)
    requires i <= |s| && ItemsAt(s, i, open, items) && StepAt(s, i, open, step)
    requires !step.Fail? ==> |step.rest| <= |s| && step.rest == s[|s| - |step.rest|..]
    ensures step.Fail? ==> items.None?
    ensures !step.Fail? && !Again(step) ==>
              Finish(s, parts, open, items) == Some((parts + StepOut(step, open), |s| - |step.rest|))
    ensures !step.Fail? && Again(step) ==>
              && ItemsAt(s, |s| - |step.rest|, open, rest)
              && Finish(s, parts + StepOut(step, open), open, rest) == Finish(s, parts, open, items)
  {
    assert Look(open);
    rest := None;
    if !step.Fail? {
      FinishStep(s, parts, open, s[i..]);
      if Again(step) { rest := ParseItems(step.rest, open); }
    }
  }

  /** The text one step adds to the output. */
  function StepOut(step: Step, open: char): string
    requires !step.Fail?
  {
    match step
    case Closed(blank, _) => blank + [BracketFor(open)]
    case Read(lead, key, value, trail, more, _) => lead + key + Print(Mask(value)) + trail + [MarkOf(open, more)]
  }

  predicate Again(step: Step) { step.Read? && step.more }

  lemma FinishStep(s: string, front: string, open: char, at: string)
    requires |at| <= |s| && !Next(at, open).Fail?
    ensures var step := Next(at, open);
            Finish(s, front, open, ParseItems(at, open))
            == if Again(step) then Finish(s, front + StepOut(step, open), open, ParseItems(step.rest, open))
               else Some((front + StepOut(step, open), |s| - |step.rest|))
  {
    var step := Next(at, open);
    match step {
      case Closed(blank, _) =>
        Associative(front, blank, [BracketFor(open)]);
      case Read(lead, key, value, trail, more, rest) =>
        var entry := lead + key + Print(Mask(value)) + trail;
        if more {
          MoreFinish(s, front, open, entry, step, ParseItems(rest, open));
        } else {
          Associative(front, entry, [BracketFor(open)]);
        }
    }
  }

  lemma MoreFinish(s: string, front: string, open: char, entry: string, step: Step, items: Option<(Items, string)>)
    requires step.Read? && entry == step.lead + step.key + Print(Mask(step.value)) + step.trail
    requires items.Some? ==> |items.value.1| <= |s|
    ensures Finish(s, front + (entry + [',']), open, items)
            == Finish(s, front, open, if items.None? then None
                                      else Some((More(step.lead, step.key, step.value, step.trail, items.value.0),
                                                 items.value.1)))
  {
    if items.Some? { OneEntry(front, entry, PrintItems(MaskItems(items.value.0))); }
  }

  lemma OneEntry(front: string, entry: string, rest: string)
    ensures front + (entry + "," + rest) == front + (entry + [',']) + rest
  {}

  lemma NextIs(t: string, lead: string, entry: string, open: char)
    requires lead == t[..SkipBlanks(t)] && entry == t[SkipBlanks(t)..]
    ensures Next(t, open) == if entry != "" && entry[0] == BracketFor(open) then Closed(lead, entry[1..])
                             else Entry(lead, entry, open)
  {}

  lemma EntryIs(lead: string, entry: string, open: char, n: nat, v: Tree, after: string)
    requires KeyOf(entry, open) == Some(n) && Parse(entry[n..]) == Some((v, after))
    ensures Entry(lead, entry, open) == Ended(lead, entry[..n], v, after, open)
  {}

  lemma NoEntry(lead: string, entry: string, open: char)
    requires KeyOf(entry, open).None? || Parse(entry[KeyOf(entry, open).value..]).None?
    ensures Entry(lead, entry, open).Fail?
  {}

  /** One round of the loop: the text it adds, where it ends and whether entries follow. */
  method MaskedStep(s: string, i: nat, open: char)
    returns (text: Option<string>, j: nat, again: bool, ghost step: Step)
    requires i <= |s| && IsOpen(open)
    ensures StepAt(s, i, open, step) && (text.None? <==> step.Fail?)
    ensures text.Some? ==> text.value == StepOut(step, open) && again == Again(step)
    ensures text.Some? ==> i < j <= |s| && step.rest == s[j..]
    decreases |s| - i, 3
  {
    step := Next(s[i..], open);
    var at := SkipWs(s, i);
    SliceTwice(s, i, at);
    NextIs(s[i..], s[i..at], s[at..], open);
    if at < |s| && s[at] == BracketFor(open) {
      text, j, again := Some(s[i..at] + [BracketFor(open)]), at + 1, false;
    } else {
      text, j, again := MaskedEntry(s, i, at, open);
    }
  }

  method MaskedEntry(s: string, i: nat, at: nat, open: char) returns (text: Option<string>, j: nat, again: bool)
    requires i <= at <= |s| && IsOpen(open)
    ensures var step := Entry(s[i..at], s[at..], open);
            if text.None? then step.Fail?
            else && step.Read? && text.value == StepOut(step, open) && again == step.more
                 && at < j <= |s| && step.rest == s[j..]
    decreases |s| - i, 2
  {
    ghost var step := Entry(s[i..at], s[at..], open);
    text, j, again := None, at, false;
    var pair, k, m, v := MaskedPair(s, at, open, s[i..at]);
    if pair.Some? {
      var trail;
      trail, again, j := EndEntry(s, s[i..at], s[at..k], v, m, open);
      if trail.Some? {
        EntryOut(s[i..at], s[at..k], v, open, step, pair.value, trail.value);
        text := Some(s[i..at] + pair.value + trail.value);
      }
    }
  }

  lemma EntryOut(lead: string, key: string, v: Tree, open: char, step: Step, pair: string, trail: string)
    requires step.Read? && step.lead == lead && step.key == key && step.value == v
    requires pair == key + Print(Mask(v)) && trail == step.trail + [MarkOf(open, step.more)]
    ensures lead + pair + trail == StepOut(step, open)
  {
    Associative(lead, key, Print(Mask(v)));
    Associative(lead + key + Print(Mask(v)), step.trail, [MarkOf(open, step.more)]);
  }

  /** The value of an entry; what is to be read back of it shows in the whole. */
  method MaskedValue(s: string, k: nat) returns (r: Option<(string, nat)>, ghost t: Tree)
    requires k <= |s|
    ensures r.None? <==> Parse(s[k..]).None?
    ensures r.Some? ==>
              k < r.value.1 <= |s| && Parse(s[k..]) == Some((t, s[r.value.1..])) && r.value.0 == Print(Mask(t))
    decreases |s| - k, 0, 1
  {
    r, t := MaskedLiteral(s, k);
  }

  /** An entry's key, in a dict, and its masked value. */
  method MaskedPair(s: string, at: nat, open: char, ghost lead: string)
    returns (pair: Option<string>, k: nat, m: nat, ghost v: Tree)
    requires at <= |s| && IsOpen(open)
    ensures pair.None? ==> Entry(lead, s[at..], open).Fail?
    ensures pair.Some? ==> at <= k <= m <= |s| && at < m && pair.value == s[at..k] + Print(Mask(v))
    ensures pair.Some? ==> Entry(lead, s[at..], open) == Ended(lead, s[at..k], v, s[m..], open)
    decreases |s| - at, 1
  {
    m, v := at, Scalar("");
    k := at;
    if open == '{' {
      k := SkipKey(s, at);
      if k == at {
        NoEntry(lead, s[at..], open);
        return None, at, at, v;
      }
    }
    SliceTwice(s, at, k);
    var value;
    value, v := MaskedValue(s, k);
    if value.None? {
      NoEntry(lead, s[at..], open);
      return None, at, at, v;
    }
    m := value.value.1;
    EntryIs(lead, s[at..], open, k - at, v, s[m..]);
    pair := Some(s[at..k] + value.value.0);
  }

  lemma SliceTwice(s: string, at: nat, k: nat)
    requires at <= k <= |s|
    ensures s[at..][..k - at] == s[at..k] && s[at..][k - at..] == s[k..]
  {}

  lemma ParseSuffix(s: string, k: nat)
    requires k <= |s| && Parse(s[k..]).Some?
    ensures Parse(s[k..]).value.1 == s[|s| - |Parse(s[k..]).value.1|..]
  {
    ParseSound(s[k..]);
  }

  /** The blanks after an entry's value and the comma or bracket that follows them. */
  method EndEntry(s: string, ghost lead: string, ghost key: string, ghost v: Tree, m: nat, open: char)
    returns (trail: Option<string>, again: bool, j: nat)
    requires m <= |s|
    ensures var step := Ended(lead, key, v, s[m..], open);
            if trail.None? then step.Fail?
            else && step.Read? && trail.value == step.trail + [MarkOf(open, step.more)] && again == step.more
                 && m < j <= |s| && step.rest == s[j..]
  {
    var n := SkipWs(s, m);
    assert s[m..][..n - m] == s[m..n];
    if n < |s| && (s[n] == ',' || s[n] == BracketFor(open)) {
      assert s[m..][n - m] == s[n] && s[m..][n - m + 1..] == s[n + 1..];
      return Some(s[m..n] + [s[n]]), s[n] == ',', n + 1;
    }
    return None, false, m;
  }

  /** A key read in the text it stands in: the string up to `e`, blanks up to `c`. */
  lemma KeyLenAt(s: string, j: nat, e: nat, c: nat)
    requires j <= e <= |s| && StringLen(s[j..]) == Some(e - j) && c == e + SkipBlanks(s[e..])
    ensures KeyLen(s[j..]) == if c == |s| || s[c] != ':' then None else Some(c + 1 + SkipBlanks(s[c + 1..]) - j)
  {
    var t := s[j..];
    assert t[e - j..] == s[e..];
    if c < |s| {
      assert t[c - j] == s[c];
      assert t[c - j + 1..] == s[c + 1..];
    }
  }

  /** A key, its colon and the blanks around it; `j` itself where the code raises. */
  method SkipKey(s: string, j: nat) returns (k: nat)
    requires j <= |s|
    ensures k == (match KeyLen(s[j..]) case None => j case Some(n) => j + n)
  {
    k := j;
    if j == |s| || !Quotes.IsQuote(s[j]) { return; }
    var e := EndOfString(s, j);
    if e.None? { return; }
    var c := SkipWs(s, e.value);
    KeyLenAt(s, j, e.value, c);
    if c < |s| && s[c] == ':' { k := SkipWs(s, c + 1); }
  }
}
