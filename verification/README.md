# hal0: redaction, gateway move, reconcilers and transactions

A Dafny model of the parts of hal0 that keep a promise over every input or every run:

- **Redaction** (`Text`, `Pieces`, `Marks`, `LiteralTrie`, `MaskLiterals`, `Quotes`,
  `Scanner`, `Readings`, `ValueEnds`, `MaskedLiteral`, `SecretSpans`). `_mask_literals` replaces a loop of `str.replace` calls by one
  scan with a compiled trie, prefix lists and a mark array. The value scanner decides where a
  secret's mask ends; the patterns that find secrets are oracles of which only this is asked: a
  name takes at least one character of the line. `_masked_literal` parses and prints JSON and
  Python-repr text, and `secret_spans` aligns a text with its masked copy.
- **The gateway move** (`GatewayBox`, `GatewayRun`, `GatewaySafety`, `GatewayPromises`, `GatewaySteps`,
  `GatewayMove`, `GatewayExamples`). A run is a function of the box it finds and of a script; the methods carry it
  out, and the lemmas are about it. A box has two units, each with a file, two
  enablement links and a process, and masks. Each write, `systemctl` call or probe of a run ends
  as a script says: done, failed with no effect, or reported as failed after it took effect. Main
  results hold for every script, in every state the run goes through.
- **Convergence** (`Upstreams`, `DocsSync`). A registry and an environment, or a forum, are made to
  match a wanted set without touching what is someone else's, and a second run does nothing.
- **Transactions** (`CommandApprovals`, `SetVersion`). All or nothing over any failure.

Each algorithm that changes things step by step is a method or a class with loops, proved against a
function or a relation whose meaning is proved separately; code made of expressions is a function.

## Where the code does not do what it says

- The docstring of the gateway move says a mask is never written through. It is, when the canonical
  unit is masked under /run only and the first `is-enabled` probe fails
  (`GatewayExamples.MaskWrittenThrough`); with that probe answered it never is (`GatewayMove.Migrate`).
- The move is meant to keep the operator's on/off choice. Where the canonical unit has no file, but a
  link that enables it, writing the file makes that link count (`GatewayExamples.DanglingLink`); the
  exact condition is `GatewayPromises.ChoiceCarries`.
- A failure is said to roll back to the start. With every rollback step done, it does so exactly where
  `GatewayPromises.Restorable` holds. A link to a unit file becomes a plain file
  (`GatewayExamples.LinkReplaced`), an unreadable file that was overwritten stays so
  (`GatewayExamples.Overwrites`), and a canonical unit that ran, or was enabled, without a file is
  turned off (`GatewayExamples.NotRestored`). Linger is not undone.
- A comment says a failed undo is reported, never swallowed. Reported are only failures to turn off a
  canonical unit that was there or that the run had enabled, to stop it and to start it again
  (`GatewayBox.Reported`; both directions in `GatewayMove.Migrate`). A `disable --now` of a unit the
  move made and did not enable is not, so two pollers can go untold if its start was misreported as
  failed (`GatewayExamples.SecondPoller`); nor is a failed enable or start of the suffixed unit, so the
  gateway can be left off untold (`GatewayExamples.NoPoller`); nor are failed writes and reloads.
- A suffixed file that cannot be removed is said to be disabled; a runtime enablement stays
  (`GatewayPromises.LeftBehindWord`, `GatewayExamples.LeftEnabled`).
- The comment on swallowed secrets (src/hal0/redaction.py:531-532) says nothing that either reading
  takes for a value is left visible. That holds for every secret that starts in the text of a value the
  mask reads. A name that starts in the separators between such a value and the value of the secret it
  swallowed is not looked for, and its value can outlast the mask (`ValueEnds.GapStaysVisible`);
  `ValueEnds.CoversExactly` says where this can be, both directions.
- `apply_mode` says that a failure to save changes nothing. A save that took effect although it was
  reported as failed stays (`CommandApprovals.SaveMisreported`); that is the only exception.
  An override that is the empty string counts as none when the config is read back.

## Model

| member | source | states |
|---|---|---|
| `MaskLiterals.MaskLiterals` | src/hal0/redaction.py:1390-1475 | for every text and every list of literals (empty, repeated and mask-like ones too) the result is, character for character, what replacing each literal in turn gives, whichever of the scan and the fallbacks is taken; said twice, of the fold of `str.replace` and of a chain of texts in which each is the one before cut at every leftmost occurrence of its literal and joined with the mask |
| `MaskLiterals.NoLiteralSurvives` | src/hal0/redaction.py:1390-1475 | if no literal can match part of a mask, no literal of the list occurs anywhere in the result: masking is maximal and no later mask recreates an occurrence |
| `Marks.FoundIffFits` | src/hal0/redaction.py:1397-1404 | the key fact: in a partly masked text a literal that cannot match part of a mask is found exactly where an original occurrence meets no masked span |
| `Marks.ReplaceIsGreedy` | src/hal0/redaction.py:1397-1404 | `str.replace` on the masked text is the left-to-right pass at the original positions |
| `Marks.ReplaceEachIsGreedy` | src/hal0/redaction.py:1397-1404 | the loop of `str.replace` calls is the list of such passes over the unchanged text |
| `Marks.NoneFits` | src/hal0/redaction.py:1397-1404 | after all the passes no literal of the list fits anywhere: masks are never lifted and each pass is maximal |
| `Marks.ShownFits` | src/hal0/redaction.py:1397-1404 | a literal that still occurs in the masked text fits at some original position |
| `Text.MaskTestIsExact` | src/hal0/redaction.py:1348-1358 | `_may_match_a_mask` is exact: it is true of a literal if and only if some text puts the literal over part of a mask |
| `Text.ReplaceSkips` | src/hal0/redaction.py:1361-1364 | `str.replace` copies a stretch in which no occurrence starts |
| `Pieces.ReplaceIs` | src/hal0/redaction.py:1361-1364 | one replacement, whatever the literal: the text before and the text after are the same pieces joined with the literal and with the mask, each cut at the leftmost occurrence; an empty literal cuts around every character |
| `Pieces.ReplacedIsUnique` | src/hal0/redaction.py:1361-1364 | that determines the text after |
| `Pieces.EachIsReplaced` | src/hal0/redaction.py:1361-1364 | the loop makes such a replacement for every literal in turn, skipping none |
| `Pieces.EachIsUnique` | src/hal0/redaction.py:1361-1364 | and the texts on the way are determined |
| `LiteralTrie.LookupInsert` | src/hal0/redaction.py:1423-1428 | one insertion adds exactly its literal and never changes an id already there (`setdefault`) |
| `LiteralTrie.LengthsAreLiterals` | src/hal0/redaction.py:1367-1371 | the lengths a trie node matches in a text are those of the literals that start it |
| `LiteralTrie.BranchExtends` | src/hal0/redaction.py:1376-1379 | collapsing a node with one child and no literal into the run changes no match |
| `LiteralTrie.BranchRegex` | src/hal0/redaction.py:1375-1383 | the pattern of one branch matches what the branch does |
| `LiteralTrie.LiteralTrieRegex` | src/hal0/redaction.py:1367-1387 | the compiled pattern tries, at every text, exactly the literals starting there, longest first; there is no pattern if and only if the collapsed trie nests past the limit |
| `LiteralTrie.FirstTryIsLongest` | src/hal0/redaction.py:1367-1371 | so its first match is the longest literal there, and it fails only if none starts there |
| `MaskLiterals.BuildTrie` | src/hal0/redaction.py:1420-1428 | the trie holds exactly the literals, each under the id of its first copy |
| `MaskLiterals.PrefixIds` | src/hal0/redaction.py:1432-1436 | the ids collected along a literal are the owners of all its prefixes in the list, each once, its own last |
| `MaskLiterals.PrefixLists` | src/hal0/redaction.py:1429-1438 | `lit_id` and `ends` say that of every literal |
| `MaskLiterals.MatchAt` | src/hal0/redaction.py:1451-1457 | one match yields the ids of all the distinct literals starting at a position |
| `MaskLiterals.Scan` | src/hal0/redaction.py:1449-1457 | for each distinct literal the scan records exactly the ascending list of all its occurrences; it gives up if and only if there are more occurrences than the budget |
| `MaskLiterals.PlaceAll` | src/hal0/redaction.py:1459-1468 | the masks placed from the occurrence lists are those of the greedy passes, and the spans are exactly the masked stretches |
| `MaskLiterals.PlaceOne` | src/hal0/redaction.py:1461-1468 | the pass of one literal over its occurrence list is its greedy pass over the whole text |
| `MaskLiterals.Assemble` | src/hal0/redaction.py:1469-1475 | sorting the spans and copying what lies between them gives the masked text |
| `MaskLiterals.ReplaceLoop` | src/hal0/redaction.py:1361-1364 | `_replace_each` does the same, and so does every literal that could match part of a mask |
| `Quotes.DelimiterIs` | src/hal0/redaction.py:578-592 | the opening delimiter has n backslashes and a quote if and only if the line does there; it is empty if there is no opener |
| `Quotes.QuotedRunIsClose` | src/hal0/redaction.py:569-572 | for a plain quote the quoted-run pattern stops at the first quote no backslash escapes, the line break or the end of the text |
| `Quotes.ClosesIsMatch` | src/hal0/redaction.py:579-585 | a closing delimiter of k backslashes and a quote starts at a place if and only if the close pattern matches there with that length |
| `Quotes.CloseOfIsFirst` | src/hal0/redaction.py:595-606 | where a quoted value ends is the first closing delimiter, line break or end of text, and it closes there if and only if that is a delimiter |
| `Quotes.CloseIsUnique` | src/hal0/redaction.py:595-606 | that determines the position and the flag |
| `Quotes.QuoteClose` | src/hal0/redaction.py:595-615 | the search driven by patterns returns that position and flag, for every line and opener |
| `Quotes.QuoteCloseCounting` | ui/src/sentry.ts:570-592 | the one-pass loop that counts backslashes returns the same position and flag |
| `Scanner.PackedValueEnd` | src/hal0/redaction.py:497-511 | the end is the first character that is neither in the class nor a separator with no secret past the openers after it |
| `Scanner.SameStop` | src/hal0/redaction.py:618-622 | a start inside a value already read has that value's packed end and its trimmed stop: what the memo relies on |
| `Scanner.ValueStopTrims` | src/hal0/redaction.py:618-622 | a value stops before the whitespace at the end of what is packed, and all of it |
| `Scanner.ReadValue` | src/hal0/redaction.py:656-667 | reading a candidate through the memo gives its own end, quoted or bare, and whether it outlasts the value: to its end at least if quoted, past it if bare, or starting there |
| `Scanner.Swallowed` | src/hal0/redaction.py:631-670 | with its memo, the same answer as the search that reads every candidate afresh: of the secrets that outlast the value the one reaching furthest, the first of those |
| `Scanner.SwallowedIsUnique` | src/hal0/redaction.py:634-642 | that choice is unique |
| `Scanner.FirstSecret` | src/hal0/redaction.py:649-655 | in a value that is not secret, the first secret that starts in it, or none if none does |
| `Readings.ReadSecretParts` | src/hal0/redaction.py:699-727 | the value of a secret, as read, has parts that lead from one to the next, covers what starts in them, ends no earlier than read alone, and flags just the parts of `NAME=value` values |
| `Readings.ReadAsParts` | src/hal0/redaction.py:712-719 | the same of a value read on, which stops at once where it ends |
| `Readings.FollowsSecret` | src/hal0/redaction.py:699-727 | the parts of a secret's value come in the order of the stack of open values, and leave that stack as it was |
| `Readings.FollowsIsUnique` | src/hal0/redaction.py:699-727 | that order determines the parts and whose value each is |
| `Readings.MaskIsUnique` | src/hal0/redaction.py:673-727 | the end, the parts and the spans of a mask are determined: the harvest takes these spans and no others |
| `ValueEnds.PastSwallowed` | src/hal0/redaction.py:673-727 | terminates for any patterns; the explicit stack computes the recursive reading. The parts read follow one another as the code says (`Follows`): the value of the secret just swallowed, or the innermost open value read on; the end is past every secret that starts in the text of a part, not in what lies between, and one where the outer value read on stops at once; the first span is the outer value's own, and the spans to harvest are just those of the parts of swallowed `NAME=value` values, each from where its value starts to where it ends or to the name it swallowed |
| `ValueEnds.RunOn` | src/hal0/redaction.py:712-727 | the inner loop reads on as each enclosing value, innermost first, and leaves the same reading to be finished |
| `ValueEnds.ReadPart` | src/hal0/redaction.py:703-711 | one value and the secret it swallows, which a bare value encloses and a quoted one does not |
| `ValueEnds.SwallowingEnd` | src/hal0/redaction.py:746-770 | the whole mask, its end, parts and spans (`IsMask`): its own end and no span, or past the secret it swallows |
| `ValueEnds.BareValueEnd` | src/hal0/redaction.py:730-743 | a secret's mask starts with the packed value, is the whole mask as determined, ends no earlier and is stable under reading on; a value not secret is cut before its first secret and gives no span |
| `ValueEnds.QuotedValueEnd` | src/hal0/redaction.py:773-800 | the same for a quoted value, whose mask starts with the quoted text and never ends before its closing delimiter |
| `ValueEnds.Tiling` | src/hal0/redaction.py:701-727 | the texts of the parts, their delimiters and the gaps (from the text of a part to the value of the secret it swallowed) make up the mask |
| `ValueEnds.CoversExactly` | src/hal0/redaction.py:514-533 | a mask covers the value of every secret that starts in it if and only if it covers those that start in a gap, at a quote or backslash, or where the name pattern, cut off at the end of a part, finds none |
| `ValueEnds.GapStaysVisible` | src/hal0/redaction.py:514-533 | a concrete line and patterns in which a secret that starts in the mask, in a gap, outlasts it |
| `MaskedLiteral.ParseSound` | src/hal0/redaction.py:1159-1206 | whatever is read is a literal, and printing its tree gives the text read |
| `MaskedLiteral.ParseComplete` | src/hal0/redaction.py:1159-1206 | every literal is read back whole, in any text that may follow it |
| `MaskedLiteral.MaskedLiteral` | src/hal0/redaction.py:1159-1206 | always advances; read back, the output is a tree of the same shape as the literal read (brackets, keys, commas, blanks) in which every leaf is the mask, in the quotes it had; it raises if and only if no literal starts there |
| `MaskedLiteral.MaskedItems` | src/hal0/redaction.py:1171-1200 | the same for the entries of a dict or list |
| `MaskedLiteral.MaskedReadsBack` | src/hal0/redaction.py:1159-1206 | idempotence: the output is read back as the masked tree, with the same rest, and masks to itself |
| `MaskedLiteral.MaskedIsMasked` | src/hal0/redaction.py:1202-1206 | whatever is read, the masked text reads back with every leaf a mask and the shape unchanged, position by position |
| `MaskedLiteral.MaskMasks` | src/hal0/redaction.py:1202-1206 | masking a tree leaves no leaf and changes nothing else |
| `MaskedLiteral.MaskWellFormed` | src/hal0/redaction.py:1159-1165 | masking the leaves of a literal gives a literal |
| `MaskedLiteral.SkipWs` | src/hal0/redaction.py:1140-1143 | skips exactly the blanks |
| `MaskedLiteral.EndOfString` | src/hal0/redaction.py:1146-1156 | the end of the string past its first quote that no backslash escapes, or none |
| `MaskedLiteral.SkipKey` | src/hal0/redaction.py:1180-1189 | a key, its colon and the blanks around them |
| `MaskedLiteral.EndEntry` | src/hal0/redaction.py:1192-1200 | blanks and then a comma or the closing bracket, else failure |
| `SecretSpans.SecretSpans` | src/hal0/redaction.py:189-239 | for any pair of texts: no span for equal texts; else the spans are increasing, disjoint, not empty and inside the text; the texts align just where the pieces between the masks can be placed, and then there is one span for each mask in its place, less a last one that covers nothing; where they cannot, one span from common text to common text |
| `SecretSpans.Align` | src/hal0/redaction.py:210-227 | the leftmost placement of the pieces: it fails only if they cannot be placed at all |
| `SecretSpans.JoinSplit` | src/hal0/redaction.py:210 | splitting at the masks loses nothing |
| `SecretSpans.SplitCuts` | src/hal0/redaction.py:210 | every cut is at the leftmost mask, and no mask is left in a piece |
| `SecretSpans.NoSpans` | src/hal0/redaction.py:208-239 | for unequal texts there is no span exactly where all that is masked is one mask after the text or, not aligned, where the masked text only adds to the text |
| `SecretSpans.Differences` | src/hal0/redaction.py:229-234 | the common prefix and suffix, each as long as can be |
| `SecretSpans.CutToText` | src/hal0/redaction.py:236-239 | spans that fit are kept as they are; one that covers nothing of the text is dropped |
| `GatewayMove.Migrate` | src/hal0/agents/hermes_gateway_regen.py:608-860 | for every box and every run: it acts just when there is a suffixed unit and a systemctl and gives up only for a failure; its steps are those listed, in order, and a stale running canonical unit is restarted after its new text is written and loaded; every state is safe and linger precedes every start; a mask is kept unless its probe failed; a rollback whose steps are all done restores the box if and only if it is `Restorable`, tells of a problem if and only if an undo it reports failed, and leaves a canonical unit running if and only if its stop was lost; a finished move has handed over exactly |
| `GatewayMove.MoveKeepsChoice` | src/hal0/agents/hermes_gateway_regen.py:493-571 | a finished move keeps the enablement `effective_gateway_state` reports if and only if `ChoiceCarries`; at most one unit runs, and the canonical one as the unit whose state counted did, unless it ran without a file |
| `GatewaySteps.RunTakes` | src/hal0/agents/hermes_gateway_regen.py:767-860 | the exact steps of every run, said of its trace and the box it found: a finished move took the whole handover, every step but linger done, and then the cleaning up; a rolled back one took it up to the step that failed and then the undoing of what had been done |
| `GatewaySteps.RestartLaw` | src/hal0/agents/hermes_gateway_regen.py:805-822 | a finished move restarts the canonical unit if and only if it ran on a readable stale text and the last probe found it running, and then after the new text was written and loaded; no other run restarts any other |
| `GatewaySteps.HandoverTakes` | src/hal0/agents/hermes_gateway_regen.py:767-822 | the steps of a handover, and where a failure ends it |
| `GatewaySteps.RollbackTakes` | src/hal0/agents/hermes_gateway_regen.py:691-765 | the steps of a rollback, which depend on what the handover had turned on |
| `GatewayPromises.ChoiceKept` | src/hal0/agents/hermes_gateway_regen.py:493-571 | the operator's choice (off, until reboot, on) is the same after a handover if and only if no enablement link without a canonical file, and no unread mask, stands in the way |
| `GatewayPromises.ProcessHandedOver` | src/hal0/agents/hermes_gateway_regen.py:773-804 | whose state counted decides what runs, with the exact exception, and at most one unit does |
| `GatewayPromises.RestoredExactly` | src/hal0/agents/hermes_gateway_regen.py:716-733 | a rollback whose every step is done restores the box, linger aside, if and only if the canonical path was masked, absent with nothing running or enabled that the rollback turns off, or a plain file readable or not overwritten, or an unreadable link not overwritten |
| `GatewayPromises.RunKeeps` | src/hal0/agents/hermes_gateway_regen.py:608-860 | what holds of any run that has read the box: safe states, linger first, mask kept, and the end of its rollback or of its move |
| `GatewayPromises.GivenUpForFailure` | src/hal0/agents/hermes_gateway_regen.py:634-685 | nothing to do, a refusal and giving up each have their exact or only reasons, and the first two change nothing |
| `GatewayPromises.RetryAfterRollback` | src/hal0/agents/hermes_gateway_regen.py:691-698 | after a finished rollback of a `Restorable` box, for every such run, a second run with every step done moves the gateway, and keeps the first choice if and only if `ChoiceCarries` |
| `GatewayPromises.RetryAfterLeftBehind` | src/hal0/agents/hermes_gateway_regen.py:828-860 | after a move that left the suffixed file, a second run with every step done removes it and changes nothing else, or has nothing to do if the file went after all |
| `GatewayPromises.LeftBehindWord` | src/hal0/agents/hermes_gateway_regen.py:773-775 | a suffixed file left behind reads as disabled unless it had a runtime enablement, which a plain `disable` keeps |
| `GatewayBox.EveryState` | src/hal0/agents/hermes_gateway_regen.py:691-855 | in every state of a run, rollback included: some unit file exists unless the canonical unit is masked, and two pollers need two from the start or a lost stop |
| `GatewayBox.NeverTwoPollers` | src/hal0/agents/hermes_gateway_regen.py:691-855 | with no start misreported as failed there are never two pollers that were not there before |
| `GatewayBox.LostStopMeans` | src/hal0/agents/hermes_gateway_regen.py:716-741 | a lost stop takes a start that took effect though reported as failed and then a stop that failed |
| `GatewaySafety.ReadIsTrue` | src/hal0/agents/hermes_gateway_regen.py:638-685 | what is read is the state of the box, only a failed probe refuses, and only a runtime mask whose probe fails is misread |
| `GatewaySafety.WriteKeeps` | src/hal0/agents/hermes_gateway_regen.py:768-772 | before the suffixed unit is touched only the canonical file changes |
| `GatewaySafety.StandDownKeeps` | src/hal0/agents/hermes_gateway_regen.py:773-775 | the suffixed unit is stopped before it is disabled, and its file and runtime link stay |
| `GatewaySafety.TakeOverKeeps` | src/hal0/agents/hermes_gateway_regen.py:778-804 | success hands the state over; failure leaves only changes the rollback knows of |
| `GatewaySafety.RestartKeeps` | src/hal0/agents/hermes_gateway_regen.py:805-822 | a canonical unit that ran, and is still found to run, on a stale text is restarted, and no other; a failed restart is one the rollback knows of |
| `GatewaySafety.HandoverKeeps` | src/hal0/agents/hermes_gateway_regen.py:767-822 | every handover, from any box, is complete or leaves only changes the rollback knows of, through safe states only |
| `GatewaySafety.UndoNewKeeps` | src/hal0/agents/hermes_gateway_regen.py:716-726 | a canonical unit the move made is turned off and removed; it is left running only by a lost stop |
| `GatewaySafety.UndoTextKeeps` | src/hal0/agents/hermes_gateway_regen.py:727-733 | a canonical unit that was there gets its text back, if it could be read |
| `GatewaySafety.UndoStateKeeps` | src/hal0/agents/hermes_gateway_regen.py:734-741 | what the run turned on in it is turned off |
| `GatewaySafety.RollbackKeeps` | src/hal0/agents/hermes_gateway_regen.py:691-765 | a rollback goes through safe states, tells of exactly the failures it reports and, with every step done, ends in the box `BackAsBefore` describes |
| `GatewaySafety.CleanUpKeeps` | src/hal0/agents/hermes_gateway_regen.py:828-860 | only the suffixed file goes, and a file left behind is reported as such |
| `GatewayMove.ReadPlan` | src/hal0/agents/hermes_gateway_regen.py:638-685 | the probes asked, in their order, and the plan read or refused at each answer |
| `GatewayMove.Handover` | src/hal0/agents/hermes_gateway_regen.py:767-822 | the steps of a handover in their order, stopping at the first that must be done and is not, and what it had turned on by then |
| `GatewayMove.TakeOver` | src/hal0/agents/hermes_gateway_regen.py:778-804 | linger, enable and start in that order; a failed linger is passed over |
| `GatewayMove.Rollback` | src/hal0/agents/hermes_gateway_regen.py:691-765 | the steps of a rollback in their order, none skipped for a failure, and whether one it reports failed |
| `GatewayMove.CleanUp` | src/hal0/agents/hermes_gateway_regen.py:828-860 | removal, reload and clean-up, and which of the three ends is reported |
| `GatewayExamples.MaskWrittenThrough` | src/hal0/agents/hermes_gateway_regen.py:639-642 | a concrete run in which a runtime mask is lifted because its probe failed |
| `GatewayExamples.DanglingLink` | src/hal0/agents/hermes_gateway_regen.py:638-642 | a concrete run, every step done, in which a gateway that was off is on |
| `GatewayExamples.NotRestored` | src/hal0/agents/hermes_gateway_regen.py:716-726 | a concrete rollback, every step done, that stops for good a canonical unit that ran without a file |
| `GatewayExamples.LinkReplaced` | src/hal0/agents/hermes_gateway_regen.py:727-733 | a concrete rollback, every step done, that makes a plain file of a linked canonical unit |
| `GatewayExamples.Overwrites` | src/hal0/agents/hermes_gateway_regen.py:727-733 | a concrete rollback, every step done, that leaves an unreadable canonical file overwritten |
| `GatewayExamples.SecondPoller` | src/hal0/agents/hermes_gateway_regen.py:716-726 | a concrete run that ends with two pollers and tells of no problem |
| `GatewayExamples.NoPoller` | src/hal0/agents/hermes_gateway_regen.py:753-765 | a concrete run that ends with no poller, where one ran, and tells of no problem |
| `GatewayExamples.LeftEnabled` | src/hal0/agents/hermes_gateway_regen.py:773-775 | a concrete run that leaves the suffixed unit enabled until the next boot |
| `Upstreams.Reconcile` | src/hal0/agents/hermes_upstreams.py:76-186 | the new registry: the foreign entries as they were, and for each profile that is first for its model id and variable an entry with its URL, model id and variable, and no others; what is removed; the models cache loses just the entries removed or moved; the environment as a function of the old one |
| `Upstreams.ReconcileTwice` | src/hal0/agents/hermes_upstreams.py:76-186 | a second reconcile on unchanged inputs removes nothing and leaves registry, environment and cache as the first did |
| `Upstreams.SecondTime` | src/hal0/agents/hermes_upstreams.py:76-186 | the reconciled state is a fixed point: nothing is dropped and no entry changes |
| `Upstreams.ForeignKept` | src/hal0/agents/hermes_upstreams.py:114-122 | entries Hermes does not manage are unchanged, and the managed ones are exactly those of the registered profiles |
| `Upstreams.ManagedAreApart` | src/hal0/agents/hermes_upstreams.py:123-163 | no two managed entries own one model id or share a key variable, and each variable holds its own profile's current key |
| `Upstreams.VariablesAfter` | src/hal0/agents/hermes_upstreams.py:166-174 | a removed entry's variable is gone unless a registered profile uses it, and no other variable changes |
| `Upstreams.ForeignLosesVariable` | src/hal0/agents/hermes_upstreams.py:166-174 | an entry Hermes does not manage loses its variable if it shares it with a dropped entry and no registered profile uses it |
| `Upstreams.DownKeepsProfiles` | src/hal0/agents/hermes_upstreams.py:60-73 | with the gateway down every profile directory is a candidate, and a keyed one is registered unless its name, model id or variable is taken |
| `Upstreams.CandidateProfiles` | src/hal0/agents/hermes_upstreams.py:60-73 | `default` first, then, in order, just the directories for which a live gateway does not answer 404 |
| `Upstreams.ServedDirsAre` | src/hal0/agents/hermes_upstreams.py:60-73 | a directory is served unless the gateway is up and answers 404 for it |
| `Upstreams.ClaimAllHolds` | src/hal0/agents/hermes_upstreams.py:107-151 | every registered profile holds its name, model id and variable, and every keyed profile that is not has lost one of them |
| `Upstreams.FirstClaims` | src/hal0/agents/hermes_upstreams.py:107-151 | a profile is registered if and only if it has a key, its name is free, and it is the first such candidate for its model id and then the first of those for its variable |
| `Upstreams.EntriesAfter` | src/hal0/agents/hermes_upstreams.py:36-57 | every registered entry has its profile's URL (under /p/ unless `default`), model id and variable, and no foreign entry changes |
| `Upstreams.SharedVariable` | src/hal0/agents/hermes_upstreams.py:139-151 | two profiles share a variable if and only if their names differ only in case and in characters that are neither letters nor digits |
| `Upstreams.RegisterAll` | src/hal0/agents/hermes_upstreams.py:107-164 | the loop, with its `owners`, `claimed` and `desired` dicts, registers just the profiles whose claims succeed |
| `Upstreams.MakeClaim` | src/hal0/agents/hermes_upstreams.py:108-151 | one candidate's claims: first come, first served |
| `Upstreams.Register` | src/hal0/agents/hermes_upstreams.py:152-163 | key set, entry replaced in place, cache evicted if and only if the address or the owned id changed |
| `Upstreams.RemoveStale` | src/hal0/agents/hermes_upstreams.py:166-174 | the managed entries no longer wanted go, in whatever order, with their cached models and unshared variables |
| `Upstreams.NamesDiffer` | src/hal0/agents/hermes_api.py:395-397 | distinct profiles have distinct upstream names |
| `DocsSync.SyncDocs` | scripts/docs_discourse_sync/sync.py:254-375 | after an error-free run the forum shows every doc and index: its category, its title as given or prettified, its body with links resolved to the URLs of the topics, up to outer whitespace; one that did already is not written to; topics of no doc or index are unchanged |
| `DocsSync.SyncTwice` | scripts/docs_discourse_sync/sync.py:254-375 | a second run on the same docs issues no create and no update |
| `DocsSync.SyncOne` | scripts/docs_discourse_sync/sync.py:192-220 | afterwards the page is shown; it is written, once, if and only if it was not, and no other topic changes |
| `DocsSync.EnsureTopics` | scripts/docs_discourse_sync/sync.py:285-305 | pass 1: every doc has a topic, and no topic that existed is touched |
| `DocsSync.SettleOne` | scripts/docs_discourse_sync/sync.py:315-352 | a doc is current after pass 2, although one just created is written again only if a link was rewritten |
| `DocsSync.SettleAll` | scripts/docs_discourse_sync/sync.py:313-352 | so is every doc, later writes not undoing earlier ones |
| `DocsSync.SyncPages` | scripts/docs_discourse_sync/sync.py:361-372 | every section index is current, and no other topic is touched |
| `DocsSync.SameUrls` | scripts/docs_discourse_sync/sync.py:307-310 | ids and slugs alone decide the URL map, so pass 2 cannot invalidate the links it writes |
| `DocsSync.UrlMapIs` | scripts/docs_discourse_sync/sync.py:307-310 | each doc's path, and no other, has the URL of the topic of the last doc at that path |
| `DocsSync.UrlsAreUnique` | scripts/docs_discourse_sync/sync.py:307-310 | only one map has that property |
| `DocsSync.InSyncMeans` | scripts/docs_discourse_sync/sync.py:111-142 | in sync is: the forum shows all, with those URLs |
| `DocsSync.CurrentKept` | scripts/docs_discourse_sync/sync.py:111-142 | a page whose topic is not written stays current |
| `CommandApprovals.ApplyMode` | src/hal0/agents/hermes_command_approvals.py:300-544 | all or nothing: a refusal changes nothing; a failure with no rollback error restores both files, except a save misreported as failed, exactly then; on return the setting is the mode asked for, stored, and, with no override at entry, the rendered mode is the override read at the end or else that mode; refusal, failure, rollback, no change and each restart verdict have their exact reasons |
| `CommandApprovals.ApplyFreely` | src/hal0/agents/hermes_command_approvals.py:300-544 | with no override the rendered mode is the one asked for |
| `CommandApprovals.RenderAndRestart` | src/hal0/agents/hermes_command_approvals.py:433-544 | steps 4 and 5 fail if and only if the config cannot be made to read as expected or the restart fails other than by timing out |
| `CommandApprovals.Rollback` | src/hal0/agents/hermes_command_approvals.py:433-451 | both files are put back, the second even if the first fails |
| `CommandApprovals.SaveMisreported` | src/hal0/agents/hermes_command_approvals.py:397-403 | a concrete run that fails with no rollback error and a changed seed |
| `CommandApprovals.ValidateMode` | src/hal0/agents/hermes_command_approvals.py:140-148 | exactly `smart` and `manual` |
| `SetVersion.Transact` | scripts/set-version.py:282-396 | for any number of files and any failure: commits if and only if every step succeeds, and then what is locked is each destination with the text of its last candidate and every other file as it was; otherwise each destination holds its original, or the kept directory does; with no restore error all hold their originals; nothing changes before every backup is made |
| `SetVersion.Restore` | scripts/set-version.py:370-376 | every original is put back, going on past a restore that fails |
| `SetVersion.Install` | scripts/set-version.py:339-369 | the backups survive whatever fails |
| `SetVersion.OverlayIs` | scripts/set-version.py:339-345 | with all candidates in place each destination has the text of its last one, and nothing else differs |
| `SetVersion.BackUp` | scripts/set-version.py:332-337 | every original is copied before any is replaced |
| `SetVersion.Stage` | scripts/set-version.py:287-330 | succeeds if and only if every candidate is written and valid |
| `SetVersion.CleanCandidates` | scripts/set-version.py:377-384 | removing candidates never touches a backup |

## Left out

- The concrete regular expressions, Unicode case folding, secret-name word lists and token prefixes
  of `redaction.py` and `sentry.ts`: oracles in `Scanner.Reader`. Only the quote and trie patterns
  are modelled. `re.escape` is taken to match its text; TypeScript strings are sequences of the same
  characters as Python's.
- Idempotence of `redact_log_line` as a whole: it rests on how all the rules interact.
- MaskLiterals.MaskLiterals: does not say which path is taken, nor that it is linear; the nested
  dicts of the trie are a value that insertion replaces, and `re.compile` failing is a parameter.
- ValueEnds.PastSwallowed: `secret=False`, where it returns at once, is in `ValueEnds.CutEnd`.
- MaskedLiteral.MaskedItems: a closing bracket after an entry ends the loop in that round, where the
  code goes round once more to find it; Python's recursion limit is not modelled.
- GatewayMove.Migrate: rendering and validation of the unit text are one step with an opaque result;
  step messages, timeouts and exit codes are not modelled; a process killed in the middle of a move
  is not rolled back by the code either.
- GatewayPromises.ChoiceKept: the probes of `effective_gateway_state` are taken as answered.
- Upstreams.Reconcile: the order of the registry, the report lists, warnings and the case without a
  models cache; HTTP probes and key files are read once, as `Upstreams.Home`.
- DocsSync.SyncDocs: dry runs, HTTP errors, uploads, warnings, the redirect map and markdown
  rendering; image and link rewriting are deterministic functions. As the design has it, external
  ids are distinct, the server keeps slugs, and stores a title verbatim or prettified and a body up to
  outer whitespace.
- CommandApprovals.ApplyMode: audit log, messages and the lock; the agent editing config.yaml at the
  same time. The seed written for a mode is taken to read back as that mode.
- SetVersion.Transact: computing the new file texts; exits that are not an `Exception`; what
  `uv lock` does to files that are not destinations.
- Doctor and health classifiers, the MCP policy, the audit store, installers, HTTP layers and the UI.
