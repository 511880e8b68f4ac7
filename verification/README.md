# SwiftParsing text scanning, modelled in Dafny

This project models the core of SwiftParsing, a small library of pure text-scanning helpers over Swift `String`s:

- **Index arithmetic** (`String.Index` extension): `addToIndex`, `increment`, `decrement`, `firstIndex`, `lastIndex`, `countIndex`.
- **`IndexableSubString`**: an immutable window `[lower, upper)` over a parent string whose positions stay absolute offsets into the parent. It provides `count`, `value`, the subscript, the saturating `index(after:)`, `firstIndex(where:)` and the never-ending `next()` cursor.
- **String selectors** (`String` extension): these locate a substring bounded by delimiters. There are three kinds:
  - leftmost word search;
  - unbalanced opener/closer extraction;
  - depth-counted balanced extraction over character sets.

  Each kind can resume strictly after a position.
- **String mutators**: `joinWithNewLines`, `indent`, `indentLines`, `createBlock`, `removeRedundentIndentation`.

## How things are represented

- A buffer is a `string`, with one code unit per character.
- Positions are `nat` offsets into the buffer.
- `|s|` plays the role of `count`, and `|s|` is also the one-past-the-end `countIndex`.
- An `IndexableSubString` is the datatype `SubStrings.View(parent, lower, upper, cursor)`. The field `cursor` is the struct's private `currentIndex`. The mutating `next()` returns the character together with the updated view.
- Swift optionals become `Wrappers.Option`.

The balanced selectors return a three-way `Selector.Scan`:

- `Found(view)`;
- `NotFound`, when no usable opener exists;
- `Diverges`.

`Diverges` is needed because the Swift loop `for i in candidates.indices` steps with the saturating `index(after:)`. Its candidate range always ends at `countIndex`, so the loop never reaches its end index. At the buffer's last position the loop re-reads the same character forever:

- if that character is a closer and not an opener, the depth counts down to zero and the match `[lower, |s|-1)` is returned;
- if it is neither, the depth never changes and the call never returns;
- if it is an opener, the depth grows by one on every pass. The depth `count` is a Swift `Int` (Sources/SwiftParsing/StringSelector.swift:51, 55, 111, 115), so the call ends in an overflow trap after about `Int.max` passes rather than running forever. `Diverges` stands for this case as well (see "## Left out").

`Selector.ScanFrom` is the closed form of this loop. `Selector.LoopRun` is the loop itself, run for a bounded number of iterations. `Selector.LoopAgreesWithScan` and `Selector.BalancedLoopAgrees` prove that the two agree.

Some of this behaviour differs from what the source's names and doc comments suggest. The model follows the code:

- Only `findSubString(after:between:)` with single characters rejects an empty result. The other unbalanced searches may return an empty slice.
- The doc comments at Sources/SwiftParsing/StringSelector.swift:86-87 and 98-100 promise that openers are matched with closers in equal numbers. On an input whose opener is never closed, a balanced search does not report "no match". It diverges, or, when the last character is a closer that is not an opener, returns a slice that is not balanced.
- Word search stops when `i + |word| >= |s|`, not only when the match would run past the buffer's end. So a word that ends at the last character is never found.
- `findSubString(after:with:and:)` with single characters is **balanced**. The set overload with the same labels is **unbalanced**.

The newline set is fixed to `'\n'`. The whitespace set is fixed to space, tab, carriage return and line feed.

## Model

| member | source | states |
|---|---|---|
| IndexArithmetic.AddToIndex | Sources/SwiftParsing/String.Index+++.swift:18-24 | defined exactly when `i + amount` can be dereferenced; the result lies `amount` past `i`; it is never `countIndex` |
| IndexArithmetic.AddNeverReachesCount | Sources/SwiftParsing/String.Index+++.swift:18-24 | no position plus any amount yields the one-past-the-end sentinel |
| IndexArithmetic.Increment | Sources/SwiftParsing/String.Index+++.swift:29-35 | defined exactly when `i + 1` can be dereferenced, giving `i + 1`; on a non-empty buffer it fails exactly at `lastIndex` |
| IndexArithmetic.AddOneIsIncrement | Sources/SwiftParsing/String.Index+++.swift:18-35 | `addToIndex(1)` agrees with `increment` at every position |
| IndexArithmetic.Decrement | Sources/SwiftParsing/String.Index+++.swift:40-46 | defined exactly when `i >= 2`, giving `i - 1`; offset 0 is never produced |
| IndexArithmetic.DecrementUndoesIncrement | Sources/SwiftParsing/String.Index+++.swift:29-46 | decrement undoes increment, except when that would give offset 0 |
| IndexArithmetic.IncrementUndoesDecrement | Sources/SwiftParsing/String.Index+++.swift:29-46 | increment undoes decrement at every dereferenceable position |
| IndexArithmetic.FirstIndex | Sources/SwiftParsing/String.Index+++.swift:53-58 | absent exactly for the empty string; otherwise the least dereferenceable position |
| IndexArithmetic.LastIndex | Sources/SwiftParsing/String.Index+++.swift:61-66 | absent exactly for the empty string; otherwise the greatest dereferenceable position |
| IndexArithmetic.CountIndex | Sources/SwiftParsing/String.Index+++.swift:69-71 | the position immediately after the last one: it cannot be dereferenced, lies above every position that can, and is 0 or directly follows a dereferenceable position |
| IndexArithmetic.IndexOrder | Sources/SwiftParsing/String.Index+++.swift:53-71 | for a non-empty string, firstIndex <= lastIndex < countIndex, and lastIndex + 1 = countIndex |
| SubStrings.Make | Sources/SwiftParsing/IndexableSubString.swift:50-54 | a fresh view keeps its parent and construction bounds, and its cursor starts at the lower bound |
| SubStrings.Count | Sources/SwiftParsing/IndexableSubString.swift:19-21 | `count` is the length of `value`, and is zero exactly for an empty range |
| SubStrings.Value | Sources/SwiftParsing/IndexableSubString.swift:42-44 | `value` has `upper - lower` characters, and its character at `p - lower` is the subscript at absolute position `p` |
| SubStrings.Subscript | Sources/SwiftParsing/IndexableSubString.swift:89-91 | positions are absolute: the subscript at `p` is the parent's character at `p` anywhere in the parent, and inside the window it is the slice's character at `p - lower` |
| SubStrings.IndexAfter | Sources/SwiftParsing/IndexableSubString.swift:59-64 | gives `i + 1` exactly when that can be dereferenced in the parent, and `i` otherwise; it saturates at the parent's last position, whatever the view's upper bound |
| SubStrings.IndicesNeverReachEnd | Sources/SwiftParsing/IndexableSubString.swift:59-64 | for a view that ends at `countIndex`, k steps of `index(after:)` reach `min(i + k, last)`, so the end index is never reached |
| SubStrings.FirstIndexWhere | Sources/SwiftParsing/IndexableSubString.swift:69-74 | the least absolute position in `[lower, upper)` whose character satisfies the predicate; absent exactly when there is none |
| SubStrings.Next | Sources/SwiftParsing/IndexableSubString.swift:78-86 | never returns nil: it returns the character at the cursor, moves the cursor by one unless at the parent's last position, and leaves the parent and bounds unchanged |
| SubStrings.Drain | Sources/SwiftParsing/IndexableSubString.swift:78-86 | k successive calls of `next()` yield k characters, the first being the one at the cursor |
| SubStrings.DrainRepeatsLast | Sources/SwiftParsing/IndexableSubString.swift:78-86 | the j-th call of `next()` yields the parent's character at `min(cursor + j, last)`, so the last character repeats forever |
| SubStrings.FreshViewIteration | Sources/SwiftParsing/IndexableSubString.swift:50-86 | iterating a fresh view starts at its lower bound and repeats the parent's last character |
| Selector.CandidateRange | Sources/SwiftParsing/StringSelector.swift:176-183 | an opener yields the range `[p+1, count)` exactly when it is not the last position |
| Selector.RangeForStartingCharacters | Sources/SwiftParsing/StringSelector.swift:160-169 | gives `[p+1, count)` for the leftmost opener `p`; absent exactly when there is no opener or the leftmost one is the last position |
| Selector.RangeForStartingCharactersAfter | Sources/SwiftParsing/StringSelector.swift:171-184 | the same, with only positions after `index` considered; so the result starts at `index + 2` or later, and is absent when `index + 1 >= count` |
| Selector.RangeForStartingCharacter | Sources/SwiftParsing/StringSelector.swift:156-158 | the single-character case of the resuming range: `[p+1, count)` for the leftmost `ch` after `index`, starting at `index + 2` or later; absent exactly when there is no such `ch` or it is the last position |
| Selector.CloseUnbalanced | Sources/SwiftParsing/StringSelector.swift:35-39 | from the start of a candidate range up to the first closer in it: absent exactly when the range has no closer |
| Selector.FindSubStringWith | Sources/SwiftParsing/StringSelector.swift:32-40 | returns the unique unbalanced match (leftmost opener, then first closer after it), possibly empty; absent exactly when no match exists |
| Selector.FindSubStringAfterBetween | Sources/SwiftParsing/StringSelector.swift:74-83 | returns the unbalanced match after `index` when it is non-empty; absent exactly when every match is empty or there is none |
| Selector.FindSubStringAfterWithSets | Sources/SwiftParsing/StringSelector.swift:128-136 | returns the unbalanced match over opener/closer sets after `index`, possibly empty; absent exactly when none exists |
| Selector.UnbalancedMatchUnique | Sources/SwiftParsing/StringSelector.swift:32-40 | there is at most one unbalanced match, so the searches are fully determined |
| Selector.ScanFrom | Sources/SwiftParsing/StringSelector.swift:112-125 | the closed form of the balanced loop never yields "not found" (`return nil` is unreachable); a match ends just before a closer that is not an opener |
| Selector.LoopRun | Sources/SwiftParsing/StringSelector.swift:112-125 | the literal `for` loop: a returned slice starts at the range's lower bound and ends before the range's end, just before a closer that is not an opener; over a range ending at `countIndex` the loop never finishes with nil |
| Selector.BalancedLoop | Sources/SwiftParsing/StringSelector.swift:106-126 | the guarded loop returns nil exactly when there is no candidate range; any returned slice starts at the range's lower bound and ends just before a closer that is not an opener |
| Selector.LoopAgreesWithScan | Sources/SwiftParsing/StringSelector.swift:112-125 | anything the literal loop returns is the closed form's match, and the loop returns that match once it has run `2(|s|-i)+depth` iterations |
| Selector.BalancedLoopAgrees | Sources/SwiftParsing/StringSelector.swift:106-126 | with no range the loop is never entered; `Found` is returned by the loop; `Diverges` means the loop never returns; the loop never finishes normally |
| Selector.ScanSpec | Sources/SwiftParsing/StringSelector.swift:112-123 | under the depth invariant, a match is balanced, and the scan diverges exactly when the depth stays positive and the last character is not a pure closer |
| Selector.BalancedOutcomeSpec | Sources/SwiftParsing/StringSelector.swift:46-66 | a match has no prefix with more pure closers than openers; if it ends before the last position it has equal counts of each; `Diverges` holds exactly when the depth never reaches zero |
| Selector.FindBalanced | Sources/SwiftParsing/StringSelector.swift:46-66 | not found exactly when there is no usable opener; with a usable opener, it diverges exactly when the depth never reaches zero before the last position and the last character is not a pure closer; a match starts just after the leftmost opener, ends just before a closer that is not an opener, never has more pure closers than openers in a prefix, and has equal counts unless it ends at the buffer's second-last position |
| Selector.FindBalancedChars | Sources/SwiftParsing/StringSelector.swift:42-44 | the single-character balanced search: not found exactly when there is no usable `first`; a match starts just after the leftmost `first` and is balanced as in `FindBalanced`; with a usable `first` it diverges exactly when the depth never closes |
| Selector.FindBalancedAfter | Sources/SwiftParsing/StringSelector.swift:106-126 | as `FindBalanced`, considering only positions after `index`: not found exactly when there is no usable opener after `index`, diverges exactly when the depth never closes, and a match starts just after the leftmost such opener |
| Selector.FindBalancedAfterChars | Sources/SwiftParsing/StringSelector.swift:93-95 | the `after:with:and:` character overload is balanced: not found exactly when there is no usable `first` after `index`; a match starts just after the leftmost such `first` and is balanced; otherwise it diverges exactly when the depth never closes |
| Selector.OpenerWinsOverCloser | Sources/SwiftParsing/StringSelector.swift:112-119 | an opener skips the closer test, so when every closer is also an opener no balanced match is ever found |
| Selector.FindIndexesIn | Sources/SwiftParsing/StringSelector.swift:138-154 | returns the leftmost window position where the word matches, with the match's end before the last position and within the window; absent exactly when no position qualifies |
| Selector.FindIndexes | Sources/SwiftParsing/StringSelector.swift:14-19 | the leftmost position where the word occurs and ends before the buffer's last character; absent exactly when no such position exists |
| Selector.FindIndexesAfter | Sources/SwiftParsing/StringSelector.swift:21-30 | the leftmost such occurrence strictly after `index`; absent exactly when there is none |
| SelectorExamples.BetweenDollarAndBrace | Tests/SwiftParsingTests/StringSelectorTests.swift:27-31 | between `$` and `}` after offset 0 is "123" |
| SelectorExamples.BetweenMissingOpener | Tests/SwiftParsingTests/StringSelectorTests.swift:33-36 | a missing opener gives no match |
| SelectorExamples.BetweenMissingCloser | Tests/SwiftParsingTests/StringSelectorTests.swift:38-41 | a missing closer gives no match |
| SelectorExamples.BetweenCloserOnlyBeforeOpener | Tests/SwiftParsingTests/StringSelectorTests.swift:43-46 | a closer that only occurs before the opener gives no match |
| SelectorExamples.BetweenCloserAtEnd | Tests/SwiftParsingTests/StringSelectorTests.swift:88-92 | the closer may be the buffer's last character: "}h" |
| SelectorExamples.BalancedSingleDollar | Tests/SwiftParsingTests/StringSelectorTests.swift:48-52 | the balanced search over `{$}` and `{}}` gives "123" |
| SelectorExamples.BalancedNested | Tests/SwiftParsingTests/StringSelectorTests.swift:54-58 | the balanced search over braces consumes the nested pair: "d{ef}g" |
| SelectorExamples.BalancedResume | Tests/SwiftParsingTests/StringSelectorTests.swift:60-86 | resuming after offset 3 or 17 finds nothing; resuming after offset 2 finds "123" |
| Mutator.Repeat | Sources/SwiftParsing/StringMutator.swift:55 | `String(repeating:count:)` has `n` times the length of the unit, and repeating a uniform unit gives a uniform string |
| Mutator.JoinWithNewLines | Sources/SwiftParsing/StringMutator.swift:76-88 | plain concatenation unless the amount is positive and both sides are non-empty; then the first side, `amount` newlines, and the second side |
| Mutator.JoinAssociative | Sources/SwiftParsing/StringMutator.swift:76-88 | joining with one newline is associative |
| Mutator.FoldJoin | Sources/SwiftParsing/StringMutator.swift:68 | `reduce` with `joinWithNewLines`: the accumulator stays a prefix of the result, and folding only empty lines leaves it unchanged |
| Mutator.Split | Sources/SwiftParsing/StringMutator.swift:66 | at least one line, and no line holds a newline |
| Mutator.UnlinesSplit | Sources/SwiftParsing/StringMutator.swift:66 | rejoining the lines of a string with '\n' gives the string back |
| Mutator.SplitUnlines | Sources/SwiftParsing/StringMutator.swift:66-68 | splitting lines that were joined with '\n' gives the lines back |
| Mutator.FoldJoinDropsEmpty | Sources/SwiftParsing/StringMutator.swift:68 | the `reduce` with `joinWithNewLines` drops empty lines and puts one '\n' between the remaining ones |
| Mutator.Indent | Sources/SwiftParsing/StringMutator.swift:51-57 | unchanged for amount <= 0; otherwise exactly 4·amount spaces followed by the original string |
| Mutator.IndentLines | Sources/SwiftParsing/StringMutator.swift:62-65 | unchanged for amount <= 0 |
| Mutator.IndentLinesSpec | Sources/SwiftParsing/StringMutator.swift:62-69 | for a positive amount, the lines of the result are the input's lines, each indented; the line count is preserved |
| Mutator.CreateBlockLines | Sources/SwiftParsing/StringMutator.swift:44-46 | for any amount, a block's lines are "{", the input's lines each indented by the amount, then "}" |
| Mutator.CreateBlock | Sources/SwiftParsing/StringMutator.swift:44-46 | the result opens with "{\n", closes with "\n}", and holds the indented input in between |
| Mutator.CreateBlockExample | Tests/SwiftParsingTests/StringMutatorTests.swift:22 | the block around "A" is "{\n    A\n}" |
| Mutator.CountWhitespaceAtFront | Sources/SwiftParsing/StringMutator.swift:90-100 | the offset of the first non-whitespace character, preceded only by whitespace; absent exactly for a blank line |
| Mutator.Indents | Sources/SwiftParsing/StringMutator.swift:32 | holds exactly the indentations of the non-blank lines; empty exactly when every line is blank |
| Mutator.MinOf | Sources/SwiftParsing/StringMutator.swift:32 | the least element, absent exactly for an empty sequence |
| Mutator.MinIndent | Sources/SwiftParsing/StringMutator.swift:32-34 | the least indentation over non-blank lines, absent exactly when every line is blank |
| Mutator.WholeUnits | Sources/SwiftParsing/StringMutator.swift:35 | a multiple of the indent width, at most `m` and within one unit of it |
| Mutator.RedundantIndent | Sources/SwiftParsing/StringMutator.swift:32-35 | the least indentation rounded down to a multiple of 4; absent exactly when there is no non-blank line |
| Mutator.DropFirst | Sources/SwiftParsing/StringMutator.swift:37 | drops `n` characters, or all of them if the line is shorter |
| Mutator.RemoveRedundentIndentation | Sources/SwiftParsing/StringMutator.swift:31-39 | unchanged when no line is non-blank; otherwise the non-empty lines left after removing the rounded least indentation from every line, joined with one '\n' |
| Mutator.RemoveIndentationAllBlank | Sources/SwiftParsing/StringMutator.swift:31-34 | with no non-blank line the input is returned unchanged |
| Mutator.RemoveIndentationResult | Sources/SwiftParsing/StringMutator.swift:35-38 | when some line is non-blank, every line loses the same number of leading characters; lines left empty are dropped; the rest are joined with one '\n' |
| Mutator.RemoveIndentationOnlyWhitespace | Sources/SwiftParsing/StringMutator.swift:35-37 | a non-blank line makes the removed amount defined; that line loses only leading whitespace and keeps its first non-whitespace character |
| Mutator.RemoveIndentationLines | Sources/SwiftParsing/StringMutator.swift:36-38 | the result's lines are exactly the shortened lines that are not empty, in order |
| Corrections.BalancedAsWrittenCounterexamples | Sources/SwiftParsing/StringSelector.swift:52-65 | as written, "{a" diverges and "{{a}" returns the unbalanced slice "{a" |
| Corrections.ScanToEnd | Sources/SwiftParsing/StringSelector.swift:52-65 | the intended scan stops at the buffer's end and never diverges; a match ends just before a closer that is not an opener |
| Corrections.ScanToEndSpec | Sources/SwiftParsing/StringSelector.swift:52-65 | the intended scan reports a balanced match, and reports no match exactly when the depth never reaches zero |
| Corrections.FindBalancedToEnd | Sources/SwiftParsing/StringSelector.swift:46-66 | the intended balanced search always terminates; with a usable opener it reports no match exactly when the depth never reaches zero; a match starts after the leftmost opener, ends just before a pure closer, and has equal counts of openers and pure closers |
| Corrections.BalancedToEndExamples | Sources/SwiftParsing/StringSelector.swift:65 | the intended search reports no match for "{a" and "{{a}" |
| Corrections.WordSuffixCounterexample | Sources/SwiftParsing/StringSelector.swift:143 | "bc" ends "abc", yet no position passes the `addToIndex` bound |
| Corrections.FindWordFrom | Sources/SwiftParsing/StringSelector.swift:138-154 | the intended word search returns the leftmost match, whose end may be `countIndex`; absent exactly when there is none |
| Corrections.WordSuffixFound | Sources/SwiftParsing/StringSelector.swift:148-150 | the intended search finds "bc" at offset 1 of "abc" |
| Corrections.DecrementCounterexample | Sources/SwiftParsing/String.Index+++.swift:42 | as written, decrementing position 1 fails although position 0 exists |
| Corrections.DecrementToZero | Sources/SwiftParsing/String.Index+++.swift:40-46 | the intended decrement is defined exactly for `i >= 1`, giving `i - 1` |
| Corrections.DecrementToZeroRoundTrip | Sources/SwiftParsing/String.Index+++.swift:29-46 | the intended decrement undoes increment at every position, and increment undoes it |

## Left out

- UTF-16 versus `Character` counting is not modelled. The source mixes `count` (characters) with `utf16Offset` (code units). Every character is taken to be one code unit, as for ASCII text. Grapheme clusters and surrogate pairs are not modelled.
- Foundation's Unicode tables are not modelled. `CharacterSet.whitespacesAndNewlines` is fixed to space, tab, carriage return and line feed. `components(separatedBy: .newlines)` is fixed to splitting at `'\n'`.
- The `Collection`, `IteratorProtocol` and `DefaultIndices` machinery is modelled only through the loop behaviour it induces: `LoopRun` for the `for` loops, and `Drain` for repeated `next()`. This is because it is protocol plumbing rather than logic.
- Runtime traps are preconditions, not modelled errors. This covers dereferencing `countIndex` in `subscript` and `next()`, and building an index at a negative offset in `addToIndex`.
- Selector.ScanFrom: `Diverges` also covers an opener at the last position. There the Swift `Int` depth counter overflows and traps after about `Int.max` iterations, rather than spinning forever. The model does not bound the depth, because fixed-width integer overflow is not modelled.
- Termination of the balanced loop is not proved, because the loop does not terminate on some inputs. Such inputs are represented by `Diverges`, and the loop itself is run with a fuel bound (`LoopRun`). The agreement lemmas cover every fuel value, so the bound leaves nothing unmodelled.
- The `createBlock`, `indent` and `indentLines` computed properties (Sources/SwiftParsing/StringMutator.swift:16-28) are not modelled separately. They are the same functions with amount 1.
- The `StringMutator(indentString:)` type and `createBlock(for:)` method used by Tests/SwiftParsingTests/StringMutatorTests.swift are not part of this model. Only that test's expected string is used.
- `String.firstIndex(where:)` is not modelled separately. `findRangeForStartingCharacters(for:)` and `countWhitespaceAtFront` call it on the whole string, and the model uses `FirstIndexWhere` on a view of the whole string instead, which has the same leftmost-match specification.

## Findings

| source | as written | input that shows it | evidently intended | confidence | as-written member | corrected member |
|---|---|---|---|---|---|---|
| Sources/SwiftParsing/StringSelector.swift:52-65 | the candidate loop saturates at the last position, so `return nil` is unreachable: an unclosed opener loops forever, and a final closer is re-read until the depth is zero | `"{a"` diverges; `"{{a}"` returns `"{a"` | return no match when the buffer ends before the depth reaches zero | high (not executed) | Corrections.BalancedAsWrittenCounterexamples | Corrections.FindBalancedToEnd |
| Sources/SwiftParsing/StringSelector.swift:143 | `addToIndex` requires `i + |word| < count`, so a match ending at the last character is rejected | `"abc".findIndexes(for: "bc")` returns nil | accept a match whose exclusive end is `countIndex` | medium (not executed) | Corrections.WordSuffixCounterexample | Corrections.FindWordFrom |
| Sources/SwiftParsing/String.Index+++.swift:42 | the guard `newIndex > 0` rejects offset 0 | `decrement` of offset 1 returns nil | reject only negative offsets | medium (not executed) | Corrections.DecrementCounterexample | Corrections.DecrementToZero |
