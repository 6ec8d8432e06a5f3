# Models of the dependency-free Rust core

The Rust crates of this repository write by hand the engines that other
programs import. The Dafny modules here model the engines and prove what they
are for. Each module follows one source file or one part of it.

| modules | what they model |
|---|---|
| `RegexModel`, `RegexMatcher`, `RegexProofs`, `RegexCaptures`, `RegexGroups`, `RegexSearch` | the backtracking matcher with its step budget, its language, what groups record, leftmost search, all matches, replacement |
| `RegexParser`, `RegexSyntax`, `RegexLanguage` | the recursive-descent pattern parser, the trees it can produce and what its signs mean |
| `Tokens`, `TokenLines`, `Pattern`, `PatternMatcher`, `PatternSearch` | the source tokenizer, the lines it reports, and the structural matcher with `$X` and `$$$X` |
| `Diff`, `UnifiedDiff`, `Patch`, `PatchExact`, `TextLines`, `Decimal` | line diff, unified diff, and patching by content |
| `Json`, `JsonText`, `JsonNumbers`, `JsonEscapes`, `JsonOrder` | the two printers, the parser, and the order behind `sort` and `unique` |
| `Calendar` | seconds since the epoch to a civil date |
| `Sha256`, `Sha256Constants`, `Sha256Answer`, `Crc32`, `Crc32Answer`, `Base64` | streaming and one-shot digest, table checksum, a known answer of each, base64 |
| `HashlineText`, `HashlineFile`, `Hashline`, `HashlineIndent`, `HashlineApply`, `HashlinePlaces`, `HashlineReindent` | patches anchored to hashes of lines |
| `LspLines`, `LspEdits` | UTF-16 positions, text edits |
| `WorkspaceEdit`, `WritePhase`, `WriteOrder`, `FileSystem` | the workspace-edit overlay, and writing its result to a disk of files and directories |
| `DocumentSync`, `PendingRequests`, `Framing` | the language-server client's documents, its requests, its wire format |
| `Merge`, `MergeDisk`, `Sorting`, `TextOrder` | three-way merge of trees, and applying plans to a directory |
| `SearchIndex` | the inverted index and its ranking |
| `Splice`, `Utf`, `Wrappers` | replacing spans of a sequence, byte offsets of characters, `Option` and `Result` |

Code that updates state in place is a method or a class with its fields. Its
contract ties the new state to a function of the old one, and the lemmas are
about that function. `dafny verify dfyconfig.toml` checks everything.

## Findings

Statements that are false of the code are given with an input, and with the
exact condition under which the code does what is wanted.

- Regex: a group keeps the first match of its body (`RegexProofs.GroupCommits`),
  and a required repetition of something of no width is never found
  (`RegexProofs.ZeroWidthRepeatNeverFound`). Search and language agree
  (`RegexProofs.RunDecidesReliable`) for patterns in which groups and repeats
  with something after them have alternatives and bodies of a fixed width, above
  zero where a repetition is required. This condition is sufficient; some other
  patterns are searched rightly too.
- Diff and patch: a hunk is found at the first copy of its old lines, so the
  wrong one of two equal lines can be replaced without an error
  (`PatchExact.WrongLineReplaced`). A diff of one hunk is undone by its patch if
  and only if `PatchExact.LandsWell` holds (`PatchExact.OneHunkUndoesDiffIff`).
- Tokenizer: a newline that ends an unclosed string is counted twice, and one
  escaped in a string is not counted, so later tokens and matches are reported on
  a wrong line (`TokenLines.UnclosedStringCountsTwice`,
  `TokenLines.EscapedNewlineIsMissed`). A line is right if and only if the two
  kinds balance before it (`TokenLines.LineIsTrueIff`). A column is right if and
  only if no token since the last newline token spans lines
  (`TokenLines.ColumnIsTrueIff`).
- `unique`: all objects rank the same, so a repeated one that is not a
  neighbour survives (`JsonOrder.RepeatedObjectSurvives`). Nothing is left twice
  if and only if the input has no other value of its rank between two copies of
  a value (`JsonOrder.Unique`).
- Hashline: indentation is stripped by bytes. When the cut falls inside a
  character the program stops (`HashlineApply.CutInsideCharacter`), and whether
  it does can depend on the indentation of the file
  (`HashlineReindent.IndentationCanStopPatch`). A located hunk is spliced in if
  and only if every cut falls between two characters (`Hashline.Buffer.Splice`);
  with one-byte indentation it always does (`HashlineApply.AsciiNeverPanics`).
- Workspace edits: all operations are checked before anything is written, but not
  against directories. Renaming a file onto a directory loses the file
  (`WorkspaceEdit.FileRenamedOntoDirectory`); creating a file and then one below
  it leaves the first behind (`WorkspaceEdit.FileCreatedBelowFile`); creating and
  deleting at the name of a directory takes the directory away
  (`WorkspaceEdit.CancelledCreation`). The write phase gets through if and only if
  each written path, at its turn, is no directory and below no file, and each
  removed one is there (`WritePhase.WritesIff`); where it stops, what came before
  stays (`WritePhase.StopsAt`). Without directory renames the files end up as the
  operations in order leave them if and only if the edit is tidy
  (`WorkspaceEdit.CarriedOutIff`). Directory renames come before everything else,
  so an edit of a file before the rename of its directory does not go with it
  (`WorkspaceEdit.RenamedAfterEditIff`).
- Merge: a view that turned a directory into a file gives a plan without
  conflicts that cannot be applied (`MergeDisk.DirectoryCannotBecomeFile`). A plan
  gets through if and only if nothing stands in the way of what the view writes
  (`MergeDisk.NoUpdateIsLost`).
- Requests: not every request is told when the stream ends. One is told if and
  only if it was waiting at the end, the reader came to it before its time was up,
  and its write was not reported failed (`PendingRequests.EndTellsEveryone`). One
  that looked before the end and enlisted after it (`PendingRequests.LateRequest`)
  is told by nobody: it waits for its timeout or learns that it could not be
  written (`PendingRequests.LateRequestWaitsAlone`). And a reply that arrives
  between the end of a request's time and its withdrawal is lost
  (`PendingRequests.ExpiredTimesOut`).
- Index: a comment promises that the weight of a term found nearly everywhere
  goes to zero. The code adds 1 under the logarithm, and the weight stays
  positive (`SearchIndex.SharedTermsCount`).

## Model

| member | source | states |
|---|---|---|
| RegexProofs.RunSound | crates/pi-builtins/src/regex.rs:551-600 | whatever end the search reports is in the relational language of the nodes: alternation, groups, anchors, and a repeat as a chain of between `min` and `max` matches |
| RegexProofs.StepExact | crates/pi-builtins/src/regex.rs:603-683 | a node that is neither group nor repeat matches exactly the subject characters its language says, in both directions |
| RegexProofs.RepeatSound | crates/pi-builtins/src/regex.rs:685-744 | a repeat that succeeds leaves a place its body reaches in `min` to `max` rounds, with the rest of the pattern matching from there |
| RegexProofs.GroupSound | crates/pi-builtins/src/regex.rs:565-592 | a group that succeeds matched one of its alternatives up to a place from which the rest of the pattern matches |
| RegexProofs.WalkSound | crates/pi-builtins/src/regex.rs:697-718 | the walk of a repeat has at most `max` rounds, and its `k`-th position is reached by exactly `k` matches of the body |
| RegexProofs.RunComplete | crates/pi-builtins/src/regex.rs:551-600 | where a reliable pattern has a match within the subject, the search finds one; reliable are patterns whose group alternatives and repeat bodies have a fixed width where something follows, and which at the end may have any group of reliable alternatives and any repeat that requires no round, or one round of a reliable body that is never empty |
| RegexProofs.RunDecidesReliable | crates/pi-builtins/src/regex.rs:551-600 | for reliable patterns the search answers at a position if and only if the language has a match there |
| RegexProofs.ZeroWidthRepeatNeverFound | crates/pi-builtins/src/regex.rs:698-728 | a required repetition of something that consumes nothing is never found, although the language has it wherever the body matches |
| RegexProofs.GroupCommits | crates/pi-builtins/src/regex.rs:565-592 | a concrete input: "aab" is in the language of `(a*)ab` and the search misses it, because a group keeps its first inner match |
| RegexProofs.RepeatPrefers | crates/pi-builtins/src/regex.rs:730-743 | a greedy repeat goes on from as many rounds of its walk as the rest can be found after, a lazy one from as few as its lower bound allows |
| RegexProofs.GroupPrefers | crates/pi-builtins/src/regex.rs:565-592 | a group takes the first of its alternatives with which the pattern goes on |
| RegexLanguage.SignsMean | crates/pi-builtins/src/regex.rs:304-336 | `*` matches nothing or one more, `+` one and then `*`, both up to the largest count, and `?` nothing or one |
| RegexLanguage.EscapesMean | crates/pi-builtins/src/regex.rs:504-528 | `\d` accepts exactly 0 to 9, `\w` the ASCII letters, digits and underscore, `\s` the six blanks, each capital form exactly the rest, case forms counting where case is ignored |
| RegexLanguage.LetterMeans | crates/pi-builtins/src/regex.rs:603-640 | a literal character is matched by itself, and where case is ignored by its other case |
| RegexLanguage.BoundaryMeans | crates/pi-builtins/src/regex.rs:603-640 | a word boundary lies between a letter, digit or underscore and something else or an end of the text |
| RegexMatcher.Matcher.MatchSequence | crates/pi-builtins/src/regex.rs:551-600 | answers, captures and counted steps are those of the search function; `None` exactly when the counted steps pass the budget, and then for good |
| RegexMatcher.Matcher.MatchOne | crates/pi-builtins/src/regex.rs:603-683 | one step is counted, and a single node matches where its language says unless the budget is gone |
| RegexMatcher.Matcher.MatchGroup | crates/pi-builtins/src/regex.rs:565-592 | alternatives are tried in order with the captures put back after each failure, step for step as the search function says |
| RegexMatcher.Matcher.MatchRepeat | crates/pi-builtins/src/regex.rs:685-744 | walk, lower bound, candidate order and tail, with the exact number of steps counted |
| RegexMatcher.Matcher.WalkEnds | crates/pi-builtins/src/regex.rs:698-718 | the positions collected and the captures kept are the whole walk, whose progress alone ends the loop; the steps counted are exact |
| RegexMatcher.Matcher.Advance | crates/pi-builtins/src/regex.rs:703-713 | a round runs on a copy of the captures that is kept only when the position moves on |
| RegexMatcher.Matcher.TryCandidates | crates/pi-builtins/src/regex.rs:730-743 | candidates are tried in order, each from the same captures, with the exact number of steps counted |
| RegexCaptures.RunKeeps | crates/pi-builtins/src/regex.rs:565-592 | every capture a search leaves is the span of a match of a group of that number inside the pattern |
| RegexGroups.RunLeads | crates/pi-builtins/src/regex.rs:551-600 | whatever end and captures the search reports, they are those of a match in a language that says which spans groups leave in their slots |
| RegexGroups.SeqLeadsMatches | crates/pi-builtins/src/regex.rs:551-600 | that language is the language of the pattern with captures added |
| RegexGroups.GroupIsRecorded | crates/pi-builtins/src/regex.rs:565-592 | a group that stands in a sequence, with no group of its number after it, has in its slot exactly where it matched: behind what matched before it and in front of what matched after it |
| RegexGroups.RepeatedGroupIsRecorded | crates/pi-builtins/src/regex.rs:697-718 | after rounds of a repeated group its slot holds where it matched in the last of them |
| RegexGroups.GroupsAreFilled | crates/pi-builtins/src/regex.rs:551-600 | after any match every slot holds where a group of its number took part, nested and repeated ones included; it is untouched only where the match can do without such a group |
| RegexSearch.GroupsAreOwnMatches | crates/pi-builtins/src/regex.rs:118-136 | group 0 of a reported match is its text; any other group is the text of some match of its own group, never of another |
| RegexSearch.GroupsTookPart | crates/pi-builtins/src/regex.rs:118-136 | every group of a match reports the text of a span where a group of its number took part in a match of the whole; only one that the alternative can do without reports nothing |
| RegexSearch.GroupIsReported | crates/pi-builtins/src/regex.rs:118-136 | a group of a pattern of one alternative reports the text between what matched before it and what matched after it |
| RegexSearch.AltsLead | crates/pi-builtins/src/regex.rs:120-139 | the first alternative that matches is the one reported |
| RegexSearch.LeftmostIsLeftmost | crates/pi-builtins/src/regex.rs:106-147 | a reported match is in the language of the pattern; for reliable patterns one is found whenever there is one, at the earliest start |
| RegexSearch.FindFrom | crates/pi-builtins/src/regex.rs:106-147 | the leftmost match at or after a byte, with all its groups, if and only if the steps of the search fit the budget; otherwise nothing |
| RegexSearch.FirstAlternative | crates/pi-builtins/src/regex.rs:120-139 | alternatives at one start are tried in order with cleared captures; outcome and steps are exact |
| RegexSearch.MatchAt | crates/pi-builtins/src/regex.rs:122-135 | offsets, text and groups of a match, group 0 being the whole |
| RegexSearch.FindAll | crates/pi-builtins/src/regex.rs:149-168 | exactly the non-overlapping matches the scan meets, each search with a budget of its own, at most one more than there are characters |
| RegexSearch.AllDisjoint | crates/pi-builtins/src/regex.rs:149-168 | reported starts strictly increase, spans do not overlap, and there are at most length + 1 of them |
| RegexSearch.AllFoundIsPrefix | crates/pi-builtins/src/regex.rs:149-168 | the budget only cuts the list of matches short, and exactly when the scan comes to a match its search cannot afford |
| RegexSearch.AllCover | crates/pi-builtins/src/regex.rs:149-168 | unless the scan gives up, every start where the pattern matches is reported or lies inside a reported match |
| RegexSearch.NextCharBoundary | crates/pi-builtins/src/regex.rs:254-260 | the first character boundary after a byte, or the next byte past the end |
| RegexSearch.NextBoundaryIsNextChar | crates/pi-builtins/src/regex.rs:254-260 | from a character's offset that boundary is the next character's offset |
| RegexSearch.Expand | crates/pi-builtins/src/regex.rs:211-252 | the loop gives the expansion of the replacement unit by unit |
| RegexSearch.QuotedIsLiteral | crates/pi-builtins/src/regex.rs:211-252 | any text can be written so that it expands to itself, whatever the match |
| RegexSearch.ExpansionIsPieces | crates/pi-builtins/src/regex.rs:211-252 | a replacement expands to its pieces in order: literal text, control characters, each `$n` or `\n` the text of that group or nothing, `&` the whole match |
| RegexSearch.LoneDollar | crates/pi-builtins/src/regex.rs:211-252 | a dollar that no digit follows stands for itself |
| RegexSearch.TwoGroupsSwap | crates/pi-builtins/src/regex.rs:171-252 | two groups with anything between them, replaced by `$2 $1`, come out as the second text, a space and the first |
| RegexSearch.Replace | crates/pi-builtins/src/regex.rs:171-191 | the text with the chosen matches replaced one at a time from last to first; with `&` the text comes back unchanged, whether or not the budget runs out |
| RegexSearch.ReplacingByItself | crates/pi-builtins/src/regex.rs:171-191 | replacing disjoint matches by their own text changes nothing |
| RegexSearch.RewritesArePieces | crates/pi-builtins/src/regex.rs:171-191 | every match chosen is rewritten to the pieces of the replacement with its own groups |
| RegexParser.ParsePattern | crates/pi-builtins/src/regex.rs:62-81 | the pattern parses to the end or the first error is given, as the grammar function says |
| RegexParser.Parser.ParseAlternatives | crates/pi-builtins/src/regex.rs:283-290 | alternatives, remaining text and group count agree with the grammar |
| RegexParser.Parser.ParseSequence | crates/pi-builtins/src/regex.rs:292-302 | the nodes up to `\|`, `)` or the end agree with the grammar |
| RegexParser.Parser.ParseQuantifier | crates/pi-builtins/src/regex.rs:304-336 | a quantifier and its laziness agree with the grammar |
| RegexParser.Parser.ParseBounds | crates/pi-builtins/src/regex.rs:340-387 | bounds in braces; when the braces do not form any nothing is consumed |
| RegexParser.Parser.ParseAtom | crates/pi-builtins/src/regex.rs:389-437 | one atom and its group number agree with the grammar |
| RegexParser.Parser.ParseClass | crates/pi-builtins/src/regex.rs:439-501 | a bracketed class, its ranges and its errors agree with the grammar |
| RegexSyntax.ParsesAreCanonical | crates/pi-builtins/src/regex.rs:264-520 | groups are numbered in the order they open and all counted; no range or bound runs backwards; no repeat of a repeat |
| RegexSyntax.ParsingUndoesShowing | crates/pi-builtins/src/regex.rs:264-520 | every canonical tree is what two spellings of it parse to, with its group count: one in full, and one in short with `*`, `+`, `?`, `{m}`, `{m,}`, class and control escapes, plain characters and single class members |
| RegexSyntax.ParsedIffCanonical | crates/pi-builtins/src/regex.rs:264-520 | the trees that patterns parse to are exactly the canonical ones |
| RegexSyntax.EveryGroupHasASlot | crates/pi-builtins/src/regex.rs:389-437 | in a parsed pattern every group number lies within the count, so each group has a capture slot |
| RegexSyntax.LaterNumbersDiffer | crates/pi-builtins/src/regex.rs:389-437 | in a parsed pattern no group has the number of one before it |
| Tokens.Tokenize | crates/pi-ast/src/tokens.rs:160-266 | tokens are slices of the source at their byte spans, whole and in order, with only whitespace other than newlines between them, each marked with the line and column the tokenizer has counted up to it |
| Tokens.TilesAreUnique | crates/pi-ast/src/tokens.rs:160-266 | a source has one such tiling: kinds, spans, lines, columns and number of tokens are determined |
| Tokens.ShapeIsFixed | crates/pi-ast/src/tokens.rs:176-263 | where a token starts, the source fixes its kind and its end: a word, number or operator cannot be longer or shorter |
| Tokens.OnlyWhitespaceOutside | crates/pi-ast/src/tokens.rs:160-266 | a character outside all tokens is whitespace and no newline |
| Tokens.TilesInOrder | crates/pi-ast/src/tokens.rs:160-286 | token spans ascend and do not overlap |
| Tokens.NextToken | crates/pi-ast/src/tokens.rs:176-263 | the kind and end at a place are those the source fixes, and so is how many lines the tokenizer counts on |
| Tokens.LineCommentEnd | crates/pi-ast/src/tokens.rs:288-298 | a line comment is recognised exactly where a marker stands, and ends before the next newline or with the source |
| Tokens.BlockCommentEnd | crates/pi-ast/src/tokens.rs:301-335 | the first pair of markers that opens here decides, its comment ends where nesting says, and the newlines counted are those outside markers |
| Tokens.PlainBlockEnd | crates/pi-ast/src/tokens.rs:301-335 | without nesting a comment ends just past the first closing marker, or with the source |
| Tokens.StringEnd | crates/pi-ast/src/tokens.rs:337-379 | a string ends at its closing quote or triple quote, before the newline of a one-line string, or with the source; counted are its newlines that are not escaped, and one that ends it |
| Tokens.OperatorEnd | crates/pi-ast/src/tokens.rs:382-395 | the longest operator that starts here, or one character when none does |
| Tokens.Significant | crates/pi-ast/src/tokens.rs:407-409 | exactly the tokens that are neither comments nor newlines, in order |
| Tokens.KeptExact | crates/pi-ast/src/tokens.rs:407-409 | the tokens left are exactly those of every other kind than comment and newline, in their order |
| Tokens.BuiltInSyntaxesAreSound | crates/pi-ast/src/tokens.rs:70-158 | in the built-in syntaxes markers are not empty and line markers hold no newline |
| TokenLines.LineIsTrueIff | crates/pi-ast/src/tokens.rs:160-266 | a token is reported on the line it stands on if and only if as many strings before it are ended by a newline as newlines are escaped in them; otherwise the line is wrong by just the difference |
| TokenLines.ColumnIsTrueIff | crates/pi-ast/src/tokens.rs:176-192 | a token is reported in the column it stands in if and only if no comment or string since the last newline token holds a newline |
| TokenLines.TokenCounted | crates/pi-ast/src/tokens.rs:176-263 | what is counted for a token: its newlines, less those escaped, and one more when a newline ends a string |
| TokenLines.StringCounted | crates/pi-ast/src/tokens.rs:337-379 | what is counted in a string: its newlines, less those escaped, and the one that ends it |
| TokenLines.BlockCounted | crates/pi-ast/src/tokens.rs:301-335 | what is counted in a block comment, nested or not, is exactly its newlines |
| TokenLines.UnclosedStringCountsTwice | crates/pi-ast/src/tokens.rs:337-379 | a concrete source: after a string that a newline ends, the token on line 2 is reported on line 3 |
| TokenLines.EscapedNewlineIsMissed | crates/pi-ast/src/tokens.rs:337-379 | a concrete source: after a string with an escaped newline, the token on line 2 is reported on line 1 |
| Pattern.FirstFitIsFirst | crates/pi-ast/src/pattern.rs:177-286 | the search finds a split of the tokens among the elements if and only if one exists, with consistent repeated metavariables, and finds the shortest-first one |
| Pattern.FirstFromIsFirst | crates/pi-ast/src/pattern.rs:177-286 | the same of a metavariable at the head tried at every end from some place on |
| Pattern.BalancedEndExact | crates/pi-ast/src/pattern.rs:290-321 | an end is answered if and only if a balanced expression runs from the index to it, and that end is the only one |
| Pattern.NamesAreCaptured | crates/pi-ast/src/pattern.rs:200-284 | a metavariable captures the text of the tokens it takes, wherever it stands, and each time it occurs |
| Pattern.OthersAreNotCaptured | crates/pi-ast/src/pattern.rs:200-284 | nothing else is captured |
| Pattern.SpanTextIsTokens | crates/pi-ast/src/pattern.rs:323-339 | captured text is the text of its tokens in order, some with one space in front |
| Pattern.SomeSpacings | crates/pi-ast/src/pattern.rs:323-365 | `f(x, y)` and `if (x, y)` are rendered just so |
| PatternMatcher.MatchAt | crates/pi-ast/src/pattern.rs:177-286 | the end of the first fit and the captures of it; on failure the captures are as they were found |
| PatternMatcher.MatchRun | crates/pi-ast/src/pattern.rs:200-284 | a metavariable is tried at every longer run of balanced expressions, undoing its binding after each failure |
| PatternMatcher.Captures.Restore | crates/pi-ast/src/pattern.rs:225-232 | a binding is put back to what it was, or removed when there was none |
| PatternMatcher.FindBalancedEnd | crates/pi-ast/src/pattern.rs:290-321 | the scan gives the balanced end |
| PatternMatcher.RenderSpan | crates/pi-ast/src/pattern.rs:323-339 | the text of a span, with spaces where the source asks for them |
| PatternSearch.Search | crates/pi-ast/src/pattern.rs:143-172 | reports exactly the matches met from left to right, each with the source slice, the line of its first token and the captures of its first fit |
| PatternSearch.SearchSource | crates/pi-ast/src/pattern.rs:143-172 | the search goes through exactly the significant tokens of the source, all of them and in order |
| PatternSearch.AllMatchesRanges | crates/pi-ast/src/pattern.rs:143-172 | matches ascend, are not empty and do not overlap |
| PatternSearch.AllMatchesCover | crates/pi-ast/src/pattern.rs:143-172 | for a pattern that is not all `$$$`, every token where a split fits starts a match or lies inside one |
| PatternSearch.Rewrite | crates/pi-ast/src/pattern.rs:372-389 | every match replaced by the filled template, as if one at a time from last to first |
| PatternSearch.FillingNothing | crates/pi-ast/src/pattern.rs:391-420 | without captures the template comes back as written |
| PatternSearch.FilledIsParts | crates/pi-ast/src/pattern.rs:391-420 | a template comes out as its parts in order, each bound name replaced by what it captured and each unbound one as written |
| PatternSearch.EveryTemplateHasParts | crates/pi-ast/src/pattern.rs:391-420 | every template has such parts |
| PatternSearch.CapturesAreFilledIn | crates/pi-ast/src/pattern.rs:372-420 | a metavariable of the pattern, named in a template, gives the text of the tokens it took in that match |
| PatternSearch.Compile | crates/pi-ast/src/pattern.rs:56-131 | elements are read off the tokens one after another, or the first bad metavariable is reported |
| PatternSearch.CompilesBack | crates/pi-ast/src/pattern.rs:56-131 | compiling elements as they are written gives them back |
| PatternSearch.DollarsCompile | crates/pi-ast/src/pattern.rs:56-141 | where `$` is a token of its own: one before a name is a metavariable, three are a sequence, named or not, and any other number is an error |
| Diff.DiffLines | crates/pi-builtins/src/data.rs:538-580 | the deterministic walk through the table, and minimal: it spells both texts and no script has fewer additions and removals |
| Diff.ScriptSpells | crates/pi-builtins/src/data.rs:552-577 | from every place the walk spells both remaining sides and keeps as many lines as the table says |
| Diff.LcsBounds | crates/pi-builtins/src/data.rs:542-551 | no script between two texts keeps more lines than the table entry |
| Diff.LongestIsMinimal | crates/pi-builtins/src/data.rs:538-580 | a script that keeps the longest common subsequence has the fewest changes |
| Diff.FillTable | crates/pi-builtins/src/data.rs:541-551 | every entry is the length of the longest common subsequence of the two suffixes |
| UnifiedDiff.GroupWindows | crates/pi-builtins/src/data.rs:597-606 | windows in order, apart and merged when they touch, covering exactly the places within `context` of a change |
| UnifiedDiff.WindowsAreUnique | crates/pi-builtins/src/data.rs:597-606 | the windows are fixed by the places they cover |
| UnifiedDiff.Hunks | crates/pi-builtins/src/data.rs:589-606 | hunk windows cover exactly the changes and their context |
| UnifiedDiff.OutsideIsSame | crates/pi-builtins/src/data.rs:589-606 | outside the hunks every line is unchanged |
| UnifiedDiff.WriteHunks | crates/pi-builtins/src/data.rs:613-661 | headers carry the true line numbers and counts of both sides, and bodies show every change of the window |
| UnifiedDiff.HeaderPointsAt | crates/pi-builtins/src/data.rs:613-661 | the numbers of a header point at the lines of its window in the old text and in the new one |
| UnifiedDiff.Unified | crates/pi-builtins/src/data.rs:583-664 | the whole text, empty when nothing changed |
| Patch.FindSlice | crates/pi-builtins/src/data.rs:731-736 | some place where the lines occur |
| Patch.FindSliceScan | crates/pi-builtins/src/data.rs:731-736 | the scan finds the first place, none for an empty needle |
| Patch.ReadHunk | crates/pi-builtins/src/data.rs:686-708 | both sides of the hunk up to the next header |
| Patch.ApplyPatch | crates/pi-builtins/src/data.rs:668-729 | hunks applied one after another where their old side first occurs, appended when they remove nothing; the failing hunk is named |
| Patch.HomeHunkApplies | crates/pi-builtins/src/data.rs:718-726 | a hunk found at its own place turns the old lines of its window into the new ones |
| Patch.PatchUndoesDiff | crates/pi-builtins/src/data.rs:583-729 | the printed patch, applied to the text it was made from, gives the new lines whenever every hunk is found at its own place |
| Patch.WholeFileLandsHome | crates/pi-builtins/src/data.rs:589-606 | when the context covers the file, every hunk is found at its own place |
| Patch.MissesHomeIff | crates/pi-builtins/src/data.rs:718-726 | a hunk with old lines misses its place if and only if an earlier copy of them stands in the buffer |
| PatchExact.OneHunkUndoesDiffIff | crates/pi-builtins/src/data.rs:583-729 | a diff of one hunk is undone by its patch if and only if the hunk lands well: at home, or with its new side running on with the skipped lines and stopping where the old side does |
| PatchExact.SlidesIff | crates/pi-builtins/src/data.rs:718-726 | lines slide across a run unchanged exactly when the run repeats them and what comes out continues it |
| PatchExact.DiffThenPatch | crates/pi-builtins/src/data.rs:538-729 | through the text: the new text when every hunk is at home, so whenever the context covers the file; for one hunk exactly when it lands well; of texts with the same lines the diff is no patch |
| PatchExact.EarlierCopyIsTaken | crates/pi-builtins/src/data.rs:718-726 | a concrete patch that replaces the first of two equal lines instead of the second |
| PatchExact.WrongLineReplaced | crates/pi-builtins/src/data.rs:583-729 | the diff and patch of `x y x` to `x y z` without context give `z y x` and no error |
| TextLines.LinesRoundTrip | crates/pi-builtins/src/text.rs:36-55 | splitting what was joined gives the lines back, the last newline starting no further line |
| Json.ParseUndoesPrinting | crates/pi-builtins/src/json.rs:75-437 | for every value with ascending keys and whole numbers below 10^15, reading either printed form gives the value back |
| Json.CompactHasNoControls | crates/pi-builtins/src/json.rs:75-104 | compact output holds no character below U+0020 |
| Json.QuoteReads | crates/pi-builtins/src/json.rs:168-187 | a printed string is read back, whatever follows it |
| JsonEscapes.CodedReads | crates/pi-builtins/src/json.rs:336-406 | any character written by its code, in one escape or two halves, with digits of either case, is read as that character |
| JsonEscapes.LoneHalvesFail | crates/pi-builtins/src/json.rs:376-396 | the first half of a pair without a second, and a second half alone, are errors |
| JsonEscapes.SomeRenderings | crates/pi-builtins/src/json.rs:75-149 | the two printed forms of an array of two items and an object of one field |
| Json.WholeReads | crates/pi-builtins/src/json.rs:153-166 | a printed whole number is read back as that number, wherever a number can stop |
| JsonNumbers.NumeralReads | crates/pi-builtins/src/json.rs:408-436 | a numeral with any sign, fraction and exponent is read whole, as the decimal number it denotes, wherever a numeral can stop |
| JsonNumbers.SomeNumerals | crates/pi-builtins/src/json.rs:408-436 | 1.5, 2e3 and -1E-2 are read as those numbers |
| JsonText.RoundTrip | crates/pi-builtins/src/json.rs:75-206 | both writers followed by the parser give the value back, and the compact text is one line |
| JsonText.WriteCompact | crates/pi-builtins/src/json.rs:75-104 | appends the compact form |
| JsonText.WritePretty | crates/pi-builtins/src/json.rs:113-149 | appends the form indented by two spaces a level |
| JsonText.WriteString | crates/pi-builtins/src/json.rs:168-187 | appends the quoted string with its escapes |
| JsonText.ParseText | crates/pi-builtins/src/json.rs:191-206 | the parser object reads what the grammar function reads, or gives its error |
| JsonText.JsonParser.ReadValue | crates/pi-builtins/src/json.rs:250-263 | the value at the position and where reading stops |
| JsonText.JsonParser.ReadObject | crates/pi-builtins/src/json.rs:272-305 | an object, a repeated key keeping its last value, and where reading stops |
| JsonText.JsonParser.ReadArray | crates/pi-builtins/src/json.rs:307-334 | an array and where reading stops |
| JsonText.JsonParser.ReadString | crates/pi-builtins/src/json.rs:336-374 | a string with its escapes and where reading stops |
| JsonText.JsonParser.ReadUnicodeEscape | crates/pi-builtins/src/json.rs:376-396 | a code unit or a surrogate pair, or the error a lone half gives |
| JsonText.JsonParser.ReadNumber | crates/pi-builtins/src/json.rs:408-437 | sign, digits, fraction and exponent of a number and where reading stops |
| JsonOrder.OrderAgrees | crates/pi-builtins/src/json.rs:644-673 | swapping the sides flips the order; on object-free values equal rank means equal |
| JsonOrder.OrderTransitive | crates/pi-builtins/src/json.rs:644-673 | the order is transitive, and a chain of ties is a tie |
| JsonOrder.OrderMeans | crates/pi-builtins/src/json.rs:644-673 | lower is: the lower kind of null, false, true, number, string, array, object; the smaller number; the string with the lower character at the first difference, or a proper beginning; the array lower at the first items that do not tie, or a proper beginning |
| TextOrder.LessMeans | crates/pi-builtins/src/json.rs:644-673 | a string is below another if it has the lower character where they first differ or is a proper beginning |
| JsonOrder.SortSorts | crates/pi-builtins/src/json.rs:732-739 | sorting leaves no later value ranking before an earlier one |
| JsonOrder.SortItems | crates/pi-builtins/src/json.rs:732-739 | the same elements, each below every later one or tied with it in those plain terms |
| JsonOrder.SortIsStable | crates/pi-builtins/src/json.rs:732-739 | values of the same rank keep their order |
| JsonOrder.SortedIsUnique | crates/pi-builtins/src/json.rs:732-739 | on object-free values there is one sorted arrangement, whatever algorithm made it |
| JsonOrder.Unique | crates/pi-builtins/src/json.rs:741-749 | the same elements ascending in plain terms; each stands there once if and only if no other value of its rank stands between two copies of it in the input; object-free arrays come out strictly ascending |
| JsonOrder.PlainIsGrouped | crates/pi-builtins/src/json.rs:741-749 | object-free arrays always meet that condition |
| JsonOrder.RepeatedObjectSurvives | crates/pi-builtins/src/json.rs:741-749 | a concrete failure: of two different objects `[a, b, a]` keeps both copies of `a` |
| Calendar.DateOfDayIsCounted | crates/pi-builtins/src/files.rs:216-232 | for every day the nested divisions give the Gregorian date counted day by day from 1970-01-01 |
| Calendar.DayAfterDay | crates/pi-builtins/src/files.rs:216-232 | every result is a date, and the next day is its calendar successor, leap and century rules included |
| Calendar.DayZero | crates/pi-builtins/src/files.rs:216-232 | day 0 is 1970-01-01 |
| Calendar.CivilIsExact | crates/pi-builtins/src/files.rs:216-232 | hour, minute and second are in range and recompose the seconds, and the date is the calendar's |
| Calendar.YearOfEraExact | crates/pi-builtins/src/files.rs:222-223 | the year division finds the year of the era the day lies in |
| Sha256.Hasher.Update | crates/pi-builtins/src/hash.rs:50-81 | after any update the state is the fold of the full blocks fed so far and the buffer their tail |
| Sha256.Hasher.Finish | crates/pi-builtins/src/hash.rs:83-102 | the digest of everything fed in |
| Sha256.DigestPieces | crates/pi-builtins/src/hash.rs:24-102 | any way of cutting a message into updates gives the digest of the whole |
| Sha256.FoldConcat | crates/pi-builtins/src/hash.rs:50-81 | folding blocks in two goes is folding them in one |
| Crc32.Crc32 | crates/pi-builtins/src/hash.rs:280-287 | the table loop gives the checksum of the bit-at-a-time reflected 0xedb88320 register |
| Crc32Answer.CheckValue | crates/pi-builtins/src/hash.rs:280-287 | the checksum of the digits 1 to 9 is the known check value 0xcbf43926 |
| Crc32.CrcTable | crates/pi-builtins/src/hash.rs:268-278 | the 256 entries are eight register steps each |
| Crc32.TableStep | crates/pi-builtins/src/hash.rs:280-287 | a byte fed bit by bit is one table look-up on the low byte and a shift of the rest |
| Crc32.StepsLinear | crates/pi-builtins/src/hash.rs:268-278 | register steps are linear over xor |
| Crc32.RegistersStayApart | crates/pi-builtins/src/hash.rs:280-287 | two different registers never meet on the same bytes |
| Crc32.BurstChangesCrc | crates/pi-builtins/src/hash.rs:280-287 | a change confined to four neighbouring bytes always changes the checksum |
| Base64.RoundTrip | crates/pi-builtins/src/hash.rs:330-369 | decoding what was encoded gives the data back, for every byte sequence |
| Base64.Encode | crates/pi-builtins/src/hash.rs:330-345 | groups of three bytes as four characters, a short last group padded |
| Base64.Decode | crates/pi-builtins/src/hash.rs:347-369 | the 32-bit accumulator loop decodes digit by digit, skipping padding and white space, or names the first bad character |
| Base64.TakeIsShift | crates/pi-builtins/src/hash.rs:355-366 | only the pending low bits of the accumulator matter: shifting and cutting it is the digit arithmetic |
| Base64.SkippingIsHarmless | crates/pi-builtins/src/hash.rs:350-354 | padding and white space make no difference, wherever they stand |
| Base64.RewrappedRoundTrip | crates/pi-builtins/src/hash.rs:330-369 | an encoding with line breaks put in or padding left off still decodes to the data |
| Base64.RefusedIff | crates/pi-builtins/src/hash.rs:347-369 | a text is refused exactly when some character is neither skipped nor in the alphabet |
| Sha256.Digest | crates/hashline/src/sha256.rs:23-90 | the one-shot loop gives the padded message folded block by block (FIPS 180-4, sections 5.1.1 and 6.2.2) |
| Sha256.PadMessage | crates/hashline/src/sha256.rs:24-34 | a one bit, zeros and the 64-bit length complete the last block |
| Sha256.CompressBlock | crates/hashline/src/sha256.rs:38-83 | schedule and rounds in place give the compression function |
| Sha256.FillSchedule | crates/hashline/src/sha256.rs:39-54 | the in-place schedule is the 64-word recurrence |
| Sha256.StreamedEqualsOneShot | crates/hashline/src/sha256.rs:23-90 | the streaming hasher and the one-shot digest agree on every message, however it is cut |
| Sha256Constants.RoundConstantsAreCubeRoots | crates/hashline/src/sha256.rs:7-16 | every round constant is the first 32 bits behind the point of the cube root of the prime of its place |
| Sha256Constants.InitialStateIsSquareRoots | crates/hashline/src/sha256.rs:18-20 | the initial state is those of the square roots of the first eight primes |
| Sha256Answer.DigestOfAbc | crates/hashline/src/sha256.rs:23-90 | the digest of "abc" is the known one, computed from the specification through every word and round |
| HashlineText.Normalize | crates/hashline/src/lib.rs:157-173 | the words of a line with single spaces between them |
| HashlineText.SameAnchorTextIff | crates/hashline/src/lib.rs:157-191 | two lines have the same anchor text if and only if they have the same words |
| HashlineText.NormalizedTwice | crates/hashline/src/lib.rs:157-173 | normalizing again changes nothing |
| HashlineText.ReindentingKeepsAnchor | crates/hashline/src/lib.rs:157-191 | white space added around a line leaves its anchor text alone |
| Hashline.Verify | crates/hashline/src/lib.rs:411-425 | true exactly when the hunk's context and deletions match the lines from there on, up to white space |
| Hashline.Buffer.Splice | crates/hashline/src/lib.rs:432-479 | goes through if and only if the hunk fits and every cut of an insertion's indentation falls between two characters; the buffer then holds the spliced lines and is untouched otherwise |
| Hashline.RebuiltLength | crates/hashline/src/lib.rs:432-479 | the lines put in less the lines taken out are insertions less deletions |
| Hashline.ContextChangesNothing | crates/hashline/src/lib.rs:439-457 | a hunk of context only puts back the lines it matched |
| Hashline.StripRemoves | crates/hashline/src/lib.rs:518-531 | stripping takes off leading white space only, exactly the given number of bytes or all there is |
| HashlineIndent.SplicedLines | crates/hashline/src/lib.rs:432-531 | every line of a spliced hunk in its place: context as the file has it, an insertion with what the file is indented more in front of it, or without as many bytes of its own indentation as the file is indented less |
| HashlineIndent.SplicedAround | crates/hashline/src/lib.rs:432-480 | the lines before and after a hunk are untouched |
| HashlineIndent.InsertedWithIndentation | crates/hashline/src/lib.rs:482-531 | where all is indented with one one-byte blank, an insertion is moved by exactly as much as the file is indented differently from the hunk, down to the margin |
| Hashline.AsciiCuts | crates/hashline/src/lib.rs:518-531 | indentation of one-byte characters can be cut anywhere |
| HashlineApply.NewIndex | crates/hashline/src/lib.rs:204-231 | every anchor is answered with exactly the lines that carry it, in order |
| HashlineFile.LinesRender | crates/hashline/src/lib.rs:204-275 | a text without carriage returns is rendered from its lines as it was |
| HashlineFile.ReturnsMakeNoDifference | crates/hashline/src/lib.rs:204-231 | a text and the same text with a carriage return before every newline have the same lines |
| HashlineApply.LocationFits | crates/hashline/src/lib.rs:301-393 | wherever a hunk is said to land it fits, and locating never gives a mismatch error |
| HashlinePlaces.LocationMeans | crates/hashline/src/lib.rs:301-411 | a hunk lands where the one line with its anchor has drifted to, or else at the first line that carries the anchor now where it fits; of several lines with the anchor, where the only one has drifted to that it fits; two that it fits are an error, and only with none is it recovered |
| HashlinePlaces.RecoveryMeans | crates/hashline/src/lib.rs:345-392 | recovery finds the first line with the words of the anchor text where the hunk fits, failing that the one place where it fits at all |
| HashlineApply.Locate | crates/hashline/src/lib.rs:301-393 | drifted anchor, anchor found again, the one candidate that fits, text and context, tried in that order |
| HashlineApply.RecoverSite | crates/hashline/src/lib.rs:345-392 | recovery by anchor text, then by the one place the required lines match, else not found |
| HashlineApply.SlideContext | crates/hashline/src/lib.rs:370-386 | exactly the places where the required lines match |
| HashlineApply.FindByAnchor | crates/hashline/src/lib.rs:395-403 | the first line with the anchor where the hunk fits |
| HashlineApply.Apply | crates/hashline/src/lib.rs:277-298 | hunks located against the original and applied in order, with content, resolutions and delta; or the first failure |
| HashlineApply.DeltaIsAddsLessDels | crates/hashline/src/lib.rs:277-298 | for any hunks: no located hunk is found not to match, and on success the delta is insertions less deletions |
| HashlineApply.DriftIsSimultaneous | crates/hashline/src/lib.rs:277-408 | hunks with unique anchors and ascending disjoint demands all land exactly and replace every span at once, unless a cut of indentation falls inside a character, which is then the outcome |
| HashlineApply.AsciiNeverPanics | crates/hashline/src/lib.rs:518-531 | with insertions indented by one-byte characters no application stops inside a character |
| HashlineApply.CutInsideCharacter | crates/hashline/src/lib.rs:518-531 | a concrete patch whose application stops: two bytes are cut from a three-byte space |
| HashlineReindent.ReindentedFilePatchesAlike | crates/hashline/src/lib.rs:277-479 | files that differ only in white space take a patch the same way, with the same resolutions and words, unless one of them stops inside a character |
| HashlineReindent.AsciiPatchesAlike | crates/hashline/src/lib.rs:277-531 | with insertions indented by one-byte characters the outcomes always agree |
| HashlineReindent.IndentationCanStopPatch | crates/hashline/src/lib.rs:482-531 | one hunk applies to a file and stops on the same file indented less |
| HashlineReindent.IndentKeepsWords | crates/hashline/src/lib.rs:518-531 | re-indenting an insertion keeps its words |
| LspLines.StartsExact | crates/pi-lsp/src/text.rs:21-38 | line starts strictly increase and are exactly the text's start and the places after LF, CRLF or a lone CR |
| LspLines.NewLines | crates/pi-lsp/src/text.rs:21-38 | the scan indexes every line start by its byte offset |
| LspLines.LineShape | crates/pi-lsp/src/text.rs:45-49 | a line is its content and one terminator, and the content holds neither CR nor LF |
| LspLines.LineAt | crates/pi-lsp/src/text.rs:45-49 | a line's content, and nothing past the last line |
| LspLines.OffsetOf | crates/pi-lsp/src/text.rs:53-60 | the byte of the character a position names, clamped to its line and to the text |
| LspLines.OffsetIsMonotone | crates/pi-lsp/src/text.rs:53-60 | a later position never names an earlier character |
| LspLines.Search | crates/pi-lsp/src/text.rs:63-66 | the last line that starts at or before a byte |
| LspLines.PositionOf | crates/pi-lsp/src/text.rs:63-72 | line and UTF-16 column of the character at a byte, clamped to the text |
| LspLines.CharacterComesBack | crates/pi-lsp/src/text.rs:53-72 | going to a position and back finds the character again, except that the middle of a CRLF goes to its start |
| LspLines.PositionComesBack | crates/pi-lsp/src/text.rs:53-72 | a real column of a real line is the position of the character it names |
| LspLines.OffsetRoundTrip | crates/pi-lsp/src/text.rs:53-72 | the same through the two methods: offset after position is the identity outside a CRLF |
| LspLines.PositionRoundTrip | crates/pi-lsp/src/text.rs:53-72 | position after offset is the identity on real columns |
| LspLines.Utf16ToByte | crates/pi-lsp/src/text.rs:76-85 | the byte of the first character at or past a UTF-16 column |
| LspLines.ByteToUtf16 | crates/pi-lsp/src/text.rs:88-94 | the UTF-16 column of the character at a byte |
| LspLines.ColumnsInvert | crates/pi-lsp/src/text.rs:76-94 | at character boundaries the two conversions undo each other |
| LspLines.ColumnSurvivesIff | crates/pi-lsp/src/text.rs:76-94 | a column comes back unchanged if and only if it is a character's first unit or the line's end |
| LspEdits.ApplyEdits | crates/pi-lsp/src/text.rs:223-252 | succeeds if and only if no edit begins before an earlier one ends, and then equals replacing one by one from last to first, same-point inserts kept in order |
| LspEdits.OrderUnique | crates/pi-lsp/src/text.rs:231-232 | there is one order by start and place in the list |
| LspEdits.ClearMakesCompatible | crates/pi-lsp/src/text.rs:234-242 | checking neighbours is enough to rule out every overlap |
| LspEdits.CompatibleIsClear | crates/pi-lsp/src/text.rs:234-242 | edits without overlap pass the check of neighbours |
| WorkspaceEdit.ApplyWorkspaceEdit | crates/pi-lsp/src/edit.rs:120-231 | a failing operation changes nothing, nor does a preview; otherwise directories are renamed and touched paths written in order, up to the first that fails, what was done staying done |
| WorkspaceEdit.CarriedOutIff | crates/pi-lsp/src/edit.rs:120-231 | without directory renames the files end up as the operations in order leave them, and no error is given, if and only if the edit is tidy: what it writes is no directory and below no file by then, and directories it takes away hold nothing that should stay |
| WorkspaceEdit.Overlay.Step | crates/pi-lsp/src/edit.rs:124-174 | one operation on the overlay does what it does on the files the overlay stands for, notes the paths it looks at, and for a directory the rename |
| WorkspaceEdit.CreationMeans | crates/pi-lsp/src/edit.rs:126-136 | a creation makes an empty file; one there already is replaced, left alone, or an error, as its flags say; no other content changes |
| WorkspaceEdit.RenameMeans | crates/pi-lsp/src/edit.rs:137-156 | a rename moves the content; a target there already is replaced, nothing moves, or it is an error, as its flags say; no other content changes |
| WorkspaceEdit.Overlay.Touch | crates/pi-lsp/src/edit.rs:79-86 | a path is touched once, in order; it remembers what the disk holds and changes nothing that is seen |
| WorkspaceEdit.Overlay.Get | crates/pi-lsp/src/edit.rs:88-91 | the content the overlay stands for |
| WorkspaceEdit.Overlay.Set | crates/pi-lsp/src/edit.rs:93-96 | the overlay then stands for the files with that path replaced |
| WorkspaceEdit.Overlay.ApplyTo | crates/pi-lsp/src/edit.rs:103-111 | text edits on a path agree with those on the files the overlay stands for |
| WorkspaceEdit.WriteOut | crates/pi-lsp/src/edit.rs:203-228 | the loops over directory renames and touched paths do what the write phase says, and stop where it stops |
| WorkspaceEdit.WriteAt | crates/pi-lsp/src/edit.rs:209-228 | one touched path is written, removed, removed with everything below it, or left alone |
| WorkspaceEdit.UntouchedUnchanged | crates/pi-lsp/src/edit.rs:120-231 | whatever comes of the edit, a file that no operation names, nor a directory above it, keeps its content |
| WorkspaceEdit.RenameBack | crates/pi-lsp/src/edit.rs:137-156 | renaming to a free name and back leaves the disk as it was |
| WorkspaceEdit.PerformInParts | crates/pi-lsp/src/edit.rs:120-231 | an edit in two parts is the one then the other, and a failing second part undoes the first |
| WorkspaceEdit.FileRenamedOntoDirectory | crates/pi-lsp/src/edit.rs:137-156 | a concrete failure: renaming a file onto a directory is accepted, the file is removed, and the write then fails |
| WorkspaceEdit.FileCreatedBelowFile | crates/pi-lsp/src/edit.rs:126-136 | a concrete failure: of two created files, the second below the first, the first is left behind |
| WorkspaceEdit.CancelledCreation | crates/pi-lsp/src/edit.rs:126-163 | creating and deleting a file at the name of a directory comes to no change, and takes the directory away with everything in it |
| WorkspaceEdit.RenamedAfterEditIff | crates/pi-lsp/src/edit.rs:137-143 | an edit of a file before the rename of a directory has the effect of the two in turn if and only if the file is not in the directory, which is renamed first |
| FileSystem.DirectoryMoves | crates/pi-lsp/src/edit.rs:203-208 | a directory renamed to a free name takes everything below it along and nothing else changes |
| WritePhase.WritesIff | crates/pi-lsp/src/edit.rs:209-228 | every touched path gets its turn if and only if each is ready at it: what is written is no directory and below no file still there, what is removed is there |
| WritePhase.StopsAt | crates/pi-lsp/src/edit.rs:209-228 | when the write phase fails, it is at the first path that is not ready, with the files just as those before it left them |
| WriteOrder.CarriedOutIff | crates/pi-lsp/src/edit.rs:203-228 | the writes give exactly the result of the edit if and only if a condition on the disk, the result and the order of the paths holds before anything is written |
| WriteOrder.PlainIsTidy | crates/pi-lsp/src/edit.rs:203-228 | that condition holds when no touched path is a directory or lies below a file or another touched path |
| DocumentSync.ServerHoldsLastSyncedTexts | crates/pi-lsp/src/client.rs:437-540 | over every run of syncs and closes: the client stays alive if and only if every write arrives, and a server replaying the notifications then holds exactly the text each file had when last synced, at its version |
| DocumentSync.OpensAndClosesAlternate | crates/pi-lsp/src/client.rs:459-540 | at every moment of such a run the opens of a file lead its closes by one or none, and a version counts the changes since the open |
| DocumentSync.DocumentsFollowSteps | crates/pi-lsp/src/client.rs:459-540 | the client tracks exactly the files whose last step found a text, with that text and version, whether or not writes arrive |
| DocumentSync.StepKeepsMirror | crates/pi-lsp/src/client.rs:459-540 | a delivered step keeps the server's copies those of the client, and an undelivered one ends the session |
| DocumentSync.Client.Sync | crates/pi-lsp/src/client.rs:459-531 | the state, the notifications sent and the outcome, an error exactly when a write it needs does not arrive |
| DocumentSync.Client.Close | crates/pi-lsp/src/client.rs:534-540 | an open document is forgotten and its close sent; an unknown one is left alone |
| DocumentSync.Client.Notify | crates/pi-lsp/src/client.rs:426-437 | a write that does not arrive ends the session |
| DocumentSync.RunSteps | crates/pi-lsp/src/client.rs:459-540 | the methods one after another reach the state the run function gives |
| PendingRequests.GivenIff | crates/pi-lsp/src/client.rs:398-424 | over every interleaving a request is given a reply if and only if that reply, with the request's own id, arrived while it was in the table and its requester had not stopped listening, and its write was not reported failed afterwards |
| PendingRequests.DeliveredOnce | crates/pi-lsp/src/client.rs:738-747 | a request finds at most one reply while waiting, so no reply or request is served twice |
| PendingRequests.LifeGoesOn | crates/pi-lsp/src/client.rs:398-424 | a request never goes back in its life, and a finished one keeps its outcome |
| PendingRequests.AliveIff | crates/pi-lsp/src/client.rs:315-446 | over every interleaving the client is alive until the stream ends or a write fails, and never again |
| PendingRequests.EndTellsEveryone | crates/pi-lsp/src/client.rs:700-719 | over every interleaving a request is told that the stream has ended if and only if it was waiting at the end, the reader came to it before its requester stopped listening, and its write was not reported failed |
| PendingRequests.LateRequestWaitsAlone | crates/pi-lsp/src/client.rs:398-404 | over every interleaving a request that enlists after the end is told nothing: it is still waiting, has timed out, or could not be written |
| PendingRequests.LateRequest | crates/pi-lsp/src/client.rs:398-404 | such an interleaving: the request looks at a live client, the stream ends, the request enlists |
| PendingRequests.ExpiredTimesOut | crates/pi-lsp/src/client.rs:412-420 | over every interleaving a request whose time is up ends with a timeout, even if its reply arrives before it is withdrawn |
| PendingRequests.RunSteps | crates/pi-lsp/src/client.rs:398-424 | the table run through any steps is in the state the run function gives |
| PendingRequests.Table.Start | crates/pi-lsp/src/client.rs:398-403 | a live client hands out a fresh id |
| PendingRequests.Table.Register | crates/pi-lsp/src/client.rs:404 | the id is waited for from then on, with an empty channel |
| PendingRequests.Table.GiveUp | crates/pi-lsp/src/client.rs:407-410 | a request that could not be written is withdrawn and the client marked dead |
| PendingRequests.Table.Handle | crates/pi-lsp/src/client.rs:735-747 | a reply goes down the channel of the waiting request with its id, and nowhere else; one that has stopped listening does not act on it |
| PendingRequests.Table.Drain | crates/pi-lsp/src/client.rs:713-715 | the reader takes every waiting request out of the table and has left its loop |
| PendingRequests.Table.Tell | crates/pi-lsp/src/client.rs:716-717 | the reader tells one request on its list, which hears it if it is still listening |
| PendingRequests.Table.Await | crates/pi-lsp/src/client.rs:412-413 | what the channel holds; with nothing there when the time is up, the requester stops listening while its request is still in the table |
| PendingRequests.Table.Leave | crates/pi-lsp/src/client.rs:414-420 | a requester whose time is up takes its request out of the table and answers with a timeout |
| Framing.FramesRead | crates/pi-lsp/src/transport.rs:25-64 | reading the frames of any bodies yields the bodies in order and then the end of the stream, whatever bytes they hold |
| Framing.BrokenStreamIsTold | crates/pi-lsp/src/transport.rs:25-57 | a stream that breaks off in a body yields the bodies before it and an error |
| Framing.FrameReads | crates/pi-lsp/src/transport.rs:25-64 | one frame reads back as its body, and the stream goes on after it |
| Framing.NoiseIsSkipped | crates/pi-lsp/src/transport.rs:36-52 | whole lines before the first length header are skipped, blank or not |
| Framing.HeadersAreSkipped | crates/pi-lsp/src/transport.rs:36-52 | further headers after the length change nothing |
| Framing.HeaderReads | crates/pi-lsp/src/transport.rs:46-51 | the length header that is written is read as that length |
| Framing.NameInAnyCaseIff | crates/pi-lsp/src/transport.rs:46-50 | the name of the length header in any case of its letters, and nothing else, is taken for it |
| Framing.LengthFitsIff | crates/pi-lsp/src/transport.rs:46-50 | a length is read if and only if it fits a 64-bit word |
| Framing.Reader.ReadMessage | crates/pi-lsp/src/transport.rs:25-55 | the next body, a clean end of stream, or an unexpected one, and where the reader then stands |
| Framing.Reader.ReadLine | crates/pi-lsp/src/transport.rs:33-37 | the next line with its newline |
| Framing.Writer.WriteMessage | crates/pi-lsp/src/transport.rs:59-64 | the frame of the body is appended |
| Merge.PlanExact | crates/pi-iso/src/merge.rs:127-203 | conflicts are exactly the paths where base, source and view pairwise differ; changes exactly those only the view moved; already applied those both moved alike |
| Merge.JudgeExact | crates/pi-iso/src/merge.rs:143-198 | the verdict on one path, and which kind of change it is |
| Merge.PlanMerge | crates/pi-iso/src/merge.rs:127-203 | every path any side mentions is judged once, in ascending order |
| Merge.MergePlan.Resolve | crates/pi-iso/src/merge.rs:206-225 | conflicts are settled in the order of the resolutions, unknown paths passed over |
| Merge.ResolvedExactly | crates/pi-iso/src/merge.rs:206-225 | the view's side is taken exactly where the first decision says so, and undecided conflicts stay |
| Merge.SettledPlan | crates/pi-iso/src/merge.rs:206-225 | a settled plan changes exactly the paths only the view moved or that were decided for it |
| Merge.ReplanAppliesNothing | crates/pi-iso/src/merge.rs:127-203 | planning again after applying leaves nothing to apply and the same conflicts |
| Merge.CleanRunIff | crates/pi-iso/src/merge.rs:127-203 | a run of views is clean exactly when no two of the trees moved a path to different places |
| Merge.FinalExact | crates/pi-iso/src/merge.rs:127-203 | the final tree has what any side moved a path to, and the base's content where none did |
| MergeDisk.NoUpdateIsLost | crates/pi-iso/src/lib.rs:258-283 | applying a plan never alters a path the source changed since the base, whether or not it gets through; it gets through if and only if nothing stands in the way of what the view writes, and then gives the merged tree |
| MergeDisk.AppliesIff | crates/pi-iso/src/lib.rs:258-283 | changes all get through if and only if each written path is clear of directories and of files not removed before it |
| MergeDisk.Source.ApplyPlan | crates/pi-iso/src/lib.rs:258-283 | changes one after another until one fails, those before it staying in place |
| MergeDisk.SettledMerge | crates/pi-iso/src/lib.rs:258-283 | a settled plan gets through exactly when its writes are clear, and puts the view's side only where it alone moved or was chosen |
| MergeDisk.OrderDoesNotMatter | crates/pi-iso/src/lib.rs:258-283 | views of one base that can be merged one after another in one order can be in every order, with the same tree |
| MergeDisk.RunAppliesIff | crates/pi-iso/src/lib.rs:258-283 | such a run gets through exactly when it is clean and no written path stands where a directory was or below a file of the final tree |
| MergeDisk.RunLeadsTo | crates/pi-iso/src/lib.rs:253-283 | each step of such a run is a plan without conflicts that gets through |
| MergeDisk.DirectoryCannotBecomeFile | crates/pi-iso/src/lib.rs:258-283 | a concrete view that turned a directory into a file: no conflict, and the apply fails |
| MergeDisk.DifferenceApplies | crates/pi-iso/src/lib.rs:166-283 | when the source has not moved, applying the difference gives the view unless it puts a file where there is a directory |
| Merge.DiffSnapshots | crates/pi-iso/src/lib.rs:166-186 | exactly the paths that differ, once each and sorted |
| Merge.DiffIsPlan | crates/pi-iso/src/lib.rs:166-186 | when the source has not moved, the plan is the difference of base and view |
| SearchIndex.RunOperations | crates/pi-mnemopi/src/index.rs:45-68 | after any run of insertions and removals the index is the one built afresh from the surviving documents |
| SearchIndex.Index.Insert | crates/pi-mnemopi/src/index.rs:45-57 | the document is replaced and the index is still the one built afresh |
| SearchIndex.Index.Remove | crates/pi-mnemopi/src/index.rs:59-68 | the document is gone and the index is still the one built afresh |
| SearchIndex.PostingsExact | crates/pi-mnemopi/src/index.rs:45-68 | no posting is empty, and every multiplicity is exact |
| SearchIndex.Index.Search | crates/pi-mnemopi/src/index.rs:71-104 | the top of the ranking of exactly the documents that hold some term, better scores first and ties by id |
| SearchIndex.RankingUnique | crates/pi-mnemopi/src/index.rs:99-103 | there is one such ranking, whatever order hash maps are walked in |
| SearchIndex.Index.SearchAllTerms | crates/pi-mnemopi/src/index.rs:109-129 | the ascending list of exactly the documents that hold every term |
| SearchIndex.SharedTermsCount | crates/pi-mnemopi/src/index.rs:78-96 | every term a document shares with the query counts in its favour, however common it is |
| SearchIndex.FoundScoresArePositive | crates/pi-mnemopi/src/index.rs:71-104 | every document found has a positive score |
| SearchIndex.FrequencySaturates | crates/pi-mnemopi/src/index.rs:91-94 | a repeated term weighs more each time and never reaches `K1 + 1` |
| SearchIndex.ShortOfBound | crates/pi-mnemopi/src/index.rs:91-94 | how far a weight stays below `K1 + 1`: by the share of the length penalty |
| SearchIndex.RarerTellsMore | crates/pi-mnemopi/src/index.rs:78-83 | with an increasing logarithm a term that fewer documents hold weighs more |
| SearchIndex.LongerScoresLower | crates/pi-mnemopi/src/index.rs:91-94 | of two documents with a term equally often, the longer one scores lower |

## Left out

- RegexProofs.RunComplete: the condition on patterns is sufficient, not necessary: `(a*)b` does not meet it and is searched rightly, `(a*)ab` does not meet it and is not.
- RegexSearch.FindFrom: counts steps without the wrap-around of a 32-bit counter, which only a search already out of budget could reach.
- RegexSearch.GroupsAreOwnMatches: does not say that a group lies inside the whole match; a lazy repeat keeps captures of longer walks, so it need not.
- Patch.PatchUndoesDiff: for several hunks the condition is sufficient only, since one misplaced hunk can make up for another; `PatchExact.OneHunkUndoesDiffIff` is exact for one hunk.
- TokenLines.LineIsTrueIff: takes block comment markers without newlines, as all built-in ones are.
- SearchIndex.Index.Search: scores are real numbers with an abstract logarithm that is positive above 1, so rounding and its ties are not modelled.
- MergeDisk.NoUpdateIsLost: takes contents for their hashes, and failures other than a file or directory in the way (permissions, a full disk) do not occur.
- WorkspaceEdit.CarriedOutIff: is for edits without directory renames, whose part of the write phase `WorkspaceEdit.ApplyWorkspaceEdit` and `WritePhase.StopsAt` describe.
- WorkspaceEdit.WriteOut: renames as POSIX does; permissions, a full disk, links, files that are not UTF-8, the report of changes and the JSON the edit arrives in are not modelled.
- LspLines.NewLines: scans characters where the source scans bytes; CR and LF are never part of a longer character.
- LspLines.PositionOf: line and column are unbounded, not 32 bits wide.
- HashlineApply.Apply: drops a carriage return before a newline, as the source does.
- HashlineReindent.ReindentedFilePatchesAlike: supposes that the indentation of the lines and of the insertions holds no U+0085, which counts as indentation but not as white space of an anchor.
- DocumentSync.RunSteps: a sync and a close are single steps; interleaving a close inside a running sync is not modelled.
- PendingRequests.RunSteps: ids are natural numbers. A reply arrives when it is sent; that the reader has taken the request out of the table just before makes no difference to any other thread.
- Framing.FramesRead: the decoding of header bytes is a parameter known only on one-byte characters.
- JsonText.WriteCompact: prints whole numbers below 10^15 only, as does the indented form.
- JsonText.RoundTrip: is about whole numbers; a number is exactly what its text says, where the source takes the nearest double, and printing others is not modelled, nor are a NaN, infinities and the sign of zero.
- The Unicode tables (letters, digits, case) are parameters; white space is the fixed list of the standard.
- The hash of an anchor is a parameter, as are the tokenizer and stemmer of the index.
- Texts of error messages; an error carries what the message is made of.
- Sorting by the library is insertion sort here; where its order is total the result is shown not to depend on that, elsewhere only its stability is used.
- Ordered maps are listings in ascending order, and hash maps are walked in any order.
- Memory: copying a hasher, sharing of strings, depth of recursion.
- The textual form of hashline patches, snippet texts, looking symbols up in a text.
- MD5, FNV and hex; `bc`, `seq`, globbing, shell flags, jq filters: dispatch and tables, or floating point.
- Processes, sockets, threads, terminals, installers, server registries, the debug-adapter session: plumbing over the operating system.
