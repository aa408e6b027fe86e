# Function Navigator — a verified model of the function list

Function Navigator is a VS Code extension. It shows the functions of the file in the active editor as a flat list. Each entry is labelled with its line number and its signature, such as `add(a, b)`. A *focus mode* shows only the functions the user has added to a *focus list*. That list is saved per file and reloaded when the editor changes.

This project models the `FunctionProvider` class of `src/extension.ts` with the editor host removed:

- the active editor is an `Option<Document>`, where a document is a URI and a sequence of lines;
- a `DocumentSymbol` is the datatype `Symbol(name, kind, startLine, children)`;
- the answer of the symbol-provider command is an input.

The modules follow the structure of the program:

| module | file | models |
|---|---|---|
| `Text` | text.dfy | `trim`, `includes`, `indexOf`, the `\s+` collapse, decimal numbers, `padStart` |
| `Patterns` | patterns.dfy | the three capturing regular expressions of the signature extractor |
| `Seqs` | seqs.dfy | `filter` and subsequences |
| `Symbols` | symbols.dfy | symbol kinds, the callback-name test, `findAllFunctions` |
| `Signatures` | signature.dfy | `getSignatureForSymbol`: the header-line scan, the multi-line joins, the pattern cascade and the fallback |
| `Listing` | listing.dfy | the stable sort by start line and the removal of repeated signatures |
| `Provider` | provider.dfy | the `FunctionProvider` class with its `focusMode` and `focusList` fields |
| `Label` | label.dfy | the tree-item label of `getTreeItem` |

The loops of the source are methods with loop invariants:

- the decorator-skipping `while` loop;
- the two line-joining `for` loops;
- the `findAllFunctions` walk;
- the de-duplication loop of `getChildren`.

Each method is proved equal to a function, and the properties are proved about that function. The fields the source updates in place are fields of the class `Provider.FunctionProvider`. Its methods state the new state in terms of the old one. `Valid()` keeps the focus list sorted by start line.

## Model

| member | source | states |
|---|---|---|
| Text.SpaceEnd | src/extension.ts:118 | the end of the whitespace run from a position, as `trim` and the greedy `\s*` and `\s+` take it: everything before it is whitespace and the next character is not |
| Text.TrimStartSpec | src/extension.ts:118 | the result is a suffix of the input, everything removed is whitespace, and it does not start with whitespace |
| Text.TrimEndSpec | src/extension.ts:118 | the result is a prefix of the input, everything removed is whitespace, and it does not end with whitespace |
| Text.TrimSpec | src/extension.ts:118 | `trim` gives the slice after the leading whitespace, followed in the input only by whitespace, neither starting nor ending with whitespace |
| Text.IndexOf | src/extension.ts:179 | `indexOf` is -1 or a position from which the text fits in the input |
| Text.IndexOfSpec | src/extension.ts:179 | `indexOf` finds an occurrence, none lies to its left, and it is -1 only when there is none |
| Text.ContainsChar | src/extension.ts:135 | `includes` of a one-character text is membership of that character |
| Text.ContainsPiece | src/extension.ts:222-226 | a text that contains `u` contains every piece of `u` |
| Text.CollapseSpec | src/extension.ts:148 | `replace(/\s+/g, ' ')` keeps the non-whitespace characters in order, leaves only single spaces as whitespace, never two in a row, and never lengthens the text |
| Text.CollapseIsSqueeze | src/extension.ts:148 | `replace(/\s+/g, ' ')` equals an independent reference: make every whitespace character a space, then reduce every run of spaces to one; so each maximal whitespace run becomes exactly one space and every other character is kept |
| Text.CollapseIdempotent | src/extension.ts:148 | collapsing twice is collapsing once |
| Text.CollapseCount | src/extension.ts:148 | collapsing keeps the number of each non-whitespace character |
| Text.CollapseLast | src/extension.ts:148 | collapsing keeps a final non-whitespace character |
| Text.Decimal | src/extension.ts:316 | `toString()` of a line count or number is a non-empty string of digits without a leading zero |
| Text.DecimalWidth | src/extension.ts:316 | the number of digits `toString()` writes is exactly the number needed: `n < 10^w`, and `10^(w-1) <= n` when `w > 1` |
| Text.DecimalRoundTrip | src/extension.ts:318 | reading back the digits of a number gives the number |
| Text.DecimalWidthMonotone | src/extension.ts:316-318 | a smaller number has no more digits than a larger one |
| Text.PadStart | src/extension.ts:319 | `padStart(width, ' ')` is as long as the wider of the text and `width`, ends with the text and is spaces before it |
| Patterns.WordEnd | src/extension.ts:132 | the end of a `\w+` run: all word characters, and the next character is not one |
| Patterns.CloseParen | src/extension.ts:132 | the position of the first `)` from a point on (`[^)]*\)`), or none |
| Patterns.CallAt | src/extension.ts:132 | a capture of `kw\s+(\w+\s*\([^)]*\))` at a position has the shape `name(params)`: a word character first, `)` last and nowhere before |
| Patterns.CallAtSound | src/extension.ts:132 | a capture found at a position comes from a split of the text that the pattern describes |
| Patterns.CallAtComplete | src/extension.ts:132 | whenever the pattern matches at a position, the matcher finds that match and its capture |
| Patterns.NoCallWhereFirstCharDiffers | src/extension.ts:132 | no match starts where the keyword's first character is absent |
| Patterns.PythonAt | src/extension.ts:157 | a capture of `(async\s+)?def\s+(…)` has the shape `name(params)` |
| Patterns.MatchAt | src/extension.ts:132-157 | any of the three patterns captures only `name(params)` texts |
| Patterns.FirstFromSpec | src/extension.ts:132 | the leftmost-position search that `match` performs: it finds a position where the test holds, none lies to its left, and it finds none only when the test holds nowhere in the range |
| Patterns.FirstMatchFrom | src/extension.ts:132 | the position it finds is at or after the starting point and inside the text |
| Patterns.FirstMatchFromSpec | src/extension.ts:132 | the leftmost position from which the pattern matches, no match lies to its left, and none is found only when the pattern matches nowhere |
| Patterns.Match | src/extension.ts:132-171 | `String.prototype.match`: the capture at the leftmost match is a `name(params)` text |
| Patterns.DefMatchIsPythonMatch | src/extension.ts:157 | wherever `def\s+(…)` matches, the Python pattern matches too |
| Patterns.PythonMatchIsDefMatch | src/extension.ts:157 | a Python match captures what `def\s+(…)` captures at the first place it matches at or after that position |
| Patterns.PythonAsyncIrrelevant | src/extension.ts:157-159 | the optional `async\s+` group never changes the captured signature |
| Seqs.Filter | src/extension.ts:299 | `filter` keeps exactly the elements satisfying the predicate and never lengthens the list |
| Seqs.FilterIsSubsequence | src/extension.ts:299 | `filter` keeps the kept elements in their original relative order |
| Seqs.FilterCount | src/extension.ts:299 | `filter` keeps every copy of a kept element and none of a dropped one |
| Seqs.FilterConcat | src/extension.ts:248-250 | filtering distributes over concatenation |
| Symbols.CallbackNameSimplified | src/extension.ts:222-226 | a name is callback-like exactly when it contains ` callback`, or contains both `()` and `.`; the `.reduce()`, `.map()` and `.filter()` tests are subsumed |
| Symbols.PreorderClosed | src/extension.ts:218-240 | the walk reaches every top-level symbol and every child of a symbol it reaches |
| Symbols.WalkIsPreorderFilter | src/extension.ts:218-240 | the depth-first walk keeps exactly the symbols that pass its test, from the whole tree, in pre-order |
| Symbols.FunctionsArePreorderFilter | src/extension.ts:218-240 | `findAllFunctions` keeps exactly the Function and Method symbols with callback-free names from the whole tree, below non-functions too, in pre-order |
| Symbols.WalkSnoc | src/extension.ts:221-236 | one more symbol at the end adds the symbol, when kept, then the walk of its children |
| Symbols.WalkConcat | src/extension.ts:220-239 | the walk of a list of symbols is the walk of its first part followed by the walk of the rest |
| Symbols.WalkOfLeaves | src/extension.ts:221-236 | two kept symbols without children are walked as they are |
| Symbols.QualifyingBeforeNested | src/extension.ts:221-235 | a kept symbol comes right before the functions nested in it |
| Symbols.FindAllFunctions | src/extension.ts:218-240 | the loop with its recursive call returns the walk `Functions` (the copy at 384-406 is the same code) |
| Signatures.HeaderFromSpec | src/extension.ts:117-126 | the first line in a range whose trimmed text starts with neither `@` nor `//`, every line before it being skipped |
| Signatures.HeaderIndex | src/extension.ts:114-126 | the header line lies within five lines after the start line and inside the document |
| Signatures.FindHeaderLine | src/extension.ts:113-126 | the `while` loop ends on the header line with its trimmed text, or with an empty line when there is none |
| Signatures.StopFrom | src/extension.ts:140-144 | where a join stops: after the first line containing the stop text, or at the end of the range |
| Signatures.JoinEnd | src/extension.ts:140-144 | a join reads at most the nine lines after the header and none past the document, and stops right after the first line containing `)` or `):` |
| Signatures.JoinHeaderLines | src/extension.ts:137-144 | the `for` loop (and its Python twin at 162-169) appends each following line trimmed and after one space, up to where `JoinEnd` says |
| Signatures.LeadingKeywordEnd | src/extension.ts:177 | `replace(/^\s*(function\|def\|public\|private\|static\|async\s+def)\s*/, '')` removes a prefix of the line |
| Signatures.LeadingKeywordAbsent | src/extension.ts:177 | nothing is removed exactly when none of the six alternatives occurs after the leading whitespace |
| Signatures.LeadingKeywordRemoved | src/extension.ts:177 | when alternative `k` is the first one, in the pattern's order, to occur after the leading whitespace, the removed prefix is that whitespace, that alternative (`async`, a whitespace run and `def` for the last) and the whitespace run after it, ending where the rest starts with a non-whitespace character or is empty |
| Signatures.CallTextIsSignatureText | src/extension.ts:132-159 | a single-line match is a signature text: it ends with its only `)` |
| Signatures.CollapsedCallText | src/extension.ts:146-149 | a collapsed multi-line match is still a signature text |
| Signatures.FallbackShape | src/extension.ts:175-184 | when the stripped line contains `(` and its first `)` is not its first character, the fallback is the prefix of the stripped line ending at that `)`; otherwise it is the name |
| Signatures.HeaderSignatureShape | src/extension.ts:131-186 | every branch of the JS, multi-line JS, Go, Python, multi-line Python and fallback cascade yields the name or a signature text |
| Signatures.SignatureShape | src/extension.ts:108-189 | a signature is the symbol's name or a text ending with its only `)` |
| Signatures.NoHeaderMeansName | src/extension.ts:109-129 | when all lines in the window are decorators or comments, the signature is the symbol's name |
| Signatures.SignatureOfHeader | src/extension.ts:128-188 | the branches after the scan compute `HeaderSignature` of the header line and of its JS and Python joins |
| Signatures.GetSignatureForSymbol | src/extension.ts:108-189 | the method computes `Signature`: the name without an editor, else the cascade on the header found |
| Listing.InsertByLine | src/extension.ts:291 | inserting adds exactly one element |
| Listing.SortByLine | src/extension.ts:291 | the sort keeps the length (the same sort is at lines 251 and 424) |
| Listing.InsertPermutes | src/extension.ts:291 | inserting adds exactly the one symbol to the multiset |
| Listing.InsertSorted | src/extension.ts:291 | inserting into a sorted list gives a sorted list |
| Listing.SortPermutes | src/extension.ts:291 | `sort` by start line is a permutation |
| Listing.SortSorted | src/extension.ts:291 | `sort` by start line gives a list non-decreasing by start line |
| Listing.InsertOnLine | src/extension.ts:291 | inserting keeps the order of the symbols on each line and adds the new one last among its line |
| Listing.SortStable | src/extension.ts:291 | `sort` keeps the relative order of symbols that start on the same line (JavaScript's sort is stable) |
| Listing.SortOfSorted | src/extension.ts:291 | sorting an already sorted list changes nothing |
| Listing.FilterSorted | src/extension.ts:299 | filtering a sorted list keeps it sorted |
| Listing.FilterInsert | src/extension.ts:291-299 | filtering after an insertion is the insertion into the filtered list, or the filtered list when the symbol is dropped |
| Listing.FilterSort | src/extension.ts:248-251 | filtering commutes with the sort by start line |
| Listing.FilterUndoesInsert | src/extension.ts:285-302 | filtering away a symbol just added to a sorted list restores the list |
| Listing.KeepPair | src/extension.ts:248-251 | two symbols that are both kept and already in line order are listed as they are |
| Seqs.FilterAll | src/extension.ts:299 | a filter that keeps everything changes nothing |
| Listing.InSorted | src/extension.ts:291 | a symbol is in the sorted list exactly when it is in the input |
| Listing.SortedFirsts | src/extension.ts:410-424 | the sorted de-duplicated list holds exactly the symbols that come first with their signature |
| Listing.KeysMember | src/extension.ts:287 | the `find`/`some` test on signatures: a signature is among the keys of a list exactly when some symbol of the list has it |
| Listing.KeepFirst | src/extension.ts:410-418 | the de-duplicated list is never longer than the input |
| Listing.DistinctKeysPairwise | src/extension.ts:410-418 | distinct keys means no two entries share a signature |
| Listing.KeepFirstDistinct | src/extension.ts:410-418 | after de-duplication no signature occurs twice |
| Listing.KeepFirstKeys | src/extension.ts:410-418 | de-duplication loses no signature |
| Listing.KeepFirstIsSubsequence | src/extension.ts:410-418 | de-duplication keeps the relative order of the input |
| Listing.KeepFirstKeepsFirsts | src/extension.ts:410-418 | the first symbol with a signature is kept |
| Listing.KeepFirstOnlyFirsts | src/extension.ts:410-418 | every kept symbol is the first with its signature |
| Listing.KeepFirstOfDistinct | src/extension.ts:410-418 | a list without repeated signatures is left as it is |
| Listing.InsertKeys | src/extension.ts:291 | inserting adds exactly the new symbol's signature to the multiset of signatures |
| Listing.SortKeys | src/extension.ts:291 | the sort keeps the multiset of signatures |
| Listing.FilterKeys | src/extension.ts:299 | filtering never adds a copy of a signature |
| Provider.FunctionProvider.constructor | src/extension.ts:100-106 | focus mode is off and the focus list is empty |
| Provider.FunctionProvider.SetFocusMode | src/extension.ts:280-283 | sets the focus mode and leaves the focus list alone |
| Provider.FunctionProvider.AddToFocus | src/extension.ts:285-295 | the focus list becomes `FocusAdded`: unchanged when an entry has the same signature, otherwise the symbol pushed and the list sorted by start line |
| Provider.FunctionProvider.RemoveFromFocus | src/extension.ts:297-302 | the focus list becomes `FocusRemoved`: the entries whose signature differs from the symbol's |
| Provider.FunctionProvider.LoadFocusList | src/extension.ts:191-257 | the focus list becomes `LoadedFocus`: empty without an editor or when the provider throws, otherwise the current functions with a stored signature, sorted |
| Provider.FunctionProvider.GetChildren | src/extension.ts:358-425 | empty without an editor or symbols; otherwise the focus list in focus mode, else `Listed`, the de-duplicated functions sorted by start line |
| Provider.ListedSortedDistinct | src/extension.ts:410-424 | the list outside focus mode is sorted by start line and has pairwise distinct signatures |
| Provider.ListedFirsts | src/extension.ts:384-424 | a function is listed exactly when it is the first in traversal order with its signature |
| Provider.ListedKeys | src/extension.ts:384-424 | every signature of the tree's functions is listed |
| Provider.AddedSorted | src/extension.ts:285-295 | adding keeps the focus list sorted by start line |
| Provider.AddedContents | src/extension.ts:285-295 | after adding, the signature is present; as a multiset, the entries are the old ones, or the old ones plus the symbol |
| Provider.AddedDistinct | src/extension.ts:285-295 | adding keeps the signatures in the focus list pairwise distinct |
| Provider.AddedIdempotent | src/extension.ts:285-295 | adding the same symbol twice is adding it once |
| Provider.RemovedContents | src/extension.ts:297-302 | after removal no entry has the signature, every entry with another signature is kept, in its original order |
| Provider.RemovedSortedDistinct | src/extension.ts:297-302 | removal keeps the list sorted and its signatures distinct |
| Provider.RemoveUndoesAdd | src/extension.ts:285-302 | removing a symbol just added with a new signature restores the focus list |
| Provider.LoadedContents | src/extension.ts:242-251 | the loaded list is sorted, and holds exactly the qualifying symbols of the tree whose signature is stored for the file |
| Provider.LoadedPair | src/extension.ts:242-251 | two childless functions in line order whose signatures are stored are loaded as they are |
| Provider.LoadedMayRepeatSignature | src/extension.ts:242-251 | unlike adding, loading does not remove repeated signatures: two functions with one stored signature are both loaded |
| Label.LabelLayout | src/extension.ts:315-341 | for a line inside the document, the label is the line number right-aligned with spaces (the column ends with the digits of the 1-based line and is spaces before them) in a column as wide as the digits of the line count, three spaces, then the signature; the column reads back as the 1-based line |
| Label.PaddedNumberReadsBack | src/extension.ts:316-319 | a padded line number has exactly the padding width and reads back once trimmed |
| Label.ColumnLayout | src/extension.ts:340-341 | a number padded to a width, three spaces and a text split apart again: the column is spaces followed by the digits, and reads back as the number |

## Left out

- Host plumbing is not modelled: `activate`, command registration, messages, `setContext`, the event emitter and `refresh`, and building the `TreeItem` with its `vscode.open` command (src/extension.ts:1-99, 276-278, 345-355). The `addCurrentToFocus` command, which finds the function under the cursor by range containment, is part of this wiring and is also left out.
- The retry loops around the symbol-provider command and their `setTimeout` delays (src/extension.ts:14-21, 200-216, 364-378) are not modelled. `LoadFocusList` and `GetChildren` take their outcome as input: `SymbolFetch` for the first, `Option<seq<Symbol>>` for the second.
- `saveFocusList` and the workspace storage are not modelled (src/extension.ts:259-274). The stored lists are a `map` input from file URI to the saved signatures. The saved start lines are never read back, so they are dropped. Entries without a `signature` field cannot be expressed.
- `getTreeItem` is not a method of the class. Its second decorator-skip loop computes a value it never uses (src/extension.ts:322-335). The label is the function `Label.TreeItemLabel`: `Label.Row` of the line count, the start line and `Signature`, which `GetSignatureForSymbol` is proved to compute.
- Label.TreeItemLabel: the `(invalid)` branch for a missing or negative start line (src/extension.ts:311-313) cannot arise, because start lines are natural numbers.
- The regular expressions are encoded only for the patterns used (src/extension.ts:132, 152, 157, 177, 148). A general JavaScript RegExp engine is out of scope.
- The focus list stores the symbol values themselves. Object identity is not modelled, so two equal symbols are the same entry.
- LoadFocusList and GetChildren read the editor once: the model passes one `ed` to the whole operation. The source takes the editor at the start (src/extension.ts:192, 359) and, after awaiting the symbol provider, reads `vscode.window.activeTextEditor` again inside `getSignatureForSymbol` (src/extension.ts:109, via 249 and 412-413). Both reads are assumed to see the same editor. If the editor changes or closes during the awaits, the source takes the signatures from another document or falls back to the names, and the model does not capture that.
- The sample programs under test-files/ are input for trying the extension by hand and are not modelled.
