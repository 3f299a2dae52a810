# kmp-lsp in Dafny

kmp-lsp is a language server for Kotlin, Java and Swift, with a Python command-line client.  This
project models the parts of it whose behaviour is easy to get wrong and hard to see, and proves what
they promise: the engine of the client, the pruned walks over syntax trees, the scoped reference
search, the index reset, and the text logic of symbol extraction.

Each module follows one part of the program.  Code that works by updating variables in loops is a
method whose `ensures` ties it to a function; what the program promises is proved about that function.
Threads are a step relation: a schedule is a sequence of moves, and theorems about `Run(moves)` hold
for every schedule.  The search tool, tree-sitter, JSON parsing and the conversion of paths to URIs are
parameters.  Text is ASCII, so that bytes, characters and UTF-16 units coincide.

| module | part of the program |
|---|---|
| `TextEdits` | applying LSP text edits bottom to top |
| `Framing` | `Content-Length` framing: writer and reader thread |
| `Router` | requests, dispatcher, lock, ids and queues of the client |
| `FeatureNames` | snake case and camel case of a feature name |
| `Replacing`, `Templates`, `EdgeNames` | generating file templates and expanding them |
| `SyntaxTree` | trees with rows and bytes, and cursors |
| `HintWalk` | the inlay-hint walk that skips subtrees and stops early |
| `SyntaxErrors` | the stack walk that prunes clean subtrees |
| `PointLookup` | from a point to a byte to the deepest node |
| `SlotLimiter` | the compare-and-swap loop that limits subprocesses |
| `ReferenceSearch` | scoped searches, widened by a second hop |
| `JavaSignature`, `RgLines` | bracket matching, Java return types, output lines of `rg` |
| `Candidates`, `IndexState` | deterministic lookup order; resetting the index to its library part |
| `Containers`, `Imports`, `DetailText` | containers of symbols, import lines, signature texts |
| `Text` | functions on strings that the other modules share |

## Where the code does not do what one would expect

Each of these is stated by the member named.  Where an expected property fails, the member, or the one
beside it in the table below, says exactly when it holds.

- An edit that reaches the empty line after a final line break makes `_apply_text_edits` fail with an
  index error, although the position is valid (`TextEdits.EditsSplice`).
- Two insertions at one position come out in the opposite of the listed order
  (`TextEdits.SameStartReversed`); an insertion followed by a replacement with the same start loses inserted
  text to the replacement (`TextEdits.InsertionReplaced`).
- A character beyond the end of its line, which LSP 3.17 takes for that end, is taken for the point behind the line
  break (`TextEdits.BeyondLineEnd`).
- A request whose message cannot be written leaves its queue registered for ever: the write happens
  before the `try` whose `finally` removes it (`Router.PendingAtRest`, `Router.FailedWriteExample`).
- A body that is not text ends the reader thread, since only `JSONDecodeError` is caught around the
  parse; other malformed bodies are skipped (`Framing.FramesRoundTrip`).
- A template generated from a file with dollar signs that need escaping does not expand to the file
  (`Templates.TemplateRoundTrip`, `Templates.DollarExample`), and a feature name with an underscore at its edge
  damages the sentinel of another name in some file (`EdgeNames.EveryFileIffNoEdge`, `EdgeNames.EdgeExample`).
- A file that holds a placeholder of scaffolding, such as `${FEATURE_NAME}`, keeps it in its template, where it is taken
  for the value (`Templates.OwnPlaceholder`).
- Two containers on the same lines with different columns put a cycle into the containers
  (`Containers.AcyclicIffNoClash`, `Containers.CycleExample`).
- The scanner for import lines, unlike the syntax tree, looks for single blanks: a tab behind `import` hides the
  statement, one behind `static` leaves the keyword in the path, one next to `as` loses the alias, further blanks
  before `as` stay on the path, and the renamed path `static` is taken for the keyword (`Imports.LineParsed`,
  `Imports.LineRoundTrip`).  A semicolon without a path gives an entry with an empty path (`Imports.EmptyStatement`).
- Definitions with equal URI and start come out in an order that depends on how they were stored
  (`Candidates.CandidatesDetermined`, `Candidates.TieExample`).
- After a reset, the definitions of a library file without file data are still there but no longer count as
  library definitions, so they show up as workspace candidates (`IndexState.CandidatesAfterReset`).
- The comment at the top of `reset_index_state` says that `library_uris` is cleared at its end; the code, and
  the comment at its end, keep the URIs that still have file data (`IndexState.Indexer.ResetIndexState`).
- A syntax error below a MISSING node, or below a suppressed comma, is not reported; "all ERROR and
  MISSING nodes" means those without such a node above them (`SyntaxErrors.ReportedPositions`).

## Model

| member | source | states |
|---|---|---|
| TextEdits.ApplyTextEdits | contrib/kotlin-cli.py:1134-1160 | the loop over the sorted edits, each of which overwrites a slice of `lines`, writes the text `EditedText`, or fails on an index out of range and writes nothing |
| TextEdits.EditsSplice | contrib/kotlin-cli.py:1146-1157 | for all in-bounds, disjoint edits with distinct starts, in any order: the result is the simultaneous splice of all edits on the joined text if no edit reaches the empty line after a final line break, and a failure otherwise |
| TextEdits.Coordinates | contrib/kotlin-cli.py:1142-1157 | the valid positions are exactly the points between the characters of the text, one for each offset: the line is the number of line breaks before it, the character the distance from the last of them |
| TextEdits.SameStartReversed | contrib/kotlin-cli.py:1146-1157 | two insertions at one position come out reversed, so they are as LSP 3.17 "TextEdit[]" wants exactly if the two texts commute |
| TextEdits.InsertionReplaced | contrib/kotlin-cli.py:1146-1157 | an insertion followed by a replacement with the same start: what comes out, on one line and over several, and exactly when it is what LSP 3.17 wants |
| TextEdits.BeyondLineEnd | contrib/kotlin-cli.py:1146-1157 | an insertion at a character beyond the end of a line lands behind the line break, so it is as LSP 3.17 wants exactly if its text commutes with the line break |
| TextEdits.SortDescendingSorts | contrib/kotlin-cli.py:1146-1150 | `sorted(..., reverse=True)` is a permutation in descending order of start |
| Framing.ReaderThread | contrib/kotlin-cli.py:86-111 | the loop over the stream consumes it frame by frame as the recursive specification does, and ends |
| Framing.ReadHeaderLines | contrib/kotlin-cli.py:90-99 | the inner loop collects the header lines up to the blank one; a later header of the same name wins |
| Framing.ReadFrame | contrib/kotlin-cli.py:90-109 | a frame at the front of any stream is taken whole, whatever its header lines and body contain; an empty body is skipped, and a body that is not text ends the thread |
| Framing.FramesRoundTrip | contrib/kotlin-cli.py:86-111 | for all frames with any further headers and any bytes as bodies: the queue gets the JSON bodies in order, and the reader reaches the end of the stream iff no non-empty body fails to be text |
| Framing.AnyLength | contrib/kotlin-cli.py:86-111 | a length field of any spelling and value: the reader goes on with the number, exactly if the value is one for Python's `int`; 0 skips the frame, -1 reads everything, other negative numbers and no numbers end the thread |
| Framing.NoLength | contrib/kotlin-cli.py:86-111 | headers without a length field are skipped |
| Framing.BrokenHeaders | contrib/kotlin-cli.py:86-111 | a stream that ends among the headers ends the thread quietly; a header line that cannot be decoded ends it with an exception |
| Framing.EncodeRoundTrip | contrib/kotlin-cli.py:81-111 | reading the concatenation of `_encode` outputs yields exactly the bodies, in order, with nothing left over, even if bodies look like headers |
| Router.Reachable | contrib/kotlin-cli.py:137-171 | the invariant on ids, lock, registered queues, wire and dispatcher holds after every schedule of callers, notifiers, dispatcher, timeouts and server |
| Router.UniqueIds | contrib/kotlin-cli.py:154-159 | no two calls of `request` use the same id |
| Router.WireIncreases | contrib/kotlin-cli.py:154-160 | ids are written in strictly increasing order, with notifications in between |
| Router.OwnResponse | contrib/kotlin-cli.py:143-162 | a request only ever returns a message that carries its own id |
| Router.PendingAtRest | contrib/kotlin-cli.py:154-167 | once all requests have ended, `_pending` holds exactly the ids whose write raised; it is empty iff no write failed |
| Router.FailedWriteExample | contrib/kotlin-cli.py:154-160 | the schedule of one request whose write raises, and the entry it leaves |
| Router.AnswerReturned | contrib/kotlin-cli.py:161-164 | on every schedule a request ends in a timeout exactly if the schedule says so, and then nothing had been put into its queue by that time; otherwise it returns the first message ever put into its queue |
| Router.ResponseReturned | contrib/kotlin-cli.py:137-167 | a response that is looked up while its request waits for the first one is what this request returns, on every schedule on which it does not time out |
| Router.RegisteredIsDelivered | contrib/kotlin-cli.py:143-148 | a response looked up while its request is registered is the next message the dispatcher hands over, to that request's queue, whatever the other threads do |
| Router.ListeningGoesOn | contrib/kotlin-cli.py:161-164 | a request that listens can take a message iff one was put into its queue, and can time out iff none was |
| Router.DispatchedInOrder | contrib/kotlin-cli.py:137-148 | every message with an id that the server sent has been handed over, is with the dispatcher or is waiting, in the order of sending |
| Router.WireIsWritten | contrib/kotlin-cli.py:150-160 | the server gets the id of exactly those requests that were written without an exception |
| Router.WaitingEnds | contrib/kotlin-cli.py:137-171 | calls can begin at any time, a free lock can be taken by whoever waits for it, and the dispatcher can go on while there is a message |
| Router.NoDeadlock | contrib/kotlin-cli.py:137-171 | whoever holds `_send_lock` always has a next step |
| Router.LspClient.BeginRequest | contrib/kotlin-cli.py:155-160 | the locked block of `request` on the fields `_id` and `_pending` makes exactly the steps of the state machine, whether or not the write succeeds |
| Router.LspClient.Receive | contrib/kotlin-cli.py:161-164 | `q.get` takes the first message of the queue or, if it is empty, gives up: one step of the state machine |
| Router.LspClient.EndRequest | contrib/kotlin-cli.py:165-167 | the locked block in the `finally` clause makes exactly the steps that deregister the request |
| Router.LspClient.LookUpQueue | contrib/kotlin-cli.py:143-148 | the locked block of the dispatcher finds the queue registered for the id, if any |
| FeatureNames.SnakeRule | contrib/kotlin-cli.py:211-214 | the two passes together, for every name: lower case, with an underscore before an upper-case letter that follows a lower-case letter or a digit, or that stands between any character of its line and a lower-case letter |
| FeatureNames.WordsOfName | contrib/kotlin-cli.py:211-214 | a name made of words becomes the words in lower case joined by underscores, and in camel case only its first word changes |
| Replacing.MarkPass | contrib/kotlin-cli.py:325-340 | a leftmost, non-overlapping replace pass over a text that holds the sentinels of the passes before replaces the name in the plain text only, provided the name is separable from those sentinels |
| Replacing.EdgeAbsent | contrib/kotlin-cli.py:325-340 | a name with an underscore at its edge is found nowhere, sentinels included, if the rest of it does not stand in the plain text |
| Replacing.RestorePass | contrib/kotlin-cli.py:361-367 | a replace pass turns exactly the sentinels of its kind into placeholders |
| Templates.NoEscapedPlaceholder | contrib/kotlin-cli.py:343-377 | an escape inserted before a dollar sign of the file never stands before a restored placeholder, so the unescape pass changes nothing |
| Templates.ExpandMeaning | contrib/kotlin-cli.py:217-222 | expanding a template whose own text has no placeholder substitutes each mark by its value and changes nothing else |
| Templates.BraceMatchIs | contrib/kotlin-cli.py:217-222 | a reference is `${`, at least one letter, digit or underscore, and `}` |
| Templates.ExpandRule | contrib/kotlin-cli.py:217-222 | expansion of any text goes from reference to reference: known variables are replaced, unknown ones and everything else kept |
| Templates.EscapeRule | contrib/kotlin-cli.py:343-358 | the two escape passes put a backslash before exactly the dollar signs of `${...}`, and of `$ident` unless `__` follows, and change nothing else |
| Templates.TemplateAbstracts | contrib/kotlin-cli.py:325-395 | the template is the file with placeholders for the values and backslashes before dollar signs; each value is gone from the text that is left once it had its turn, package first, then Pascal, camel and snake case |
| Templates.OwnPlaceholder | contrib/kotlin-cli.py:343-395 | a file that is a placeholder of scaffolding is its own template, and expands to the value |
| Templates.EscapesNothing | contrib/kotlin-cli.py:343-358 | the escape pass changes nothing iff `${...}` matches nowhere and `$ident` only where `__` follows the dollar sign |
| Templates.TemplateRoundTrip | contrib/kotlin-cli.py:325-395 | for files without backslash and variable names, and names of the feature that can be told apart from earlier sentinels in that file: `_expand_vars(_parameterize(text))` with the variables of scaffolding gives back the text iff there is nothing to escape once the sentinels are in; further variables make no difference |
| Templates.DollarExample | contrib/kotlin-cli.py:343-358 | for example with the feature `Foo` the file `$x` does not come back |
| Templates.PlainFileRoundTrip | contrib/kotlin-cli.py:325-395 | in particular every file without dollar signs comes back |
| Templates.AlnumFeature | contrib/kotlin-cli.py:211-214 | the snake-case name of a feature of letters and digits has no double underscore and none at its ends, so such a feature is separable in every file iff none of its names occurs in a sentinel of an earlier pass |
| EdgeNames.EveryFileIffNoEdge | contrib/kotlin-cli.py:325-395 | for a feature whose names hold no `__` and occur in no sentinel of an earlier pass: every file without dollar signs, backslashes and variable names comes back, with every package, iff no name of the feature has an underscore at its edge and, without it, could stand in such a file |
| EdgeNames.EdgeUnderscoreFails | contrib/kotlin-cli.py:325-395 | for the first name of the feature that has such an underscore, the file made of the rest of the name next to the package does not come back |
| EdgeNames.EdgeExample | contrib/kotlin-cli.py:325-395 | for example with the feature `_Q` in package `p` the file `pQ` comes back as `p_FEATURE_NAME__` |
| SlotLimiter.CounterIsLiveGuards | src/rg.rs:27-73 | after every interleaving, with spurious failures of the weak compare-and-swap, the counter is the number of live guards and at most 3 |
| SlotLimiter.DropNeverUnderflows | src/rg.rs:35-41 | a drop finds a positive counter and lowers it by one |
| SlotLimiter.AllGone | src/rg.rs:27-73 | when no guard is live, the counter is 0 |
| SlotLimiter.FreeSlotIsTaken | src/rg.rs:50-73 | a call made while fewer than 3 guards are live gets one if nothing disturbs it |
| SlotLimiter.DeniedWhenFull | src/rg.rs:50-73 | every `None` has an instant inside its call at which 3 guards were live |
| HintWalk.CstHints | src/inlay_hints.rs:81-176 | the cursor walk that skips subtrees before the range and stops at the first node behind it terminates and gives exactly the hints of the full preorder walk, in order |
| HintWalk.PropertyHint | src/inlay_hints.rs:251-326 | a property shows the type inferred for the node behind its `=`, at the end of its name, iff it has no `:` and that end is in the range; at most once |
| HintWalk.FunctionHint | src/inlay_hints.rs:350-410 | a function with `=` shows the type of the expression at the end of its parameters, iff it has no `:` and that end is in the range |
| HintWalk.LambdaHint | src/inlay_hints.rs:182-248 | a lambda shows the types of its first parameter list, in order: of each parameter without `:` whose name begins with a lower-case letter and starts in the range |
| HintWalk.ReceiverHints | src/inlay_hints.rs:122-149 | `it` and `this` show their contextual type at their end, iff they start in the range |
| HintWalk.OtherNodes | src/inlay_hints.rs:121-158 | nodes of any other kind show nothing |
| HintWalk.NodeOutside | src/inlay_hints.rs:182-465 | every guard line of the hint helpers lies in the rows its node spans: a node outside the range yields nothing |
| HintWalk.SkipIsSafe | src/inlay_hints.rs:81-176 | a subtree that ends before the range yields nothing |
| HintWalk.StopIsSafe | src/inlay_hints.rs:81-176 | from a node that starts behind the range on, the whole rest of the preorder yields nothing |
| HintWalk.LeaveSubtree | src/inlay_hints.rs:81-176 | the climb to the next sibling of the nearest ancestor loses no node behind the subtree and makes the remaining walk shorter |
| HintWalk.VisitNode | src/inlay_hints.rs:81-176 | the hints of one node are pushed behind those collected before, lambda parameters one at a time |
| SyntaxErrors.CollectSyntaxErrors | src/parser.rs:1143-1206 | the stack walk with pruning, deduplication and cap gives the first twenty reports with distinct starts of the unpruned walk |
| SyntaxErrors.CleanReports | src/parser.rs:1198-1202 | a subtree without error or missing node has nothing to report, so pruning loses nothing |
| SyntaxErrors.PopStep | src/parser.rs:1152-1203 | each round keeps what is reported plus what is to come, and shrinks the stack's total size |
| SyntaxErrors.ReportedPositions | src/parser.rs:1143-1206 | at most 20 errors at distinct starts; fewer than 20 are exactly the starts of the ERROR and MISSING nodes that are neither suppressed commas nor below a MISSING node or such a comma |
| SyntaxErrors.ReportedNodes | src/parser.rs:1143-1206 | every reported error has the range and the message of a node that explains it: what is missing, or the first line of the first 30 characters |
| SyntaxErrors.SuppressedCommas | src/parser.rs:924-946 | the suppressed nodes are the lone commas behind `@file:` and `[` at the start of their line |
| PointLookup.LineStarts | src/inlay_hints.rs:61-69 | the loop collects the line starts |
| PointLookup.StartsMeaning | src/inlay_hints.rs:61-69 | they are, in increasing order, exactly 0 and the offsets behind line breaks |
| PointLookup.ByteAt | src/node_ext.rs:50-102 | the scanned byte is the row's line start plus the column, clamped to the row's end, or the end of the file for rows past the last |
| PointLookup.DescendantForPoint | src/node_ext.rs:50-102 | the resumed descent gives the node on the path to that byte, 512 levels down at most |
| PointLookup.PathIsHolders | src/node_ext.rs:50-102 | the path consists of exactly the nodes whose half-open span holds the byte |
| PointLookup.DeepestIsUnique | src/node_ext.rs:50-102 | its end is the one deepest such node |
| PointLookup.ResumeAnywhere | src/node_ext.rs:50-102 | starting from any ancestor on the path gives the same node, within the depth bound |
| ReferenceSearch.ExtendUniqueFiles | src/rg.rs:782-797 | the loop that pushes the files not yet listed |
| ReferenceSearch.ExtendIsUnion | src/rg.rs:782-797 | the extended list is the union, without new repetitions |
| ReferenceSearch.ProducerScopedCandidateFiles | src/rg.rs:1535-1595 | the loop over the producers and the two caps decide the outcome of hop 2 |
| ReferenceSearch.HopTwoCaps | src/rg.rs:1535-1595 | hop 2 widens the search iff hop-1 files declare 1 to 8 distinct producer members, however often each is declared, and at most 256 new files call one of them; it adds exactly those files, and otherwise leaves the candidates as hop 1 found them |
| ReferenceSearch.AppendUniqueReferenceHits | src/rg.rs:871-952 | the loop with its seen set gives the specified list |
| ReferenceSearch.AppendIsUnion | src/rg.rs:871-952 | the locations are those found before and those of the kept hits, without new repetitions |
| ReferenceSearch.OwnerFinds | src/rg.rs:1171-1258 | what the owner-scoped search finds, in terms of the files and hits alone: in the requesting file the declaration if wanted; elsewhere what is no declaration and hints at the owner or lies in an added file |
| ReferenceSearch.FieldFinds | src/rg.rs:1690-1767 | what the field-scoped search finds: in the requesting file everything but declarations on other lines than the field's; elsewhere what is no declaration, by the Java tests too in Java files |
| ReferenceSearch.ParentFinds | src/rg.rs:871-1089 | what the parent-scoped search finds: the qualified matches, and the bare matches in importing, declaring, same-package and added files but for declarations in added files, Java methods elsewhere and types with another qualifier |
| ReferenceSearch.OwnerHop2 | src/rg.rs:1171-1258 | for every search tool, hop 2 only appends to the owner-scoped search; the earlier hits are all outside, the appended ones all inside, the at most 256 added files |
| ReferenceSearch.FieldHop2 | src/rg.rs:1690-1767 | hop 2 leaves the hits of the field-scoped search in files it does not add as they are, in order, and also those in added files that declare the member; in other added files there was none |
| ReferenceSearch.ParentHop2 | src/rg.rs:954-1089 | hop 2 only appends to the parent-scoped search, new locations in the at most 256 added files |
| ReferenceSearch.RefusedIsHop1 | src/rg.rs:1535-1595 | without a producer, with more than 8 members, or with more than 256 new files, each of the three searches gives exactly its hop-1 result |
| JavaSignature.BalancedParenClose | src/rg.rs:1860-1875 | the forward depth scan finds the matching `)` |
| JavaSignature.BalancedParenOpenBackward | src/rg.rs:1884-1899 | the backward depth scan finds the matching `(` |
| JavaSignature.MatchingIsSymmetric | src/rg.rs:1860-1899 | on every text the forward scan behind the `(` at i answers j iff the backward scan before the `)` at j answers i, and both say that the text between is balanced |
| JavaSignature.RtakeTypeToken | src/rg.rs:1469-1482 | the backward scan takes the last token outside angle brackets |
| JavaSignature.NoReturnType | src/rg.rs:1452-1463 | a signature with no type before its name, and a text without `)`, yields nothing |
| JavaSignature.ReturnTypeFound | src/rg.rs:1452-1482 | `prefix T name(params) tail` yields T whenever params is balanced, even if the prefix holds annotation arguments |
| RgLines.LineRoundTrip | src/rg.rs:2090-2123 | all four fields of a printed line are recovered, for any content and u32 numbers, iff the path has no colon but that of a drive letter (plain or behind `\\?\`) |
| RgLines.AnyNumbers | src/rg.rs:2090-2123 | with any text in the place of the numbers, the line is read exactly if both are u32 numbers for `parse`, with or without a content |
| RgLines.LocationRoundTrip | src/rg.rs:2066-2084 | the numbers, less one, become the position in the path's document, if it has a URI |
| Candidates.WorkspaceDefCandidates | src/indexer.rs:822-849 | filtering, sorting in place and truncating gives a list of candidates of the workspace entries |
| Candidates.WorkspaceIs | src/indexer.rs:822-849 | the workspace entries are the definitions in known files outside the libraries |
| Candidates.KeyOrder | src/indexer.rs:822-849 | the order is by URI as in a dictionary, then by line, then by character |
| Candidates.CandidatesAreLeast | src/indexer.rs:822-849 | such a list is sorted by URI and start and holds the 64 least entries, with their multiplicities |
| Candidates.CandidatesDetermined | src/indexer.rs:822-849 | every storage order and every sort give the same list iff no two different entries, the first of them among the first 64, share URI and start |
| Candidates.TieExample | src/indexer.rs:822-849 | two definitions with the same start may come out in either order |
| Candidates.WorkspaceOrder | src/indexer.rs:822-849 | permuting the stored definitions permutes the non-library entries |
| Candidates.SameAnswer | src/indexer.rs:822-849 | with distinct keys, the answer is the same for every permutation of the stored definitions |
| IndexState.Indexer.ResetIndexState | src/indexer.rs:520-626 | every map becomes its restriction to the library URIs captured at entry, library status is kept for files with data only, the caches and the record of enrichment requests are cleared, and the completion epoch advances |
| IndexState.Indexer.ResetExtensions | src/indexer.rs:583-600 | collecting the changes of `extension_by_receiver` and making them afterwards equals filtering it directly |
| IndexState.Indexer.CollectExtensions | src/indexer.rs:583-594 | the keys collected are exactly those with nothing left, and every list that changes is collected |
| IndexState.RetainLists | src/indexer.rs:539-567 | `retain` with a closure that filters each list leaves the filtered, non-empty lists |
| IndexState.RestrictTwice | src/indexer.rs:520-626 | restricting to two sets of files in turn is restricting to their intersection |
| IndexState.SecondReset | src/indexer.rs:520-626 | a second reset restricts to the library files with data, so it changes nothing when every library file has data |
| IndexState.ResetKeeps | src/indexer.rs:520-626 | what each of the maps holds afterwards: exactly what belongs to a file that was a library file, and no empty lists |
| IndexState.LookupAfterReset | src/indexer.rs:779-799 | right after a reset a lookup finds the library definitions in stored order, then the definitions of the JARs it loads or has loaded, which are the same as before |
| IndexState.LookupFinds | src/indexer.rs:779-799 | which definitions these are: those in library files, and those of the JARs |
| IndexState.CandidatesAfterReset | src/indexer.rs:822-849 | right after a reset a name has no workspace candidate iff no library file without file data defines it |
| Containers.FindParent | src/parser.rs:846-860 | the filter and `min_by_key` give the first tightest encloser |
| Containers.Parent | src/parser.rs:846-860 | it encloses the symbol and no encloser has a smaller (line span, column span); there is none iff nothing encloses the symbol |
| Containers.ParentIs | src/parser.rs:834-866 | it is the first class, interface, struct, enum or object with the smallest (lines, columns) among those around the symbol's lines |
| Containers.AssignContainers | src/parser.rs:834-866 | the loop gives every symbol its container by the ranges, whatever was assigned before it |
| Containers.AcyclicIffNoClash | src/parser.rs:834-866 | following containers never returns to its start iff no two containers lie on the same lines with different ranges |
| Containers.CycleExample | src/parser.rs:834-866 | two classes on one line become each other's container |
| Containers.ChainIsEnclosers | src/parser.rs:834-866 | when container lines are disjoint or strictly nested, following containers lists exactly the enclosers, innermost first |
| Imports.ParseImportsFromLines | src/parser.rs:1970-2028 | the loop over the lines collects the entries in order |
| Imports.LineParsed | src/parser.rs:1970-2028 | what is read of a printed statement with any white space between its words, any indentation, semicolons and comment: nothing, a path with the keyword in it, or the entry `Scanned` gives |
| Imports.LineRoundTrip | src/parser.rs:1913-2028 | the scanner and the syntax-tree constructor build the same entry iff a blank follows each keyword, a renaming has exactly one blank before `as` and a blank right behind it, and the renamed path is not `static` |
| Imports.EmptyStatement | src/parser.rs:1970-1990 | the keyword with nothing behind it gives no entry, but one with an empty path if there is a semicolon |
| Imports.FileRoundTrip | src/parser.rs:1913-2028 | a file of imports printed with that spacing, between other lines, gives exactly those entries, in order |
| DetailText.ExtractTypeWithGenerics | src/detail_text.rs:147-173 | the loop that tracks angle-bracket depth takes the type up to a stop character |
| DetailText.DeclaredReturnInDetail | src/detail_text.rs:110-140 | the backward search terminates with the specified answer |
| DetailText.LastDeclarationWins | src/detail_text.rs:110-140 | that answer belongs to the last `)` that declares a return type |
| DetailText.SignatureRoundTrip | src/detail_text.rs:82-173 | a return type behind the parameter list is recovered by `extract_return_type_from_detail`, and its nullability by `extract_return_nullability_from_detail`, whatever parentheses the parameters contain |
| DetailText.NoClassName | src/detail_text.rs:110-140 | text behind a parameter list that does not name a class is not taken for its return type |
| DetailText.NothingDeclared | src/detail_text.rs:110-140 | a truncated text, and one with no declared type anywhere, has no return type and unknown nullability |
| DetailText.FirstTypeArg | src/detail_text.rs:256-271 | the loop takes the text up to the first comma at depth zero |
| DetailText.ElementRead | src/detail_text.rs:238-252 | a type argument without its padding and null marks is the element type iff it starts with an upper-case letter |
| DetailText.ElementTypeFound | src/detail_text.rs:226-271 | the element type of a collection is its first type argument, with that argument's own arguments but without padding and null marks; there is none if that is not a class type |
| DetailText.NoElementType | src/detail_text.rs:226-241 | other types, and types without angle brackets, have no element type |

## Left out

- Processes, pipes, files, JARs, logging and the async runtime: the models start from bytes, texts and lists.
- tree-sitter, `rg`, globs and regular expressions, except the four patterns of the template code: parameters.  A search of a list of files is the union of the searches of its files; a hit carries the URI of its file, and a file has one path.
- The tests on single lines of text in the reference search (declarations, qualifiers, Java members): parameters, since hop 2 is conservative whatever they answer.
- Type inference, completion, the resolver and scanning: not part of this model.
- JSON parsing: reduced to the verdict whether a body is JSON, not JSON, or not text.
- UTF-16 columns and non-ASCII text; the white-space characters 0x1C to 0x1F of Python; the translation of CRLF when Python reads a file.
- Partial writes to the pipe, and requests from the server that carry ids: every message with an id is taken as a response, as the dispatcher does.  Messages are objects with a number or nothing as `id`: any other JSON value, or an id that cannot be a dictionary key, raises in `_dispatcher` and ends that thread.
- Scheduling fairness: `Router` proves what every schedule keeps, not that a queue is read in time.
- The inner loops of the hint helpers other than the one over lambda parameters: functions.
- Which JARs a lookup loads, and the background enrichment itself: a parameter, and a record that is cleared.
- File names of templates, and undoing Velocity's own escapes.
- The test-only bypass of the slot limiter.
- The container is assigned by name in the code; two containers with the same name are not told apart there, and the theorems are about the container chosen.
- Backquoted names and block comments in import lines, white space inside a path, and several statements on one line.
- Gradle caches, path helpers and the source-extraction scripts: small loops and orderings, the harder forms of which are in the modules above.
