# Liblightgrep, modelled and proved in Dafny

Liblightgrep searches streams of bytes for many regular expressions at once. A
pattern becomes a parse tree, the tree a Glushkov automaton with ordered edges,
the automata of all patterns one automaton, that one a program of bytecode, and
the program is run by a virtual machine over one buffer after the other. This
project models those stages, one Dafny module for each, and proves that they fit
together: after any calls of addPattern, what is reported under the label of a pattern is
that pattern's leftmost matches (`Whole.CompilePatterns`), unless a jump table of the
program loses a byte. They end where backtracking through the pattern ends them, unless merging
has mixed up the edges of a tangled automaton. Tables can lose bytes: `Findings.MatchIsLost` has a pattern whose match is not
found, and `Losses.Lossless` is the exact condition under which compilation keeps every
preference (`Meaning.FaithfulExactly`).

All code that changes things step by step is a method over classes, arrays or
local variables, proved against a specification; what the specifications are good
for is proved as lemmas beside them.

| stage | modules |
|---|---|
| semantics of automata and of trees | `Automata`, `Readings`, `Regexes`, `Choices` |
| sets of code points and their encodings, decoding | `RangeSets`, `Encoders`, `Collapsing`, `Decoders` |
| rewriting parse trees | `Rewriting`, `Precedence` |
| parse tree to automaton | `Fragments`, `Orders`, `Assembling`, `Leaves`, `Traversals`, `Builders`, `Building`, `Transitions` |
| graph store | `Graphs`, `Families` |
| pruning, merging, determinizing, guard labels | `Pruning`, `Images`, `Lineups`, `Merging`, `Twins`, `Sequences`, `Subsets`, `Determinizing`, `Guards`, `Carrying`, `Sturdies` |
| layout and bytecode | `Layouts`, `Codegen`, `Compiler`, `Compiled`, `Losses`, `Meaning`, `Tables`, `Filters`, `Findings` |
| virtual machine | `Bytecode`, `Frames`, `Settling`, `Priority`, `Searching`, `Leftmost`, `Safety`, `SafeRuns`, `Vm`, `SparseSets` |
| all together | `Patterns`, `Pipeline`, `Whole` |

## How the meaning is defined

- `Automata.Accepts` is the language of a label; `Automata.Best` is the preferred
  match: try the out edges in order, and stop at a match vertex only if no
  continuation matches. `Carrying.Carry` is the same with the label that a walk
  carries.
- `Bytecode.Backtrack` is the preferred match of a program by plain backtracking,
  without locks, live labels, kill rules or delayed emission. The machine is proved
  to report what a scan with `Backtrack` finds, although it runs all threads at once.
- `Regexes.Lang` is the language of a tree; `Choices.Pref` is the string of it that
  backtracking prefers. What ends without reading on comes last there, as it does in an
  automaton, which has no place among its edges for a match: nongreedy repetitions at the end
  of a pattern are as greedy as others.
- `Losses.Ran` is `Carry` without the bytes that tables lose: what a program does.
- A program comes with a `Plan`, a ghost annotation of every word (a rank that falls
  along epsilon steps, the labels a thread may carry, whether it has passed a match). The
  compiler is proved to deliver one, so the machine's proofs hold for what is compiled.

## What is assumed of the inputs

- `Pipeline.Buildable`, for the automaton that is compiled: the initial vertex reads no
  byte, nothing leads to it, and it has an edge; no parallel edges; every other transition
  permits some byte; every vertex can be reached and leads to a match; only matches are
  labelled, below the two reserved values, and a match leads to matches of its own label only.
  The automata of `Patterns.FsmThingy` are always such ones, determinized or not.
- Labels of patterns are below the two reserved values.
- `Images.Plain` and `Images.FreshLabel`: both automata label matches only, nothing leads to
  their initial vertices, and the new label is new. `Patterns` shows that addPattern
  always meets this.
- Trees are as the parser delivers them: bounds of repetitions in order, and ranges as
  `Collapsing.WriteSet` is proved to write them.

## Where the code does something else than one would expect

- `Meaning.FaithfulExactly`, `Findings.MatchIsLost`: a jump table entry of 0 means "no
  transition" (src/lib/vm.cpp:199), but 0 is also where the only child of the initial vertex is
  written. A byte is lost exactly if it has one successor in the table, and that one is passed
  over (src/lib/compiler.cpp:27-38) for that child. With two edges from the initial vertex
  this does not happen. It does for the determinized automaton of the pattern
  (a(b|c|d))*a[xy], whose match in abax is not found at the first byte.
- `Findings.DeadEndsFallThrough`: a vertex without edges that is no match, has no label
  and no check runs on into the next snippet. No calls of addPattern lead to such a vertex: every
  vertex leads to a match (`Sturdies.Sturdy`).
- `Compiler.TableSizesAgree`: the consistency check of createJumpTable fails for a table
  whose only byte in use is below 255, because minAndMaxValues then takes 255 for the
  greatest. No calls of addPattern lead to such a table either: without parallel edges none is
  made (`Codegen.TablesHaveRange`).
- `Twins.PreferenceIsLost`: merging can change which match a pattern prefers, even that of the only
  pattern. Kin, which are vertices that read the same bytes under the same label, with one in edge each, step by
  step from one vertex on, may share a vertex; and if one of two kin can be reached from
  the other, it is merged before all edges of the other are visited. The hit of (x(a|az))+z in
  xazz is all of it, where backtracking ends it after xaz. The preference is kept if no kin can be reached
  from each other, they have no children in common or twice, and no edge is there twice that
  leaves a vertex to which a path of vertices with one in edge leads or that has children alike
  (`Lineups.Untangled`, checkable before the call). foo|fob is such a pattern
  (`Lineups.TreesAreUntangled`), and so is every one without siblings that are alike
  and, along such a path, without an edge that is there twice (`Lineups.UnlikeSiblings`).
- `Precedence.RotatedExactly`: one run of makeBinopsRightAssociative leaves ((a|b)|c)|d as
  a|((b|c)|d), which is not right associative (src/lib/rewriter.cpp:441-462 rotates once).
- `Precedence.CombinationPrefersExactly`: adding the counts of two repetitions keeps the strings,
  but not always the preferred one: for T = z|a|ab|bc, T{1,2}T{1,2} prefers all of zabz, and T{2,4} za.
- `SafeRuns.RealOpsRemain`: hadRealOps can never end the loop of searchResolve early.
- `Regexes.ZeroTimesIsOnce`: a repetition {0,0} is built as its child. The comment at
  src/lib/nfabuilder.cpp:491 expects such repetitions to be gone by then.
- `Rewriting.OverflowExactly`: adding the counts of two repetitions can wrap around, and
  then the strings change, unless the empty string may be repeated. The comment at
  src/lib/rewriter.cpp:346 gives a rule for any two counts; the code
  combines repetitions that are equal in every respect only (src/lib/rewriter.cpp:342).
- `Encoders.SkipRange`: if the current range reaches past the surrogates, what it has
  beyond them is given up, or, if it is the last range, kept together with the surrogates. For
  sets of valid code points, which is all that charClass passes on, this does not happen.

## Model

| member | source | states |
|---|---|---|
| Whole.PatternsAreFound | src/lib/vm.cpp:577-676 | for every set of patterns that an automaton holds, every pattern of it, and calls of search and searchResolve in any order over consecutive buffers, then closeOut: where no table of the program loses a byte, the hits under the label are strings of the pattern, each at the least offset, from the end of the one before on, at which one starts among the bytes that search has read, and after the last none starts there; and if the automaton prefers under the label what the pattern prefers, every hit ends where backtracking through the pattern ends it |
| Whole.PatternsAreFoundDeterminized | src/lib/fsmthingy.cpp:49-62 | the same, under the same condition, when the automaton is determinized before it is compiled |
| Whole.CompilePatterns | src/lib/fsmthingy.cpp:49-62 | from addPattern to hits: after any calls of addPattern, finalizeGraph throws exactly if no pattern was added, and else, determinized or not, a program comes out that reports the leftmost strings of every pattern added, in all buffers, if no table loses a byte, which can be told from the automaton beforehand; the hits of every pattern whose automaton is untangled end where backtracking through the pattern ends them |
| Whole.HitsOfPattern | src/lib/vm.cpp:577-676 | leftmost hits of the automaton are leftmost hits of the pattern |
| Whole.EndsOfPattern | src/lib/vm.cpp:577-676 | where the automaton prefers what the pattern prefers, its leftmost hits end where backtracking through the pattern ends them |
| Whole.FlatEnds | src/lib/nfabuilder.cpp:487-491 | counting out repetitions makes no difference to where hits end, without {0,0} |
| Whole.FlatHits | src/lib/nfabuilder.cpp:487-491 | counting out repetitions makes no difference to the hits of a tree without {0,0} |
| Pipeline.SearchFindsLeftmost | src/lib/vm.cpp:577-676 | where no table loses a byte: calls of search and searchResolve in any order on any buffers in turn, then closeOut: for every label the hits are exactly the leftmost scan of the automaton by its preferred match, for the starts that search has read, filter included |
| Pipeline.CompileAutomaton | src/lib/compiler.cpp:166-191 | labelGuardStates and createProgram end in a program with an admissible filter, for an automaton that carries, under every label and on every input, the match that the one without guard labels prefers; guard labels neither save nor lose a byte; createProgram does not throw |
| Pipeline.SameLosses | src/lib/nfaoptimizer.cpp:255-258 | the tables of the guarded automaton lose a byte exactly if those of the one before do |
| Pipeline.CompilesSource | src/lib/fsmthingy.cpp:54-61 | what is compiled from the determinized automaton carries what the source automaton prefers |
| Pipeline.CompiledFilterIsSound | src/lib/vm.cpp:460-475 | the filter of any compiled program, whether its tables lose bytes or not, admits every start of a match that it is asked about |
| Patterns.FsmThingy.AddPattern | src/lib/fsmthingy.cpp:30-47 | when it throws and when it reports empty matches; otherwise the automaton goes on finding all earlier patterns and finds the new one: it accepts only strings of it, and one of them wherever one begins the input; every earlier label that prefers what its pattern prefers goes on doing so, and so does the new one if the automaton that was built and pruned is untangled; and the automaton keeps everything that determinizing and compiling rely on |
| Patterns.FsmThingy.FinalizeGraph | src/lib/fsmthingy.cpp:49-62 | throws exactly if no pattern was added; else what is left, determinized or not, keeps what the compiler relies on |
| Sturdies.MergedSturdy | src/lib/nfaoptimizer.cpp:71-200 | merging keeps: everything can be reached, reads some byte, leads to a match, no edge twice, and only matches of its own label behind a match |
| Sturdies.DeterminizedSturdy | src/lib/nfaoptimizer.cpp:474-542 | determinizing keeps the same |
| Sturdies.PrunedLive | src/lib/nfaoptimizer.cpp:202-253 | after pruning every vertex still leads to a match |
| Patterns.FsmThingy.Absorb | src/lib/fsmthingy.cpp:39-43 | pruning and merging keep what is found under every label |
| Patterns.PrunedFinds | src/lib/nfaoptimizer.cpp:202-253 | pruning drops strings but never the only ones that begin an input |
| Patterns.HoldsMore | src/lib/nfaoptimizer.cpp:159-200 | merging keeps every earlier pattern and adds the new one |
| Patterns.HoldsOrderMore | src/lib/nfaoptimizer.cpp:159-200 | merging keeps the preference of every earlier label, and adds that of the new one if its automaton is untangled |
| Leftmost.SearchIsScan | src/lib/vm.cpp:577-676 | calls of search and searchResolve in any order over consecutive buffers from a fresh machine, then closeOut: the hits with each label are those of one scan over all the bytes that prefers by backtracking through the program and lets matches start where search has read |
| Leftmost.ResolveKeeps | src/lib/vm.cpp:622-652 | searchResolve keeps, for every label, what the active threads are worth over its bytes and any later ones, and no thread is born |
| Leftmost.SearchKeeps | src/lib/vm.cpp:577-620 | search keeps what the reported hits, the active threads and the scan of its bytes and any later ones are worth together |
| Leftmost.ScanIsLeftmost | src/lib/vm.cpp:261-313 | that scan is the leftmost one: each hit starts at the least possible offset that may start one, ends where priority says, and nothing is missed between or after hits |
| Leftmost.FrameKeeps | src/lib/vm.cpp:460-501 | one frame keeps what the reported hits, the live threads and the bytes to come are worth together |
| Leftmost.CloseOutSettles | src/lib/vm.cpp:654-676 | closeOut reports exactly the matches that the surviving threads still stand for |
| Priority.EpsilonsKeep | src/lib/vm.cpp:261-383 | every epsilon step (fork, jump, lock, label, match, finish and its kill rules) keeps the worth of the state and weeds only threads that could report nothing |
| Priority.EpSequenceKeeps | src/lib/vm.cpp:403-435 | so does a whole epsilon sequence |
| Priority.FinishKeeps | src/lib/vm.cpp:265-313 | FINISH: killing the same label, or the same label and start, and emitting or waiting, lose no hit and add none |
| Priority.CheckHaltCase | src/lib/vm.cpp:340-354 | a thread that meets a lock that is held dies without losing a hit, and one that nothing blocks takes the lock |
| Priority.KillLabelWeeds | src/lib/vm.cpp:275-281 | the threads that a lead thread kills could report nothing |
| Priority.KillStartWeeds | src/lib/vm.cpp:284-291 | the threads that a thread which is not lead kills could report nothing |
| SafeRuns.RunsAreSafe | src/lib/vm.cpp:563-676 | every state that any run of search, searchResolve and closeOut calls reaches: threads sorted by start, the first not at FINISH or HALT, every hit non-empty, spelled by a path of the program to a MATCH under its label, and for each label disjoint and increasing |
| SafeRuns.ReturnedBoundHolds | src/lib/vm.cpp:563-575 | no call made later reports a hit that starts before the value returned |
| SafeRuns.LeftmostBounds | src/lib/vm.cpp:563-575 | that value is the start of the first thread, or the offset if there is none, and no thread starts before it |
| SafeRuns.RealOpsRemain | src/lib/vm.cpp:628-639 | hadRealOps is true in searchResolve exactly if a thread is active, so it never ends the loop |
| SafeRuns.SearchSafe | src/lib/vm.cpp:577-620 | search keeps the state safe and reports no hit that starts before every thread |
| SafeRuns.ResolveSafe | src/lib/vm.cpp:622-652 | so does searchResolve; if a thread is left, all bytes have been taken |
| SafeRuns.CloseOutSafe | src/lib/vm.cpp:654-676 | so does closeOut |
| Safety.BacktrackSpells | src/lib/vm.cpp:261-383 | the match that backtracking prefers is a path of the program that reads those bytes |
| Vm.Machine.constructor | src/lib/vm.cpp:121-162 | the first threads are those that the entry leaves when run at offset 0 |
| Vm.Machine.Reset | src/lib/vm.cpp:164-181 | everything but the first threads and the hits already reported is cleared |
| Vm.Machine.MarkLive | src/lib/vm.cpp:183-190 | the label, or being without one, is recorded as live |
| Vm.Machine.ExecuteEpsilon | src/lib/vm.cpp:261-383 | one epsilon step goes on, dies or waits, with the state that follows |
| Vm.Machine.ExecuteFinish | src/lib/vm.cpp:265-313 | kills, emits and waits as specified |
| Vm.Machine.KillSameLabel | src/lib/vm.cpp:275-281 | the threads after this one with its label are sent to HALT |
| Vm.Machine.KillSameStart | src/lib/vm.cpp:284-291 | those with its label among the next ones with its start are sent to HALT |
| Vm.Machine.ExecuteEpSequence | src/lib/vm.cpp:403-435 | ends, on every sound program, in the state that the steps in turn lead to |
| Vm.Machine.ExecuteThread | src/lib/vm.cpp:385-401 | a byte step and its epsilon sequence, the survivor queued |
| Vm.Machine.ExecuteNewThreads | src/lib/vm.cpp:437-458 | new threads are run after the old ones, at their own start |
| Vm.Machine.ExecuteFrame | src/lib/vm.cpp:460-501 | a frame and its cleanup |
| Vm.Machine.Search | src/lib/vm.cpp:577-620 | every byte in turn, the filter asked while its pair lies in the buffer; returns how far back a hit may start |
| Vm.Machine.SearchResolve | src/lib/vm.cpp:622-652 | goes on without new threads while any is left; returns how far back a hit may start, counted from the bytes that were taken |
| Vm.Machine.StartOfLeftmostLiveThread | src/lib/vm.cpp:563-575 | the start of the first thread not at FINISH or HALT |
| Vm.Machine.CloseOut | src/lib/vm.cpp:654-676 | reports what the finished threads hold, in order |
| SparseSets.SparseSet.Find | include/sparseset.h:35-38 | true exactly for members, whatever an earlier use has left in the array |
| SparseSets.SparseSet.Insert | include/sparseset.h:41-45 | adds one member; there is room |
| SparseSets.SparseSet.Clear | include/sparseset.h:47-49 | the set is empty though the array is as it was |
| SparseSets.SparseSet.SizeIsCount | include/sparseset.h:32 | size is the number of members |
| Meaning.CompiledMeans | src/lib/compiler.cpp:110-191 | from its first word the bytecode prefers, for every label, label carried, input and position, the match that walking the edges in order prefers when the bytes that tables lose are given up; indirect tables and FINISH after the successors included |
| Meaning.MeaningIsKept | src/lib/compiler.cpp:110-191 | where no table loses a byte, the bytecode prefers exactly what walking the edges prefers |
| Meaning.FaithfulExactly | src/lib/compiler.cpp:27-38 | every vertex prefers, on every input, what walking the edges prefers, if and only if no table has a byte whose single successor, no match and without a label, has one edge to where the one edge of the initial vertex goes |
| Meaning.ZeroLandingExactly | src/lib/compiler.cpp:27-38 | a landing is 0 exactly for such a successor |
| Meaning.StartSteps | src/lib/vm.cpp:192-244 | the byte test of a vertex lets a thread go on, behind the test, on exactly the bytes that the vertex permits, whatever the class of its transition |
| Losses.AgreeExactly | src/lib/vm.cpp:196-206 | walking with and without the lost bytes agree for every label, vertex and input exactly if there is no lost byte |
| Meaning.VertexWalks | src/lib/compiler.cpp:110-161 | the same from the code of any vertex |
| Meaning.TableMeans | src/lib/compiler.cpp:60-104 | a jump table with indirect tables tries the successors of a byte in edge order |
| Meaning.ForksMean | src/lib/compiler.cpp:142-158 | forks laid out in reverse try the children in edge order |
| Meaning.LandingMeans | src/lib/compiler.cpp:27-38 | passing over a vertex with one edge changes nothing |
| Compiled.CompiledIsSound | src/lib/compiler.cpp:110-191 | every epsilon step of compiled code lowers a rank, so every epsilon run ends; labels, locks and match ends arrive as the machine relies on |
| Compiled.CompiledIsRunnable | src/lib/compiler.cpp:166-191 | compiled code meets what the machine asks of a program |
| Layouts.SnippetLength | src/lib/codegen.cpp:56-99 | the words written for a vertex are as many as the first pass counts |
| Codegen.SpecialVisit | src/lib/codegen.cpp:101-137 | every vertex is discovered once; snippets tile the words before the guard in discovery order, and code that falls through goes on with the first child |
| Codegen.CodeGenHelper.Discover | include/codegen.h:60-71 | rank, check index for several in edges, greatest label |
| Codegen.CodeGenHelper.AddSnippet | include/codegen.h:73-79 | the snippet begins at the guard, which moves by its size |
| Codegen.CodeGenHelper.CalcJumpTableSize | src/lib/codegen.cpp:28-54 | whether a table is used, and its size: header, range of bytes, two words for every entry of an indirect table |
| Tables.TableExactly | src/lib/codegen.cpp:28-53 | in every program that createProgram returns, the word behind the gates of a vertex with edges is the head of a jump table if and only if the vertex has at least four successors and every byte is refused by one of them |
| Tables.UsesTableExactly | src/lib/codegen.cpp:28-31 | the test of calcJumpTableSize is that condition |
| Tables.ThreeNever | src/lib/codegen.cpp:30-31 | three successors never get a table |
| Tables.FourBytesSpread | src/lib/codegen.cpp:30-31 | four successors on four different bytes do |
| Tables.TableSpans | src/lib/compiler.cpp:60-82 | in the program, the table begins at the least byte that some successor permits and ends at the greatest, with a raw word for every byte between |
| Tables.LosesExactly | src/lib/compiler.cpp:27-38 | a byte is lost exactly if it leads from at least four successors that together refuse every byte to one that is passed over for the only child of the initial vertex |
| Tables.LocksExactly | src/lib/compiler.cpp:120-122 | in every program, between the byte test of a vertex and its edges there is a lock if and only if several edges lead to it |
| Tables.LocksApart | include/codegen.h:60-71 | no two vertices have the same lock |
| Codegen.CodeGenHelper.FinishVertex | src/lib/codegen.cpp:56-99 | the snippet that is added has the size of the cells that are written |
| Codegen.PivotStates | src/lib/utility.cpp:111-124 | for every byte the successors that permit it, in edge order, without repeats |
| Codegen.MaxOutbound | src/lib/utility.cpp:126-133 | the length of the longest row |
| Codegen.TablesHaveRange | src/lib/codegen.cpp:28-54 | where a table is used, two different bytes are in use |
| Compiler.TableSizesAgree | src/lib/compiler.cpp:98-103 | the check in createJumpTable passes if and only if some byte is in use and either two are, or only byte 255 |
| Compiler.MinAndMaxValues | src/lib/compiler.cpp:40-57 | least and greatest byte in use, with the defaults 0 and 255 |
| Compiler.CreateJumpTable | src/lib/compiler.cpp:60-104 | writes the table and its indirect tables and nothing else, and does not throw |
| Compiler.EncodeState | src/lib/compiler.cpp:110-161 | writes the snippet of the vertex and nothing else |
| Compiler.CreateProgram | src/lib/compiler.cpp:166-191 | the program is complete: every snippet in place, halt and finish last; the filter is that of the best window: it admits every match, its pairs are exactly those that can be read at its offset, and no other offset below the shortest match has fewer |
| Findings.TurnedAwayExactly | src/lib/vm.cpp:196-206 | a jump table turns a byte away exactly if no successor permits it, or it is lost |
| Findings.MatchIsLost | src/lib/compiler.cpp:27-38 | the pattern (a(b, c or d))*a[xy], determinized: the automaton prefers all of abax, and every program compiled from it finds nothing there |
| Findings.StarredDeterminizes | src/lib/nfaoptimizer.cpp:474-542 | that automaton determinizes the Glushkov automaton of the pattern |
| Findings.GuardsOfStarred | src/lib/nfaoptimizer.cpp:329-379 | its guard label can only be on the vertex for a |
| Findings.DeadEndsFallThrough | src/lib/compiler.cpp:141-160 | exactly when a snippet ends with the byte test: the only child is next, or the vertex is a bare dead end, which goes on with a vertex that it has no edge to |
| Filters.BestPair | src/lib/utility.cpp:24-109 | the pairs are exactly those of first and second byte that can be read from some vertex at the offset; the offset lies below the shortest match, so that every match is admitted; at every offset below it at which a vertex is reached there are at least as many pairs, and at every lower one more |
| Filters.RecordVertex | src/lib/utility.cpp:64-87 | exactly the pairs of first and second bytes at the vertex are added |
| Filters.PutSuccessors | src/lib/utility.cpp:50-54 | exactly the successors at the next depth are queued |
| Filters.WalkedAdmits | src/lib/utility.cpp:90-108 | what the walk has collected at an offset below the shortest match admits every match |
| Determinizing.SubsetDFA | src/lib/nfaoptimizer.cpp:515-542 | ends, and the result determinizes the source; everything in it can be reached and reads some byte |
| Determinizing.HandleSubsetState | src/lib/nfaoptimizer.cpp:474-513 | expands one subset state: its edges reach the groups of each byte in order |
| Determinizing.MakeDestinationState | src/lib/nfaoptimizer.cpp:450-472 | the edge leads to the vertex of that byte set and list, an old one or a new one |
| Determinizing.GroupTails | src/lib/nfaoptimizer.cpp:434-446 | match vertices alone, what is between them together, order kept |
| Determinizing.AddOutNeighborhood | src/lib/nfaoptimizer.cpp:401-412 | each byte gets the successors that permit it, in order |
| Determinizing.ByteSetsByList | src/lib/nfaoptimizer.cpp:416-432 | bytes with the same successors form one set, and no two sets have the same |
| Sequences.RemoveRightDuplicates | include/sequences.h:34-47 | first occurrences, in order |
| Sequences.DedupFlatMap | include/sequences.h:34-47 | first occurrences may be kept before or after expanding |
| Subsets.SameFrontier | src/lib/nfaoptimizer.cpp:515-542 | for every string, the frontier of the result, flattened to first occurrences, is the ordered frontier of the source |
| Subsets.SamePreference | src/lib/nfaoptimizer.cpp:515-542 | each state prefers, for every label and input, what its list of source vertices prefers in order |
| Subsets.SamePreferredMatch | src/lib/nfaoptimizer.cpp:515-542 | the preferred match from the initial vertex is that of the source |
| Transitions.GetSmallest | include/transitionfactory.h:70-124 | the transition permits exactly the set; a byte set only if no smaller class does |
| Merging.NfaOptimizer.MergeIntoFSM | src/lib/nfaoptimizer.cpp:159-200 | ends; the new label has the language of the source, every other label the one it had, and there are no others; every other label prefers from every old vertex, on every input, what it did; the new label prefers from the initial vertex, on every input, what the source prefers, if the source is untangled; everything stays in reach and no edge is there twice |
| Merging.NfaOptimizer.ProcessChild | src/lib/nfaoptimizer.cpp:71-157 | the child gets its image, and the edge to it its place, as specified, without touching what was there |
| Merging.NfaOptimizer.Round | src/lib/nfaoptimizer.cpp:172-197 | one round of the walk is one step of its specification, and less is left to visit |
| Merging.NfaOptimizer.InsertUnlessThere | src/lib/nfaoptimizer.cpp:134-145 | no edge is inserted twice |
| Merging.NfaOptimizer.FindMergeable | src/lib/nfaoptimizer.cpp:100-114 | the first successor from the position on that can be merged |
| Merging.NfaOptimizer.MergeJoins | src/lib/nfaoptimizer.cpp:37-69 | what canMerge accepts can be shared: one in edge on both sides, the same bytes and the same label |
| Images.LanguagesMerged | src/lib/nfaoptimizer.cpp:159-200 | when no edge waits, the languages are as they should be |
| Lineups.OldPrefers | src/lib/nfaoptimizer.cpp:71-157 | every label but the new one prefers, from every vertex that was there and on every input, what it did |
| Lineups.NewPrefers | src/lib/nfaoptimizer.cpp:71-157 | where the images of the children are in line, every image prefers under the new label, on every input, what the vertices that share it prefer, the first to get it first |
| Lineups.StepInLine | src/lib/nfaoptimizer.cpp:89-118 | one round keeps them in line, if the source is untangled: what is put among the successors of a head comes behind the images of all children tried so far, or joins the last of them |
| Lineups.ChildJoins | src/lib/nfaoptimizer.cpp:100-114 | a child that is merged with an image joins the last one, and all edges of those that share it have been visited |
| Lineups.MemberKin | src/lib/nfaoptimizer.cpp:37-69 | vertices that share an image are kin: alike, with one in edge each, step by step from one vertex on |
| Lineups.UnlikeSiblings | src/lib/nfaoptimizer.cpp:37-69 | an automaton is untangled if no two successors of a vertex read the same bytes under the same label with one in edge each, and no vertex to which a path of vertices with one in edge leads has a successor twice |
| Lineups.TreesAreUntangled | src/lib/nfaoptimizer.cpp:37-69 | so is a tree, such as that of alternatives with common beginnings |
| Lineups.StepInOrder | src/lib/nfaoptimizer.cpp:134-145 | one round keeps the old successors of every old vertex in their order |
| Lineups.TurnStep | src/lib/nfaoptimizer.cpp:194-196 | the edges out of a vertex are visited in their order |
| Lineups.StoreIsSingle | src/lib/nfaoptimizer.cpp:58 | a vertex with in degree 1 is one successor of one vertex |
| Lineups.MergesToOne | src/lib/nfaoptimizer.cpp:159-200 | the walk has one outcome |
| Twins.PreferenceIsLost | src/lib/nfaoptimizer.cpp:163-200 | where the source is tangled the order can change: the pattern (x(a or az))+z prefers xaz on xazz, and so does its automaton, but when that has been merged into an empty one, it prefers all of xazz |
| Twins.LoopedMerges | src/lib/nfaoptimizer.cpp:163-200 | the walk that leads there, round by round |
| Readings.SpellsIsAccepts | src/lib/nfaoptimizer.cpp:159-200 | a language read forwards or backwards is the same |
| Guards.LabelGuardStates | src/lib/nfaoptimizer.cpp:255-258 | the same of both passes together |
| Guards.PropagateMatchLabels | src/lib/nfaoptimizer.cpp:260-327 | a vertex is unmarked, labelled or unlabelable exactly as no, one or several labels can be matched from it |
| Guards.MarkUnlabelable | src/lib/nfaoptimizer.cpp:305-323 | the vertex becomes unlabelable, and with it its ancestors but the initial one; only vertices with several labels ahead do |
| Guards.RemoveNonMinimalLabels | src/lib/nfaoptimizer.cpp:329-379 | the initial vertex and those with several labels ahead have no label; a step out of them reaches a vertex that has the one label ahead of it, or none ahead; every label is on such a vertex, and no other label is met |
| Guards.PathsGuarded | src/lib/nfaoptimizer.cpp:329-379 | every path from the initial vertex to a match meets a label, and no label but that of the match |
| Carrying.GuardsKeepPreference | src/lib/nfaoptimizer.cpp:255-258 | carrying the guard labels along, the preferred match of every label is what it was |
| Pruning.PruneBranches | src/lib/nfaoptimizer.cpp:202-253 | the preferred match from every vertex on every input is kept, edges only go, and none that is left from a reached vertex is useless |
| Pruning.RedundantEdge | src/lib/nfaoptimizer.cpp:219-237 | dropping an edge that earlier match edges leave no byte changes no preferred match |
| Graphs.Graph.AddEdge | include/graph.h:334-340 | the tail is appended to the head's out list and the head to the tail's in list |
| Graphs.Graph.InsertEdge | include/graph.h:342-348 | each is inserted at its place |
| Graphs.Graph.RemoveEdge | include/graph.h:350-354 | the edge leaves its two lists, whose orders are kept, while later edges are renumbered |
| Graphs.Graph.CompactAfterEdge | include/graph.h:385-393 | every later edge number is one less, in both lists |
| Graphs.Graph.StartOver | src/lib/nfabuilder.cpp:73-81 | one vertex and no edges |
| Families.VectorFamily.Add | include/vectorfamily.h:64-80 | the list grows at the end, all others that share the store are as they were |
| Families.VectorFamily.Insert | include/vectorfamily.h:82-105 | inserts as a plain list does, the others as they were |
| Families.VectorFamily.Remove | include/vectorfamily.h:107-138 | drops the first occurrence, or throws if there is none; a list of one leaves the store |
| Families.VectorFamily.Clear | include/vectorfamily.h:140-147 | the list is empty, the others as they were |
| Families.VectorFamily.Assign | include/graph.h:390-391 | assignment through the iterator that find returns changes that element only |
| Families.VectorFamily.Find | include/vectorfamily.h:170-179 | the first place of the element, or the end |
| Families.VectorFamily.At | include/vectorfamily.h:153-164 | the element at every index that is in bounds |
| Building.NfaBuilder.Build | src/lib/nfabuilder.cpp:606-609 | throws exactly if a leaf has no bytes; false exactly if the empty string is in the language; else the paths from the initial vertex to matches spell exactly the language of the tree, and the preferred match on every input is the one that backtracking through the tree prefers |
| Building.NfaBuilder.Finish | src/lib/nfabuilder.cpp:434-461 | good exactly if one tree is left and it does not have the empty string; then its exits are the matches |
| Building.NfaBuilder.Traverse | src/lib/nfabuilder.cpp:463-604 | leaves the fragment of the flat tree, unless a callback throws |
| Building.NfaBuilder.Callback | src/lib/nfabuilder.cpp:611-648 | every callback keeps the stack of fragments in step with the stack of trees |
| Building.NfaBuilder.Repeat | src/lib/nfabuilder.cpp:341-377 | dispatch to ?, * and + and their nongreedy forms; other counts are left alone |
| Building.NfaBuilder.Question | src/lib/nfabuilder.cpp:303-313 | where the fragment can be skipped |
| Building.NfaBuilder.Plus | src/lib/nfabuilder.cpp:315-329 | back edges in front of, or behind, the insertion points |
| Building.NfaBuilder.Star | src/lib/nfabuilder.cpp:331-339 | plus, then question |
| Building.NfaBuilder.Alternate | src/lib/nfabuilder.cpp:379-402 | in lists and out lists one after the other, skipped where the first, else the second, is |
| Building.NfaBuilder.Concatenate | src/lib/nfabuilder.cpp:404-432 | every exit linked to every entry; the new in list, out list and skip position |
| Building.NfaBuilder.PushLiteral | src/lib/nfabuilder.cpp:147-170 | a chain that spells the encoding |
| Building.NfaBuilder.PushRawByte | src/lib/nfabuilder.cpp:172-177 | a vertex for the byte |
| Building.NfaBuilder.PushCharClass | src/lib/nfabuilder.cpp:183-301 | throws exactly if no byte is left; else a fragment for the class |
| Building.FinishedSpells | src/lib/nfabuilder.cpp:434-461 | the finished automaton accepts exactly the strings of the tree |
| Building.FinishedPrefers | src/lib/nfabuilder.cpp:434-461 | on every input, trying the edges of the finished automaton in order prefers the string of the tree that backtracking prefers: alternatives in order, greedy and nongreedy repetitions, nested ones and ones of nothing included |
| Choices.FlatPrefers | src/lib/nfabuilder.cpp:487-582 | without {0,0}, counting out repetitions changes no preference |
| Choices.ExpandedPrefers | src/lib/nfabuilder.cpp:494-582 | T{n}, T{n,} and T{n,m} counted out prefer what taking one time after the other prefers |
| Orders.QuestionPrefers | src/lib/nfabuilder.cpp:303-313 | a fragment that can be skipped before or behind prefers like the greedy or nongreedy option |
| Orders.PlusPrefers | src/lib/nfabuilder.cpp:315-329 | back edges in front of, or behind, the insertion points prefer once more, or to stop |
| Orders.StarPrefers | src/lib/nfabuilder.cpp:331-339 | the same with none |
| Orders.AlternatePrefers | src/lib/nfabuilder.cpp:379-402 | in lists one after the other, with one place to skip, prefer the alternatives in order |
| Orders.ConcatenatePrefers | src/lib/nfabuilder.cpp:404-432 | entries spliced in at the insertion points and at the place where the first part is skipped prefer the parts one after the other |
| Leaves.ChainsPrefer | src/lib/nfabuilder.cpp:237-296 | chains that share suffixes prefer the ranges in their order |
| Builders.PatchExit | src/lib/nfabuilder.cpp:114-134 | the whole list is spliced in at the insertion point |
| Builders.PatchMid | src/lib/nfabuilder.cpp:106-135 | from every exit an edge to every vertex, in order; where the next ones go |
| Leaves.BuildClass | src/lib/nfabuilder.cpp:183-301 | sharing the ends of encodings, the fragment spells exactly the ranges |
| Leaves.BuildLiteral | src/lib/nfabuilder.cpp:147-170 | a chain of vertices, one for each byte |
| Leaves.AddRange | src/lib/nfabuilder.cpp:238-296 | one range more is spelled, by sharing a suffix that is there and building the rest |
| Leaves.ChainsSpell | src/lib/nfabuilder.cpp:237-296 | chains that share suffixes spell their ranges and nothing more |
| Fragments.PlusBuilds | src/lib/nfabuilder.cpp:315-329 | exits linked back to entries spell one or more strings |
| Fragments.QuestionBuilds | src/lib/nfabuilder.cpp:303-313 | a fragment that can be skipped spells the empty string too |
| Fragments.StarBuilds | src/lib/nfabuilder.cpp:331-339 | none or more |
| Fragments.AlternateBuilds | src/lib/nfabuilder.cpp:379-402 | either |
| Fragments.ConcatenateBuilds | src/lib/nfabuilder.cpp:404-432 | one after the other, whichever of the two can be skipped |
| Traversals.Wind | src/lib/nfabuilder.cpp:463-596 | unwinding is the tree in postorder, counted repetitions counted out on the way; it ends |
| Traversals.Synthesize | src/lib/nfabuilder.cpp:512-582 | the synthesized nodes are the expansion |
| Traversals.PostReduces | src/lib/nfabuilder.cpp:598-604 | the callbacks in that order leave one tree, the flat one |
| Traversals.PostLeaves | src/lib/nfabuilder.cpp:598-604 | a callback throws exactly if the tree has a leaf without bytes |
| Traversals.FlatMeans | src/lib/nfabuilder.cpp:487-511 | without {0,0} the flat tree has the strings of the tree |
| Regexes.ExpandedMeans | src/lib/nfabuilder.cpp:494-511 | T{n}, T{n,} and T{n,m} counted out have the strings of the repetition |
| Regexes.ZeroTimesIsOnce | src/lib/nfabuilder.cpp:529-532 | T{0,0} is built as T |
| Regexes.AdjustedMeans | src/lib/nfabuilder.cpp:186-232 | breakout bytes are added to, or taken from, exactly the one-byte strings |
| Collapsing.WriteSet | src/lib/encoderbase.cpp:113-159 | for every set of valid code points the ranges denote exactly the encodings of its members, one-byte ones in one range in front, whatever order the sorts leave |
| Collapsing.Collapse | src/lib/encoderbase.cpp:119-158 | all rounds keep the union of products |
| Collapsing.CollapseGroup | src/lib/encoderbase.cpp:142-154 | neighbours that match everywhere but at one place become one, the union of products kept |
| Collapsing.JoinedMeans | src/lib/encoderbase.cpp:103-111 | a union at one place is a union of products |
| Collapsing.CollectEach | src/lib/encoderbase.cpp:43-82 | for any encoder: exactly the encodings of the members, neighbours joined in the last byte, shorter ones first |
| Collapsing.WriteEach | src/lib/encoderbase.cpp:113-159 | both, for any encoder |
| Collapsing.ClassDenotes | src/lib/nfabuilder.cpp:183-232 | a class denotes the encodings of its code points with the breakout bytes added or taken away |
| Encoders.CollectRanges | src/lib/utf8.cpp:74-101 | for every set of valid code points, exactly the encodings of its members, shorter ones first; for UTF-16 as well |
| Encoders.WriteOn | include/encoders/utf16.h:110-131 | one call of writeRange within collectRanges: all members below its limit are written |
| Encoders.WriteRange | src/lib/utfbase.cpp:21-53 | exactly the encodings of what is left below the limit; what is left after it |
| Encoders.SkipRange | src/lib/utfbase.cpp:55-72 | of later ranges what is below the bound is left out; of the current range everything is, unless it is the last |
| Encoders.WriteRangeBlock | src/lib/utf8.cpp:103-115 | the rest of the block in which encodings differ in one byte; for UTF-16 as well |
| Encoders.SameBlockEncodes | include/encoders/utf16.h:133-139 | within a block, encodings differ in that byte only |
| Encoders.BlockEncodes | src/lib/utfbase.cpp:28-33 | the product for a block is the set of its encodings |
| Encoders.EncodeValid | src/lib/utf8.cpp:22-68 | bytes are written exactly for valid code points |
| Decoders.UtfDecoder.Next | include/decoders/utfdecoderbase.h:50-95 | delivers a valid code point whose encoding is next, or one byte as an error where no encoding begins, or END at the end, with the offset of its first byte |
| Decoders.Utf8ToCp | include/decoders/utf8.h:32-90 | decodes exactly if an encoding begins the bytes |
| Decoders.Utf16ToCp | include/decoders/utf16.h:21-66 | decodes exactly if an encoding begins the bytes |
| Decoders.Utf8CharIsEncoding | include/decoders/utf8.h:94-141 | the sequences of section 4 of RFC 3629 are the encodings of the valid code points |
| Decoders.RoundTrip | include/decoders/utfdecoderbase.h:50-95 | results that cover the encodings of any code points are those code points |
| Decoders.AlwaysCovered | include/decoders/utfdecoderbase.h:50-95 | any bytes are covered by some results |
| Decoders.DeliveredOnce | include/decoders/utfdecoderbase.h:50-95 | what is delivered at an offset is determined by the bytes |
| Decoders.ByteSource.Next | include/decoders/bytesource.h:42-50 | the bytes with their offsets, then END |
| RangeSets.RangeSet.Insert | include/rangeset.h:394-436 | union with an interval; the shape is kept |
| RangeSets.RangeSet.Erase | include/rangeset.h:438-442 | difference with an interval |
| RangeSets.RangeSet.Flip | include/rangeset.h:365-384 | complement |
| RangeSets.RangeSet.FlipAt | include/rangeset.h:386-388 | one member is flipped |
| RangeSets.RangeSet.Set | include/rangeset.h:348-355 | one member is set or reset |
| RangeSets.RangeSet.Test | include/rangeset.h:186-199 | membership |
| RangeSets.RangeSet.Join | include/rangeset.h:140-148 | union, also with itself |
| RangeSets.RangeSet.Meet | include/rangeset.h:134-138 | intersection |
| RangeSets.RangeSet.Subtract | include/rangeset.h:155-158 | difference |
| RangeSets.RangeSet.Differ | include/rangeset.h:150-153 | symmetric difference |
| RangeSets.RangeSet.Complement | include/rangeset.h:160-164 | complement, in a new set |
| RangeSets.RangeSet.Any | include/rangeset.h:244-246 | whether there is a member |
| RangeSets.RangeSet.All | include/rangeset.h:248-250 | whether everything is a member |
| RangeSets.SameSetSameSequence | include/rangeset.h:97-99 | sets are equal exactly if their sequences are |
| RangeSets.SpansMean | include/rangeset.h:265-303 | the ranges of the iterator are apart, in order, and have the members of the set |
| RangeSets.InIsSpan | include/rangeset.h:186-199 | counting boundaries and looking for a range agree |
| Rewriting.RotatedMeans | src/lib/rewriter.cpp:417-481 | makeBinopsRightAssociative leaves the strings as they are |
| Precedence.RotatedPrefers | src/lib/rewriter.cpp:441-462 | and the preferred string, whatever is read and whatever comes after it |
| Precedence.RotatedChanges | src/lib/rewriter.cpp:441-462 | it changes exactly the trees that are not right associative |
| Precedence.RotatedExactly | src/lib/rewriter.cpp:417-481 | what it leaves is right associative exactly if no child of a left child of its parent's kind is of that kind too |
| Rewriting.CombinedMeans | src/lib/rewriter.cpp:345-410 | combineConsecutiveRepetitions leaves the strings as they are, if no count overflows |
| Rewriting.CombinationMeans | src/lib/rewriter.cpp:371-377 | T{a,b}T{c,d} is T{a+c,b+d} |
| Precedence.CombinationPrefersExactly | src/lib/rewriter.cpp:371-377 | T{a,b}T{a,b} and T{2a,2b} prefer the same string of every T, on every input and before every rest, if and only if a is b, or they are greedy and a is 0, or they are nongreedy and b is unbounded |
| Precedence.CombinedPrefers | src/lib/rewriter.cpp:345-410 | combineConsecutiveRepetitions keeps the preferred string, if no count overflows and all repetitions that it adds are such ones |
| Precedence.PrefMixes | src/lib/rewriter.cpp:371-377 | a candidate that reads no byte stays one, and in its place, whatever tree is put in front of it |
| Rewriting.OverflowExactly | src/lib/rewriter.cpp:373-376 | where the minimum of two unbounded repetitions overflows, combining them leaves the strings as they are exactly if hasZeroLengthMatch holds for what is repeated |
| Rewriting.BoundedOverflowChanges | src/lib/rewriter.cpp:373-376 | where the minimum of two bounded repetitions overflows and the wrapped bounds are in order, the strings change unless the empty string may be repeated |
| Rewriting.ReducedMeans | src/lib/rewriter.cpp:289-330 | reduceUselessRepetitions leaves the strings as they are |
| Precedence.ReducedPrefers | src/lib/rewriter.cpp:289-330 | and the preferred string |
| Precedence.ReducedTidies | src/lib/rewriter.cpp:262-330 | no {1,1} and no nongreedy {n} is left, and a tree without them is left alone |
| Rewriting.UsefulMeans | src/lib/rewriter.cpp:262-287 | so does the pruning of {1,1} and of nongreedy {n} |
| Precedence.UsefulPrefers | src/lib/rewriter.cpp:262-287 | so does it keep the preferred string |
| Rewriting.ZeroLengthIsEmptyString | src/lib/rewriter.cpp:80-105 | hasZeroLengthMatch holds exactly if the empty string is in the language, where every leaf has bytes |

## Left out

- Merging.NfaOptimizer.MergeIntoFSM: of a tangled source it says which strings the new label matches, not which of them it prefers; that the preference can then change is `Twins.PreferenceIsLost`. That it does for every tangled source and some destination is not so: what is mixed up may make no difference, as in (ab|ab)c.
- Whole.CompilePatterns: for a pattern whose automaton is tangled, hits have exact starts and are strings of the pattern; where they end is exact with respect to the merged automaton.
- Precedence.CombinedPrefers: where counts that are not orderly are added, some T loses its preference (`Precedence.CombinationPrefersExactly`); a given T may keep it.
- Rewriting.CombinedMeans: for a tree in which a count overflows, nothing is said of the whole tree; `Rewriting.OverflowExactly` and `Rewriting.BoundedOverflowChanges` are about the two repetitions that are combined. Bounded ones that may repeat the empty string, or whose maxima alone overflow, are left open. The rewriting passes work on values; splicing through parent links and the returned flags are not modelled.
- Codegen.CodeGenHelper.CalcJumpTableSize: sizes are unbounded; operands of 24 and 32 bits do not wrap around.
- Vm.Machine.Search: the hit callback is a list of hits; a null callback and tracing are not modelled. Offsets are unbounded.
- Encoders.CollectRanges: asks for a set of valid code points, as charClass passes one (src/lib/nfabuilder.cpp:184).
- Vm::startsWith, the debugging entry points of Vm, and hit context windows.
- In the machine, locks and live labels are mathematical sets; that SparseSet behaves like one is proved in `SparseSets`. In the graph store, lists are sequences; that VectorFamily behaves like them is proved in `Families`. Byte sets and the filter bitset are mathematical sets.
- The comparison by memcmp in the sorts of encoderbase.cpp: they are taken as any reordering.
- reduceEmptySubtrees and the two reductions of trailing nongreedy repetitions, which change the language on purpose.
- The pattern grammar, ICU, case folding, the other encoders and the transforming decoders; queues of a decoder over anything but a plain byte source.
- RangeSet's order, count and bitset constructor; removeVertex of the graph store; the Deterministic flag, which only decides whether subsetDFA is called.
- The C API, error chains, serialization, graphviz output and the command line programs.
