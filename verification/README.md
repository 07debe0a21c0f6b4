# Verified core of the basedpython compiler

A Dafny model of the algorithms the native compiler of basedpython and its scripts rest on, with
proofs of what each of them is for. The core is the intermediate representation crate `by_ir`:
its graph analyses, its dataflow analysis, its name mangling and its function builder. Around it
stand the incremental build, and four scripts whose answers are trusted without a second look.

| file | what it models |
|---|---|
| `Ir.dfy` | the intermediate representation, as far as the analyses ask about it |
| `Reachability.dfy`, `Finite.dfy` | paths in a graph and counting sets, shared by the proofs |
| `StronglyConnected.dfy` | Tarjan's components with an explicit walk stack |
| `CallGraph.dfy` | which functions lie on a cycle of native calls |
| `Machine.dfy` | how a function of the register machine runs, as far as which registers are bound |
| `ReadPaths.dfy` | reading before writing, as a way through the blocks |
| `UnboundLocals.dfy`, `MarkedLocals.dfy` | the maybe-unassigned fixpoint, and what its flags are worth to a run |
| `Metaclass.dfy`, `BaseChain.dfy`, `Unreached.dfy` | questions a module answers about its classes and functions |
| `Mangle.dfy`, `Symbols.dfy` | how names become C identifiers, and that no two symbols meet |
| `CleanedDoc.dfy` | the docstring python 3.13 stores |
| `Builder.dfy`, `BuiltBlocks.dfy` | the function builder, and what any sequence of calls to it builds |
| `BuildCache.dfy` | the build that compiles only what changed |
| `TokenPasting.dfy` | what the `##` of a macro can make, and the patterns meant to match it |
| `HeaderScope.dfy` | which names two builds of the runtime header disagree about |
| `HeaderMeaning.dfy`, `HeaderLeaks.dfy` | when those names are all a module has to avoid, and headers for which they are not |
| `MedianInterval.dfy` | the distribution-free interval of the benchmark harness |
| `Shrink.dfy` | the program shrinker |
| `Reviewers.dfy` | the credits by which pull requests are handed out for review |

`dafny verify dfyconfig.toml` checks the whole project.

## How the proofs go

**Tarjan's walk.** `StronglyConnected.State` is a snapshot of the vectors of the walk, and the
invariant is a dozen small predicates over it: the stack is sorted by number, a node being walked
reaches everything stacked since, everything stacked climbs back to a node being walked, and `low`
of an entry is both met by a stacked node and a bound on every edge followed below it. Each of the
four moves (enter, look, leave, emit) has one lemma per predicate. That no edge leaves for a later
component gives maximality; mutual reachability inside a component comes from climbing and
descending through the node that closed it.

**Unbound locals.** `Machine` gives the register machine an execution: an operation may fail
before it writes and take the error edge, `del` unbinds, and a narrowing terminator writes on its
first edge alone. The fixpoint is shown to be the meet over all paths: every bit left clear has a
run that explains it, and a settled state covers every run. `ReadPaths` says what that is in the
control-flow graph alone: a way through the blocks to a read, with no operation on it that has the
register as its destination. The code identifies an edge by the block
it leads to, so where both edges of a narrowing lead to one block it counts the register as written
on both. `MarkedLocals.NarrowedTwiceIsMissed` is a function whose unbound read the flags miss for
that reason; `MarkedLocals.MarkIsSoundExactlyWhen` says for every register of every function when
they miss nothing. The compiler itself hands `mark` no such function: it marks while lowering
(crates/by_irbuild/src/lib.rs:2024, crates/by_irbuild/src/generators.rs:551), and narrowing
terminators are made by a later pass (crates/by_opt/src/unbox_counters.rs:365 and 606).

**Header scope.** The answer is shown to be the least set of names closed under mentions and token
pasting, whatever order the sets are walked in. What it is for, that a module spelling none of it
sees the same header on both sides, is false of the code. It does not look at the macros conditions
name; at macros without parameters that paste; at what a macro with parameters pastes of a variadic
argument, or of one of several tokens inside a run; at directives inside a definition; at any
directive but the last above a definition; at macros expanded through other macros; nor at the order
of directives. `HeaderMeaning` gives every place all the directives above it that bear on what it
expands, and lets a macro paste whatever some expansion of it makes.
`HeaderMeaning.NonInterferenceExactlyWhen` says for every two headers when the promise is kept: just
when none of five things is to be found in them. `HeaderLeaks` has families of headers for them. The
runtime header itself has a function under `#ifdef BY_RECURSION_STACK_ONLY`
(crates/by_rt/include/by.h:2779), so defining that macro above it is one such header.

**The build.** What an extension is strictly newer than it was compiled from, on any clock at all.
`BuildCache.CodeSeenExactlyWhen` and `BuildCache.HeaderSeenExactlyWhen` turn this into when a build
that succeeds is right: where it compiled, or kept an extension newer than its C, or no older than
its header. The code asks whether the extension is at least as new as its C, which is enough where
the clock moves before each write of C (`BuildCache.SucceedsFromCurrentCode`) and not where it may
stand still there (`BuildCache.StillClockGoesStale`), and it does not ask about the header at all
(`BuildCache.HeaderMissed`).

## Model

| member | source | states |
|---|---|---|
| StronglyConnected.FindComponents | crates/by_ir/src/call_graph.rs:65-119 | the components partition the nodes, two nodes share one just when each reaches the other, no edge leads to a later component, and the inner loop turns once per node and once per edge |
| StronglyConnected.EnterKeeps | crates/by_ir/src/call_graph.rs:80-96 | numbering a root, or the unnumbered target of an edge, keeps the whole invariant of the walk |
| StronglyConnected.LookKeeps | crates/by_ir/src/call_graph.rs:86-100 | following an edge to a numbered node, with `low` lowered where the target is stacked, keeps the invariant |
| StronglyConnected.LeaveKeeps | crates/by_ir/src/call_graph.rs:102-105 | leaving a node that reaches below itself, handing `low` to its parent, keeps the invariant |
| StronglyConnected.EmitKeeps | crates/by_ir/src/call_graph.rs:102-116 | popping the stack down to a node whose `low` is its own number keeps the invariant, the emitted component included |
| StronglyConnected.PopComponent | crates/by_ir/src/call_graph.rs:107-115 | the popped component is the stack from the node on, reversed, and exactly its flags are cleared |
| StronglyConnected.FinishedIsRight | crates/by_ir/src/call_graph.rs:65-119 | a finished walk with nothing unnumbered has emitted the strongly connected components, callees first |
| StronglyConnected.EnterRemains | crates/by_ir/src/call_graph.rs:80-96 | entering by an edge uses up one step of what remains, entering as a root none |
| StronglyConnected.EmitMutual | crates/by_ir/src/call_graph.rs:106-116 | the nodes of an emitted component reach one another |
| StronglyConnected.EmitOrders | crates/by_ir/src/call_graph.rs:106-116 | an edge out of an emitted component leads to it or to an earlier one |
| CallGraph.RecursiveFunctions | crates/by_ir/src/call_graph.rs:18-59 | a name is answered just when a non-empty chain of native calls leads from the function it stands for back to it |
| CallGraph.IndexOf | crates/by_ir/src/call_graph.rs:23-27 | a name stands for the last function that has it |
| CallGraph.SortedDedup | crates/by_ir/src/call_graph.rs:42-43 | the callees of a function, strictly ascending and none lost or added |
| CallGraph.EdgeIsCall | crates/by_ir/src/call_graph.rs:28-46 | there is an edge just where a native call of the function resolves |
| CallGraph.EdgeMeans | crates/by_ir/src/call_graph.rs:28-46 | between names, just where some operation of some block of the last function of the one is a native call of the other |
| Ir.OpsOfHas | crates/by_ir/src/call_graph.rs:31-34 | the operations of a body are those of all its blocks |
| Ir.AllFunctionsHas | crates/by_ir/src/function.rs:1569-1573 | a module's functions are those at its top level and the methods of every class |
| Ir.FunctionsFirst | crates/by_ir/src/function.rs:1569-1573 | the top level comes first |
| Ir.MethodsInOrder | crates/by_ir/src/function.rs:1569-1573 | those of a class stand after those of the classes before it |
| CallGraph.ComponentCycles | crates/by_ir/src/call_graph.rs:49-57 | the test made of a component says of each member whether it is on a cycle |
| CallGraph.PositionsToNames | crates/by_ir/src/call_graph.rs:23-46 | a cycle of positions is a cycle of calls between names |
| CallGraph.NamesToPositions | crates/by_ir/src/call_graph.rs:23-46 | and a cycle of calls between names is one of positions |
| UnboundLocals.UnassignedReads | crates/by_ir/src/unbound_locals.rs:53-170 | exactly the named registers, parameters apart, that some way through the blocks reads before any operation with that destination and any edge that writes it, ascending |
| ReadPaths.ReadUntouchedMeans | crates/by_ir/src/unbound_locals.rs:71-163 | a run reads a register unwritten just when there is such a way |
| ReadPaths.OpStepMeans | crates/by_ir/src/unbound_locals.rs:79-85 | a step over an operation writes its destination and no other register; `del` alone unbinds, and only its own |
| ReadPaths.JumpStepMeans | crates/by_ir/src/unbound_locals.rs:86-101 | a jump writes the register of a narrowing on its first edge, or on any to the same block where edges count as one |
| ReadPaths.WrittenFirstIsNotRead | crates/by_ir/src/unbound_locals.rs:151-157 | a local every block that reads it writes first is not collected |
| UnboundLocals.Fixpoint | crates/by_ir/src/unbound_locals.rs:57-128 | the queue empties, every clear bit has a run that enters its block with the register unwritten, and no edge brings less than its target is promised |
| UnboundLocals.FollowEdge | crates/by_ir/src/unbound_locals.rs:107-127 | merging one edge keeps what is known and either changes nothing or lowers the total of set bits |
| UnboundLocals.WriteBlock | crates/by_ir/src/unbound_locals.rs:78-85 | the state after a block is what its operations leave written |
| UnboundLocals.EdgeVouched | crates/by_ir/src/unbound_locals.rs:86-106 | what an edge leaves clear some run arrives without, handlers entered from before the block's writes |
| UnboundLocals.LowerDrops | crates/by_ir/src/unbound_locals.rs:111-127 | lowering a block's state strictly lowers the total, with an unreached block above any state |
| UnboundLocals.RunCovers | crates/by_ir/src/unbound_locals.rs:71-128 | wherever any run stands, it has written all the settled fixpoint says is written there |
| UnboundLocals.NotedExactly | crates/by_ir/src/unbound_locals.rs:130-163 | the collecting pass notes a register just when some run reads it before any write |
| UnboundLocals.NoteBlock | crates/by_ir/src/unbound_locals.rs:131-162 | the reads of one block whose bit is clear where they stand are noted, and no others |
| UnboundLocals.NoteValues | crates/by_ir/src/unbound_locals.rs:138-150 | named registers with a clear bit among the operands are noted, out-of-range ones ignored |
| MarkedLocals.Mark | crates/by_ir/src/unbound_locals.rs:27-46 | the registers flagged in place are those flagged before, those collected and those some operation deletes |
| MarkedLocals.FlaggedMeans | crates/by_ir/src/unbound_locals.rs:27-46 | a flag was there, or some way reads the register first, or some operation of some block deletes it |
| MarkedLocals.MarkIsSound | crates/by_ir/src/unbound_locals.rs:27-46 | in every execution an unbound read or deletion of a local is of one flagged, where no narrowing has one target twice |
| MarkedLocals.MarkIsSoundExactlyWhen | crates/by_ir/src/unbound_locals.rs:86-101 | for every register of every function, no unbound read of it gets past the flags just when it is flagged or analysing the function with such writes left out does not collect it |
| MarkedLocals.NarrowedTwiceIsMissed | crates/by_ir/src/unbound_locals.rs:93-99 | a narrowing with one target twice: a run reads the local unbound and it is not flagged |
| MarkedLocals.CollectedIsRead | crates/by_ir/src/unbound_locals.rs:48-53 | every register collected has a run of the machine that reads it unwritten |
| MarkedLocals.ReadIsCollected | crates/by_ir/src/unbound_locals.rs:48-53 | and where edges are apart every register so read is collected |
| MarkedLocals.SplitIsExact | crates/by_ir/src/ops.rs:2441-2473 | analysing the function with ambiguous writes left out answers exactly what the machine can read unwritten |
| MarkedLocals.ParametersNotCollected | crates/by_ir/src/unbound_locals.rs:57-60 | a parameter is never collected |
| Machine.RunBinds | crates/by_ir/src/ops.rs:1597-1610 | in every run a bound register was written, and a written one is bound unless some `del` names it |
| Metaclass.WritesAMetaclass | crates/by_ir/src/function.rs:1613-1633 | a positive answer has a writer above; a negative one leaves every name asked about explored, the shared list included |
| Metaclass.StartsAWalk | crates/by_ir/src/function.rs:1598-1600 | started with nothing asked about, the walk is true just when some exported class reachable through plain base names writes a `metaclass` keyword |
| Metaclass.BuiltThroughItsMetaclass | crates/by_ir/src/function.rs:1592-1601 | true just for the three shapes: a class keyword, an emitted class beside an outside base, or a writer above |
| Metaclass.ThroughItsMetaclassMeans | crates/by_ir/src/function.rs:1592-1611 | those shapes in the fields of the classes |
| Metaclass.WritesMeans | crates/by_ir/src/function.rs:1617-1628 | a name writes a metaclass where the first exported class of that name has the keyword |
| Metaclass.PlainBasesMean | crates/by_ir/src/function.rs:879-889 | a class stands plainly on a base of the module or on one from outside written without a dot |
| BaseChain.KeepsWeakReferences | crates/by_ir/src/function.rs:1517-1542 | true just when the chain, however long, comes to rest on `object` and some class on it leaves room for the list |
| BaseChain.TakesLayoutFromOutside | crates/by_ir/src/function.rs:1547-1563 | true just when the chain never comes to rest on `object` |
| BaseChain.RestsWithinBound | crates/by_ir/src/function.rs:1523-1525 | a chain that comes to rest at all does so within as many bases as the module has classes |
| BaseChain.NextMeans | crates/by_ir/src/function.rs:1530-1537 | the chain goes on to the first class of the module with the name of a base in it |
| BaseChain.CycleNeverRests | crates/by_ir/src/function.rs:1523-1541 | on a cycle of bases nothing is kept and the layout counts as outside |
| BaseChain.WeaklyIsFromInside | crates/by_ir/src/function.rs:1514-1516 | a class that keeps a weak-reference list does not take its layout from outside |
| Unreached.FindUnreached | crates/by_ir/src/function.rs:1652-1754 | exactly the functions a method never installed reaches and nothing installed reaches, in module order, each with why it is its own root or with a reported root that reaches it, and a blamed root blames itself |
| Unreached.OnlyExactlyWhen | crates/by_ir/src/function.rs:1744-1746 | that only the blamed root reaches a function, as the report has it, holds just when a walk from the other methods never installed does not come to it |
| Unreached.OnlyIsSaidOfTwo | crates/by_ir/src/function.rs:1744-1746 | a module in which two of them reach a reported function, so that whichever is blamed is not the only one |
| Unreached.Walk | crates/by_ir/src/function.rs:1679-1699 | the known functions reachable from the roots, each labelled with a root that reaches it; a label that spread is its root's own |
| Unreached.RunsNextIs | crates/by_ir/src/function.rs:1663-1678 | exactly the names some operation calls natively and the methods of the hidden classes some operation names |
| Unreached.SortMethods | crates/by_ir/src/function.rs:1705-1726 | the methods of a class sorted into never installed, installed, carried halves and rebound names |
| Unreached.NeverInstalledMeans | crates/by_ir/src/function.rs:1103-1147 | carried halves apart, a method is never installed just when the class body binds its name again, some decorator does more than mark, or it is decorated and no method of its name has a table entry |
| Unreached.CarriedHalfMeans | crates/by_ir/src/function.rs:1714-1719 | a carried half is a getter, setter or deleter on a class built through its metaclass |
| Unreached.BlamedRoot | crates/by_ir/src/function.rs:1727-1746 | the root a dead function is blamed on is dead itself and blames itself |
| Unreached.RootIsReported | crates/by_ir/src/function.rs:1734-1746 | and it is among those reported |
| Mangle.Spell | crates/by_ir/src/mangle.rs:35-52 | the loop spells each character as itself, doubled, or by its code point |
| Mangle.SpellLast | crates/by_ir/src/mangle.rs:35-52 | each character adds itself where it is a letter other than `Z`, `_`, or a digit not in front, `ZZ` for `Z`, and otherwise `Z`, its code point in lowercase hexadecimal and `_` |
| Mangle.SpelledAsItself | crates/by_ir/src/mangle.rs:35-43 | a name is spelled as itself just when all its characters are of the first kind |
| Mangle.SpellRoundTrip | crates/by_ir/src/mangle.rs:9-14 | reading a spelling back gives the name |
| Mangle.MangleEndsWhereItSays | crates/by_ir/src/mangle.rs:28-31 | a mangled name followed by any text reads back as the name and that text, just when the name is not empty or the text starts with no digit |
| Mangle.DigitsParse | crates/by_ir/src/mangle.rs:28-50 | a number written in decimal or lowercase hexadecimal reads back as itself |
| Mangle.SpellStarts | crates/by_ir/src/mangle.rs:33-42 | a spelling never begins with a digit, and is empty only for the empty name |
| Symbols.SymbolsAreDistinct | crates/by_ir/src/function.rs:484-507 | across native, wrapper, interpreted, twin-default, struct, type, field and presence symbols, equal text means equal family, module, owner, name and index |
| Symbols.RenderShape | crates/by_ir/src/function.rs:553-581 | every symbol is its family's prefix, mangled names with `_` between, and its family's suffix |
| Symbols.MemberShape | crates/by_ir/src/function.rs:713-728 | the prefix of a member tells fields from presence bytes and made-up names from written ones |
| Symbols.JoinedReadsBack | crates/by_ir/src/mangle.rs:14-19 | names spliced together before literal text read back as the same names and text |
| Symbols.SymbolsAreIdentifiers | crates/by_ir/src/mangle.rs:4-9 | every symbol is a C identifier |
| Symbols.SameFamily | crates/by_ir/src/function.rs:713-728 | the family of a symbol, generated members told apart, can be read off its prefix and suffix |
| Symbols.SameIndex | crates/by_ir/src/function.rs:553-555 | two twin-default markers of one function are equal only for one index |
| CleanedDoc.CleanDoc | crates/by_ir/src/function.rs:1384-1412 | the text built is the expanded lines, the first without its leading spaces and the others outdented by the margin |
| CleanedDoc.ExpandTabs | crates/by_ir/src/function.rs:1419-1437 | the loop's column is the column of what it has written, so tabs go to eight-column stops |
| CleanedDoc.TabStops | crates/by_ir/src/function.rs:1414-1426 | a tab becomes one to eight spaces ending on a multiple of eight since the last `\n` or `\r` |
| CleanedDoc.ColumnMeans | crates/by_ir/src/function.rs:1419-1437 | the column is the distance from the last line break of either kind |
| CleanedDoc.JoinSplit | crates/by_ir/src/function.rs:1386-1386 | splitting into lines loses nothing |
| CleanedDoc.CleaningIsIdempotent | crates/by_ir/src/function.rs:1384-1412 | cleaning a cleaned docstring changes nothing |
| CleanedDoc.CleanedLines | crates/by_ir/src/function.rs:1386-1411 | the lines of the result are the cleaned lines, as many as the docstring has |
| CleanedDoc.CleanedHasNoTabs | crates/by_ir/src/function.rs:1384-1385 | no tab is left |
| CleanedDoc.KeepsRelativeIndent | crates/by_ir/src/function.rs:1393-1410 | lines that say anything keep their text and their indentation relative to one another, and the least indented has none |
| CleanedDoc.FirstLineStartsAtText | crates/by_ir/src/function.rs:1387-1390 | the first line loses its leading spaces and nothing else |
| CleanedDoc.Margin | crates/by_ir/src/function.rs:1395-1400 | the least indentation of the lines that say anything, zero where none does |
| Builder.FunctionBuilder.constructor | crates/by_ir/src/builder.rs:66-101 | one open block, current, with nothing located |
| Builder.FunctionBuilder.Push | crates/by_ir/src/builder.rs:303-338 | the whole new state: dropped when sealed, otherwise appended after whatever position or line mark the move calls for |
| Builder.CannotFailMeans | crates/by_ir/src/builder.rs:307-316 | what takes no place of its own is a copy of anything but a local or an unknown register |
| Builder.FunctionBuilder.TakeLastNarrowing | crates/by_ir/src/builder.rs:355-375 | taken back just when the block is open, the register unnamed and the narrowing the last operation |
| Builder.FunctionBuilder.Terminate | crates/by_ir/src/builder.rs:377-396 | the first terminator seals the block with its operations and the error target in force |
| Builder.FunctionBuilder.NewBlock | crates/by_ir/src/builder.rs:214-222 | one more open block in every parallel vector |
| BuiltBlocks.RangeIsFirst | crates/by_ir/src/builder.rs:279-289 | after any calls, the range of a block is that of the first `block_at` made while it was current, and none where there was none |
| Builder.FunctionBuilder.Finish | crates/by_ir/src/builder.rs:412-432 | a block at every index reserved: a sealed one with its operations, terminator and error target, an open one with what is pending, closed as unreachable, each with its own range and position |
| BuiltBlocks.BuiltAsCalled | crates/by_ir/src/builder.rs:303-432 | after any calls each block reads back as the operations pushed while it was current and open, less those taken back, each located one on its own line, under the first terminator and from the first range given |
| BuiltBlocks.PushReflects | crates/by_ir/src/builder.rs:303-338 | a push keeps the block reading back as its log, with marks only where the line changes |
| BuiltBlocks.TakeReflects | crates/by_ir/src/builder.rs:355-375 | taking back the last operation keeps it, line marks left behind included |
| BuiltBlocks.PositionLate | crates/by_ir/src/builder.rs:326-329 | a position recorded after operations that cannot fail moves none that was located |
| BuildCache.OutputTree.BuildModule | crates/by_build/src/lib.rs:480-518 | the files after a build, refused before any is written where the IR does not verify |
| BuildCache.BuildSucceeds | crates/by_build/src/lib.rs:480-518 | a build succeeds just where the IR verifies and the compiler, if run, succeeds; it is run just where the header or the C on disk differs or the extension is missing, undatable or older |
| BuildCache.BuildTouches | crates/by_build/src/lib.rs:480-530 | a build changes no file of another module, nothing at all where it is refused, and leaves its own C and header on disk |
| BuildCache.OutputTree.WriteSource | crates/by_build/src/lib.rs:524-530 | a file that already holds the text is left alone, its time with it |
| BuildCache.OutputTree.WriteHeader | crates/by_build/src/lib.rs:493-497 | the same for the header at the root |
| BuildCache.SucceedsFromCurrentCode | crates/by_build/src/lib.rs:480-518 | after any builds of any modules, failed compiles included, whose clock moves before each write of C, a build that succeeds leaves an extension compiled from its C |
| BuildCache.CodeSeenExactlyWhen | crates/by_build/src/lib.rs:504-508 | on any clock, a build that succeeds is right about its C where the guard compiled or the extension was strictly newer; only there, where compiling takes time and no C comes back |
| BuildCache.SucceedsFromCurrentHeader | crates/by_build/src/lib.rs:493-510 | with one header throughout it is compiled from the header too |
| BuildCache.HeaderSeenExactlyWhen | crates/by_build/src/lib.rs:497-510 | over every run whose clock moves before each write of the header, it is where the guard compiled or the extension was at least as new as the header, a test the code does not make; only there, where that header does not come back |
| BuildCache.HeaderMissed | crates/by_build/src/lib.rs:497-510 | two modules and a new header: the second build succeeds and keeps an extension of the old one |
| BuildCache.StillClockGoesStale | crates/by_build/src/lib.rs:533-540 | where the clock stands still at a write of C and moves everywhere else, an extension passes for newer than C it was never compiled from |
| BuildCache.RebuildIsFree | crates/by_build/src/lib.rs:504-508 | on any clock, building the same again runs no compiler and changes no file |
| HeaderScope.FindAffected | scripts/native-sweeps/headerscope.py:588-650 | the least set of names that holds the seed and is closed under mentions and pastes; answered just when every difference can be put down to names, no directive moved, and some such set reaches nothing nameless or run at load |
| HeaderScope.AttributableMeans | scripts/native-sweeps/headerscope.py:600-606 | every difference can be put down to names just where no macro or type changed or went away, and no directive, assertion or unreadable definition differs |
| HeaderScope.MovedMeans | scripts/native-sweeps/headerscope.py:606-618 | the check for moved directives fires just when something is recorded on one side only whose user and macro are unchanged |
| HeaderScope.ExpansionsMean | scripts/native-sweeps/headerscope.py:322-350 | what is recorded is a definition, a macro of the header it spells, and the last `#define` or `#undef` of it above |
| HeaderScope.ContentMeans | scripts/native-sweeps/headerscope.py:228-229 | definitions compare equal just when their texts and the conditions around them read the same |
| HeaderScope.UnderSplits | scripts/native-sweeps/headerscope.py:318-320 | a definition is kept under its own key, where it stood |
| HeaderScope.Seeds | scripts/native-sweeps/headerscope.py:589-605 | the names of every differing definition, or nothing where one cannot be put down to names |
| HeaderScope.Close | scripts/native-sweeps/headerscope.py:626-645 | the closure grown in passes is closed and in every closed set, or a nameless definition mentions it |
| HeaderScope.MentionPass | scripts/native-sweeps/headerscope.py:635-645 | one pass adds only what has to be added, and adds nothing only where nothing is missing |
| HeaderScope.PastePass | scripts/native-sweeps/headerscope.py:629-634 | the same for macros that can paste a name |
| HeaderMeaning.NonInterferenceExactlyWhen | scripts/native-sweeps/headerscope.py:13-17 | for the answer to any two headers, every module that spells none of the names sees the same header on both sides, through any chain of mentions, conditions, inner directives and names an expansion makes, just when no definition outside stands under a condition on a macro inside, no macro outside can paste a name inside, no directive inside a definition ties a macro outside to a name inside, no directive moved past a place it bears on, and none changed places |
| HeaderMeaning.OnlyBrokenRunsLeak | scripts/native-sweeps/headerscope.py:619-634 | a macro with parameters outside the answer pastes a word inside it only through a run that makes more than its pattern allows for |
| HeaderMeaning.AnswerLeadsToSeed | scripts/native-sweeps/headerscope.py:626-645 | every answered name leads, through mentions and pastes, to one the two sides define differently |
| HeaderLeaks.ConditionIsMissed | scripts/native-sweeps/headerscope.py:428-439 | a new macro is answered alone, and a module that spells only a function under a condition on it meets that function changed |
| HeaderLeaks.PasteIsMissed | scripts/native-sweeps/headerscope.py:619-634 | a changed function is answered alone though some macro can make its name: one that is not searched, or one none of whose patterns matches |
| HeaderLeaks.ObjectPasteIsMissed | scripts/native-sweeps/headerscope.py:440-455 | so with a macro without parameters that pastes the name |
| HeaderLeaks.SplitPasteIsMissed | scripts/native-sweeps/headerscope.py:246-257 | so with a macro that glues its argument between two texts, given two tokens |
| HeaderLeaks.VariadicPasteIsMissed | scripts/native-sweeps/headerscope.py:443-453 | so with a macro that glues its variadic argument to a text |
| HeaderLeaks.InsideIsMissed | scripts/native-sweeps/headerscope.py:363-371 | a function is answered alone though a macro defined between its braces, which one below spells, changed with it |
| HeaderLeaks.MoveIsMissed | scripts/native-sweeps/headerscope.py:322-350 | nothing is answered though a definition moves past a function that expands it through another macro |
| HeaderLeaks.OrderIsMissed | scripts/native-sweeps/headerscope.py:589-600 | nothing is answered though two definitions of one macro, of which the first wins, change places |
| HeaderLeaks.PragmaIsMissed | scripts/native-sweeps/headerscope.py:589-600 | nothing is answered though a directive such as a `#pragma` or an `#include` moves past a type |
| HeaderScope.ReachedIsUnchanged | scripts/native-sweeps/headerscope.py:588-650 | whatever the headers, a module that spells none of the names reaches, through mentions and patterns of macros with parameters, only definitions of the same text and conditions, with the same last directive above of each macro they spell |
| HeaderScope.UnavoidableIsUnchanged | scripts/native-sweeps/headerscope.py:638-649 | the same of definitions that name nothing and of those that run at load |
| TokenPasting.Pastes | scripts/native-sweeps/headerscope.py:239-260 | one pattern for each run of `##` |
| TokenPasting.PastesCover | scripts/native-sweeps/headerscope.py:239-260 | whatever a macro is expanded with, a name its body pastes matches one of its patterns, as long as no operand of the run is variadic and none inside it is given several tokens |
| TokenPasting.PastesCoverExactlyWhen | scripts/native-sweeps/headerscope.py:246-257 | a name a run makes, of any arguments, always matches its pattern just when every stretch of it that can become one name leaves out nothing written and has no variadic operand |
| TokenPasting.SplitIsMissed | scripts/native-sweeps/headerscope.py:246-257 | two tokens for a parameter between two texts make a name no pattern of the macro matches |
| TokenPasting.VariadicIsMissed | scripts/native-sweeps/headerscope.py:443-453 | so does any argument but one for `__VA_ARGS__` |
| TokenPasting.GluedMeans | scripts/native-sweeps/headerscope.py:239-260 | `##` makes one name of the token before it and the token after it |
| TokenPasting.PastesAreRuns | scripts/native-sweeps/headerscope.py:239-260 | every pattern is that of a `##` of the body |
| HeaderScope.CollectPastes | scripts/native-sweeps/headerscope.py:619-625 | every pattern of every macro, under the macro's name |
| MedianInterval.FindInterval | scripts/native-bench/bench.py:164-184 | the order statistics cut from each end by the furthest cut that fits, the extremes where none or too few values |
| MedianInterval.Cut | scripts/native-bench/bench.py:175-181 | the cut fits the level and no further one does |
| MedianInterval.HoldsMedian | scripts/native-bench/bench.py:164-184 | for every sample and level the statistics are in range and the interval holds the sample's median |
| MedianInterval.CutBeforeMiddle | scripts/native-bench/bench.py:175-184 | a cut that fits a level below one leaves the middle in |
| MedianInterval.Coverage | scripts/native-bench/bench.py:164-184 | of the two to the `n` ways a sample can lie about the true median, those under which its interval can miss it are exactly the lopsided ones; they are at most an `alpha` part where a cut was found and not where none was, and for fewer than six values just when two patterns are |
| MedianInterval.MissesWhenLopsided | scripts/native-bench/bench.py:164-184 | the interval, the extremes included, misses a value just under the patterns with fewer of the sample on one side of it than are cut from each end |
| MedianInterval.LopsidedIsRare | scripts/native-bench/bench.py:165-170 | those are two tails' worth of the patterns, and at most an `alpha` part just when the tail fits |
| MedianInterval.WithCount | scripts/native-bench/bench.py:177-177 | the patterns with `i` values below are as many as `math.comb(n, i)` says |
| Shrink.ShrinkProgram | scripts/shrink.py:103-136 | what is returned fails, was come by through failing programs each one deletion from the last, and no single deletion yields another program that fails |
| Shrink.ShrinkBody | scripts/shrink.py:110-134 | one body's turn either makes the program lighter or has tried each of its statements |
| Shrink.DeletedLighter | scripts/shrink.py:117-129 | a deletion that leaves another program lowers statements plus statements that are not `pass` |
| Shrink.WithoutMeans | scripts/shrink.py:117-122 | the statement at the place tried goes and the others stay in order; the only one leaves a `pass` |
| Shrink.DeletedMeans | scripts/shrink.py:117-129 | nothing beside the body changes |
| Shrink.HoldersListed | scripts/shrink.py:86-100 | the bodies listed are those with a statement in them, at any depth |
| Shrink.ListingHolders | scripts/shrink.py:86-110 | so the shrinker may be handed that listing |
| Reviewers.AssignReviewer | scripts/pull_request_reviewers.py:141-181 | whoever is asked has the most credit of the pool's candidates GitHub takes; the ledger changes only then, by the shares and the payment; nobody is asked only where GitHub refuses every candidate of every pool, or where the request stays open for no more tries than GitHub can refuse |
| Reviewers.TryPool | scripts/pull_request_reviewers.py:145-179 | a pool is given up only when every candidate was refused, one try for each, and the request is found closed only after as many refusals as it stayed open for |
| Reviewers.CandidateMeans | scripts/pull_request_reviewers.py:141-150 | the author is no candidate, however the login is written, and everyone else of the pool is |
| Reviewers.RunBounded | scripts/pull_request_reviewers.py:145-177 | over every run from an empty ledger no credit leaves [-1, 1] |
| Reviewers.LedgersAreRotas | scripts/pull_request_reviewers.py:145-177 | the ledger holds for each pool what its own requests leave, whatever happened in the others |
| Reviewers.PicksTops | scripts/pull_request_reviewers.py:150-156 | with nobody excluded or refused, whoever may be asked is whoever has the most credit of the pool |
| Reviewers.TurnsAreEven | scripts/pull_request_reviewers.py:145-177 | with nobody excluded, after any number of requests in a pool everyone has been asked as often as anyone or once more, however ties break |
| Reviewers.OneRound | scripts/pull_request_reviewers.py:145-177 | as many requests as a pool has members ask each once and leave every credit at zero |

## Left out

- Operations of the intermediate representation that no analysis here tells apart: one `Plain` operation stands for them by what its accessors answer. A loop cursor, which is neither a destination nor an operand, is not modelled, as `unbound_locals.rs` does not ask for it either.
- The rest of `verify.rs`, `print.rs`, `rtype.rs`, code generation and lowering: they check or print, and their invariants belong to the C they emit.
- Machine integers: vector lengths are unbounded except that a call graph holds at most `usize::MAX` functions, which is what keeps a number from meeting the unvisited mark.
- StronglyConnected.FindComponents: its vectors are sequences the method reassigns, so update in place is not captured.
- Metaclass.WritesAMetaclass: the shared list of names is handed in and out rather than borrowed.
- `init_symbol`: not injective by design, because cpython asks for exactly `PyInit_<name>`.
- `twin_defaults`, the line table and the setters of `FunctionBuilder` that only store a value: they would only add easy members.
- BuiltBlocks.BuiltAsCalled: assumes that callers push no `Op::Line` themselves and that one offset is always given with one line.
- BuildCache.OutputTree.BuildModule: a write that fails half-way, and a file changed by anyone else between builds, are not modelled.
- Subprocesses, the toolchain probe and the text of the compiler command: foreign processes; a compile succeeds or fails as the request says, and a failed one may or may not remove the old extension.
- HeaderScope.FindAffected: takes definitions with their names, mentions and conditions as given; tokenizing, the declarator heuristics of `classify` and `type_names`, and `declares` are not modelled. Sorted contents are compared as multisets.
- HeaderMeaning.NonInterferenceExactlyWhen: assumes of the parser that a `#define` names its macro and nothing else, and that directives, assertions and what cannot be parsed name nothing while every other definition names something. What is defined outside the header is the same on both sides, a module pastes nothing by macros of its own, and no text depends on the line it stands on. Reaching is by spelling and therefore generous: a macro counts as expanded wherever it is spelled, and as pasting both what it can make and what its patterns match. Inside a definition only `#define` and `#undef` count as directives.
- HeaderScope.ReachedIsUnchanged: says less than that a definition means the same; what is missing is in `HeaderMeaning`.
- TokenPasting.PastesCover: words are ASCII letters, digits and `_`, which is what a C identifier holds.
- MedianInterval.FindInterval: exact reals in place of floating point.
- Shrink.ShrinkProgram: a program stands for its rendering, so reading a rendered tree is taken to give the tree back, and the predicate to be deterministic; bodies may be listed in any order.
- Reviewers.AssignReviewer: credits are exact reals; the random choices are any choice; the dry run, the weights and the requests to GitHub are not modelled beyond their outcomes.
- The release, documentation and network scripts, the fuzz harnesses and the playground: input and output with no hard invariant.
