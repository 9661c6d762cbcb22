# Models of the developer tooling and the backend contract

This project models the parts of the repository that compute, rewrite or decide, and proves what they promise.

| file | what it models |
|---|---|
| `Ordering.dfy`, `Wrappers.dfy` | Python's orders on strings and dotted names, `sorted`, lists without duplicates, `Option` |
| `ImportGraph.dfy`, `Tarjan.dfy`, `GraphBuilder.dfy` | the module import graph, its strongly connected components by an iterative depth-first search, and how it is built from import statements |
| `Resolvers.dfy` | the five resolvers of relative imports and `relative_from` |
| `Splice.dfy` | right-to-left text splicing |
| `ModuleMove.dfy` | the refactoring tool that moves modules and rewrites imports |
| `NarrowGuards.dfy`, `GuardPattern.dfy`, `GuardText.dfy`, `NarrowExamples.dfy` | the guard rewrite, over a small statement language with environments, exceptions and loops, the pattern over the words of a line, printed lines, and programs that it changes |
| `RepairAnnotations.dfy`, `RepairedText.dfy`, `DedentedMatch.dfy`, `RepairExamples.dfy`, `DedentedExample.dfy` | its repair pass, over statements, over lines, where the two differ, and programs that it changes |
| `BatchRun.dfy` | the windowed batch loop with its circuit breakers |
| `WriteAhead.dfy` | workers, journal, remote side and store as interleaved steps, with crashes |
| `LayerRatchet.dfy` | directory pairs, minority edges and the layer check |
| `BackendOutput.dfy`, `OutputTail.dfy`, `CutTail.dfy`, `ClientOutput.dfy` | bounded capture of backend output, streaming against batch parsing, what is found in the tail, and what the client makes of both streams |
| `ProxyTransport.dfy` | moving proxy routes from arguments to environment variables |
| `DocPointers.dfy` | refreshing and checking `file.py:NNN` pointers |
| `Retention.dfy` | the retention planner, relocation and pruning |
| `Quarantine.dfy` | the two-scan quarantine of mailbox lines |

Conventions. A dotted name or a path is the list of its segments, and the empty name is the empty list. Strings are
sequences of characters. What the outside world decides (worker results, which futures complete, probe answers,
refused renames and removals, the verdict on a mailbox, the order of a directory walk) is arbitrary in every step or
a parameter, so every statement holds for all of it. JSON parsing, the definitions of symbols in Python files, the fingerprint of a pool line
and the mailbox-line parser are parameters.

## Where the code and its documentation differ

The models follow the code.

- `scripts/narrow_mapping_guards.py:1-14` says that no runtime behaviour changes. An expression that is not pure is
  evaluated once instead of twice (`NarrowGuards.SiteMeaning` says when that shows, `NarrowExamples.EvaluatedTwice` is a
  program). The pattern takes lines that Python
  reads differently: in `x = a if b else c if isinstance(a if b else c, dict) else {}` the test belongs to `c`
  (`NarrowExamples.OpenConditional`), and a lambda takes the whole test into its body (`LambdaNeverKept`);
  `NarrowGuards.PureSiteMeaning` says which runs keep such a line. A rewritten name that is declared `global` or
  `nonlocal`, or a type with a comma behind it, no longer compiles (`NarrowGuards.NarrowMeaning`,
  `NarrowExamples.TrailingComma`), and a program that uses the temporary of one of its own sites is affected
  (`NarrowExamples.RawCollision`).
- `scripts/repair_narrow_annotations.py:25-28` says that the repair restores the exact behaviour. A test that raises, as
  for `list[int]`, leaves the variable with its old value instead of the new one (`RepairAnnotations.TripleRuns`,
  `RepairExamples.TestRaises`). The pattern also takes a chained assignment, and `_raw_x: object = y = e` is not Python
  (`RepairAnnotations.RepairMeaning`, `RepairExamples.ChainBreaks`). It ignores indentation and can reach across the end
  of a block (`RepairedText.RepairText`, `DedentedMatch.DedentedMeaning`, `DedentedExample.DedentBreaks`).
- `scripts/runtime_retention.py:141-144` says that the first rule that matches and whose floor is met retires a file. The
  code asks only the first rule that matches; the two agree at every age exactly when no matching rule has a lower floor
  than the first (`Retention.DocumentedIff`, `ShippedRulesDisagree`). The comment on the per-process log rule calls its
  pattern anchored; path matching goes from the right, and the model does the same.
- `scripts/module_move.py`: `relative_from` and `resolve_relative` are inverse only inside a package
  (`Resolvers.RelativeRoundTrip`); a module moved onto `__init__` is taken for a package (`ModuleMove.InitLeafBreaks`).
- `scripts/mailbox_pool_liveness.py:3-4` prunes on a second confirmation; two equal lines confirm each other within one
  scan (`Quarantine.OneScanIff`).
- `SmsWorkbench.Contracts/BackendOutputCapture.cs:66-71` keeps a malformed envelope for the parser after exit, but an
  envelope of the wrong shape raises an exception that is not caught there and ends the reader loop, so that results
  behind it are lost (`BackendOutput.Capture.Pump`, `ShapeStopsStreaming`).
- `SmsWorkbench/Interop/PythonBackendClient.cs:105-108` wants a result to be found when it is mixed with warnings on the
  error stream. That holds for an indented result; a flush one is captured there, and that capture is never read
  (`ClientOutput.ErrorStreamIff`, `FlushErrorIsLost`). Lines 92-95 count on the capture for a result that is larger than
  the tail; an indented one is not captured, and lost (`ClientOutput.LongResultIsLost`).

## Model

| member | source | states |
|---|---|---|
| `ImportGraph.ReportUnique` | scripts/dependency_graph.py:207-255 | a graph has only one report (all components of more than one module, each once, in the documented order), whatever order its dictionaries enumerate in: the rendered document is byte-stable |
| `ImportGraph.LargerFirst` | scripts/dependency_graph.py:254-255 | in a report larger components come before smaller ones, and those of one size in the order of their smallest modules, which are listed first |
| `Ordering.NamesAreCompared` | scripts/dependency_graph.py:216-227 | the order of the names: a beginning comes first, else the first different segment decides, and in it the first different character |
| `ImportGraph.OnCycleIffShared` | scripts/dependency_graph.py:187-189 | without self edges a module lies on an import cycle if and only if it shares a component with another module |
| `ImportGraph.CycleTotalExact` | scripts/dependency_graph.py:273-277 | the members of the reported components are exactly the modules on a cycle, and their sizes add up to how many there are |
| `Tarjan.AboveIsComponent` | scripts/dependency_graph.py:239-248 | when `low[node] == index[node]`, what lies on the stack from the node upward is mutually reachable and nothing else is mutually reachable with it |
| `Tarjan.VisitKeeps` | scripts/dependency_graph.py:221-225 | a first visit keeps the depth-first invariants: numbering, reachability below the open path, soundness and completeness of `low` |
| `Tarjan.ScanKeeps` | scripts/dependency_graph.py:228-236 | scanning an edge to a module on the stack keeps them |
| `Tarjan.RetreatKeeps` | scripts/dependency_graph.py:249-251 | handing `low` to the parent and leaving a module keeps them |
| `Tarjan.CloseKeeps` | scripts/dependency_graph.py:239-248 | popping a finished component keeps them |
| `Tarjan.ScanTargets` | scripts/dependency_graph.py:226-236 | the resumable scan of one target list stops at the first target without an index, having scanned every edge before it once |
| `Tarjan.PopComponent` | scripts/dependency_graph.py:239-246 | the inner pop loop removes exactly the stack from the node upward, from the stack and from `on_stack` |
| `Tarjan.Step` | scripts/dependency_graph.py:218-252 | one pass of the work loop keeps the run lawful, and either removes a work item or visits one more module |
| `Tarjan.Drain` | scripts/dependency_graph.py:218-252 | the work loop ends, and pops every work item once and every module visited on the way twice |
| `Tarjan.ExploreFrom` | scripts/dependency_graph.py:213-252 | from one root the work stack empties after 2k - 1 pops, where k is the number of modules first visited |
| `Tarjan.StronglyConnected` | scripts/dependency_graph.py:207-255 | for every finite graph the result is the report: exactly the components of more than one module, each once, sorted; pops and roots together are twice the modules, and every edge is examined exactly once |
| `Tarjan.CycleTotals` | scripts/dependency_graph.py:273-303 | the totals that `render` prints: the number of reported components, and the number of modules on a cycle |
| `GraphBuilder.Resolve` | scripts/dependency_graph.py:93-99 | the descending loop returns the longest indexed prefix |
| `GraphBuilder.LongestPrefixIsLongest` | scripts/dependency_graph.py:93-99 | that result is a non-empty prefix and an indexed module, and no longer prefix is indexed; none means that no prefix is |
| `GraphBuilder.AskedAre` | scripts/dependency_graph.py:102-138 | the names a statement asks for: those that an `import` lists; for a `from` its base, unless it is the bare star of the own package, and each imported name other than `*` behind the base, which in a relative import is the ancestor package followed by the given name |
| `GraphBuilder.BuildBucket` | scripts/dependency_graph.py:150-189 | a bucket holds an edge exactly to another module that is the longest indexed prefix of a name that some statement of its scope asks for |
| `GraphBuilder.Index` | scripts/dependency_graph.py:85-90 | every module name that occurs, once, with the package flag of the last file of that name |
| `GraphBuilder.Build` | scripts/dependency_graph.py:150-197 | the module-scope graph: its modules are the indexed ones, an edge joins two different ones exactly where a module-scope statement asks for a name whose longest indexed prefix is the target, and relative names are resolved with the package flag of the last file of that name |
| `GraphBuilder.MemberEdges` | scripts/dependency_graph.py:133-138 | in that graph every name that a `from` imports, behind its base, gives an edge to its longest indexed prefix |
| `GraphBuilder.BaseEdges` | scripts/dependency_graph.py:133-138 | so does the base itself, with the bare star of the own package as the only exception |
| `GraphBuilder.ImportEdges` | scripts/dependency_graph.py:125-126 | so does each name that an `import` lists |
| `GraphBuilder.NoOtherEdges` | scripts/dependency_graph.py:183-197 | no edge leads from a module to itself, and every edge is one of these three |
| `GraphBuilder.GraphOfUnique` | scripts/dependency_graph.py:150-197 | the files determine modules, edges and package flags |
| `GraphBuilder.Cycles` | scripts/dependency_graph.py:273-277 | the returned components are the cycle report of that graph of the given files, whose edges are those above, and their sizes add up to the number of modules on a cycle |
| `Resolvers.ResolversAgree` | scripts/import_layer_ratchet.py:212-222 | on named imports the five relative-import resolvers of the scripts agree if and only if the import is legal, and then all name the ancestor package followed by the given name |
| `Resolvers.RelativeFromLoop` | scripts/module_move.py:154-161 | the counting loop computes the longest common prefix, and from it level and remainder |
| `Resolvers.RelativeRoundTrip` | scripts/module_move.py:144-161 | `resolve_relative` undoes `relative_from` if and only if both names share the root segment and the file lies inside a package |
| `Resolvers.RelativeLevelMinimal` | scripts/module_move.py:154-161 | no smaller level can name the target |
| `Splice.ApplyEdits` | scripts/module_move.py:222-224 | splicing non-overlapping edits from right to left, collected in any order, is the simultaneous substitution |
| `Splice.SubstituteLast` | scripts/refresh_doc_symbol_lines.py:140-142 | applying the last edit first leaves the substitution of the other edits unchanged |
| `ModuleMove.OldPathMoves` | scripts/module_move.py:267-276 | a path that the reverse lookup takes for a moved file is the image of what it returns, and that is no package file |
| `ModuleMove.EntryMoves` | scripts/module_move.py:267-276 | every entry of the specification, wherever it stands, is found in both directions |
| `ModuleMove.OthersStay` | scripts/module_move.py:267-276 | a name that no entry moves stays, and a path that no entry leads to is its own origin |
| `ModuleMove.RenameIs` | scripts/module_move.py:112-119 | a name in a module that an entry moves gets the new module in front, and every other name stays |
| `ModuleMove.ResolvesAsPython` | scripts/module_move.py:144-152 | the rewriter resolves a relative import as Python does: the ancestor package that the dots stand for, followed by the given name |
| `ModuleMove.SplitAliases` | scripts/module_move.py:190-198 | the alias loop separates the names that stay from the imports emitted for moved names |
| `ModuleMove.SplitPreserves` | scripts/module_move.py:186-205 | splitting one statement keeps what every name denotes, up to the renaming, if and only if no name is bound first by a moved and last by an unmoved alias |
| `ModuleMove.StatementMeaning` | scripts/module_move.py:164-264 | after both passes and seen from the new location, a statement that the passes handle (relative, or absolute from a module that stays, in or outside of the package) binds every name to the renamed image of what it denoted, exactly under that condition |
| `ModuleMove.StatementsMeaning` | scripts/module_move.py:164-264 | a whole file of such statements keeps the meaning of all its imports if and only if no name is reordered by the last statement that binds it |
| `ModuleMove.FileMeaning` | scripts/module_move.py:267-284 | with the origin that the reverse lookup gives, that condition is exact for every list of such statements if and only if the file was not moved onto an `__init__` file |
| `ModuleMove.MovedFileMeaning` | scripts/module_move.py:267-284 | the file that an entry of the specification has moved binds every name to the renamed image of what it denoted at the old place of that entry, exactly when no name is reordered |
| `ModuleMove.OtherFileMeaning` | scripts/module_move.py:267-284 | so does a file to which no entry leads, at its own place |
| `ModuleMove.InitLeafBreaks` | scripts/module_move.py:272-278 | the counterexample: a plain module moved onto `__init__` is resolved as if it had been a package, although no name is reordered |
| `ModuleMove.RewriteRelativeLoop` | scripts/module_move.py:164-224 | the loop over relative imports rewrites every statement |
| `ModuleMove.RewriteRootLoop` | scripts/module_move.py:227-264 | the loop over root-package imports rewrites every statement |
| `ModuleMove.RewritePythonFile` | scripts/module_move.py:267-284 | the two passes in order; for the file that an entry has moved, and statements none of whose names is reordered, the result binds every name to the renamed image of what it denoted at the old place |
| `NarrowGuards.SiteRuns` | scripts/narrow_mapping_guards.py:60-78 | what the two replacement statements compute: one evaluation, then the test, for any expression |
| `NarrowGuards.SiteMeaning` | scripts/narrow_mapping_guards.py:60-78 | a line that Python reads as the tool does keeps its meaning if and only if evaluating the expression a second time would have given the same value without further effect, or was never needed |
| `NarrowGuards.PureSiteMeaning` | scripts/narrow_mapping_guards.py:60-78 | a line with a pure expression, open conditionals and lambdas included, keeps its meaning in a run if and only if the expression is no lambda there, and no earlier part of a conditional gives a value that the test would have replaced or refused |
| `NarrowGuards.PlainRunsKept` | scripts/narrow_mapping_guards.py:60-78 | every run keeps the lines whose expression is closed |
| `NarrowGuards.NarrowRuns` | scripts/narrow_mapping_guards.py:60-114 | for pure sites, programs that do not mention the temporaries of their own sites, and a run that keeps each line it comes to, the rewritten program ends the same way with the same values of all other variables, for every start state and any amount of looping and raising |
| `NarrowGuards.NarrowAnnotates` | scripts/narrow_mapping_guards.py:60-114 | the names annotated afterwards are those annotated before, the rewritten names and their temporaries |
| `NarrowGuards.NarrowAdds` | scripts/narrow_mapping_guards.py:60-114 | as a count of names and types: each site adds `object` for its temporary and the tested type for its name, and no annotation is lost |
| `NarrowGuards.NarrowMeaning` | scripts/narrow_mapping_guards.py:1-14 | such a program keeps its meaning, when Python reads its sites as the tool does, if and only if the annotations that the tool writes are Python: no rewritten name or temporary is declared `global` or `nonlocal`, and no tested type has a comma behind it; with other sites only if they are, and then whenever every run keeps its lines |
| `NarrowGuards.SitesDecide` | scripts/narrow_mapping_guards.py:81-114 | the conditions of these results on a program are conditions on the lines that the tool takes, at any depth |
| `NarrowGuards.AvoidsIff` | scripts/narrow_mapping_guards.py:60-78 | a program avoids names exactly when it neither reads nor assigns any of them |
| `NarrowGuards.SingleTypeIs` | scripts/narrow_mapping_guards.py:60-78 | a type can stand as an annotation exactly when before each of its commas more brackets are opened than closed |
| `NarrowGuards.TypeTextIs` | scripts/narrow_mapping_guards.py:37-41 | the texts that the type group takes |
| `NarrowExamples.RawCollision` | scripts/narrow_mapping_guards.py:60-78 | a program that reads the temporary of one of its sites changes its meaning |
| `NarrowExamples.EvaluatedTwice` | scripts/narrow_mapping_guards.py:60-78 | `x = next() if isinstance(next(), dict) else {}` tests one result and stores the next; its rewriting stores the one it tests |
| `NarrowExamples.OpenConditional` | scripts/narrow_mapping_guards.py:37-41 | `x = a if b else c if isinstance(a if b else c, dict) else {}` matches, and a run of it ends differently although the program is pure, compiles and uses no temporary |
| `NarrowExamples.LambdaNeverKept` | scripts/narrow_mapping_guards.py:37-41 | no run keeps a line whose repeated expression is a lambda |
| `NarrowExamples.TrailingComma` | scripts/narrow_mapping_guards.py:37-41 | `x = v if isinstance(v, dict,) else {}` compiles and its rewriting does not |
| `GuardPattern.PatternTakes` | scripts/narrow_mapping_guards.py:37-41 | over the words of a line, the first match of the pattern has equal groups if and only if the expression that Python reads ends in a test of the repeated expression for a type with an empty default, and that expression holds no inner ` if isinstance(`; the groups are then those parts |
| `GuardPattern.Unique` | scripts/narrow_mapping_guards.py:37-41 | expressions whose words agree, each followed by nothing or by anything but an `if`, are the same |
| `GuardPattern.Search` | scripts/narrow_mapping_guards.py:63-65 | the search returns the first match, lazy in both groups, and none only if there is none |
| `GuardText.RewriteLine` | scripts/narrow_mapping_guards.py:60-78 | working on the words of a line, two lines are returned exactly for a site, and they are the words of its two replacement statements |
| `GuardText.NarrowPrinted` | scripts/narrow_mapping_guards.py:81-114 | rewriting the lines of a program is rewriting its statements, at every depth |
| `GuardText.RewriteText` | scripts/narrow_mapping_guards.py:81-114 | the line loop over the words of a file writes the words of the rewritten file and counts its sites |
| `GuardText.RewritesPrograms` | scripts/narrow_mapping_guards.py:81-114 | so the file of a program that Python reads becomes the file of the narrowed program |
| `RepairAnnotations.TripleRuns` | scripts/repair_narrow_annotations.py:53-82 | the two statements do exactly what the three did, further targets of the first included, if and only if the test does not raise, or the expression does, or the name already held its value |
| `RepairAnnotations.RepairRuns` | scripts/repair_narrow_annotations.py:63-82 | a run whose tests pass in the repaired triples it comes to ends in the identical environment, temporaries included, with no purity assumption |
| `RepairAnnotations.TypesTested` | scripts/repair_narrow_annotations.py:63-82 | where `isinstance` accepts the types of all repaired triples, every run is such a run |
| `RepairAnnotations.RepairDrops` | scripts/repair_narrow_annotations.py:22-28 | counted by name and type, each repaired triple loses the annotation of its name; every other annotation stays, that of its temporary included |
| `RepairAnnotations.DropsAnnotations` | scripts/repair_narrow_annotations.py:22-28 | a name is no longer annotated if and only if each of its annotations closed a repaired triple, and its annotations are those of before if and only if none did |
| `RepairAnnotations.RepairMeaning` | scripts/repair_narrow_annotations.py:63-82 | a program that compiles still compiles after the repair, and every run in which the tests of repaired triples cannot raise is identical, if and only if no repaired triple starts with a chained assignment; and exactly the annotations that close repaired triples are gone |
| `RepairAnnotations.NarrowThenRepair` | scripts/repair_narrow_annotations.py:1-37 | when narrowing alone preserves the visible result, narrowing and then repairing does, in all runs in which the tests of repaired triples cannot raise, under the same condition on the narrowed program |
| `RepairExamples.ChainBreaks` | scripts/repair_narrow_annotations.py:53-60 | the input: `x = y = e` before `x = x if isinstance(x, T) else {}` no longer compiles after both scripts |
| `RepairExamples.TestRaises` | scripts/repair_narrow_annotations.py:53-60 | the input: behind an exception handler the variable of a triple that tests for `list[int]` has its new value before the repair and not after it |
| `RepairedText.RepairPrinted` | scripts/repair_narrow_annotations.py:53-82 | on lines where every replaced match lies at one indentation, in any context, the line-based repair is the repair of the statements |
| `RepairedText.RepairText` | scripts/repair_narrow_annotations.py:63-82 | the script writes the repaired program if and only if every match that it replaces lies at one indentation; in any case the file loses the closing annotation of each replaced match and no other one |
| `RepairedText.LinesDrop` | scripts/repair_narrow_annotations.py:63-82 | the same count for any lines, wherever the matches lie |
| `RepairedText.RepairTextMeaning` | scripts/repair_narrow_annotations.py:63-82 | it then preserves a program that compiles, in all runs in which the tests of repaired triples cannot raise, if and only if no replaced match starts with a chained assignment |
| `RepairedText.BothScripts` | scripts/repair_narrow_annotations.py:1-37 | both scripts over a whole file: they write the narrowed and repaired program if and only if the matches in the narrowed file lie at one indentation each, and that program means the same, where narrowing alone does, under the condition of `NarrowThenRepair` |
| `RepairedText.ReachPrinted` | scripts/repair_narrow_annotations.py:53-82 | for every program, at every depth and whatever follows, the lines written are those of the program in which each block has taken in the lines its last match reaches |
| `RepairedText.ReachText` | scripts/repair_narrow_annotations.py:63-82 | the same for a whole file: the script always writes a program, and which one |
| `DedentedMatch.DedentedText` | scripts/repair_narrow_annotations.py:53-60 | the lines written when a compound statement ends, at any depth, in an assignment that matches with the two lines after the statement: both new lines are inside, whatever follows |
| `DedentedMatch.SwallowRuns` | scripts/repair_narrow_annotations.py:63-82 | a run that comes to the last line of the block ends there, with the assignment in the old block and with the two new lines in the changed one; every other run is the same |
| `DedentedMatch.DedentedMeaning` | scripts/repair_narrow_annotations.py:53-82 | up to the end of such a match a run is the same if and only if the statement does not finish, the run comes to its last line, or the two lines would change nothing; and then it is the same whatever follows |
| `DedentedExample.DedentBreaks` | scripts/repair_narrow_annotations.py:25-28 | a correct, pure program whose visible result changes under narrowing and repair |
| `BatchRun.DeadRunIsTrailing` | scripts/batch_enable_2fa.py:784-788 | the run length is that of the trailing pool-dead results: they carry the marker and the one before them does not |
| `BatchRun.TransientRunIsTrailing` | scripts/batch_enable_2fa.py:790-793 | the same for transport failures |
| `BatchRun.Partition` | scripts/batch_enable_2fa.py:708-745 | in every run results, in-flight and unsubmitted targets partition the list, each finished target has one result, and the window is never exceeded |
| `BatchRun.PausesBounded` | scripts/batch_enable_2fa.py:784-884 | in every run: at most three cooldowns, at most six session waits, no pool-dead run above twelve, no outage run above its limit by more than one window |
| `BatchRun.TwelveOnlyAtTheEnd` | scripts/batch_enable_2fa.py:800-814 | twelve pool-dead results in a row are the last results of the run, and only the abort follows |
| `BatchRun.OutagePauses` | scripts/batch_enable_2fa.py:816-856 | after a round that ended in an outage nothing is submitted before a cooldown and a probe that found the pool answering |
| `BatchRun.CircuitPauses` | scripts/batch_enable_2fa.py:858-884 | after a session circuit nothing is submitted before the wait it asked for |
| `BatchRun.WaitsAsStated` | scripts/batch_enable_2fa.py:553-568 | in the events alone: a session wait follows an error text that named the circuit, and lasts as long as the last such text said, at least a second, and 300 seconds when it said nothing |
| `BatchRun.AbortsForAReason` | scripts/batch_enable_2fa.py:800-884 | a run is given up only when the probe was rejected, the last twelve accounts were, ten transport failures in a row followed the third cooldown, or the lane is shut after six waits |
| `BatchRun.NoSubmissionInAFailure` | scripts/batch_enable_2fa.py:726-886 | no account is submitted after twelve rejections in a row, ten transport failures in a row since the last cooldown, or an unserved session circuit |
| `BatchRun.Batch.FillWindow` | scripts/batch_enable_2fa.py:712-725 | submits the next targets in order until the window is full or the list is used up |
| `BatchRun.Batch.Take` | scripts/batch_enable_2fa.py:732-798 | the counters after one result summarise the history with that result |
| `BatchRun.Batch.TakeRound` | scripts/batch_enable_2fa.py:730-814 | takes every completed future of the round, stopping at the twelfth pool-dead result |
| `BatchRun.Batch.CoolDown` | scripts/batch_enable_2fa.py:821-856 | aborts after three cooldowns, and otherwise cools down and probes once |
| `BatchRun.Batch.WaitForSession` | scripts/batch_enable_2fa.py:862-884 | aborts after six waits, and otherwise waits as long as the latest circuit says |
| `BatchRun.Batch.Round` | scripts/batch_enable_2fa.py:729-886 | one pass of the loop adds a result and leaves either an aborted run or a clear one with a full window |
| `BatchRun.Batch.Run` | scripts/batch_enable_2fa.py:726-886 | every run of the loop is lawful and terminates; unless it aborts every target has exactly one result |
| `WriteAhead.RunsAreSafe` | scripts/batch_enable_2fa.py:177-184 | over every store and in every interleaving, with a crash at any step, the lock discipline, the journal order and the recoverability of secrets hold |
| `WriteAhead.ActivatedIsJournaled` | scripts/batch_enable_2fa.py:361-388 | a secret the remote side has activated is in the durable journal as `enrolled_pending_activate` |
| `WriteAhead.StoredIsJournaledTwice` | scripts/batch_enable_2fa.py:746-768 | a stored secret was there before the run, or was activated and journaled as `activated` and earlier as `enrolled_pending_activate` |
| `WriteAhead.NothingIsLost` | scripts/batch_enable_2fa.py:162-184 | no step removes a journal line, an activation or the stored secret of an account |
| `WriteAhead.OnlyWrittenLinesArrive` | scripts/batch_enable_2fa.py:162-184 | lines reach the disk exactly by a sync, by an append that fails late, or by a crash with a full buffer; only after the holder of the lock has handed the line to the file, and it is that line |
| `WriteAhead.OneWriter` | scripts/batch_enable_2fa.py:180-184 | at most one worker is between acquiring and releasing the journal lock |
| `WriteAhead.EnrollmentCompletes` | scripts/batch_enable_2fa.py:349-388 | from any state of any run an enrollment without mishaps reaches the store, with both journal lines before it, and clears the error of an earlier attempt |
| `WriteAhead.StoreStep` | scripts/batch_enable_2fa.py:746-768 | what the write of the consumer leaves in the row of the account, in every run: a success with a secret leaves that secret and no error; a failure the old secret and the first 500 characters of its error; an account that is enrolled already its old secret and the marker; anything else the row as it was; and no other account changes |
| `WriteAhead.OnlyTheConsumerStores` | scripts/batch_enable_2fa.py:743-768 | no other step changes the store |
| `WriteAhead.FailureIsRecorded` | scripts/batch_enable_2fa.py:370-379 | an activation that fails, with or without effect, keeps its secret in the journal as `activate_failed_secret_kept`, and the first 500 characters of its error in the store |
| `WriteAhead.UnverifiedIsOnlyJournaled` | scripts/batch_enable_2fa.py:380-388 | when the check behind an activation raises, the secret is active and in the journal and not in the store |
| `WriteAhead.ExceptionIsRecorded` | scripts/batch_enable_2fa.py:500-549 | any other failure: with proxies left the account is checked again, and otherwise its error is stored |
| `WriteAhead.AppendFailureIsRecorded` | scripts/batch_enable_2fa.py:162-184 | when the append of a secret fails, before or after its line has reached the disk, nothing is activated and the error is stored |
| `WriteAhead.CrashAndRestart` | scripts/batch_enable_2fa.py:162-184 | after a crash at any point only the line in the buffer is in doubt, and any account can be taken up again |
| `WriteAhead.MarkerIsRecorded` | scripts/batch_enable_2fa.py:759-768 | an account that turns out to be enrolled gets the marker, and keeps its secret |
| `WriteAhead.JournalAfter` | scripts/batch_enable_2fa.py:361-388 | every step keeps `activated` and `activate_failed_secret_kept` lines after the pending line of their secret |
| `LayerRatchet.MutualPairs` | scripts/import_layer_ratchet.py:171-174 | the sorted list of exactly the directory pairs that import each other |
| `LayerRatchet.MinorityEdges` | scripts/import_layer_ratchet.py:176-184 | exactly the statements of the weaker direction of each mutual pair, and of the later direction when both are equal; a minimum cut: without them no two directories import each other, and every set of statements with that effect is at least as large |
| `LayerRatchet.MinorityIsMinimumCut` | scripts/import_layer_ratchet.py:176-184 | the lemma behind it, for every set of deleted statements |
| `LayerRatchet.PairCounts` | scripts/import_layer_ratchet.py:167-169 | the counts are those of the directions that occur, and add up to the number of module-scope statements |
| `LayerRatchet.LongestOverrideWins` | scripts/import_layer_ratchet.py:495-511 | of the overrides that claim a module the longest decides, before the package and root-module tables |
| `LayerRatchet.TablesDecide` | scripts/import_layer_ratchet.py:495-511 | without one the table of subpackages decides, and behind it the table of root modules |
| `LayerRatchet.DirectionViolations` | scripts/import_layer_ratchet.py:514-533 | exactly the unclassified modules, sorted, and exactly the outward edges, split by the allow list |
| `LayerRatchet.LayersNeverDecrease` | scripts/import_layer_ratchet.py:514-533 | when the check reports nothing, layers never decrease along a path of imports that avoids the package root and the allow list |
| `LayerRatchet.CyclesStayInOneLayer` | scripts/import_layer_ratchet.py:514-533 | so mutually reachable modules of that graph share a layer |
| `LayerRatchet.ReportedCyclesStayInOneLayer` | scripts/dependency_graph.py:207-255 | so does every component that the cycle report of that graph lists |
| `LayerRatchet.CleanIff` | scripts/import_layer_ratchet.py:514-533 | with every module classified, the check passes if and only if no import of that graph goes to an outer layer |
| `BackendOutput.LinesOfJoin` | SmsWorkbench.Contracts/BackendJsonProtocol.cs:7-13 | splitting joined lines gives them back, followed by an empty line |
| `BackendOutput.ScanBack` | SmsWorkbench.Contracts/BackendJsonProtocol.cs:14-57 | the backward loop with its two flags: the last deciding line gives the outcome, and the mismatch warning is given exactly when no line decides and one mismatches |
| `BackendOutput.ExtractPayload` | SmsWorkbench.Contracts/BackendJsonProtocol.cs:11-60 | the outcome for every output, in terms of its lines and their JSON: the last line that is a result, does not parse or makes a property access raise decides; version-2 events and foreign versions or schemas are passed; if nothing decides, a foreign line gives the warning, and only an output without any envelope is left to the legacy parser |
| `BackendOutput.JudgedAs` | SmsWorkbench.Contracts/BackendJsonProtocol.cs:18-52 | one line: version 2, the schema and type `result` with a payload make a result; the same with another type, or without type or payload, an event; another or missing version or schema is foreign; a schema or type that is neither a string nor null, or no object at all, is of bad shape |
| `BackendOutput.BatchReadsAs` | SmsWorkbench.Contracts/BackendJsonProtocol.cs:11-60 | the lemma behind it |
| `BackendOutput.TrimIs` | SmsWorkbench.Contracts/BackendJsonProtocol.cs:18-20 | trimming takes all white space off both ends and nothing else |
| `BackendOutput.PrefixIsJudged` | SmsWorkbench.Contracts/BackendJsonProtocol.cs:18-20 | trimming never hides an envelope that starts at the beginning of its line |
| `BackendOutput.LastCharsAppend` | SmsWorkbench.Contracts/BackendOutputCapture.cs:35-47 | cutting to a length before or after appending makes no difference to the end of a text |
| `BackendOutput.Capture.Append` | SmsWorkbench.Contracts/BackendOutputCapture.cs:35-47 | the tail is always the last 262144 characters of the log, in which an oversized line comes without a line end |
| `BackendOutput.Capture.TryCaptureEnvelope` | SmsWorkbench.Contracts/BackendOutputCapture.cs:55-74 | in terms of the JSON of the line: a flush result is captured; one that makes a property access raise raises; an event, a foreign or a malformed envelope and every other line is left to the tail, and the payload stays |
| `BackendOutput.Capture.Pump` | SmsWorkbench/Interop/PythonBackendClient.cs:177-202 | the reader loop stops at the first line that raises; the payload is that of the last captured line before, and the tail is the end of the log of the others |
| `BackendOutput.SameLineIff` | SmsWorkbench.Contracts/BackendOutputCapture.cs:49-74 | what the reader loop yields (an exception or its payload) and the batch parse go by the same line, and yield the same, if and only if no line decides, or the last one that does is a flush result and no line raises, or it is the first line that raises |
| `BackendOutput.StreamingAgreesIff` | SmsWorkbench.Contracts/BackendOutputCapture.cs:49-74 | the two yield the same outcome, exceptions included, if and only if: some line raises and the last deciding line has a bad shape; or none raises and no line decides, or the last that does is a result with the captured payload; without an envelope, if the legacy parser finds nothing |
| `BackendOutput.StreamingAgrees` | SmsWorkbench.Contracts/BackendOutputCapture.cs:49-74 | with an envelope present, what each of the two yields: what the line it goes by says, the batch parse by the later one, which is a flush result only if streaming raised |
| `BackendOutput.ShapeStopsStreaming` | SmsWorkbench.Contracts/BackendOutputCapture.cs:60-70 | an envelope that is a JSON array before a valid result: the batch parse returns the result, the reader loop raises |
| `BackendOutput.WellFormedOutputsAgree` | SmsWorkbench.Contracts/BackendJsonProtocol.cs:11-60 | they agree, without exceptions, when every envelope line starts flush and is well formed |
| `BackendOutput.UncapturedTailIsWhole` | SmsWorkbench/Interop/PythonBackendClient.cs:97-113 | when nothing was captured or cut off, the tail is the whole output |
| `OutputTail.TrimKeepsBatch` | SmsWorkbench.Contracts/BackendOutputCapture.cs:76-77 | trimming a text, across line ends, changes nothing for the batch parse |
| `OutputTail.TailDecides` | SmsWorkbench/Interop/PythonBackendClient.cs:97-113 | when nothing was captured, parsing the bounded tail gives what parsing the whole output would, if the tail holds the output from its last deciding line on |
| `CutTail.CutTailDecides` | SmsWorkbench/Interop/PythonBackendClient.cs:97-113 | if it does not, only the first line of the tail, which is cut off or joined to the one before, can decide |
| `ClientOutput.Receive` | SmsWorkbench/Interop/PythonBackendClient.cs:68-132 | the result for a finished process, from the lines of both streams: a reader that raises ends the call; else the captured payload of the output, else that of its trimmed tail, else that of the tail and the redacted tail of the error stream; a malformed envelope then counts as none |
| `ClientOutput.ClientIff` | SmsWorkbench/Interop/PythonBackendClient.cs:97-132 | when a payload is found in the tail or the error stream is blank, the client reports what a parse of the whole output would give if and only if: a reader raises and the last deciding line of the output has a bad shape; or none raises and the last deciding line is a result with the captured payload, or nothing was captured and the tail holds that line, or its first line says the same |
| `ClientOutput.LongResultIsLost` | SmsWorkbench/Interop/PythonBackendClient.cs:92-113 | an indented result that is longer than the tail is lost, when what is left of it is no envelope |
| `ClientOutput.SilentOutput` | SmsWorkbench/Interop/PythonBackendClient.cs:105-113 | when the output gives nothing, the last deciding line of the redacted error text is reported, or what the legacy parser finds in both texts |
| `ClientOutput.ErrorStreamSays` | SmsWorkbench/Interop/PythonBackendClient.cs:105-113 | then the uncaptured lines of the error stream decide, if redaction leaves its envelope lines alone and the tail holds them |
| `ClientOutput.ErrorStreamIff` | SmsWorkbench/Interop/PythonBackendClient.cs:105-108 | a result that is the last deciding line of the error stream is reported if and only if the uncaptured error lines say the same: always when it is indented |
| `ClientOutput.FlushErrorIsLost` | SmsWorkbench/Interop/PythonBackendClient.cs:188-189 | a flush result that is the only line is lost on the error stream, and found on the output |
| `ProxyTransport.Extract` | SmsWorkbench.Contracts/ProxyArgumentTransport.cs:83-124 | the loop with variable stride computes the one-pass specification of kept arguments and exported environment |
| `ProxyTransport.KeptExactly` | SmsWorkbench.Contracts/ProxyArgumentTransport.cs:99-116 | the kept arguments are, in order, exactly those that are neither a route flag nor right behind one as its value |
| `ProxyTransport.KeptHoldsNoRoute` | SmsWorkbench.Contracts/ProxyArgumentTransport.cs:99-116 | no route flag is kept |
| `ProxyTransport.LastValueWins` | SmsWorkbench.Contracts/ProxyArgumentTransport.cs:95-116 | a flag has a value if and only if some occurrence is followed by one, and the last such occurrence decides; a following `--` token is never taken |
| `ProxyTransport.ExtractIdempotent` | SmsWorkbench.Contracts/ProxyArgumentTransport.cs:83-124 | extracting again changes nothing |
| `ProxyTransport.ComposesIff` | SmsWorkbench.Contracts/ProxyArgumentTransport.cs:83-124 | extraction composes over concatenation if and only if the seam does not part a flag from its value |
| `ProxyTransport.AppendProxyPool` | SmsWorkbench.Contracts/BackendCommandPlanner.cs:770-796 | appends the scalar route and, for more than one proxy, the joined pool |
| `ProxyTransport.CleanedAre` | SmsWorkbench.Contracts/BackendCommandPlanner.cs:770-783 | the pool is what is left of its entries after trimming, in order and without the blank ones |
| `ProxyTransport.JoinLinesRoundTrip` | SmsWorkbench.Contracts/BackendCommandPlanner.cs:777-782 | splitting the joined pool at line ends gives its entries back |
| `ProxyTransport.PoolRecoveredIff` | SmsWorkbench.Contracts/BackendCommandPlanner.cs:770-796 | extraction recovers the emitted pool exactly when its first proxy does not start with `--`; otherwise nothing is transported |
| `ProxyTransport.EnvironmentOfExtract` | SmsWorkbench.Contracts/ProxyArgumentTransport.cs:118-123 | each route variable holds the captured value or what it held before, and no other variable changes |
| `ProxyTransport.RouteVariables` | SmsWorkbench.Contracts/ProxyArgumentTransport.cs:56-63 | which variable belongs to which of the four flags: a flag with its value sets that variable and no other |
| `DocPointers.SameShapeSameClaims` | scripts/refresh_doc_symbol_lines.py:87-127 | line numbers play no part in attributing pointers to symbols |
| `DocPointers.OnlyNumbersChange` | scripts/refresh_doc_symbol_lines.py:130-144 | the refresh changes nothing but the digits of pointers |
| `DocPointers.NoDriftAfterRefresh` | scripts/refresh_doc_symbol_lines.py:130-144 | after it no pointer is wrong and a second refresh changes nothing |
| `DocPointers.ClaimsAre` | scripts/refresh_doc_symbol_lines.py:87-127 | the symbol of a pointer, from the tokens alone: in a sentence that of the last name before it, with neither name nor pointer in between; in a row that of the name with as many names before it as there are pointers before this one, if the cells hold equally many |
| `DocPointers.RefreshIs` | scripts/refresh_doc_symbol_lines.py:130-144 | a pointer whose symbol its file, or the file named last before it, defines comes to say that line, and is left as it is written when it says it already; every other token stays |
| `DocPointers.ProseClaims` | scripts/refresh_doc_symbol_lines.py:107-122 | in a sentence a pointer belongs to the name right before it, with no pointer in between |
| `DocPointers.RowClaims` | scripts/refresh_doc_symbol_lines.py:87-98 | in a table row symbols and pointers are matched by position, if there are equally many |
| `DocPointers.CollectEdits` | scripts/docs_consistency_scan.py:182-198 | one pass with the shorthand state collects edits that turn the text into that of the refreshed tokens |
| `DocPointers.TextOf` | scripts/refresh_doc_symbol_lines.py:130-144 | the text of a line: its tokens one after the other, names and pointers in backticks, the cells of a row between bars |
| `DocPointers.RewriteLine` | scripts/refresh_doc_symbol_lines.py:130-144 | splicing them gives the text of the refreshed line |
| `DocPointers.CheckSymbolTables` | scripts/docs_consistency_scan.py:253-279 | the checker reports exactly the wrong pointers of table rows |
| `DocPointers.GateGreenAfterApply` | scripts/docs_consistency_scan.py:253-279 | after a refresh the checker reports nothing and the refresh finds no drift |
| `DocPointers.FailsIffChanged` | scripts/docs_consistency_scan.py:253-279 | the checker fails a row if and only if the refresh changes it |
| `Retention.PlanRetention` | scripts/runtime_retention.py:287-337 | exactly the retired files, each once with its figures, oldest first |
| `Retention.RetiredIs` | scripts/runtime_retention.py:287-337 | which files are retired: outside the relocation areas and the old trash, protected by no name and no ending, no lock at the top, and the first rule that matches has a floor that the age has reached |
| `Retention.MatchesIs` | scripts/runtime_retention.py:114-138 | a rule for a directory takes what lies in it and has a matching name; one for a name what has that name, at the top only unless it is recursive |
| `Retention.GlobConcat` | scripts/runtime_retention.py:114-138 | a pattern put together from two takes a name in two parts |
| `Retention.GlobOne` | scripts/runtime_retention.py:114-138 | and of its characters a star takes every part and any other itself |
| `Retention.HigherFloorPlansSubset` | scripts/runtime_retention.py:287-298 | a higher override plans a subset |
| `Retention.DocumentedAt` | scripts/runtime_retention.py:141-144 | at one age they agree if and only if there is an override, or the age is not between the floor of some matching rule and a higher floor of the first one |
| `Retention.DocumentedIff` | scripts/runtime_retention.py:141-144 | without an override, the documented reading of the rule list and the code agree on a path at every age if and only if no matching rule has a lower floor than the first matching one |
| `Retention.ShippedRulesDisagree` | scripts/runtime_retention.py:145-255 | a file that the shipped policy keeps and the documented reading retires |
| `Retention.ShippedPolicy` | scripts/runtime_retention.py:145-190 | the shipped policy never retires data bases, and retires the locks of the batch gates after seven days and browser profiles after three |
| `Retention.Tree.Relocate` | scripts/runtime_retention.py:348-366 | exactly the listed files that exist, that the operating system does not refuse and whose target is open are renamed under the stamp; the other files stay, and no directories appear but those the renames need |
| `Retention.OpenStays` | scripts/runtime_retention.py:356-366 | no rename changes which others can succeed, so the order of the list does not matter |
| `Retention.AllRenamed` | scripts/runtime_retention.py:356-366 | without refusals and with a clear target every planned path is renamed |
| `Retention.ConservedCount` | scripts/runtime_retention.py:348-368 | no file is lost or duplicated |
| `Retention.ReplanFindsTheRest` | scripts/runtime_retention.py:287-337 | planning again at the same time finds exactly the files that could not be moved |
| `Retention.Tree.Retire` | scripts/runtime_retention.py:436-463 | the tool with `--apply`, given the renames and removals that are refused: exactly the other planned files are moved, files are conserved, protected files stay, replanning finds the refused ones, the directories left are exact and none is empty but those that refuse; without refusals and with a clear target everything planned is moved and replanning finds nothing |
| `Retention.Tree.PruneEmpty` | scripts/runtime_retention.py:370-382 | exactly the directories stay that the walk skips, that refuse to go, or that have a file or such a directory below them, in whatever order the walk comes to them |
| `Retention.PrunedExactly` | scripts/runtime_retention.py:368-382 | removing childless directories until none is left has only one outcome |
| `Quarantine.DeadRunMeaning` | scripts/mailbox_pool_liveness.py:117-135 | the run length counts the trailing consecutive dead probes of a credential |
| `Quarantine.Pool.Scan` | scripts/mailbox_pool_liveness.py:112-160 | the stored confirmations are those run lengths, a line is removed exactly when its run reaches two and the scan applies, and all others stay in order |
| `Quarantine.ConfirmedIff` | scripts/mailbox_pool_liveness.py:117-133 | a line is confirmed if and only if it is dead now and the previous probe of its fingerprint was dead |
| `Quarantine.DistinctLinesNeedTwoScans` | scripts/mailbox_pool_liveness.py:117-133 | with distinct fingerprints that takes two scans |
| `Quarantine.OneScanIff` | scripts/mailbox_pool_liveness.py:117-133 | without them one scan suffices if and only if the nearest earlier duplicate is dead as well |
| `Quarantine.DuplicateConfirmsItself` | scripts/mailbox_pool_liveness.py:117-133 | such a pool |
| `Quarantine.WithoutKeepsOthers` | scripts/mailbox_pool_liveness.py:154-160 | removal keeps exactly the other lines, in order |

## Left out

- The HTTP lanes of `run_one`, proxies, mailboxes, browsers, subprocesses, git and the network: they are arbitrary outcomes.
- `enroll_with_token` and `Journal.append` as sequential code: they are steps of the state machine in `WriteAhead.dfy`; a
  run of several processes writes several journal files, which are modelled as one, and a line torn by a crash counts as
  absent.
- How long a pause really takes, `executor.shutdown`, progress printing and the report file of the batch run.
- Regular expressions and Python's parser: statements, tokens and lines are what they produce. In particular the refreshed
  documentation line is assumed to be split into the same tokens as before, with the new digits.
- ModuleMove.FileMeaning: statements are rewritten as values; header spelling with unusual spaces, trailing comments,
  one-line suites and string literals are not modelled, and neither is `rewrite_names_and_paths`. A moved module is a plain file,
  so imports from underneath it do not occur. Absolute imports from a moved module are those of that pass, and plain
  `import` statements do not occur.
- GuardText.RewriteText: the idiom written over several lines is the same statement and has no model of its own;
  the type expression of an annotation is not evaluated, and nothing reads `__annotations__`. The names in a type are not
  variables of the program.
- GuardPattern.PatternTakes: about lines that are one statement. Inside string literals, comments and brackets left open by
  an earlier line the pattern can match what is none. Tuples without parentheses, `:=` and calls of `isinstance` whose
  repeated expression is such a tuple are not in the language.
- RepairedText.ReachText: lines hold one statement each; several statements on a line, comments and string literals are not
  modelled.
- DedentedMatch.DedentedMeaning: about a match that starts at the end of `if`, `else` and `except` blocks. For one that
  starts at the end of a loop body `DedentedText` gives the program that is written; each pass of its loop works on what
  the pass before narrowed, and nothing short of running both programs says whether that shows. Nor is there a condition
  on the program alone: a block whose condition can never fail keeps its meaning.
- LayerRatchet.PairCounts: a direction is a pair of directories, where the script uses the text `a -> b` as key.
- `ExtractLegacyPayload`, the parser for outputs without an envelope, is a parameter that trims its text first, and the
  redaction of the error text is a function. Timeouts, killed processes and progress reports are not modelled; each reader
  has its own capture, so the two are run one after the other.
- ClientOutput.ErrorStreamSays: says nothing when the tail of the error stream no longer holds its last deciding line;
  `SilentOutput` says what is reported then.
- The characters of `MaxTailChars` are UTF-16 code units in the program and characters here.
- File encodings, byte-order marks, line-end translation on writing, case-insensitive path matching on Windows and symbolic
  links.
- Retention.Tree.Relocate: the stamp is new, as it is unless the tool runs twice within a second; `--purge` is not modelled.
- Retention.GlobConcat: shell patterns know `*` only, the one special character of the shipped rules; `?` and `[...]` are
  not modelled.
- The other columns and the JSON mirror of a stored account: a row is its secret and its error. An account that the store
  does not know gets no row.
- Age in days is a real number, without the rounding of floating point.
- `resolve_target` and `_resolve` of the delayed-import and lane scripts beyond relative named imports, and the resolver of
  `scripts/kernel_boundary_ratchet.py`, which treats a module as its own package and does not agree with the others.
- The remaining count ratchets, secret scanners, the user interface and the other command builders: they would add only easy members.
