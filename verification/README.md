# Verified model of the BACTalk tooling

BACTalk turns control sequences into typed block graphs, exports them to Niagara and keeps retained
evidence beside them. This project models the parts of it that carry state or an algorithm, and
proves what each is relied on for.

- **Control graphs and the interpreter** (`ControlGraph`, `GraphRules`, `Interpreter`,
  `Reordering`). The validator accepts exactly the graphs whose ids are unique, whose links join
  existing slots of one type, whose inputs each have one driver, and whose links into blocks that
  feed through close no loop, and otherwise names the first rule broken. A tick computes the one
  solution of the blocks' equations, and raises iff there is none; read off the links, each block's
  outputs and state are what its kind makes of the values its links bring. No value is read before
  it is there. Declaring blocks or links in another order changes neither acceptance, nor whether a
  tick or a run succeeds, nor its values and states.
- **The Shadow Runtime's start order** (`StartOrder`, `LoopOpening`). The search with an explicit
  stack is proved equal to recursive depth-first search, from delays, then sources, then the rest,
  each in document order; it lists every block once and puts each wire forward unless the wire leads
  back onto the trail that led to it, over blocks no earlier search reaches. The comment on it says
  loops are opened at delays. That holds in every flat document that declares the blocks and wires
  (each block holding the links into it, as the loader reads them) iff every loop has a delay and
  every loop met on a walk from a delay is met at one; the condition for every order whatsoever is
  the same.
- **The type and slot harvester** (`Text`, `Folds`, `Tally`, `ObjectGraph`, `CatalogRows`,
  `Harvest`, `Conservation`, `Catalog`, `Census`, `CatalogMeaning`). An object whose dictionaries
  every element of every file updates. Each file's contribution is a fixed list of counting steps;
  steps commute, so the dictionaries end up holding exact counts and the written catalog depends on
  the order of traversal iff two files of one source id disagree on provenance. The counters obey
  conservation laws, and every row of the catalog says how many places of the documents, read off
  their elements, it stands for.
- **The retention tool** (`NonCdl`, `NameLookup`, `ClassReferences`, `Sampling`, `AbsentInputs`,
  `Scenarios`, `SettledReference`, `Retention`, `RetainedAbsences`). The worklist over class
  references reports exactly the flagged classes that are reachable. The two timeline samplers agree
  iff every phase restates what earlier phases set. The loop that learns absent inputs is bounded
  for any engine. For an engine that only rejects what its instance lacks, it records exactly the
  old absences and the points the instance lacks, whichever it is told of first, and a second
  retention reproduces the first iff no scenario dropped for one of those bears a kept one's name.
  What the engine is stepped on is told row by row. Whole runs of the tool compose, what they leave
  on disk is characterised, error paths included, a check exits 0 iff nothing it makes anew differs
  from what is retained, and over any history of runs no reference forgets an absence.
- **The coverage report** (`Grading`, `Coverage`, `Resume`, `ReportRows`, `StuckRows`). The D1 to D4
  ladder, and the resumable generator: any number of interrupted starts, each over its own
  configurations and for its own sample size, followed by one that finishes gives the rows of one
  fresh run iff the progress rows it trusts are sound, with a bound on repeated grading.
- **The programming agent** (`Agent`, `CustomProgram`) and its counterexample summaries
  (`Counterexample`, `FailureSummary`). The full trace of the bounded loop, the bound on
  coding-model calls, and the clipping of a trajectory to the samples around its peak.
- **Smaller pieces** (`SourcePatch`, `Bootstrap`, `Station`): the exact-once source patch, the
  bootstrap driver with its pinned checkout, and the station fixture whose handles come from one
  counter.

Engines, planners, test suites, validators and git are parameters: functions of what they are given,
so every result holds for all of them. An object of the program that is updated in place is a class
here; each of its methods is proved equal to a function of the old state, and the laws are proved of
those functions.

## Where the code and its documentation differ

The model follows the code.

- `scripts/retain_tier2.py:323` calls its candidate list Modelica name lookup. Section 5.3.1 of the
  Modelica Language Specification searches enclosing packages innermost first; the list tries the
  innermost, then the bare name, then the rest outermost first (`NameLookup.LookupAgrees`,
  `NameLookup.LookupCanDiffer`). For a dotted reference the comparison covers those the language
  resolves: section 5.3.2 fixes the package by the first identifier alone, and an error it raises
  there is not modelled.
- `scripts/bootstrap.py:145-147` says a narrowed checkout is corrected rather than silently kept.
  That is so when a scope is requested; when the lock no longer declares one, the old scope stays
  (`Bootstrap.Destination.CloneWithoutScope`).
- `scripts/coverage_report.py:304-305` says an interrupted run resumes. A fresh run stopped before
  its first save leaves an older progress file behind, and resuming trusts it
  (`Resume.StaleFileSurvivesFreshRun`, `Resume.AStaleFile`).
- `scripts/retain_tier2.py:470-472` names the stage of a failure after the file that is on disk, so
  a failed translation is recorded at stage "reference" when an older one is retained
  (`Retention.StageOfFailedTranslation`), and a configuration can be fully retained and blocked at
  once, which `tests/test_native_bog_tier2.py:53` does not expect (`Retention.RetainedAndBlocked`,
  `Retention.RetainedThenBroken`).
- `src/bactalk/ai.py:456` marks a clipped window as truncated; clipping it again loses the mark,
  though never the window (`Counterexamples.ReclippingIsIdempotentIff`).
- `src/bactalk/niagara/shadow/engine.py:215-221` promises an order that opens loops at delays
  (`LoopOpenings.AlwaysOpensAtDelaysIff`, `LoopOpenings.LoopOpenedElsewhere`).

## Model

| member | source | states |
|---|---|---|
| ControlGraphs.Validate | src/bactalk/domain.py:1571-1614 | a graph is accepted iff ids are unique, every link fits, no input has two drivers, every input has one, and no cycle closes through blocks that feed through; a rejection names the first problem in the order of the checks, down to the first unconnected input |
| ControlGraphs.CheckLinks | src/bactalk/domain.py:1579-1598 | the loop over the links: the first bad link and its fault, or the exact tables of successors and unmet edges |
| ControlGraphs.FaultIsThere | src/bactalk/domain.py:1580-1594 | the per-link checks report a fault iff the link has it, in their order |
| ControlGraphs.Drain | src/bactalk/domain.py:1603-1613 | the queue loop releases distinct blocks, each after every block that feeds it, and releases all of them iff the edges are acyclic |
| ControlGraphs.StuckIsCyclic | src/bactalk/domain.py:1612-1613 | blocks that are never released close a cycle among themselves |
| ControlGraphs.OrderedIsAcyclic | src/bactalk/domain.py:1605-1613 | an order of all blocks rules every cycle out |
| ControlGraphs.TopologicalOrder | src/bactalk/domain.py:1616-1633 | on an accepted graph: every block exactly once, none before a block that feeds it within the tick |
| GraphRules.AcceptedIff | src/bactalk/domain.py:1571-1614 | the same said of the blocks and links alone: ids differ, every link joins an output to an input of one type, each input has one link into it, and no links into blocks that feed through form a loop |
| GraphRules.RejectionIs | src/bactalk/domain.py:1574-1613 | a rejection names the first rule broken, in the order of the checks: which link and what is wrong with it, or which input of which block has no link |
| GraphRules.TickOrderIs | src/bactalk/domain.py:1616-1633 | a tick order has every block once, and the source of a link into a block that feeds through before its target |
| Interpreters.GraphInterpreter.constructor | src/bactalk/simulator.py:152-162 | the wiring is exactly the links, and the state starts empty |
| Interpreters.GraphInterpreter.Evaluate | src/bactalk/simulator.py:164-221 | the returned values and the new state are the tick of the graph from the old state, read off its links; a raise means no tick exists, and leaves the states of the blocks it had reached in some tick order; a negative step changes nothing |
| Interpreters.GraphInterpreter.EvaluateAll | src/bactalk/simulator.py:174-200 | the main loop over the tick order, with its three lists of blocks to update |
| Interpreters.GraphInterpreter.UpdateAll | src/bactalk/simulator.py:201-220 | one of the three loops that update feedback blocks from the finished values |
| Interpreters.GraphInterpreter.UpdateDeferred | src/bactalk/simulator.py:201-220 | the three loops: unit delays, then `pre` blocks, then state blocks |
| Interpreters.NextCanRead | src/bactalk/simulator.py:188-191 | in any tick order, every value the next block reads has been computed, on a slot that was filled |
| Interpreters.AllCanBeRead | src/bactalk/simulator.py:201-220 | after the pass every block, feedback blocks included, can read all its inputs |
| Interpreters.PassIsSolution | src/bactalk/simulator.py:178-200 | evaluating in order arrives at a snapshot iff the snapshot solves every block's equation |
| Interpreters.PassIsOrderFree | src/bactalk/simulator.py:178-200 | any two orders that respect the reads give one result, failures included |
| Interpreters.UpdatesIsSettling | src/bactalk/simulator.py:201-220 | the updates move each feedback block on from its own state and touch nothing else |
| Interpreters.TickIsSolution | src/bactalk/simulator.py:164-221 | in every tick order the tick is the one solution of the graph's equations, and fails iff there is none |
| Interpreters.TickFollowsLinks | src/bactalk/simulator.py:174-220 | a tick is what the links say: each block is evaluated with exactly its linked inputs (a feedback block with none), each input holding the value of the output its link starts from; a feedback block's new state is its update with those arguments; nothing else has a value or a new state |
| Reorderings.AcceptanceIsOrderFree | src/bactalk/domain.py:1571-1614 | reordering blocks and links never changes acceptance |
| Reorderings.TickOrderExists | src/bactalk/domain.py:1616-1633 | every accepted graph has a tick order |
| Reorderings.TicksAgree | src/bactalk/simulator.py:164-221 | two declarations of one graph have the same ticks: one succeeds iff the other does, with the same values and state |
| Reorderings.OneTick | src/bactalk/simulator.py:164-221 | an accepted graph has at most one tick, across all its declarations |
| Reorderings.RunsAgree | src/bactalk/simulator.py:164-221 | and the same runs: any scans run through in both declarations, with the same results, or in neither |
| Reorderings.OneRun | src/bactalk/simulator.py:164-221 | the same scans have at most one run, across all declarations |
| StartOrders.Visit | src/bactalk/niagara/shadow/engine.py:252-266 | the search from one root with an explicit stack finishes what recursive depth-first search finishes, in that order |
| StartOrders.DfsCovers | src/bactalk/niagara/shadow/engine.py:249-266 | depth-first search finishes each unseen block it reaches once, and leaves nothing it leads to unseen |
| StartOrders.DfsJoin | src/bactalk/niagara/shadow/engine.py:249-251 | searching from two lists of roots is searching from one and then the other |
| StartOrders.DfsFinishes | src/bactalk/niagara/shadow/engine.py:252-266 | each wire out of a finished block leads to one finished before it, or back onto the trail the search came by |
| StartOrders.RootsInOrder | src/bactalk/niagara/shadow/engine.py:236-246 | the roots are tried once each: delays first, then blocks nothing feeds, then the rest, in document order within each |
| StartOrders.TrailBegins | src/bactalk/niagara/shadow/engine.py:236-254 | a search that begins at a block that is no delay meets nothing a delay reaches, and one that begins at a fed block nothing a source reaches |
| StartOrders.SearchGivesStartOrder | src/bactalk/niagara/shadow/engine.py:247-268 | reversing the postorder gives every block once, each wire forward unless it leads from the end of a search trail back onto it; a trail runs over blocks that no block tried before its first one reaches |
| StartOrders.SourceLoopsOpen | src/bactalk/niagara/shadow/engine.py:215-221 | a loop that a source reaches and no delay does is opened on a walk from a source |
| StartOrders.StartOrder | src/bactalk/niagara/shadow/engine.py:230-268 | the method returns exactly that order |
| StartOrders.LoopFreeIsTopological | src/bactalk/niagara/shadow/engine.py:215-221 | without loops, a topological order of the wires |
| LoopOpenings.LoopsOpenAtDelays | src/bactalk/niagara/shadow/engine.py:215-221 | if every loop has a delay and every loop met on a walk from a delay is met at one, only wires into delays go against the order |
| LoopOpenings.DocumentsOpenAtDelaysIff | src/bactalk/niagara/shadow/engine.py:215-246 | in every flat document that declares the blocks and wires, only wires into delays go against the order, iff that condition holds |
| LoopOpenings.AlwaysOpensAtDelaysIff | src/bactalk/niagara/shadow/engine.py:215-246 | the condition is the same when blocks and wires may come in any order at all |
| LoopOpenings.Document | src/bactalk/niagara/shadow/loader.py:410-423 | any walk can be put first in a flat document of the same blocks and wires, whose wires come grouped by target in block order |
| LoopOpenings.DocumentFollows | src/bactalk/niagara/shadow/engine.py:247-268 | in such a document the search follows the walk: the targets it tries before the next block have all been passed |
| LoopOpenings.OpenedElsewhere | src/bactalk/niagara/shadow/engine.py:233-246 | where the condition fails, the flat document that begins with the offending walk makes the order open the loop at a block that is no delay |
| LoopOpenings.OpenLoopsHaveDelays | src/bactalk/niagara/shadow/engine.py:215-221 | any order that opens loops at delays only leaves no loop without one |
| LoopOpenings.DelaysApartAreEntered | src/bactalk/niagara/shadow/engine.py:215-221 | the condition holds in particular when every loop has a delay and no delay reaches another |
| LoopOpenings.LoopOpenedElsewhere | src/bactalk/niagara/shadow/engine.py:215-221 | a flat document whose every loop has a delay, where the order opens the loop at a block that is none |
| Text.WordsAre | scripts/harvest_niagara_catalog.py:117-123 | what splitting an attribute into words gives |
| Tallies.ApplyCommutes | scripts/harvest_niagara_catalog.py:222-270 | any two counting steps commute |
| Tallies.StepsPermute | scripts/harvest_niagara_catalog.py:190-270 | equal multisets of steps give equal dictionaries |
| Tallies.TallyIsExact | scripts/harvest_niagara_catalog.py:190-289 | each counter is the number of steps that raise it; a source is listed iff some step names it |
| ObjectGraphs.KeysHoldsKey | scripts/harvest_niagara_catalog.py:200-221 | the resolved table holds exactly the typed elements, each under its key |
| Harvesting.Harvest.AddSource | scripts/harvest_niagara_catalog.py:166-188 | the provenance of a source id is the one given last |
| Harvesting.Harvest.ResolveKeys | scripts/harvest_niagara_catalog.py:199-221 | the first pass: keys, the handle table and one resolution step per typed element |
| Harvesting.Harvest.HarvestFile | scripts/harvest_niagara_catalog.py:190-270 | the steps taken are, as a multiset, those the file alone determines |
| Harvesting.Harvest.CountElements | scripts/harvest_niagara_catalog.py:222-266 | the second pass: every typed element counted in document order, and the types touched |
| Harvesting.Harvest.HarvestElement | scripts/harvest_niagara_catalog.py:223-266 | one element of the second pass: value, or component with its children's steps |
| Harvesting.Harvest.HarvestChild | scripts/harvest_niagara_catalog.py:240-266 | a child is skipped, a link, or a slot |
| Harvesting.Harvest.HarvestSlot | scripts/harvest_niagara_catalog.py:252-266 | a slot's counts, child type, flags and facets |
| Harvesting.Harvest.HarvestLink | scripts/harvest_niagara_catalog.py:272-289 | a link's ord scheme, target slot, and source slot through the handle table |
| Harvesting.Harvest.FoldPybog | scripts/harvest_niagara_catalog.py:291-321 | declarations applied in table order |
| Harvesting.Harvest.FinishType | scripts/harvest_niagara_catalog.py:325-360 | the row written for one type |
| Harvesting.Harvest.Finish | scripts/harvest_niagara_catalog.py:323-377 | the written catalog is a canonical projection of the counts |
| CatalogRows.MostSeen | scripts/harvest_niagara_catalog.py:330-332 | the observed value type has the largest count, the least name among those |
| Conservation.CountsAreConserved | scripts/harvest_niagara_catalog.py:190-289 | over all files: value and component counts add up to the typed elements, which add up to resolved plus unresolved symbols; ord counts add up to the named links of typed elements |
| Census.KeyIsResolved | scripts/harvest_niagara_catalog.py:203-218 | an element's key is its type with the symbol replaced by the module the last declaration up to it gives, or the type as written when none does |
| Census.FieldIs | scripts/harvest_niagara_catalog.py:278-281 | a field of a link is the value of its last `p` child of that name |
| Census.HandleIs | scripts/harvest_niagara_catalog.py:219-221 | a handle stands for the type of the last typed element that carries it, in lower case |
| Census.CountersAreCensus | scripts/harvest_niagara_catalog.py:190-289 | every counter is the number of places in the documents it is for: elements that are components or values of a type, symbols with and without a declaration, slots with their child types, flags and facets, link ords by scheme, slots that links lead into and start from |
| Census.SlotCensus | scripts/harvest_niagara_catalog.py:252-289 | the counters of one slot: `linkTarget` counts the links under elements of the type whose targetSlotName it is, `linkSource` the links whose ord is a handle of the type and whose sourceSlotName it is |
| Conservation.FileTouchesWhatItHolds | scripts/harvest_niagara_catalog.py:222-270 | a file counts on, and is a source of, exactly the types it holds |
| Conservation.SourcesAreTheHolders | scripts/harvest_niagara_catalog.py:222-270 | a type is entered iff some file holds it, and its sources are exactly those files, so never none |
| Catalogs.HarvestCorpus | scripts/harvest_niagara_catalog.py:398-422 | the whole run over any list of parsed files |
| Catalogs.DeclaringKeepsCounts | scripts/harvest_niagara_catalog.py:291-321 | pybog tables change no count and no source |
| Catalogs.OriginTellsHarvested | scripts/harvest_niagara_catalog.py:357-357 | a row says "harvested" iff some file holds an element of its type |
| Catalogs.CatalogPermutes | scripts/harvest_niagara_catalog.py:398-422 | permuting the files keeps the catalog |
| Catalogs.OrderIndependence | scripts/harvest_niagara_catalog.py:398-422 | every order yields one catalog iff files sharing a source id agree on provenance |
| CatalogMeanings.TablesDeclare | scripts/harvest_niagara_catalog.py:291-321 | the tables name a slot once, with the first direction and the first value type any of their rows gives it |
| CatalogMeanings.SlotRowTells | scripts/harvest_niagara_catalog.py:328-351 | a slot's row: its counts, the child types and flags seen with theirs, the commonest child type or else the declared one, its data kind, its direction and its origins |
| CatalogMeanings.TypeRowTells | scripts/harvest_niagara_catalog.py:325-360 | a type's row: module and name, counts, origin, sources, and a row for each slot counted in the files or named by the tables |
| CatalogMeanings.CatalogTells | scripts/harvest_niagara_catalog.py:323-377 | the whole catalog: sorted throughout, a row for each type held or declared, the provenance of the last file of each id, and the tables of modules, facets, ord schemes and unresolved symbols |
| NonCdl.NonCdlClasses | scripts/retain_tier2.py:280-331 | terminates on cyclic references and returns, sorted, exactly the labels of flagged classes reachable from the controller |
| NonCdl.QueueReferences | scripts/retain_tier2.py:316-330 | what one class adds to the worklist, by the first candidate that exists |
| NonCdl.ClosureIsReachability | scripts/retain_tier2.py:294-299 | any closed visited set that is reached is the reachable set, whatever the pop order |
| NonCdl.OneLabelEach | scripts/retain_tier2.py:304-314 | one label for each flagged class, and every label names a reachable one |
| NonCdl.LabelsAreDistinct | scripts/retain_tier2.py:304-314 | a label determines its class and reason |
| ClassReferences.TargetsAreReferences | scripts/retain_tier2.py:315-330 | a class leads to the class its file names: in its own package, else at the top, else in the outermost package around it that has one |
| ClassReferences.OffendersAreReported | scripts/retain_tier2.py:280-331 | the labels are those of the classes some chain of references ends at, each with the first fault its text has |
| NameLookup.LookupAgrees | scripts/retain_tier2.py:323-330 | the tool's lookup finds what innermost-first lookup of the whole name finds iff the enclosing package has the name or at most one package around it does |
| NameLookup.LookupCanDiffer | scripts/retain_tier2.py:323-330 | a library where the two lookups differ |
| Sampling.CaseSamples | scripts/retain_reference_traces.py:43-66 | the carrying sampler's rows |
| Sampling.CaseSamplesTier2 | scripts/retain_tier2.py:134-154 | the restating sampler's rows |
| Sampling.RowCount | scripts/retain_reference_traces.py:53-66 | one row more than the repeats of all phases |
| Sampling.RowAt | scripts/retain_reference_traces.py:53-66 | row k has the clock of its scan and the inputs of the phase that holds it |
| Sampling.GridMovesForward | scripts/retain_reference_traces.py:53-66 | times begin at 0 and rise strictly for positive steps |
| Sampling.SamplersAgree | scripts/retain_reference_traces.py:43-66 | the samplers agree on a case iff it is flat or every phase that is scanned after others restates their inputs |
| Sampling.OnePhaseIsFlat | scripts/retain_tier2.py:141-154 | one phase gives the rows of the flat case |
| Sampling.SplittingAPhase | scripts/retain_reference_traces.py:53-66 | cutting a phase in two, the second half without inputs, changes no row |
| Sampling.DroppingCommutes | scripts/retain_tier2.py:157-175 | dropping inputs before sampling is dropping them from every row, and no row names one |
| AbsentInputs.ReferenceEnvelope | scripts/retain_tier2.py:186-240 | the loops compute the envelope, with their engine calls counted |
| AbsentInputs.ProbeCaseLearns | scripts/retain_tier2.py:195-209 | one case: the list grows by fresh names, bounded, one call per name and one to run |
| AbsentInputs.LearningIsBounded | scripts/retain_tier2.py:190-235 | for any engine: the list only grows, stays duplicate-free, never exceeds max(initial, 33); a finished run made cases + learned calls, and each case ran with a prefix of the final list |
| AbsentInputs.AbsencesNeverShrink | scripts/retain_tier2.py:190-244 | retaining again never forgets an absence |
| Scenarios.ScenariosAre | src/bactalk/library_tier2/__init__.py:1308-1345 | the scenarios are the nominal point, the moves of the points present, and the events |
| Scenarios.ScenariosInOrder | src/bactalk/library_tier2/__init__.py:1308-1345 | the nominal point first, then the moves in interface order, then the events in theirs |
| Scenarios.ScenarioRows | src/bactalk/library_tier2/__init__.py:1236-1345 | what the engine is stepped on: 46 rows a minute apart that name exactly the points present; a step scenario carries the nominal values to its event's scan and the event's after it, a moved one the move's value throughout |
| Scenarios.ExecuteAsks | scripts/retain_tier2.py:197-203 | the engine is asked iff samples and absences are public and cover the interface |
| Scenarios.CaseIsProbed | scripts/retain_tier2.py:195-209 | one case call by call: every call but the last names a new absence, and the last one decides |
| Scenarios.ProbeIsUnique | scripts/retain_tier2.py:195-209 | and that determines its outcome |
| SettledReference.ScenariosWithout | src/bactalk/library_tier2/__init__.py:1308-1345 | the scenarios for more absences are the surviving scenarios |
| SettledReference.CaseWithout | src/bactalk/library_tier2/__init__.py:1348-1374 | a surviving scenario's case is the old case with the absences dropped |
| SettledReference.KeptIsRemaining | scripts/retain_tier2.py:239-240 | filtering traces by name keeps all that survive, and exactly those iff no dropped one bears a kept name |
| SettledReference.DistinctNamesTell | scripts/retain_tier2.py:239-240 | distinct scenario names are enough for that |
| SettledReference.KeptCaseRunsAgain | scripts/retain_tier2.py:195-204 | a kept case runs at once, with the same trace, when all absences are known up front |
| SettledReference.RecordedAbsences | scripts/retain_tier2.py:190-240 | with an engine that rejects only inputs its instance lacks (ops/open-control-engine-runner/src/main.rs:225-229), a finished retention records exactly the old absences and the points the instance lacks |
| SettledReference.RetainedReferenceIsSettled | scripts/retain_tier2.py:178-240 | with such an engine a second retention learns nothing, and writes the same reference iff no scenario on one of those inputs bears the name of a scenario on none |
| SettledReference.UnsettledReference | scripts/retain_tier2.py:239-240 | a setup where one does, whose second reference differs from the first |
| Retention.Tool.ProcessOne | scripts/retain_tier2.py:418-476 | one configuration, under any flags: its files, blocker and drift change as specified, all others stay |
| Retention.Tool.ReferOne | scripts/retain_tier2.py:440-457 | the reference half of it |
| Retention.Tool.RetainSelected | scripts/retain_tier2.py:389-480 | the whole run on disk; `--check` writes nothing and exits 0 iff every selected configuration is skipped, or makes no document that differs from the retained one, under any other flags; a run that writes exits 0 |
| Retention.ProcessIsIdempotent | scripts/retain_tier2.py:418-476 | processing a configuration again in one run, under any flags that write, changes nothing |
| Retention.SelectionOrderIsImmaterial | scripts/retain_tier2.py:400-404 | neither the order of the selection nor a repeat in it matters |
| Retention.RunsCompose | scripts/retain_tier2.py:418-478 | runs over disjoint selections, in either order, leave what one combined run leaves |
| Retention.RunLeaves | scripts/retain_tier2.py:418-478 | under any flags that write: an unselected or skipped configuration is untouched; any other has its translation made anew or kept, the reference made from it and no blocker, and the first failure leaves what follows as it was and a blocker with its stage and reason |
| Retention.StageOfFailedTranslation | scripts/retain_tier2.py:469-474 | after a run, a failed translation is staged "reference" iff an older translation is retained |
| Retention.RetainedAndBlocked | scripts/retain_tier2.py:449-474 | exactly when a run leaves a configuration both retained and blocked |
| Retention.RetainedThenBroken | scripts/retain_tier2.py:461-474 | a disk and a toolchain for which it does |
| Retention.AbsencesNeverShrinkOverRuns | scripts/retain_tier2.py:188-244 | over any history of runs, references are never removed and their absences never shrink |
| RetainedAbsences.EnvelopeKeepsAbsences | scripts/retain_tier2.py:178-244 | the reference envelope, rendered and read back, forgets no recorded absence |
| RetainedAbsences.ReferencesNeverForget | scripts/retain_tier2.py:186-244 | over any history of runs of the tool with that envelope, whatever the engines, no reference forgets one |
| Grading.Judge | scripts/coverage_report.py:159-205 | the first leg that does not raise is the recorded policy; all raising leaves every reason |
| Grading.Grade | scripts/coverage_report.py:70-206 | the whole row: each rung under the tools' answers and the rung below, the leg D4 is judged on and its numbers, or every leg's reason |
| Grading.GradeIsUnique | scripts/coverage_report.py:70-206 | those answers determine the row |
| Grading.LegsAre | scripts/coverage_report.py:151-183 | the row is judged iff the judge answers on one of the legs it is tried on |
| Grading.Ladder | scripts/coverage_report.py:83-158 | D3 implies D2 implies D1; D4 implies D2 and a differential leg the file passed |
| Grading.SummaryIsOrdered | scripts/coverage_report.py:384-394 | over graded rows d1 >= d2 >= d3, d2 >= d4, and all_four is at most each |
| Grading.JudgedWithoutD3 | scripts/coverage_report.py:146-158 | D4 can pass where D3 does not |
| Coverage.Generator.Build | scripts/coverage_report.py:300-374 | one start of the generator, stopped after any number of steps: file, rows and gradings |
| Resume.SavedRowIsFresh | scripts/coverage_report.py:323-328 | a saved row comes back as it was graded |
| Resume.ResumeIsFreshIff | scripts/coverage_report.py:306-374 | a finished resumed run has the fresh rows iff every cached row it uses is sound |
| Resume.EnoughSteps | scripts/coverage_report.py:300-374 | two steps per configuration are enough to finish |
| Resume.SaveKeepsSound | scripts/coverage_report.py:321-326 | saving a graded row keeps the progress sound for every sample size |
| Resume.InterruptedRunsRefineFreshRun | scripts/coverage_report.py:289-374 | any number of starts, each with its own flags, configurations, sample size and interruption, then one that finishes, gives the rows of one fresh run of its kind |
| Resume.StaleFileSurvivesFreshRun | scripts/coverage_report.py:289-297 | a fresh start stopped before its first save leaves the old file to be trusted; right iff that file was sound |
| Resume.AStaleFile | scripts/coverage_report.py:359-365 | a progress file that is not |
| Resume.OneRunAccounts | scripts/coverage_report.py:300-374 | one start: what it grades and leaves unsettled is bounded by what it found unsettled, plus one if interrupted |
| Resume.GradedOncePlusInterruptions | scripts/coverage_report.py:320-326 | configurations that settle are graded at most once each per fresh start (the first, one without resume, one for another sample size) plus once per interruption |
| ReportRows.FinishedRun | scripts/coverage_report.py:300-374 | a finished run field by field: each row is its base overlaid with its recorded blocker, its cached row or its grades, without the marks; graded exactly those neither blocked nor cached for this sample and version; the file then holds their marked rows and otherwise what was loaded |
| StuckRows.StuckIffEveryLegRaises | scripts/coverage_report.py:184-192 | a row carries a "baseline:" blocker iff there was a leg and the judge raised on all |
| StuckRows.SettlesIffJudgeAnswers | scripts/coverage_report.py:359-364 | so a configuration settles iff it is Tier 1, has no leg, or some leg answered |
| Agents.Run | src/bactalk/agent.py:163-200 | 1 to max_attempts attempts, all but the last failed, each graph the planner's answer to the one before; each attempt records its number, verdict, failing assertions, digest and the changes from the graph before; the result is the last, or what the suite or the planner raised there; the final raise is never reached |
| Agents.FailuresAreListed | src/bactalk/agent.py:166-175 | the failures recorded are the failing assertions, each once, in the report's order |
| Agents.NoFailuresIffAllPass | src/bactalk/agent.py:169-179 | the failures of a report are empty iff every assertion passed |
| Agents.TraceIsUnique | src/bactalk/agent.py:163-200 | the planner, the suite and the bound determine the whole trace |
| CustomProgram.Draft | src/bactalk/ai.py:622-670 | no call without tests and text; otherwise one call, and a second iff the first answer held no valid graph |
| CustomProgram.DraftAndRun | src/bactalk/ai.py:622-712 | at most 2 + (max_attempts - 1) calls; graph k tested is the validated answer to the call k after the last drafting call, and all but the last failed |
| Counterexamples.Nearest | src/bactalk/ai.py:430-433 | the first sample nearest the peak |
| Counterexamples.WindowHoldsPeak | src/bactalk/ai.py:434-437 | a window of min(n, 25) samples inside the trajectory that holds the peak |
| Counterexamples.BoundedKeepsThePeak | src/bactalk/ai.py:403-463 | the kept window is that slice, its indices place it in the original, and it is marked truncated iff samples were dropped |
| Counterexamples.PeakIsKept | src/bactalk/ai.py:430-463 | the peak sample of the kept window is the peak sample of the original |
| Counterexamples.ReclippingKeepsWindow | src/bactalk/ai.py:434-463 | clipping again keeps the window |
| Counterexamples.ReclippingIsIdempotentIff | src/bactalk/ai.py:456-456 | and the whole record iff nothing was dropped the first time |
| Counterexamples.SummariesGrow | src/bactalk/ai.py:465-493 | summaries of a prefix are a prefix of the summaries |
| Counterexamples.SummarizeVerificationFailures | src/bactalk/ai.py:465-493 | the first hundred summaries in context order |
| FailureSummaries.BoundedIsClip | src/bactalk/ai.py:403-463 | what is shown of a counterexample: eight fields as they are, 25 samples around the first one nearest the peak as floats, and where they stood; nothing is shown of what fails a check |
| FailureSummaries.SummaryIs | src/bactalk/ai.py:465-491 | an artifact is summarized iff it is an oracle counterexample that can be shown; each field of its summary |
| FailureSummaries.SummariesAre | src/bactalk/ai.py:465-493 | one summary for each such artifact, in their order |
| SourcePatch.LinesDoNotOverlap | ops/alfalfa-worker/patch_output_value.py:6-6 | the vulnerable line cannot overlap itself |
| SourcePatch.CountOne | ops/alfalfa-worker/patch_output_value.py:12-13 | the count is one iff the line occurs at exactly one place |
| SourcePatch.CountZero | ops/alfalfa-worker/patch_output_value.py:12-13 | the count is zero iff it occurs nowhere |
| SourcePatch.ReplaceOne | ops/alfalfa-worker/patch_output_value.py:17-17 | replacing the one occurrence keeps everything around it |
| SourcePatch.OccursAround | ops/alfalfa-worker/patch_output_value.py:6-7 | the new line lets the old one occur neither inside it nor across its seams |
| SourcePatch.PatchRemoves | ops/alfalfa-worker/patch_output_value.py:12-17 | A + OLD + B becomes A + NEW + B, without OLD |
| SourcePatch.SourceFile.Patch | ops/alfalfa-worker/patch_output_value.py:10-17 | patches iff the count is one; a refusal leaves the file |
| SourcePatch.SourceFile.PatchTwice | ops/alfalfa-worker/patch_output_value.py:10-17 | a patched file is refused the second time |
| Bootstrap.Execute | scripts/bootstrap.py:1014-1051 | one result per step in order, each run on the machine the earlier ones left |
| Bootstrap.ExecuteStep | scripts/bootstrap.py:1017-1050 | skipped without its tools, already installed by its check unless forced, else run: done, or, failed, skipped when optional and failed when not |
| Bootstrap.StepEstablishes | scripts/bootstrap.py:1025-1050 | a step that succeeded holds its check and keeps the others |
| Bootstrap.ChecksAccumulate | scripts/bootstrap.py:1017-1050 | after k successful steps the first k checks hold |
| Bootstrap.SecondRunOnlyRunsCheckless | scripts/bootstrap.py:1025-1028 | after a successful run a second one executes only steps without a check |
| Bootstrap.ApplyPatch | scripts/bootstrap.py:216-232 | idempotent: an applied patch is left alone, one that does not apply changes nothing |
| Bootstrap.Destination.CloneAtRevision | scripts/bootstrap.py:125-187 | exactly when it returns normally; then HEAD is at the pinned revision, and the requested scope is set when one is given |
| Bootstrap.Destination.CloneTwice | scripts/bootstrap.py:125-187 | a second call changes neither |
| Bootstrap.Destination.CloneWithoutScope | scripts/bootstrap.py:141-154 | without a requested scope the checkout is full afterwards iff it was full or absent before |
| Station.HexInjective | scripts/make_station_fixture.py:74-76 | hexadecimal handles tell numbers apart |
| Station.HexIsLower | scripts/make_station_fixture.py:74-76 | lowering a handle changes nothing |
| Station.Alphabet.SlotNameIsLegal | scripts/make_station_fixture.py:79-81 | a slot name is legal; legal names are exactly its fixed points |
| Station.Alphabet.SlotNamesCollide | scripts/make_station_fixture.py:79-81 | names that differ only outside the alphabet become one slot name |
| Station.Builder.SubElement | scripts/make_station_fixture.py:94-94 | a new last element under its parent; without a handle it keeps the handles in step |
| Station.Builder.AddComponent | scripts/make_station_fixture.py:92-94 | the same with the counter's next handle |
| Station.Builder.AddPoint | scripts/make_station_fixture.py:107-142 | the finished elements of one point, under the device's extension |
| Station.Builder.AddDevice | scripts/make_station_fixture.py:84-142 | the finished elements of one device and its points |
| Station.Builder.Build | scripts/make_station_fixture.py:145-177 | the whole document for any list of devices; it takes 5 + three a device + one a point handles, each on one element |
| Station.HandlesAreDistinct | scripts/make_station_fixture.py:70-76 | no two elements share a handle, in lower case either |
| Station.HandlesResolve | scripts/harvest_niagara_catalog.py:219-221 | the harvester's handle table finds every component of the fixture under its own type |

## Left out

- What a block kind computes (`_evaluate_block`, `_update_state_block`, `simulator.py:273` onwards): a function of the block, its arguments, the tick and its own state. That it reads no other block's state, and that it fills the outputs its kind declares, is assumed.
- `assert_events`, whose order follows the tick order, and the alias a block's first output has under the bare block id.
- Pattern checks on names and ids of graphs and blocks.
- Start orders other than the topological one (`document`, `reverse`, `shuffle`), timers, propagation and the kernels of the Shadow Runtime.
- XML, zip and JSON parsing; regular expressions over Modelica source (a class is what they yield); hashing, time stamps and the `seconds` fields; Markdown rendering; prompts, messages and provider transport.
- Floating point: times and values are reals. In particular the flat grid multiplies and the timeline accumulates, which agree as reals and may differ in the last bits as floats; a NaN peak is modelled as a number no sample is nearer to.
- Lower-casing and slot names outside ASCII: `Lower` lowers ASCII letters only; `Alphabet` takes `isalpha` and `isalnum` as parameters.
- Values a harvested table can only hold by mistake: a pybog kind the kind table does not know stops the source with a KeyError, and is no row here.
- Recorded absences with duplicates: `sorted` would keep them, the model's sorted set does not.
- Acceptance events whose scan lies outside the scenario, which the source rejects before sampling.
- The engine's own failures beyond their wording, and the report of an engine that fell back to the built-in interpreter beyond its being one.
- `_protocol_row` (Tier 3 and up), which grades D1 and D2 here and reads D3 and D4 from a retained artifact.
- Coverage.Generator.Build: a progress save is one atomic step, where the source writes a file in place.
- Retention.Tool.RetainSelected: the translation cache is cleared on every write, so a translation is always read as it is on disk; the reference cache is never cleared and is modelled as such.
- `str()` of an oracle's fields, a parameter of the summary.
- Git commands that fail half-way, `verify_license`, `make_venv` and what the individual bootstrap steps install.
- Station.Builder.Build: the concrete device and point lists, and the unit table, are its parameters.
- `graph_changes`, the sequence-pack planner, fault injection, the acceptance suite, the HTTP interface, the command line and the web client.
