# Verification of the Space Data Module SDK's algorithmic core

This project models, in Dafny 4.11, the parts of the SDK whose correctness is not obvious from
reading one function, and proves what each part is for.

* **The event runner** (`include/orbpro/orbpro_event_runner.h`). A sampled sign-change scan over many
  components that suspends three root finders (Brent, bisection, Illinois) at every function evaluation and
  is driven by a pull protocol (`begin` / `next` / `supply`). `RootFinding` holds the root finders,
  `Interpolation` what they interpolate, `EventScan` the protocol as functions on states, `EventGrid` an independent
  whole-grid reference, `EventInvariant`, `EventAccounting` and `EventRuns` the invariant and the theorems over whole runs, `EventHits` what a hit says,
  `EventLimits`, `EventTallies` and `EventCauses` what limits, counts and truncation mean, `EventPairing` the pairing
  of a component's hits into intervals, `EventCap` the case in which the promise fails, and `EventRunner` the
  imperative runner with its fixed-capacity arrays, proved to follow `EventScan` call by call.
* **The wasm binary rewriter** (`src/bundle/wasm.js`, `src/compiler/wasmObjectSymbols.js`). LEB128, sections,
  the symbol table and import section of relocatable objects, and renaming: `Leb128`, `WasmModule`, `Fields`,
  `NameSplice`, `ObjectSymbols`, `SymbolTable`, `ObjectImports`, `ObjectRenaming`, `RenamedObjects`,
  `RenamingTheorems`, `RenamingLimits`, `ObjectListing` (what a listing means, on the numbers of the format), and the
  cursor loops in `ObjectLoops`.
* **The instruction scanner and the SIMD guard** (`src/compiler/wasmCodeScan.js`,
  `src/compiler/wasmTargetFeatures.js`, `src/compiler/simdArtifactGuard.js`). `CodeGrammar` gives
  instructions and immediates as values with a printer,
  `CodeScan` proves that scanning is exactly the inverse of printing, `CodeLoops` are the scanner's loops,
  `TargetFeatures` reads what a module declares of itself, `SimdGuard` states what admission of an artifact
  means, and `CodeTable` gives the opcode table by number.
* **The content-addressed compile cache** (`src/compiler/compileCache.js`, `src/compiler/compileModule.js`).
  `Digest` and `StagedFiles` (the hashed byte streams), `CacheEntry` and `CacheEntryLoops` (the entry file),
  `CacheKeys` (what a key decides), `CompileCache` (soundness of lookups over any run of the shared store),
  `BuildSteps` (what a build with and without a cache links and reports) and `CompilePipeline` (the build itself,
  and pruning).
* **The publish protocol** of the patched toolchain root (`src/compiler/emceptionNode.js`): n processes, every
  file system call one atomic step, in `PublishProtocol`.
* **Link namespaces** (`LinkNamespaces`), **arena packing** of the generated invoke bridge (`Arena`), and
  **signing and verification** of artifacts (`Signing`, `SignatureTrust`). `Spellings` gives the model's byte constants
  as text.

Six promises turn out to be conditional, and each condition is proved to be exact:

* With a cap on events, a run that reports no truncation can still miss an event: a full list ends a batch early
  while the whole batch counts as scanned (`EventCap.CapCanHideAnEvent`). Completeness holds exactly when the grid
  has no more events than the cap (`EventRuns.UntruncatedIsCompleteExactly`).
* A span of more than 2^32 - 2 scan steps wraps the 32-bit sample count around, and a scan then ends at once,
  untruncated, having looked at nothing (`EventScan.WrappedScanIsSilent`). The grid covers the interval exactly up
  to that many steps (`EventScan.PlannedIsValid`).
* Renaming an object in which two symbols are named by the same import writes the new name twice
  (`RenamingLimits.RenamingCanGoWrong`), and a second import section gets the first one's edits
  (`RenamingLimits.OtherImportsCanBeEdited`). Renaming gives the renamed object exactly when no two symbols ask for
  the same import to be rewritten and any further import section already reads as the edits would leave it
  (`RenamingLimits.RenamesExactly`).
* Two libraries whose names differ only in punctuation share an object file: the second is never compiled, a build
  without a cache reports it as a hit (`BuildSteps.SecondLibraryIsSkipped`), and a cached build can link the other
  library's object. The cache makes no difference exactly when steps that share an output compile to the same object
  (`BuildSteps.CacheMakesNoDifference`), and hits are reported without a cache exactly when outputs are shared
  (`BuildSteps.NoHitsExactly`).
* Publishing from an incomplete, non-empty root lets a process that has already looked at it move another
  process's good root aside (`PublishProtocol.IncompleteRootIsUnsafe`), and from any other root a single failing read
  in the check after a collision does the same (`PublishProtocol.MisreadIsUnsafe`). Two or more processes can rely on
  the root they return with exactly when they start from an absent, empty or complete one and no read fails after a
  collision (`PublishProtocol.SafeExactly`).
* Signing a whole bundle refuses an artifact that carries an entry without an id, although its module can be signed
  (`Signing.MissingIdIsRefused`): the default id is overwritten by the absent one. Signing succeeds exactly when the
  carried entries have ids, all different (`Signing.SignsExactly`).

Doubles are reals, and byte strings stand for names and texts. The hypotheses a theorem needs about its
environment (a deterministic toolchain that reports the headers it reads, a hash without collisions among what is
hashed, the laws of Ed25519, byte arrays shorter than 2^53) are predicates named in its `requires`.

## Model

| member | source | states |
|---|---|---|
| `RootFinding.AdvanceKeepsBracket` | include/orbpro/orbpro_event_runner.h:398-509 | one step of any method: the next abscissa is strictly inside the new bracket, whose ends keep opposite signs of g and which is nested in the old one, or the refinement ends truthfully; every division is by a nonzero number |
| `RootFinding.RefinementStaysBracketed` | include/orbpro/orbpro_events_abi.h:41-43 | a root that is bracketed stays bracketed, for every method, from any point of a refinement to its end; what converges has truly converged |
| `RootFinding.BrentProbeIsInside` | include/orbpro/orbpro_event_runner.h:459-507 | Brent's probe keeps the minimum step away from both ends, interpolated or bisected |
| `RootFinding.AcceptedStepBound` | include/orbpro/orbpro_event_runner.h:484-497 | an interpolated step that passes the acceptance test is a division by a nonzero number, moves toward the far end, and covers less than three quarters of the way to it |
| `RootFinding.SecantIsInside` | include/orbpro/orbpro_event_runner.h:430-438 | the false-position point of a sign-changing bracket is strictly inside it |
| `RootFinding.BisectionHalves` | include/orbpro/orbpro_event_runner.h:400-441 | bisection's bracket is exactly W/2^k wide after k probes and stops at the first k within tolerance |
| `RootFinding.BisectionConverges` | include/orbpro/orbpro_event_runner.h:400-441 | bisection converges whenever W <= tolerance * 2^maxIterations |
| `RootFinding.FinishesWithin` | include/orbpro/orbpro_event_runner.h:414-429 | a fresh bisection whose width halves into tolerance within the iteration limit ends converged |
| `RootFinding.Advance` | include/orbpro/orbpro_event_runner.h:398-509 | the step-by-step bracket update computes the specified step, for each method |
| `RootFinding.AdvanceBrent` | include/orbpro/orbpro_event_runner.h:443-508 | the Brent branch computes the specified step: sign repair, swap, stopping tests and step choice |
| `RootFinding.AdvanceFalsi` | include/orbpro/orbpro_event_runner.h:400-441 | the bisection and Illinois branch computes the specified step |
| `Interpolation.InterpolantLeads` | include/orbpro/orbpro_event_runner.h:473-485 | the interpolated quotient leads exactly to the zero of the chord through two points, or to the value at zero of the parabola through three that gives the abscissa as a function of the value |
| `Interpolation.ParabolaExists` | include/orbpro/orbpro_event_runner.h:478-483 | three points with distinct values have such a parabola |
| `Interpolation.ChosenStepIs` | include/orbpro/orbpro_event_runner.h:468-497 | the step taken is the one to the interpolated point if and only if the last steps were long enough, the residual is falling, and it goes towards the other end, less than three quarters of the way, and less than half the step before last; otherwise it is half way |
| `Interpolation.NothingToInterpolate` | include/orbpro/orbpro_event_runner.h:468-497 | with two of the three values equal the step is half way |
| `Interpolation.BrentAsksFor` | include/orbpro/orbpro_event_runner.h:443-508 | Brent stops exactly when the bracket is within tolerance, the residual is zero or small, or the iterations are used up; otherwise it asks for the interpolated point, no closer than the step floor, or for the midpoint, from the end with the smaller residual |
| `Interpolation.BrentFindsStraightRoot` | include/orbpro/orbpro_event_runner.h:468-508 | on a straight line the interpolated probe is the root itself |
| `Interpolation.FirstProbe` | include/orbpro/orbpro_event_runner.h:475-477 | on [0, 2] with values -1 and 1/2 the first probe is at 4/3 |
| `Interpolation.FalsiAsksFor` | include/orbpro/orbpro_event_runner.h:400-441 | bisection asks for the midpoint and Illinois for the zero of the chord, and both stop exactly at their stated tests |
| `Interpolation.NarrowWeighs` | include/orbpro/orbpro_event_runner.h:402-412 | the end that moves takes the true value, and Illinois halves the value kept at the other once more |
| `Interpolation.OpenedAsAsked` | include/orbpro/orbpro_event_runner.h:511-542 | a bracket opens with the finder asked for, or with bisection where Brent meets a piecewise function |
| `Interpolation.SecantIsChordZero` | include/orbpro/orbpro_event_runner.h:430-438 | the false-position formula is the zero of the chord |
| `EventScan.PlannedIsValid` | include/orbpro/orbpro_event_runner.h:306-376 | a scan that `begin` accepts covers the whole span with no step wider than the scan step if and only if the span is at most 2^32 - 2 steps long |
| `EventScan.WrappedScanIsSilent` | include/orbpro/orbpro_event_runner.h:356-364 | one step more, and the accepted scan ends at its first request with no sample taken, no hit and no truncation reported |
| `EventScan.StepsCover` | include/orbpro/orbpro_event_runner.h:343-362 | up to 2^32 - 1 steps, the 32-bit step count is the least whose steps cover the span |
| `EventGrid.GridCovers` | include/orbpro/orbpro_event_runner.h:343-381 | the sample grid starts and ends exactly on the interval's ends, moves strictly in scan direction, and leaves no gap wider than the scan step |
| `EventGrid.PlanMeetsInterval` | include/orbpro/orbpro_event_runner.h:343-371 | the first sample is the interval's start and the last one its stop, in days and seconds; the tolerance is the larger of the one asked for and the state source's resolution, and `clamped` says which |
| `EventGrid.AcceptedExactly` | include/orbpro/orbpro_event_runner.h:309-347 | which intervals and policies `begin` accepts, spelled out |
| `EventGrid.GridOrder` | include/orbpro/orbpro_event_runner.h:378-381 | later samples are strictly later in scan direction, forward or backward |
| `EventGrid.LocateStaysInside` | include/orbpro/orbpro_event_runner.h:511-542 | every located event lies in its own sample interval |
| `EventAccounting.InsertKeepsOrder` | include/orbpro/orbpro_event_runner.h:567-594 | recording a hit keeps the list in scan order and adds exactly that hit to the bag |
| `EventAccounting.CrossingIsAccounted` | include/orbpro/orbpro_event_runner.h:783-826 | a crossing is reported at once, or owed by the queue, and nothing else changes hands |
| `EventInvariant.BatchStep` | include/orbpro/orbpro_event_runner.h:758-838 | a batch scans all its samples against the grid reference, or stops on a full hit list |
| `EventInvariant.NextKeepsInv` | include/orbpro/orbpro_event_runner.h:640-719 | asking keeps the whole-run invariant |
| `EventInvariant.SupplyKeepsInv` | include/orbpro/orbpro_event_runner.h:721-843 | answering keeps the whole-run invariant |
| `EventInvariant.ResumeKeepsOwed` | include/orbpro/orbpro_event_runner.h:732-756 | a value brings the head bracket one evaluation closer to the same hit it owed before |
| `EventRuns.ReachableInv` | include/orbpro/orbpro_event_runner.h:640-843 | every state any sequence of calls can reach satisfies the invariant, and an outstanding request can be answered |
| `EventRuns.EverythingReportedIsReal` | include/orbpro/orbpro_event_runner.h:544-630 | in every reachable state the list is in scan order and within its limits, and each hit reports a qualifying sign change of the grid, inside its own sample interval |
| `EventHits.HitsAreTruthful` | include/orbpro/orbpro_event_runner.h:544-630 | in every reachable state each hit is of a component and in a direction that were asked for, between two neighbouring samples where the value leaves its sign, with the flags and the cost it reports, and with a status that holds: Converged and EpochResolutionLimited mean the value is the one there and zero, small enough or changing sign within tolerance, MaxIterations that they are used up, Discontinuous that the component is discrete, and the clamped flag decides which of the first two |
| `EventHits.EveryWantedIsReported` | include/orbpro/orbpro_event_runner.h:758-838 | when a run has ended untruncated and below its cap, without occurrence filters, every crossing of a component and in a direction that were asked for is in the list, truthfully |
| `EventLimits.OccurrencesAreLimited` | include/orbpro/orbpro_event_runner.h:551-565 | an occurrence filter leaves at most one hit per component, and none before that many crossings qualified |
| `EventLimits.OccurrencesAreReported` | include/orbpro/orbpro_event_runner.h:551-565 | unless something was dropped, a component has exactly as many hits as its filters ask for |
| `EventLimits.CapKeepsFirst` | include/orbpro/orbpro_event_runner.h:618-630 | a cap keeps the first hits in scan order, whatever order they are found in: whatever goes is not before any that stays, and is not dropped silently |
| `EventLimits.BudgetIsKept` | include/orbpro/orbpro_event_runner.h:652-656 | a limit on evaluations is exceeded by less than one batch, and once reached the scan ends and says so |
| `EventLimits.RequestIsFull` | include/orbpro/orbpro_event_runner.h:676-718 | a request for samples is as large as what is left, a batch and the buffer allow, and asks for the next samples in order; a queued refinement goes first |
| `EventLimits.AnswerEndsScan` | include/orbpro/orbpro_event_runner.h:834-842 | an answered batch ends the scan when no sample and nothing queued is left |
| `EventLimits.TangentialMeans` | include/orbpro/orbpro_event_runner.h:596-606 | a hit flagged TANGENTIAL has a value of the sign its component began with, and a lone crossing is flagged exactly then |
| `EventTallies.SummariesAddUp` | include/orbpro/orbpro_event_runner.h:758-780 | components that are not scanned have blank summaries; the others count one evaluation per sample evaluated, and together the refinements make up the rest |
| `EventCauses.TruncationHasCause` | include/orbpro/orbpro_event_runner.h:652-672 | a run says it is truncated only if the grid has more events than the queue holds, or as many as the cap, or the evaluation limit is within what they may take |
| `EventCauses.AmpleScanIsComplete` | include/orbpro/orbpro_event_runner.h:640-843 | with ample room and limits, every run that ends is untruncated and complete |
| `EventRuns.SummariesDescribeGrid` | include/orbpro/orbpro_event_runner.h:758-838 | in every reachable state the tallies agree with the grid: endpoint values and signs, and every sign change counted or queued |
| `EventRuns.UntruncatedIsComplete` | include/orbpro/orbpro_event_runner.h:640-838 | an untruncated, uncapped run that has ended counted every sign change of every component and reports each qualifying one exactly once |
| `EventRuns.UntruncatedIsCompleteExactly` | include/orbpro/orbpro_event_runner.h:618-630 | with a cap, an untruncated run reports every event if and only if the grid has no more events than the cap |
| `EventRuns.CapacityDoesNotMatter` | include/orbpro/orbpro_event_runner.h:640-719 | two consumers that finish untruncated get the same hits and counts, whatever their buffer capacities |
| `EventRuns.SupplyProgresses` | include/orbpro/orbpro_event_runner.h:721-843 | every answer scans samples or shrinks what the queue may still ask for |
| `EventRuns.DriveEnds` | include/orbpro/orbpro_event_runner.h:640-843 | from any reachable state, a consumer with room for one epoch reaches the end |
| `EventRuns.EvaluationsAreBounded` | include/orbpro/orbpro_event_runner.h:721-843 | over every run, evaluations stay within one per sample plus the iteration limit per refined crossing |
| `EventPairing.PairingIsTotal` | include/orbpro/orbpro_event_runner.h:863-880 | for a component never zero on the grid, unfiltered and with distinct epochs, hits alternate, the first opposes `first_sign`, the last is `last_sign`, and their number is odd exactly when the two signs differ |
| `EventPairing.OrderIsUnique` | include/orbpro/orbpro_event_runner.h:567-594 | hits with distinct epochs have one scan order |
| `EventCap.CapCanHideAnEvent` | include/orbpro/orbpro_event_runner.h:829-832 | a concrete run that ends untruncated at its cap and misses an event |
| `EventRunner.Runner.constructor` | include/orbpro/orbpro_event_runner.h:239-252 | a new runner is idle, empty and valid |
| `EventRunner.Runner.Configure` | include/orbpro/orbpro_event_runner.h:254-281 | the shape is set, filters are cleared, bad counts are refused without effect |
| `EventRunner.Runner.SetComponent` | include/orbpro/orbpro_event_runner.h:283-304 | one component's filters change, unknown components are refused |
| `EventRunner.Runner.Begin` | include/orbpro/orbpro_event_runner.h:306-376 | the scan starts fresh on the planned grid, or is refused with the stated reason; a zero span is noticed only after the wipe; the runner is valid exactly when the sample count did not wrap |
| `EventRunner.Runner.Record` | include/orbpro/orbpro_event_runner.h:544-630 | the array-level recording with its filters, cap, flags, status and in-place insertion is the specified one |
| `EventRunner.Runner.Cross` | include/orbpro/orbpro_event_runner.h:783-814 | a crossing is recorded or queued as specified |
| `EventRunner.Runner.Next` | include/orbpro/orbpro_event_runner.h:640-719 | the answer and the new state are those of the specification after all calls so far, and the consumer's buffer holds the requested epochs |
| `EventRunner.Runner.Supply` | include/orbpro/orbpro_event_runner.h:721-843 | the new state is that of the specification after all calls so far, or an error leaves it as it was |
| `EventRunner.Runner.Results` | include/orbpro/orbpro_event_runner.h:845-861 | the hits copied out are the runner's and, once a scan has begun, real events of the grid in scan order, each what it says |
| `EventRunner.Runner.Summaries` | include/orbpro/orbpro_event_runner.h:863-881 | once a scan has begun, each summary holds the values and signs of its component at the first and the last sample scanned, and, unless something was dropped, the number of sign changes among them less those still queued |
| `EventRunner.Runner.Drive` | include/orbpro/orbpro_event_runner.h:640-843 | asking and answering to the end terminates, and the outcome is complete if neither truncated nor capped |
| `EventRunner.InsertSorted` | include/orbpro/orbpro_event_runner.h:585-594 | the in-place shift is the specified insertion |
| `Leb128.RoundTrip` | src/bundle/wasm.js:66-98 | every safe integer survives encoding at any width the decoder accepts, with anything behind it, and keeps the width whenever it fits |
| `Leb128.SpellingIsUnique` | src/compiler/wasmObjectSymbols.js:74-88 | what reads as v in n bytes is the n-byte encoding of v |
| `Leb128.EncodeLoop` | src/bundle/wasm.js:66-79 | the encoder's loop |
| `Leb128.DecodeLoop` | src/bundle/wasm.js:81-98 | the decoder's loop, with its eight-byte limit and its failure at the end of the data |
| `Leb128.EncodeAtWidthLoop` | src/compiler/wasmObjectSymbols.js:77-88 | the size field rewritten at the width it had |
| `WasmModule.ModuleTiles` | src/bundle/wasm.js:100-163 | what parses is the header and the concatenation of its sections, each well formed |
| `WasmModule.ModuleParses` | src/bundle/wasm.js:100-163 | every list of well-formed sections is read back from its bytes |
| `WasmModule.ParseLoop` | src/bundle/wasm.js:100-163 | the section loop computes that parse |
| `WasmModule.StripIsIdempotent` | src/bundle/wasm.js:203-213 | stripping drops exactly the prefixed custom sections, and stripping again changes nothing |
| `WasmModule.AppendKeepsCanonical` | src/bundle/wasm.js:183-220 | appending adds the section behind the others, and one with the stripped prefix leaves the canonical bytes unchanged |
| `NameSplice.SpliceRenames` | src/compiler/wasmObjectSymbols.js:278-289 | splicing names into printed items prints the renamed items and touches nothing else |
| `NameSplice.SortedIsUnique` | src/compiler/wasmObjectSymbols.js:279-280 | edits with distinct starts have one order |
| `ObjectSymbols.TakenSymbolIsGood` | src/compiler/wasmObjectSymbols.js:129-169 | a symbol that reads is well formed and prints as the bytes it was read from |
| `ObjectSymbols.GoodSymbolIsTaken` | src/compiler/wasmObjectSymbols.js:129-169 | every well-formed symbol is read back, whatever follows |
| `SymbolTable.ReadTableIsGood` | src/compiler/wasmObjectSymbols.js:109-184 | a linking section that reads has a first symbol table ending at its boundary, and prints as the same bytes |
| `SymbolTable.GoodTableIsRead` | src/compiler/wasmObjectSymbols.js:109-184 | every such table is read back from its print |
| `ObjectImports.ReadImportsIsGood` | src/compiler/wasmObjectSymbols.js:188-232 | an import section that reads prints as the same bytes; only its last import may be cut short |
| `ObjectImports.GoodImportsAreRead` | src/compiler/wasmObjectSymbols.js:188-232 | every such section is read back from its print |
| `RenamedObjects.RenameGivesRenamed` | src/compiler/wasmObjectSymbols.js:299-369 | when no import is targeted twice and no other import section is edited, splicing and resizing give the object with the new names |
| `RenamedObjects.RenamedObjectIsGood` | src/compiler/wasmObjectSymbols.js:333-369 | the renamed object's sizes, counts and names read back |
| `RenamingTheorems.OnlyNamesChange` | src/compiler/wasmObjectSymbols.js:291-369 | listing the renamed object gives the same indices, kinds and flags with every name mapped, definitions untouched under `undefinedOnly`, and every other section byte for byte in its place |
| `RenamingTheorems.RenamingBackRestores` | src/compiler/wasmObjectSymbols.js:291-369 | renaming and renaming back restore the original bytes, if edited names had minimal lengths, sizes keep their widths, and no other import section is edited either way |
| `RenamingTheorems.OneSectionStays` | src/compiler/wasmObjectSymbols.js:333-369 | with one import section no other is edited, by a renaming or by the one back |
| `RenamingTheorems.InverseUndoes` | src/compiler/wasmObjectSymbols.js:312-328 | an injective map to fresh names is undone by its inverse |
| `Spellings.SectionsAreSpelled` | src/compiler/wasmObjectSymbols.js:98-104 | section and feature names by text |
| `RenamingTheorems.FindImportKept` | src/compiler/wasmObjectSymbols.js:273-276 | which import a symbol refers to does not depend on names |
| `ObjectListing.FindImportRefers` | src/compiler/wasmObjectSymbols.js:267-276 | the import a symbol is named by is of its kind and has exactly as many of that kind before it as the symbol's index, counted; none is found if and only if the kind has no more than that many |
| `ObjectListing.ListingMeans` | src/compiler/wasmObjectSymbols.js:240-265 | every symbol listed, on the numbers: how its kind spells it, what bits 0, 1 and 4 of its flags say, and its name, its own or that of the import it refers to |
| `ObjectListing.GoodIsSpelledOut` | src/compiler/wasmObjectSymbols.js:129-169 | the spelling of symbols by kind number and flag bits |
| `ObjectListing.GoodImportIsDescribed` | src/compiler/wasmObjectSymbols.js:188-232 | the description of imports by kind number |
| `ObjectListing.FooIsFound` | src/compiler/wasmObjectSymbols.js:227-276 | behind a memory import, function 0 is still the first imported function |
| `RenamingLimits.RenamesExactly` | src/compiler/wasmObjectSymbols.js:278-369 | on every object that reads, renaming gives the renamed object if and only if no two symbols ask for the same import to be rewritten and every further import section already reads as the edits would leave it |
| `RenamingLimits.RenamingCanGoWrong` | src/compiler/wasmObjectSymbols.js:321-328 | a concrete object that renaming corrupts |
| `RenamingLimits.OtherImportsCanBeEdited` | src/compiler/wasmObjectSymbols.js:333-369 | a concrete object whose second import section is rewritten with the edits of the first |
| `ObjectLoops.TableLoop` | src/compiler/wasmObjectSymbols.js:109-184 | the cursor loops over subsections and symbols compute the specified table |
| `ObjectLoops.ImportsLoop` | src/compiler/wasmObjectSymbols.js:188-232 | the cursor loop over imports computes the specified list |
| `ObjectLoops.SpliceLoop` | src/compiler/wasmObjectSymbols.js:278-289 | copying between sorted edits computes the specified splice |
| `ObjectLoops.CollectEdits` | src/compiler/wasmObjectSymbols.js:308-328 | the edits collected symbol by symbol are the specified ones |
| `ObjectLoops.RenameLoop` | src/compiler/wasmObjectSymbols.js:299-369 | reading, collecting and rewriting compute the specified renaming |
| `ObjectLoops.ListLoop` | src/compiler/wasmObjectSymbols.js:246-265 | the listing loop computes the specified listing |
| `CodeGrammar.TakenImmediateFits` | src/compiler/wasmCodeScan.js:22-83 | what is skipped as an immediate is an immediate of that shape |
| `CodeGrammar.ImmediateIsTaken` | src/compiler/wasmCodeScan.js:22-83 | every immediate of a shape is skipped exactly, whatever follows |
| `CodeScan.ScannedBodyIsValid` | src/compiler/wasmCodeScan.js:101-355 | a body that scans is a sequence of instruction encodings that closes its block at the last byte and nowhere earlier, with exactly the reported class counts |
| `CodeScan.ValidBodyScans` | src/compiler/wasmCodeScan.js:101-355 | every such body scans, with exactly its counts |
| `CodeScan.BodyIsUnique` | src/compiler/wasmCodeScan.js:3-6 | bytes encode at most one body: no byte inside an immediate can also be an opcode |
| `CodeScan.PayloadDecodes` | src/compiler/wasmCodeScan.js:367-413 | nothing undecodable means every declared body is there, sized, valid and counted |
| `CodeScan.DecodedPayload` | src/compiler/wasmCodeScan.js:367-413 | a section of sized, valid bodies is scanned with nothing undecodable |
| `CodeLoops.SkipLeb` | src/compiler/wasmCodeScan.js:22-31 | the skipping loop |
| `CodeLoops.ReadLeb` | src/compiler/wasmCodeScan.js:34-43 | reading past the body's end and refusing afterwards is reading within the body |
| `CodeLoops.Classify` | src/compiler/wasmCodeScan.js:127-346 | the opcode switch assigns every opcode and sub-opcode its shape |
| `CodeLoops.InstructionAt` | src/compiler/wasmCodeScan.js:122-350 | one turn of the switch steps over one instruction and reports its nesting and class |
| `CodeLoops.ScanFunctionBody` | src/compiler/wasmCodeScan.js:101-355 | the body loop computes the specified scan |
| `CodeLoops.ScanCode` | src/compiler/wasmCodeScan.js:367-413 | the section loop computes the specified totals, with its three ways of counting bodies it cannot reach |
| `TargetFeatures.FeaturesAreReadBack` | src/compiler/wasmTargetFeatures.js:18-53 | every well-formed list of features is read back, however its lengths are spelled and whatever follows |
| `TargetFeatures.ReadFeaturesAreThere` | src/compiler/wasmTargetFeatures.js:18-53 | whatever is read was there: whole entries in order, at most the last cut short by the end of the data, until the count is met or nothing more can be read |
| `TargetFeatures.NothingIsRead` | src/compiler/wasmTargetFeatures.js:34-52 | no list is read exactly when the count, or the first entry it promises, cannot be |
| `TargetFeatures.ReadFeatures` | src/compiler/wasmTargetFeatures.js:34-52 | the cursor loop, which keeps entries read before a failure, computes that list |
| `SimdGuard.FindFeatures` | src/compiler/wasmTargetFeatures.js:18-33 | the first target_features section is the one that is read |
| `SimdGuard.AssertSimdArtifact` | src/compiler/simdArtifactGuard.js:83-138 | the verdict and the undeclared flag; a refusal lists each of the three objections exactly when it applies, and once |
| `SimdGuard.AdmittedExactly` | src/compiler/simdArtifactGuard.js:11-72 | an artifact is admitted if and only if it parses, every declared body is valid and free of relaxed SIMD, its target_features section does not declare relaxed SIMD, and a requested flag is declared there unless nothing can be read |
| `CodeTable.AdmittedHasNoRelaxed` | src/compiler/simdArtifactGuard.js:14-20 | no body of an admitted artifact holds an instruction 0xfd with a sub-opcode of 0x100 or above |
| `CodeTable.AnalysisCounts` | src/compiler/simdArtifactGuard.js:57-72 | the analysis of valid bodies reports exactly their SIMD and relaxed-SIMD instructions |
| `CodeTable.AnalysisFindsUndecodable` | src/compiler/wasmCodeScan.js:367-413 | the analysis reports as many undecodable bodies as are spelled like no valid one |
| `CodeTable.MissingAreCounted` | src/compiler/wasmCodeScan.js:380-413 | how bodies that are not there are counted |
| `CodeTable.ClassesByNumber` | src/compiler/wasmCodeScan.js:95-100 | which opcodes count as threads, SIMD, relaxed SIMD and exception handling |
| `CodeTable.NestingByNumber` | src/compiler/wasmCodeScan.js:133-185 | which opcodes open and close blocks |
| `CodeTable.ShapesByNumber` | src/compiler/wasmCodeScan.js:124-250 | what each opcode without a prefix carries, and which are unknown |
| `CodeTable.PrefixesByNumber` | src/compiler/wasmCodeScan.js:252-333 | the three prefixes |
| `CodeTable.BulkByNumber` | src/compiler/wasmCodeScan.js:252-298 | what each 0xfc operation carries, and which are unknown |
| `CodeTable.ClausesByNumber` | src/compiler/wasmCodeScan.js:181-191 | what each kind of catch clause carries |
| `CodeTable.MemArgByNumber` | src/compiler/wasmCodeScan.js:59-67 | bit 6 of the alignment announces a memory index |
| `CodeTable.AdmittedByFeatures` | src/compiler/simdArtifactGuard.js:57-138 | an artifact is admitted exactly when its bodies are, and the features that can be read do not list relaxed-simd and, if the build asked for SIMD, list simd128 |
| `CodeTable.SimdByNumber` | src/compiler/wasmCodeScan.js:299-322 | what each SIMD operation carries |
| `Digest.StreamDecides` | src/compiler/compileCache.js:90-134 | the stream is prefix-free: one that begins another is the whole of it and means the same |
| `Digest.MeaningDecides` | src/compiler/compileCache.js:123-130 | values that mean the same are fed as the same bytes, whatever the order of their members |
| `Digest.StreamIsMeaning` | src/compiler/compileCache.js:86-134 | streams are equal exactly when values are, up to null, undefined members and key order |
| `StagedFiles.FilesDecide` | src/compiler/compileCache.js:148-157 | different lists of files, by any name, length or byte, are fed as different streams, as long as names hold no NUL |
| `StagedFiles.FeedFiles` | src/compiler/compileCache.js:148-157 | the feeding loop gives that stream |
| `StagedFiles.DecimalReads` | src/compiler/compileCache.js:152 | a length is spelled in decimal digits that read as it, without leading zeros |
| `CacheEntry.AcceptedExactly` | src/compiler/compileCache.js:188-244 | a file is accepted exactly when it is the print of an entry, every byte consumed and every blob with its recorded hash |
| `CacheEntry.TruncationsAndExtensionsAreRejected` | src/compiler/compileCache.js:188-244 | no accepted file is a proper beginning of another |
| `CacheEntryLoops.WrittenIsRead` | src/compiler/compileCache.js:159-186 | what is written is read back: the key, the dependencies and the same blobs |
| `CacheEntryLoops.ReadEntry` | src/compiler/compileCache.js:188-244 | reading with one moving offset computes the specified decoding |
| `CacheKeys.KeyDecides` | src/compiler/compileModule.js:1117-1140 | equal keys belong to the same step of the same build: same argv and source or objects, same SDK, toolchain and staged files |
| `CacheKeys.ChangedFilesChangeKeys` | src/compiler/compileModule.js:1117-1126 | any staged header or compiler source that is added, removed, renamed or changed changes every key |
| `Spellings.KeyMembersAreSpelled` | src/compiler/compileModule.js:1119-1140 | the members of a key by name |
| `Spellings.EntriesAreSpelled` | src/compiler/compileCache.js:159-170 | the magic, blob and step names by text |
| `CompileCache.UnchangedAreSame` | src/compiler/compileCache.js:260-277 | dependencies that count as unchanged have the bytes they were recorded with |
| `CompileCache.LookupExactly` | src/compiler/compileCache.js:260-343 | a lookup gives the entry under the key if and only if it can be read, is of that key, and every header it lists is there with its size and its time or bytes |
| `CompileCache.HitIsRight` | src/compiler/compileCache.js:318-343 | a hit in a sound store is what running the step now would give |
| `CompileCache.StoredIsFound` | src/compiler/compileCache.js:318-368 | a stored result is found again while its headers keep their sizes and bytes |
| `CompileCache.EveryHitIsRight` | src/compiler/compileCache.js:306-431 | after any run of stores and removals, on any files, a lookup gives nothing or the right result |
| `CompilePipeline.Cache.Get` | src/compiler/compileCache.js:318-343 | the lookup and its statistics |
| `CompilePipeline.Cache.DependenciesUnchanged` | src/compiler/compileCache.js:260-277 | the dependency loop decides whether all headers are unchanged |
| `CompilePipeline.Cache.Put` | src/compiler/compileCache.js:345-368 | one entry changes, the store stays sound, and an unwritable store stays as it was |
| `CompilePipeline.Cache.Prune` | src/compiler/compileCache.js:387-431 | exactly the victims go, what is kept is within the bound, and bytes are conserved |
| `CompilePipeline.PruneIsNeeded` | src/compiler/compileCache.js:417-430 | an entry goes only if it does not fit beside the newer ones kept, and a store within its bound loses nothing |
| `BuildSteps.CacheMakesNoDifference` | src/compiler/compileModule.js:1189-1235 | whatever sound stores its lookups meet, a build links the objects of an uncached build, if and only if steps that share an output compile to the same object |
| `BuildSteps.DistinctAgree` | src/compiler/compileModule.js:1212-1217 | steps that share no output meet that condition |
| `BuildSteps.EveryStepIsReported` | src/compiler/compileModule.js:1212-1217 | every step is a hit or a miss, exactly once, shared outputs or not |
| `BuildSteps.NoHitsExactly` | src/compiler/compileModule.js:1212-1217 | without a cache no step is reported as a hit if and only if outputs are not shared |
| `BuildSteps.LibrariesShare` | src/compiler/compileModule.js:1019-1031 | two libraries share an object file if and only if their names differ only in punctuation |
| `BuildSteps.SecondLibraryIsSkipped` | src/compiler/compileModule.js:1212-1217 | a build of the libraries "a-b" and "a.b" runs only the first and reports the second as a hit without any cache |
| `CompilePipeline.CompileSteps` | src/compiler/compileModule.js:1212-1235 | steps run and are stored exactly where no object is there yet, and each is reported by that |
| `CompilePipeline.Build` | src/compiler/compileModule.js:1189-1259 | whatever sound store other builds and pruning leave after each of its operations, a build links exactly the objects its lookups and steps determine; that is what a build without a cache returns whenever steps that share an output agree; every step and the link are reported exactly once, the link as a hit exactly when a lookup gave it; exactly what was run is stored, and the link can be found again; and without a cache no hit is reported exactly when no output is shared |
| `PublishProtocol.PublishingIsSafe` | src/compiler/emceptionNode.js:350-385 | under every interleaving from an absent, empty or complete root, unless a read fails in a check after a collision, the root once there stays there unchanged and complete, nobody moves it aside, and whoever has returned has a complete root |
| `PublishProtocol.ReturnedHoldsToolchain` | src/compiler/emceptionNode.js:254-301 | a returned process has a root whose marker carries the stamp and lists the toolchain's files in order, each there with the listed size; with the patched sizes if it was published during the run |
| `PublishProtocol.NobodyIsBeaten` | src/compiler/emceptionNode.js:347-385 | no process fails on account of the others, even if reads of the first check fail |
| `PublishProtocol.EveryProcessEnds` | src/compiler/emceptionNode.js:350-385 | under every interleaving each process ends within a bound of its own steps |
| `PublishProtocol.FourAttempts` | src/compiler/emceptionNode.js:350-385 | the fourth attempt that fails is the last, and no earlier one is |
| `PublishProtocol.AttemptsStayWithin` | src/compiler/emceptionNode.js:350-385 | no run takes a process past its fourth attempt |
| `PublishProtocol.FreeExactly` | src/compiler/emceptionNode.js:347-356 | a rename succeeds exactly onto nothing or an empty directory |
| `PublishProtocol.EveryProcessEndsWithin` | src/compiler/emceptionNode.js:350-385 | seven steps per file and thirty-six more are enough for every process, through four attempts |
| `PublishProtocol.OperationsMayFail` | src/compiler/emceptionNode.js:350-385 | every operation of a process may fail in the model, and reads of its first check |
| `PublishProtocol.IncompleteRootIsUnsafe` | src/compiler/emceptionNode.js:362-378 | from any incomplete, non-empty root, a run of two processes that leaves a returned process without a root |
| `PublishProtocol.MisreadIsUnsafe` | src/compiler/emceptionNode.js:254-301 | from any absent, empty or complete root, a run in which one failing read after a collision leaves a returned process without a root |
| `PublishProtocol.SafeExactly` | src/compiler/emceptionNode.js:254-378 | processes can rely on the root they return with if and only if they start from an absent, empty or complete one and no read fails after a collision |
| `LinkNamespaces.PrefixDecides` | src/compiler/compileModule.js:556-562 | guest-link prefixes of different plugin ids are never the beginning of one another |
| `Spellings.DigitsAreSpelled` | src/compiler/compileModule.js:556-562 | hexadecimal digits in lower case |
| `Spellings.IdentifiersAreSpelled` | src/compiler/compileModule.js:564-590 | which names are identifiers |
| `Spellings.CharactersAreSpelled` | src/compiler/compileModule.js:1019-1019 | letters, digits and the underscore |
| `Spellings.NamesAreSpelled` | src/compiler/compileModule.js:556-562 | the guest prefix and the bundle's entry names by text |
| `LinkNamespaces.GuestNamesArePrefixed` | src/compiler/compileModule.js:590-639 | every strong global identifier a guest-link object defines carries its plugin's prefix |
| `LinkNamespaces.GuestNamesAre` | src/compiler/compileModule.js:590-625 | exactly the strong global identifiers of the object and the method identifiers are prefixed |
| `LinkNamespaces.OthersKeepNames` | src/compiler/compileModule.js:590-639 | every symbol whose name is neither such an identifier nor a method's is listed as before |
| `LinkNamespaces.GuestsDoNotClash` | src/compiler/compileModule.js:544-562 | guest-link objects of different plugins define no strong global identifier in common |
| `LinkNamespaces.LibraryNamesAre` | src/compiler/compileModule.js:1037-1049 | exactly the strong global names of a library move, each behind its namespace |
| `LinkNamespaces.DefinitionsMove` | src/compiler/compileModule.js:1037-1049 | a library's strong global definitions move into its namespace, and keep everything else |
| `LinkNamespaces.ReferencesResolve` | src/compiler/compileModule.js:1146-1187 | a module's reference to a library symbol names exactly the definition it moved to, no other library defines it, and the module's definitions keep their names |
| `Arena.PackingIsGood` | src/compiler/invokeGlue.js:1135-1215 | every payload is where its frame says, at a multiple of its required alignment, or else of its own, or else of 1, in order, disjoint, no further away than it must be, with only zeros between |
| `Arena.PackingIsUnique` | src/compiler/invokeGlue.js:1135-1215 | no other layout has these properties |
| `Arena.AcceptsExactly` | src/compiler/invokeGlue.js:916-950 | a frame is accepted exactly when its alignment is at most 65535, its range lies wholly in the arena or in one allocation, and its address is aligned |
| `Arena.ArenaAlignmentIsLargest` | src/compiler/invokeGlue.js:1248-1253 | the arena's alignment is the largest of 8 and the frames' |
| `Arena.Pack` | src/compiler/invokeGlue.js:1135-1215 | the packing loop gives that layout, or reports overflow exactly when it leaves the 32-bit range |
| `Arena.Load` | src/compiler/invokeGlue.js:905-958 | a request loads exactly when every frame passes the alignment, range and address checks |
| `Arena.AllocationContains` | src/compiler/invokeGlue.js:516-533 | the search over allocations decides whether a range was handed out |
| `Arena.OwnedExactly` | src/compiler/invokeGlue.js:516-533 | a range was handed out exactly if it is empty or lies wholly in one allocation |
| `Arena.PackedFramesLoad` | src/compiler/invokeGlue.js:1254-1265 | with powers of two and a base aligned to the largest, the loader takes a packed frame exactly when its alignment is within the ABI limit, and finds its payload |
| `Signing.SignedVerifies` | src/bundle/signing.js:348-440 | whatever was signed, in either scope, verifies for everyone who trusts the signer, with the signed digest reported |
| `Signing.SignsExactly` | src/bundle/signing.js:348-440 | signing succeeds on every module; in bundle scope exactly when the carried entries have ids, none empty, all different |
| `Signing.MissingIdIsRefused` | src/bundle/wasm.js:312-319 | an artifact with a carried entry without an id can be signed in module scope and is refused in bundle scope |
| `Signing.CheckEntries` | src/bundle/signing.js:236-262 | the loop over covered entries objects in order: a missing id, an id seen before, a payload that does not have its hash |
| `Signing.DigestsAgree` | src/bundle/signing.js:388-402 | the digest that is signed is the digest verification recomputes |
| `Signing.SignatureBindsModule` | src/bundle/signing.js:642-700 | in both scopes, two artifacts that verify with one signature have the same canonical module bytes |
| `Signing.SignatureBindsBundle` | src/bundle/signing.js:222-333 | two artifacts that verify with one bundle signature have the same metadata, module and manifest hashes, and the same covered entries with their payloads, up to order |
| `Signing.StatementIgnoresOrder` | src/bundle/signing.js:158-168 | the signed statement does not depend on the order of the entries |
| `Signing.PublicationBindsPayload` | src/bundle/signing.js:582-640 | two artifacts that verify with one publication signature that declares its hash have the same portable bytes |
| `SignatureTrust.VerifiedExactly` | src/bundle/signing.js:488-716 | verification accepts if and only if the first signature entry holds a well-shaped signature by a trusted key that is valid over the reported hash, and that hash is the payload's under the publication domain, the canonical module's, or the bundle's |
| `SignatureTrust.UnsignedExactly` | src/bundle/signing.js:490-503 | an artifact passes as unsigned exactly if that is allowed and it has no signature entry |
| `SignatureTrust.UntrustedIsRefused` | src/bundle/signing.js:542-553 | whatever was signed is refused as untrusted by everyone who does not trust the signer |
| `SignatureTrust.DigestExactly` | src/bundle/signing.js:236-306 | a bundle has a digest exactly when its covered entries have distinct ids and the hashes of their payloads, and it records the hashes of its stripped module and of its first manifest |
| `SignatureTrust.StatementSays` | src/bundle/signing.js:206-333 | the signed statement lists every covered entry by id, role, hash and length, with the bundle's metadata and hashes |
| `SignatureTrust.SigningKeeps` | src/bundle/signing.js:348-440 | signing strips the module, replaces the signature, keeps the manifest and the other records, and carries along exactly the entries that are neither |
| `SignatureTrust.ManifestKept` | src/bundle/signing.js:360-388 | the manifest kept is the last one of the bundle, or else the first manifest section of the module, or else none |

## Left out

- IEEE rounding, overflow, underflow and NaN in the event runner: doubles are reals, the machine epsilon a positive constant, and uint32 counters other than the sample count are unbounded.
- A failing `eval`, null arguments, the write-only `awaiting` and `flags` fields, and an unknown method byte (treated as Brent) in the event runner.
- EventRunner.Runner.Begin: excludes a span of 2^32 steps or more, for which the conversion to a 32-bit count is undefined in C; after a wrapped count the other methods, which ask for a valid runner, say nothing.
- EventRunner.Runner.Supply: excludes a fitting answer to a request made before the last `configure`, under which the runner's arrays change shape.
- The TANGENTIAL flag depends on recording order, so hits are compared with the grid without it; what it says has its own statement.
- EventRuns.UntruncatedIsComplete: stated for runs that are untruncated and below the cap; the capped case has its own exact statement.
- LEB128 values from 2^53 on, which the decoder rounds as doubles.
- The REC trailer in front of section parsing, and UTF-8 decoding of names: names are byte strings, and malformed UTF-8 is not replaced.
- RenamingTheorems.OnlyNamesChange: where renaming does not give the renamed object, nothing is said about what it gives instead.
- Bytes behind the last declared body of a code section, which the scanner does not look at.
- Digest keys are ordered by their bytes, not by UTF-16 code units; which total order is used plays no part in the results.
- Depfile text, path resolution and toolchain identity digests: the toolchain reports its headers as a list of existing files, and its identity is an opaque text. Staged files are given in name order.
- CompilePipeline.Build: files do not change while one build runs, and a failing compile or link is not modelled; how objects become link inputs is a function of the objects.
- Ownership and permission bits of the published root, removal of orphaned build directories, and the lock around the in-process toolchain.
- LinkNamespaces.ReferencesResolve: that library namespaces do not overlap rests on twelve digits of a hash and is not claimed.
- FlatBuffers encoding of invoke messages, and everything of an input frame but its alignment, range and address.
- SHA-256, Ed25519, hex text, trimming and case folding, and the JSON of signatures and statements: parameters with the laws they are used under; the statement's text is any injective function of the sorted statement.
- Signing.PublicationBindsPayload: a publication signature that declares no hash binds its payload by the unforgeability of Ed25519, which is not modelled.
- Encryption, wallets, the CLI, capability tables, compliance merging, manifest validation, and the pthread guards: plumbing or table lookups beside the parts above.
