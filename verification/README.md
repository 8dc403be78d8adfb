# BlankIt: verified models

Dafny models of the parts of BlankIt that decide whether its programs run correctly,
with proofs about all inputs, all runs and all interleavings. `dafny verify
dfyconfig.toml` checks everything.

- **Blanking runtime** (`Blanking`, `BlankingRuntime`, `BlankingRun`): library function bodies are kept
  zeroed in memory and restored, with their predicted call chain, when they are entered.
  `Blanking` is the state machine over sets of resident functions; `BlankingRuntime` is
  the same over bytes, page permissions and saved copies, and `BlankingRun` carries whole
  runs over. Configuration:
  `BLANKIT_PROBE_PREDICT` defined; audit, trace and empty probes off.
- **Prediction pipeline** (`StringSets`, `TraceTable`, `Recorder`, `ChainIds`, `Text`,
  `TreeTable`, `TreeText`, `Specialise`, `Pipeline`): a recorder turns traces into
  training rows and numbers the sets of called functions; a fitted tree is printed,
  parsed by a compiler pass and partially evaluated at each call site; the leaf's id
  becomes an index into the runtime's sets. `Pipeline` joins the parts end to end.
- **SUSAN kernels** (`Grid`, `Connectivity`, `Thinning`, `ThinningSafety`, `ThinningFates`,
  `EdgeMap`, `Usan`, `CornerTest`, `Corners`, `Borders`, `Smoothing`): in-place thinning,
  edge marking and drawing, the unrolled mask walks, corner tests and selection, mirrored
  borders and smoothing. `ThinningSafety` says what thinning keeps, `ThinningFates` what
  it does to each kind of point.
- **Integer square root** (`Isqrt`, `Arithmetic`) on 64-bit words.
- **Pin slots** (`PinSlots`): per-CPU counters shared by many processes; every atomic
  operation is one step and all interleavings are allowed.
- **Call graph search** (`CallGraph`) and **audit queue** (`AuditQueue`).

How to read the models:

- Methods on arrays and classes follow the loops and fields of the source. Their
  contracts equate the result or the new state with a specification function or
  predicate; lemmas prove what the source promises about that specification.
- Where a promise of the source is false, the model keeps the code as it is and a lemma
  gives the exact condition under which the promise holds. These are
  `Isqrt.DocumentedRootIffShortInput` (only the low 32 bits of the input are used),
  `PinSlots.SafeIffAtMost127PerCpu` (the counters are signed chars),
  `PinSlots.UnpinAccountedIffRestored` (a failed restore still decrements),
  `Blanking.EnteredIsResidentIff` (a name loaded twice leads away from the first
  function), `Blanking.LoadSafeIffQuiet` (loading into a resident chain),
  `BlankingRuntime.CoveredMeans` (the copied size is remapped from the function's start,
  but stored 14 bytes later), `BlankingRuntime.ReloadIff` (a routine listed twice is
  saved after it was zeroed), `Specialise.TruncationAgreesIff` (run-time thresholds are
  truncated), `Pipeline.ColumnAgreesIff` (the recorder prints arguments where the pass
  looks for something else) and `Pipeline.SuppressionRightIff` (the empty-set test looks
  up the translated number).
- Assumptions the source makes of its surroundings are preconditions: loaded routines do
  not overlap, and each has one name and one size; function names are nonempty and free of
  `;`, `,` and newline; there is no id table from an earlier run; trees number children
  above their parents, as the fitting library does; threshold texts are numbers, without
  white space or colon; a recorder sees fewer than 2^32 call sites.
- Outside answers are parameters: what `sched_setaffinity` said, the floating-point
  verdicts in edge finding and thinning, the number a threshold text stands for, the
  iteration order of maps where the code does not depend on it, and the order in which
  processes take their steps.
- The brightness tables hold any values from 0 to 100, with 100 at difference 0; the
  distance table any values from 0 to 100, with 100 at the centre.

## Model

| member | source | states |
|---|---|---|
| `Isqrt.Usqrt` | basicmath/isqrt.c:45-65 | For every 64-bit input x, 32 rounds on wrapping 64-bit words end with a*a <= (x mod 2^32)*2^32 < (a+1)*(a+1), and a fits 32 bits |
| `Isqrt.RoundDoesNotWrap` | basicmath/isqrt.c:55-61 | Under the loop invariant no shift or addition of a round loses a carry, so the word operations are the exact ones |
| `Isqrt.RoundKeepsRoot` | basicmath/isqrt.c:55-62 | One round turns the root and remainder of a prefix into those of the prefix extended by two bits: a*a + r is the prefix and 0 <= r <= 2a |
| `Isqrt.RoundMovesWindow` | basicmath/isqrt.c:8-55 | The low half of x always holds the input bits that are not in the prefix yet |
| `Isqrt.DocumentedRootIffShortInput` | basicmath/isqrt.c:11-17 | The header's floor(sqrt(x)*2^16) comes out if and only if x is below 2^32 |
| `PinSlots.AttemptKeepsInv` | prep_basicmath/pin/Pin.c:135-145 | A fetch-and-add by any process, at any point of any interleaving in which at most 127 processes may run on each CPU, keeps every counter equal, as a signed char, to holders plus in-flight attempts plus unapplied releases, and owners unique |
| `PinSlots.OtherStepKeepsInv` | prep_basicmath/pin/Pin.c:143-164 | Every other atomic step (retreat, affinity, release, free) keeps the same invariant |
| `PinSlots.RunKeepsInv` | prep_basicmath/pin/Pin.c:128-265 | The invariant holds after every interleaving of processes of which at most 127 may run on each CPU, when affinities can be restored, and every process keeps its original mask |
| `PinSlots.InvMeans` | prep_basicmath/pin/Pin.c:142-160 | The invariant gives mutual exclusion on every CPU slot, counters equal to the shares they account for (128 shares, which only a retrying holder can reach, read as -128), all-zero counters when nobody holds, attempts or releases, and an unpinned process that may attempt exactly the slots of its original mask |
| `PinSlots.SharesBound` | prep_basicmath/pin/Pin.c:142-143 | One slot never carries more shares than processes that may run there plus one, the extra one being a holder that attempts its own slot again |
| `PinSlots.SafeIffAtMost127PerCpu` | prep_basicmath/pin/Pin.c:128-145 | For any affinity masks, mutual exclusion holds in every run if and only if no CPU is in the masks of more than 127 processes: the counter is a signed char, and a retrying holder makes 128 attempts wrap it |
| `PinSlots.CrowdGathers` | prep_basicmath/pin/Pin.c:142-145 | The run in which any 127 processes that share a CPU fill its counter up to the wrap is reachable |
| `PinSlots.CrowdBreaksExclusion` | prep_basicmath/pin/Pin.c:142-161 | With 128 processes on a CPU some run lets two of them hold its slot |
| `PinSlots.UnpinAccountedIffRestored` | prep_basicmath/pin/Pin.c:217-246 | UnPin's decrement keeps the accounting if and only if the affinity was restored |
| `PinSlots.FailedUnpinLosesExclusion` | prep_basicmath/pin/Pin.c:217-246 | A concrete run of two processes in which a failed restore lets both hold one slot |
| `Blanking.StepKeepsUniqueNames` | replace_probed/decrypt_probe.cpp:740-747 | Names stay unique across images if and only if the loaded name is new |
| `Blanking.EnteredIsResidentIff` | replace_probed/decrypt_probe.cpp:301-375 | A function is resident when its body starts if and only if it was resident, is not predicted, or its name still leads to it |
| `Blanking.RepeatedNameIsReachable` | replace_probed/decrypt_probe.cpp:740-747 | With one name in two images a reachable entry leaves the entered function blanked |
| `Blanking.EveryEntryIsResident` | replace_probed/decrypt_probe.cpp:278-434 | Wherever in a run of loads, predictions and entries a function is entered, under eager or lazy blanking, it is resident, provided no load repeats a name |
| `Blanking.LazyRefinesEager` | replace_probed/decrypt_probe.cpp:408-434 | Over every run from the start whose loads are quiet, the eager resident set is inside the lazy one, which is the union of the eager ones since the index last changed, and one resident predicted function implies its whole chain |
| `Blanking.PairStepKeepsInv` | replace_probed/decrypt_probe.cpp:278-434 | Every event keeps that relation between the two disciplines |
| `Blanking.LoadKeepsChainClosedIffQuiet` | replace_probed/decrypt_probe.cpp:720-762 | Loading an image keeps resident chains complete if and only if it does not add to a predicted set that is already resident |
| `Blanking.LoadSafeIffQuiet` | replace_probed/decrypt_probe.cpp:720-762 | Lazy blanking keeps refining eager blanking after a load, on every later run, if and only if that load is quiet in this sense |
| `Blanking.LoudLoadIsReachable` | replace_probed/decrypt_probe.cpp:720-762 | A load that is not quiet is reachable, and refinement fails after it |
| `BlankingRuntime.ImageMeans` | replace_probed/decrypt_probe.cpp:232-245 | Byte by byte: a body is its original when resident and zero otherwise; 14-byte heads and all bytes outside bodies are the originals |
| `BlankingRuntime.ImageRestore` | replace_probed/decrypt_probe.cpp:259-274 | Storing a saved body at offset 14 gives the memory with one more resident function |
| `BlankingRuntime.ImageBlank` | replace_probed/decrypt_probe.cpp:389-405 | Zeroing a body gives the memory with one resident function less |
| `BlankingRuntime.ImageLoad` | replace_probed/decrypt_probe.cpp:749-754 | A routine disjoint from the others is still pristine when its body is saved |
| `BlankingRuntime.CoveredMeans` | replace_probed/decrypt_probe.cpp:267-273 | The pages remapped for [addr, addr+size_cp] reach the last byte stored at offset 14 if and only if (addr+size_cp) mod page size is at most page size - 14 |
| `BlankingRuntime.Memory.Remap` | replace_probed/decrypt_probe.cpp:188-207 | remap_permissions changes exactly the pages that meet [addr, addr+size] |
| `BlankingRuntime.Memory.Store` | replace_probed/decrypt_probe.cpp:269 | A store succeeds, with exactly its bytes changed, if and only if all pages it meets are writable |
| `BlankingRuntime.Runtime.StoreBody` | replace_probed/decrypt_probe.cpp:267-273 | Remap, store, seal: faults exactly when the body is not covered; otherwise only the body changed and no page is writable at rest |
| `BlankingRuntime.Runtime.ProbeCopyAux` | replace_probed/decrypt_probe.cpp:259-274 | One more function is resident, and memory, saved copies and permissions agree again; fails exactly on an uncovered body |
| `BlankingRuntime.Runtime.ProbeCopy` | replace_probed/decrypt_probe.cpp:278-384 | Entering a function does to memory what the abstract step does to the resident set: nothing, the predicted chain, or the function alone |
| `BlankingRuntime.Runtime.CopyChain` | replace_probed/decrypt_probe.cpp:342-354 | The loop over a predicted set makes exactly its loaded functions resident, in any order |
| `BlankingRuntime.Runtime.ProbeBlankAux` | replace_probed/decrypt_probe.cpp:390-405 | Every resident body is zeroed, copied_funcs is empty, and no page is left writable, even when bodies share pages |
| `BlankingRuntime.Runtime.PredictEager` | replace_probed/decrypt_probe.cpp:408-418 | The eager predict step on memory is the abstract one |
| `BlankingRuntime.Runtime.PredictLazy` | replace_probed/decrypt_probe.cpp:420-434 | The lazy predict step on memory is the abstract one: it blanks if and only if the index changes |
| `BlankingRuntime.Runtime.LoadRoutine` | replace_probed/decrypt_probe.cpp:728-762 | A new routine of more than 14 bytes is recorded, saved and zeroed; a smaller one is skipped; one that is loaded a second time is saved as it is then, and zeroed |
| `BlankingRuntime.Runtime.ReloadRoutine` | replace_probed/decrypt_probe.cpp:740-754 | A second load saves the original body only if the routine was resident and zeros otherwise, and leaves the state sound if and only if the body is all zeros |
| `BlankingRuntime.ReloadIff` | replace_probed/decrypt_probe.cpp:740-754 | Tables and memory stay sound over a second load exactly for a body of zeros |
| `BlankingRun.StartRun` | replace_probed/decrypt_probe.cpp:129-158 | A fresh runtime over untouched memory is the empty abstract machine, from which the runs below start |
| `BlankingRun.TakeEnter` | replace_probed/decrypt_probe.cpp:278-384 | An entry on memory faults exactly when its stores do not reach some body it restores, and otherwise leaves the entered routine with its original bytes from offset 14 on |
| `BlankingRun.Play` | replace_probed/decrypt_probe.cpp:278-434 | Any sequence of loads with fresh names, predictions and entries does to memory what the abstract run does, and ends early only in an entry that faults, so never when all bodies are covered |
| `BlankingRun.PlayThenEnter` | replace_probed/decrypt_probe.cpp:278-434 | After any such sequence, an entered routine that does not fault starts on its original bytes |
| `BlankingRuntime.Runtime.constructor` | replace_probed/decrypt_probe.cpp:129-158 | At start nothing is loaded or resident, and the index is 0 |
| `TreeTable.MeasureTree` | pathPredictionProject/src/plot_unveil_tree_structure.py:61-73 | The explicit-stack pass ends, and gives every node its true distance from the root and its leaf flag |
| `TreeTable.TurnKeepsPending` | pathPredictionProject/src/plot_unveil_tree_structure.py:64-73 | One turn of the stack loop: waiting nodes are unvisited, distinct, and know their parent's depth; children of visited nodes are visited or waiting |
| `TreeTable.NothingPending` | pathPredictionProject/src/plot_unveil_tree_structure.py:64-73 | With an empty stack every node of the tree has been visited |
| `TreeText.PrintTree` | pathPredictionProject/src/plot_unveil_tree_structure.py:78-91 | The printed text is one indented line per node and a final empty line |
| `TreeText.LinesExample` | pathPredictionProject/src/plot_unveil_tree_structure.py:78-91 | A test line and a leaf line, spelled out |
| `TreeText.NodeRead` | pathPredictionProject/llvm/llvm/lib/Transforms/embedDtree/embedDtree.cpp:233-256 | The printed line of any node, at any depth, reads back as that node's name and its condition and branches, or its class |
| `TreeText.LoadTree` | pathPredictionProject/llvm/llvm/lib/Transforms/embedDtree/embedDtree.cpp:228-259 | The parsing loop builds the map that the lines of the text prescribe, later lines replacing earlier ones |
| `TreeText.TestLineRead` | pathPredictionProject/llvm/llvm/lib/Transforms/embedDtree/embedDtree.cpp:233-248 | A printed test line parses to its node name, condition and two branches, whatever the indentation |
| `TreeText.LeafLineRead` | pathPredictionProject/llvm/llvm/lib/Transforms/embedDtree/embedDtree.cpp:249-256 | A printed leaf line parses to its node name and class |
| `TreeText.ConditionRead` | pathPredictionProject/llvm/llvm/lib/Transforms/embedDtree/embedDtree.cpp:330-335 | The condition of a printed test reads back as its feature number and threshold text |
| `TreeText.PrintedTreeParses` | pathPredictionProject/llvm/llvm/lib/Transforms/embedDtree/embedDtree.cpp:227-258 | Printing a tree and parsing the file recovers every node's entry under its own name, and nothing else but the entry of the final empty line |
| `TreeText.FirstNode` | pathPredictionProject/llvm/llvm/lib/Transforms/embedDtree/embedDtree.cpp:492-498 | The root loop returns the first key in order that contains "node" |
| `TreeText.RootRecovered` | pathPredictionProject/llvm/llvm/lib/Transforms/embedDtree/embedDtree.cpp:492-501 | In the map's key order that key is node_0, and from there the parsed entries spell the printed tree: features, thresholds, branches and classes |
| `TreeText.RootFound` | pathPredictionProject/llvm/llvm/lib/Transforms/embedDtree/embedDtree.cpp:492-501 | Whatever the loop returns over the map's keys is node_0, from which the printed tree is spelled |
| `TreeText.EntriesSpell` | pathPredictionProject/llvm/llvm/lib/Transforms/embedDtree/embedDtree.cpp:321-428 | Following the entries from any node gives the subtree of that node |
| `Specialise.ValidIffPresent` | pathPredictionProject/llvm/llvm/lib/Transforms/embedDtree/embedDtree.cpp:292-314 | isPindexValid holds unless the feature is -1 for want of an argument |
| `Specialise.TruncationAgreesIff` | pathPredictionProject/llvm/llvm/lib/Transforms/embedDtree/embedDtree.cpp:403-414 | Wherever the conversion of the threshold is defined (above -1 and below 2^64), the compiled comparison is the tree's comparison on all 32-bit arguments if and only if the threshold is not negative and is below 2^31 or has 2^31-1 in its low 32 bits |
| `Specialise.EmitMeansWalk` | pathPredictionProject/llvm/llvm/lib/Transforms/embedDtree/embedDtree.cpp:321-482 | For all run-time arguments the emitted code makes at most one prediction: the leaf the walk reaches; none at an unsupported feature or a suppressed leaf |
| `Specialise.SpecialisationPreservesMeaning` | pathPredictionProject/llvm/llvm/lib/Transforms/embedDtree/embedDtree.cpp:321-482 | With thresholds that survive the conversion, that leaf is the one the original tree's walk reaches with exact comparisons |
| `Specialise.FeatureIsEntry` | pathPredictionProject/llvm/llvm/lib/Transforms/embedDtree/embedDtree.cpp:340-399 | The vector of a call is the site, the function, ten flags, ten arguments in order, and -1 where there is no such argument; whatever the pass supplies for a feature is that entry, and it supplies nothing exactly for flags and the tenth argument of arguments there are, other types, and numbers beyond |
| `Specialise.WalkIsDecision` | pathPredictionProject/llvm/llvm/lib/Transforms/embedDtree/embedDtree.cpp:321-421 | The exact walk reaches the leaf the tree gives that vector, or gives up exactly if it meets a refused feature on the way |
| `Specialise.CodeDecidesCall` | pathPredictionProject/llvm/llvm/lib/Transforms/embedDtree/embedDtree.cpp:321-482 | With thresholds that survive the conversion, the emitted code predicts the leaf the tree gives the call's vector, once, unless the leaf is suppressed, and predicts nothing exactly if a refused feature is met |
| `Specialise.Pass.Embed` | pathPredictionProject/llvm/llvm/lib/Transforms/embedDtree/embedDtree.cpp:321-482 | The recursive pass over the parsed entries emits exactly the specialised code, whatever ids it hands out on the way |
| `Specialise.Pass.FeatureValue` | pathPredictionProject/llvm/llvm/lib/Transforms/embedDtree/embedDtree.cpp:340-399 | The branches over the feature number find the constant, the argument or nothing that the feature stands for, which `Specialise.FeatureIsEntry` ties to the call's own feature vector |
| `Specialise.Pass.ResolveFunction` | pathPredictionProject/llvm/llvm/lib/Transforms/embedDtree/embedDtree.cpp:345-358 | A function keeps the id it is first given, and resolving one name leaves all known names alone |
| `Specialise.Pass.EmbedLeaf` | pathPredictionProject/llvm/llvm/lib/Transforms/embedDtree/embedDtree.cpp:424-450 | A leaf becomes a call with the translated number unless the text under that number is ";" |
| `StringSets.ListingIsUnique` | pathPredictionProject/src/parsePinTrace.cpp:45-51 | A set of names has one sorted listing, so a flattened set is determined by the set |
| `StringSets.InsertLists` | pathPredictionProject/src/parsePinTrace.cpp:213 | Inserting a name keeps the listing of the set plus that name |
| `StringSets.FlattenSet` | pathPredictionProject/src/parsePinTrace.cpp:45-51 | flattenSet gives ";" followed by every name and ";" |
| `TraceTable.StepReflects` | pathPredictionProject/src/parsePinTrace.cpp:268-365 | One trace line keeps the recorder's rows equal to those the trace defines by looking ahead |
| `TraceTable.StartsAreAll` | pathPredictionProject/src/parsePinTrace.cpp:341-359 | Rows start at exactly the library calls that follow a call-site line, in trace order |
| `TraceTable.RowBelongsToSite` | pathPredictionProject/src/parsePinTrace.cpp:183-236 | Row r of the table has the site and arguments of the call-site line before the r-th start and, once it is over, the chain of that start; only an open last row has no chain |
| `TraceTable.ChainMeans` | pathPredictionProject/src/parsePinTrace.cpp:183-236 | A row ends with the first return, dominance-frontier line, or library call right after a call-site line; its chain is what was called up to a return, and empty otherwise |
| `TraceTable.LastRowNamesFunction` | pathPredictionProject/src/parsePinTrace.cpp:110-194 | The function printed for a site is the one of the site's last row |
| `TraceTable.StartStep` | pathPredictionProject/src/parsePinTrace.cpp:183-199 | A new row belongs to its own call site, function and arguments; an open one is closed with the empty set |
| `TraceTable.CloseStep` | pathPredictionProject/src/parsePinTrace.cpp:215-236 | A return closes the open row with all functions called in it; a dominance-frontier line closes it with none |
| `TraceTable.QuietStep` | pathPredictionProject/src/parsePinTrace.cpp:205-214 | Any other line at most adds a called function to the open row |
| `Recorder.IdsDense` | pathPredictionProject/src/parsePinTrace.cpp:227-230 | Chain ids are injective and dense from 0 |
| `Recorder.Context.FinalizeCalledFuncs` | pathPredictionProject/src/parsePinTrace.cpp:221-236 | The open row gets its chain, known chains keep their ids, and a new chain gets the next id |
| `Recorder.Context.ClearCurrentCalledFuncs` | pathPredictionProject/src/parsePinTrace.cpp:215-220 | An open row is closed with the empty set |
| `Recorder.Context.RecordCallsite` | pathPredictionProject/src/parsePinTrace.cpp:183-199 | Call sites, flags and parameters stay equal in number, completed chains one behind exactly inside a call, and the call stack has that same size |
| `Recorder.Context.AddFuncParam` | pathPredictionProject/src/parsePinTrace.cpp:200-204 | The wrapping index always names the last row |
| `Recorder.Context.AddCalledFunc` | pathPredictionProject/src/parsePinTrace.cpp:205-214 | Inside a call the name joins the current set |
| `Recorder.Context.RecordRdf` | pathPredictionProject/src/parsePinTrace.cpp:177-180 | Outside a call nothing is recorded |
| `Recorder.ParseTrace` | pathPredictionProject/src/parsePinTrace.cpp:252-365 | For every trace the recorder ends with the rows of that trace, chain i with call site i, and with no dominance-frontier flags |
| `Recorder.FlattenParams` | pathPredictionProject/src/parsePinTrace.cpp:59-77 | The parameters of a row, filled up with zeros to five columns |
| `Recorder.TrainingColumns` | pathPredictionProject/src/parsePinTrace.cpp:101-114 | The columns that print writes after the label |
| `ChainIds.PrintTable` | pathPredictionProject/src/parsePinTrace.cpp:133-142 | The id table: every line preceded by a newline, chains first |
| `ChainIds.LoadIds` | pathPredictionProject/llvm/llvm/lib/Transforms/embedDtree/embedDtree.cpp:170-199 | The compiler's reader, with the exception of stoi on a malformed id |
| `ChainIds.TableLoaded` | pathPredictionProject/llvm/llvm/lib/Transforms/embedDtree/embedDtree.cpp:170-199 | Reading a printed table numbers its rows from one in file order, recovers every text under its id, and leads from every text back to its last row |
| `ChainIds.TableExample` | pathPredictionProject/src/parsePinTrace.cpp:133-142 | The text of a table of two chains, spelled out |
| `ChainIds.InitPredSets` | replace_probed/decrypt_probe.cpp:546-586 | The runtime's reader gives one set per line, the empty first line included |
| `ChainIds.ReadPredSet` | replace_probed/decrypt_probe.cpp:564-585 | One line: split at ";", skip empty parts, erase the last part |
| `ChainIds.LineSet` | replace_probed/decrypt_probe.cpp:565-584 | The set read from a table line is the set that was flattened into it |
| `ChainIds.FlattenInjective` | pathPredictionProject/src/parsePinTrace.cpp:45-51 | Two sets of proper names with the same flattened text are equal |
| `ChainIds.IdSelectsItsSet` | pathPredictionProject/llvm/llvm/lib/Transforms/embedDtree/embedDtree.cpp:189-191 | The counter that the compiler looks up for a chain id selects exactly that chain's set at run time, whatever the order of the chains |
| `Pipeline.RecordedSetIsSelected` | replace_probed/decrypt_probe.cpp:546-586 | From the trace to the run time: the index derived from a completed row's training id selects exactly the functions called in that row |
| `Pipeline.PredictionSelectsChain` | pathPredictionProject/llvm/llvm/lib/Transforms/embedDtree/embedDtree.cpp:428-450 | When the tree reaches the leaf of a chain id, the specialised code makes one call and its index selects that chain's set, or the leaf is suppressed and it makes none |
| `Pipeline.EmbedPrintedTree` | pathPredictionProject/llvm/llvm/lib/Transforms/embedDtree/embedDtree.cpp:487-502 | Print, parse, find the root and embed: the code is the specialisation of the tree that was printed |
| `Pipeline.ColumnAgreesIff` | pathPredictionProject/llvm/llvm/lib/Transforms/embedDtree/embedDtree.cpp:340-399 | The value the pass supplies for a feature is the value of that training column at every call if and only if the feature is the call site or the function |
| `Pipeline.FirstArgumentIsMisplaced` | pathPredictionProject/src/parsePinTrace.cpp:99-114 | The argument of a one-argument call is printed as feature 3, for which the pass supplies -1, and the pass knows it as feature 12, which is no column |
| `Pipeline.LineLeafIsCallLeaf` | pathPredictionProject/llvm/llvm/lib/Transforms/embedDtree/embedDtree.cpp:321-421 | A tree that tests only call site and function reaches at a call the leaf it gives the call's training line |
| `Pipeline.TreeDecidesAsTable` | pathPredictionProject/src/plot_unveil_tree_structure.py:69-73 | The printed tree gives a feature vector the class that following the fitted arrays of children, features and thresholds gives it |
| `Pipeline.SuppressedWhen` | pathPredictionProject/llvm/llvm/lib/Transforms/embedDtree/embedDtree.cpp:431-441 | Which leaves the empty-set test suppresses, given that it looks up the translated number |
| `Pipeline.SuppressionRightIff` | pathPredictionProject/llvm/llvm/lib/Transforms/embedDtree/embedDtree.cpp:431-441 | The test singles out the empty chain in all leaves if and only if that chain has id 1 (or, without one, no other ";" took the first free id) |
| `Usan.WalkCoversMask` | susan/susan.c:501-563 | The 36 reads of the pointer walk are the 36 pixels of the disc of radius 3.4, all inside the image |
| `Usan.MaskIsDisc` | susan/susan.c:501-563 | The disc is seven rows of 3, 5, 7, 7, 7, 5 and 3 pixels without the centre |
| `Usan.CentreCountsItself` | susan/susan.c:501 | The starting value 100 is the similarity of the centre with itself |
| `Usan.WalkUpper` | susan/susan.c:501-530 | The first 18 reads of the walk and where the pointer ends |
| `Usan.LadderMiddle` | susan/susan.c:1787-1809 | The early-exit ladder ends with the full sum when that is below the limit and at or above the limit otherwise |
| `Usan.LadderLower` | susan/susan.c:1810-1832 | The same for the rest of the ladder |
| `Usan.ResponseFromReads` | susan/susan.c:501-563 | The response of a pixel in terms of the sums of the walk |
| `Usan.SusanPrinciple` | susan/susan.c:494-563 | Every pixel three pixels inside gets max_no minus its area, or 0; all others 0 |
| `Usan.SusanQuick` | susan/susan.c:1757-1833 | With its early exits the quick loop leaves, seven pixels inside, exactly the responses of susan_principle |
| `CornerTest.Moments` | susan/susan.c:1555-1606 | The second walk computes the first moments of the mask's similarities |
| `CornerTest.TowardsInReach` | susan/susan.c:1612-1624 | The three samples towards the centre of gravity stay within three rows and columns, so they are in the image |
| `CornerTest.TowardsMeans` | susan/susan.c:1612-1624 | Sample t lies t whole steps from the centre along the longer axis, towards the centre of gravity, and across it at a pixel nearest to the line through the centre of gravity |
| `CornerTest.FarMeans` | susan/susan.c:1608-1611 | The test on the truncated half is that twice the squared moments exceed the squared area |
| `CornerTest.AllThreeAlike` | susan/susan.c:1616-1626 | More than 290 in all needs more than 90 from each of the three samples |
| `CornerTest.GradientMeans` | susan/susan.c:1628-1629 | The stored gradient is 51 times the moments over the area, truncated towards zero |
| `CornerTest.FtoiIsNearest` | susan/susan.c:307 | FTOI rounds to a nearest integer |
| `CornerTest.FtoiTies` | susan/susan.c:307 | Halves are rounded away from zero |
| `CornerTest.CornerValue` | susan/susan.c:1481-1632 | A pixel's response and gradient: positive exactly for a small area, far gravity and three alike pixels that way |
| `CornerTest.CornersFilterPrinciple` | susan/susan.c:1608-1630 | Every response the corner test leaves is that of susan_principle |
| `CornerTest.SusanCornerResponses` | susan/susan.c:1475-1632 | The response loop leaves these responses at every pixel, and gradients at the corners |
| `Corners.WindowTest` | susan/susan.c:1669-1723 | The 48 comparisons of buffer entries are the mixed greater and greater-or-equal test over the 7x7 window |
| `Corners.TestWindow` | susan/susan.c:1638-1723 | The comparisons in place decide that test |
| `Corners.SelectCorners` | susan/susan.c:1634-1737 | The list holds all local maxima, in raster order, each with its pixel's values; the end mark fits, or the program gives up when the list is full |
| `Corners.CornersApart` | susan/susan.c:1669-1723 | No two reported corners lie within Chebyshev distance three |
| `Corners.FirstGreatestReported` | susan/susan.c:1669-1723 | The raster-first global maximum is always reported |
| `Corners.ListNonemptyIffPositive` | susan/susan.c:1634-1737 | The list is nonempty if and only if some response is positive |
| `Corners.ListNonemptyIffCorner` | susan/susan.c:1475-1737 | Both parts together: something is reported if and only if some pixel five pixels inside passes the corner test |
| `Borders.Enlarge` | susan/susan.c:642-663 | The enlarged buffer is the half-sample mirror extension of the image in both axes, corners included |
| `Borders.MirrorIsHalfSample` | susan/susan.c:652-663 | Index -1-k stands for k and n+k for n-1-k |
| `Borders.MirrorRows` | susan/susan.c:652-656 | The rows above and below |
| `Borders.MirrorColumns` | susan/susan.c:658-663 | The columns beside, taken from finished pixels |
| `Smoothing.SortedUnique` | susan/susan.c:627-632 | Only one arrangement of a multiset is ascending |
| `Smoothing.BubbleSort` | susan/susan.c:627-632 | The buffer ends as the ascending arrangement of what it held |
| `Smoothing.Median` | susan/susan.c:612-635 | median gives the mean of the middle two of the eight neighbours, which are the right ones by `Smoothing.OffsetsAreNeighbours` |
| `Smoothing.OffsetsAreNeighbours` | susan/susan.c:618-625 | The eight reads hit exactly the eight adjacent pixels, each once, in raster order |
| `Smoothing.MiddleMeanIsMedian` | susan/susan.c:627-634 | The result is the mean of two values whose places among the eight are the fourth and fifth, whatever their order |
| `Smoothing.NoiseBecomesMedian` | susan/susan.c:759-763 | A pixel that resembles nothing else in its window becomes the median of its neighbours |
| `Smoothing.WindowSums` | susan/susan.c:745-760 | The pointer walk over window and table gives the weighted sums over exactly the window |
| `Smoothing.FlatSums` | susan/susan.c:777-793 | The unrolled 3x3 walk gives the sums over exactly the nine pixels |
| `Smoothing.CentreLeftOut` | susan/susan.c:761-765 | Subtracting the centre's weight afterwards leaves the centre out of both sums |
| `Smoothing.SumsWithin` | susan/susan.c:753-765 | The weighted total lies between the window's bounds times the weight |
| `Smoothing.SmoothedWithin` | susan/susan.c:743-800 | Every smoothed pixel lies between the minimum and maximum of its window |
| `Smoothing.SusanSmoothing` | susan/susan.c:673-805 | Every original pixel gets its smoothed value, computed from the unmodified image although the output walks the caller's buffer |
| `Connectivity.Reroute` | susan/susan.c:1027-1055 | A path around a removed point can be rerouted when the point's neighbours lie in one component of what remains |
| `Connectivity.RemovalKeepsJoined` | susan/susan.c:1027-1055 | Removing such a point keeps joined points joined |
| `Thinning.WeightTable` | susan/susan.c:894-921 | The if-chain of multiplications is the weighting away from the present neighbour |
| `Thinning.BestIsFirstMaximum` | susan/susan.c:923-926 | The chosen neighbour is the first with the greatest positive weight |
| `Thinning.ExtendLine` | susan/susan.c:894-942 | Line extension and its jump back |
| `Thinning.StraightenPoint` | susan/susan.c:949-978 | Moving a point back into line |
| `Thinning.ClearRightAngle` | susan/susan.c:1010-1022 | Clearing an odd right angle and jumping back |
| `Thinning.ThinPoint` | susan/susan.c:1029-1055 | Removal of a point with more than two neighbours by crossing number |
| `Thinning.Visit` | susan/susan.c:867-1058 | A visit to an edge point leaves in mid, and in i and j, exactly what the decision for its neighbourhood prescribes |
| `ThinningFates.CountsAre` | susan/susan.c:872-881 | The counts of the program are the numbers of edge points beside, at the corners of and around the point |
| `ThinningFates.LonelyPointRemoved` | susan/susan.c:884-887 | A point without neighbours is removed |
| `ThinningFates.LineEndFate` | susan/susan.c:894-942 | A point with one neighbour stays, and unless it is the third extension in a row it is continued by the first of the best weighted neighbours, if one has positive weight, at a level that counts the extensions |
| `ThinningFates.BestIsFirstBest` | susan/susan.c:923-926 | The program finds the first best continuation, said of pixels and distances on the ring, whenever there is one |
| `ThinningFates.HookedPairFate` | susan/susan.c:949-978 | A point between two corners of one side moves into the gap between them if and only if the responses allow it and no edge point touches the gap from beyond; the old place gets 100 and the gap 3 |
| `ThinningFates.RightAngleMeans` | susan/susan.c:1010-1022 | The test for odd right angles: two side neighbours that touch, with an edge point diagonally beyond one of them that does not touch the centre |
| `ThinningFates.OtherPairFate` | susan/susan.c:1010-1022 | Any other point with two neighbours is removed if and only if it is such an angle |
| `ThinningFates.CrowdedPointRemovedIff` | susan/susan.c:1029-1055 | A point with more than two neighbours is removed if and only if more than one is beside it and its neighbours are connected among themselves; nothing else changes |
| `ThinningFates.FewCrossingsOnePiece` | susan/susan.c:1041-1046 | A crossing number below two connects all neighbours among themselves |
| `ThinningFates.ManyCrossingsApart` | susan/susan.c:1041-1046 | A crossing number of two or more leaves two neighbours that are not connected among the neighbours |
| `ThinningFates.ResumesAtFirstNeighbour` | susan/susan.c:1017-1021 | After a removal that jumps back, the next pixel visited is the first that had the removed point for a neighbour, except next to the top and left margins |
| `ThinningFates.ResumesAtExtension` | susan/susan.c:934-940 | After an extension the next pixel visited is the new point if it lies before the next one in raster order, except next to the margins, and the next one otherwise |
| `ThinningFates.ScanArrives` | susan/susan.c:865-867 | The scan skips nothing: it arrives at every pixel four pixels inside before which no visit would change anything, with the buffer untouched, after one round per pixel and row end |
| `ThinningSafety.OnePiece` | susan/susan.c:1041-1046 | A crossing number below two means the present neighbours form one piece |
| `ThinningSafety.PiecesConnect` | susan/susan.c:1041-1046 | The same for the buffer: the neighbours lie in one component of what remains |
| `ThinningSafety.DecideIsJustified` | susan/susan.c:884-1055 | What is known of the neighbourhood for each decision |
| `ThinningSafety.StepKeepsJoined` | susan/susan.c:884-1055 | Every kind of visit keeps 8-connected edge points 8-connected, if both are still present |
| `ThinningSafety.StepKeepsInset` | susan/susan.c:865-1055 | No visit brings an edge point closer than three pixels to the border |
| `ThinningSafety.ScanKeepsJoined` | susan/susan.c:865-1058 | Over any number of rounds, points that stay present and were joined remain joined |
| `ThinningSafety.ScanKeepsInset` | susan/susan.c:865-1058 | Over any number of rounds edge points keep their distance from the border |
| `ThinningSafety.ThinFor` | susan/susan.c:854-1059 | The nested loops in place, with the rewritten loop indices, leave what the scan prescribes after that many rounds |
| `EdgeMap.TestMaximum` | susan/susan.c:1290-1292 | The test across the edge on buffer entries |
| `EdgeMap.MaximumMeans` | susan/susan.c:1290-1292 | A selected point beats the pixels ahead and is not beaten by those behind, one step away in a small mask and two in the large one |
| `EdgeMap.OneMaximumAcross` | susan/susan.c:1290-1292 | Two points across one edge within that reach are not both selected |
| `EdgeMap.MarkEdges` | susan/susan.c:1135-1295 | The marking loops change mid exactly at the selected pixels, four (two) pixels inside |
| `EdgeMap.MarkedEdgesInset` | susan/susan.c:1338-1424 | Marked points lie four, or two, pixels inside |
| `EdgeMap.MarkedEdgesMean` | susan/susan.c:1135-1295 | The edge points of a cleared and marked buffer are exactly the selected ones |
| `EdgeMap.SelectedMeans` | susan/susan.c:1290-1295 | Selected are exactly the pixels inside the margin with a positive response that are such maxima for their direction |
| `EdgeMap.ThinnedEdgesDrawable` | susan/susan.c:2080-2086 | However long thinning runs, every edge point keeps a full 3x3 block in the image |
| `EdgeMap.RingedMeansBeside` | susan/susan.c:823-836 | The nine stores around an edge point hit exactly its 8-neighbours: no row wraps into the next |
| `EdgeMap.EdgeDraw` | susan/susan.c:814-846 | 0 at edge points, 255 beside them in mode 0, the original elsewhere, and no store outside the image |
| `EdgeMap.FindEdges` | susan/susan.c:2077-2085 | A cleared buffer, marked and maybe thinned, can be drawn |
| `EdgeMap.DrawEdges` | susan/susan.c:2077-2086 | The whole edge mode ends with that image |
| `CallGraph.Search` | libc/parse_static_reachable_funcs.py:54-91 | The search ends on any graph, visits exactly the functions reachable from the roots, counts edges, non-divergent functions and missing keys, and pops one entry per root and per counted call, last in first out; its greatest depth is attained, is at least the shortest depth of every reachable function and at most the visited count plus one; the last depth is that of the last entry, and printing it fails exactly without roots |
| `CallGraph.SoundTurn` | libc/parse_static_reachable_funcs.py:63-82 | One turn of the loop keeps the whole invariant and makes progress |
| `CallGraph.PathVisited` | libc/parse_static_reachable_funcs.py:70-82 | With an empty worklist every call chain from a root ends in a visited function |
| `CallGraph.CallSumOfSet` | libc/parse_static_reachable_funcs.py:81 | The edge count depends only on the set of visited functions |
| `CallGraph.LevelsBound` | libc/parse_static_reachable_funcs.py:67-68 | First-visit depths skip no level, so the deepest is at most the number of visited functions |
| `AuditQueue.Simulate` | audit/mispredict-timeline-results/parse_mispredicts.py:116-134 | The loop with its moving index computes end = max(timestamp, previous end) + audit_time for timestamps in any order, and advances the index at most once per entry |
| `AuditQueue.EndIsLongestBusyPeriod` | audit/mispredict-timeline-results/parse_mispredicts.py:129-134 | The last end is the latest of all busy periods that lead to it: the server is never idle while a job waits and never does two at once |
| `AuditQueue.EndsRise` | audit/mispredict-timeline-results/parse_mispredicts.py:126-134 | The ends never decrease |

## Left out

- Termination of susan_thin: `ThinningSafety.ThinFor` runs the scan for a given number of rounds, and the theorems hold for every number; whether the scan ends by itself is not claimed.
- EdgeMap.MarkEdges: the moments and the direction of an edge come from floating-point arithmetic (`susan/susan.c:1140-1289`, `1343-1419`) and enter as an arbitrary verdict per pixel.
- Thinning.StraightenPoint: the comparison of two responses with the factor 0.7 enters as an arbitrary answer.
- CornerTest.CornerValue: the division in the direction of the centre of gravity is over real numbers, not `float`.
- Smoothing.SusanSmoothing: sums are unbounded integers; the overflow that the program guards against with its limit on `dt` is not modelled, nor is the computation of the distance table with `exp`.
- Usan.SusanQuick: the brightness average and gradient that susan_corners_quick stores with each corner (`susan/susan.c:1926-1948`) are not modelled; its selection test is the one of `Corners`.
- susan_principle_small, corner_draw, int_to_uchar and image files: no harder than what is modelled.
- BlankingRuntime.Memory.Store: a store that faults is one event; bytes written before the fault are not modelled, since the process is gone.
- BlankingRuntime.Memory.Mprotect: always succeeds.
- BlankingRuntime.Runtime.LoadRoutine: symbol lookup and the list of approved functions; one call per routine found.
- The audit, trace, empty-probe and single-call-loading configurations of the runtime, and its timing and logging.
- ChainIds.InitPredSets: reading the file into memory; the text is the string that was read, without stray bytes after its end.
- Recorder.Context.RecordRdf: dominance-frontier flags never reach a row, so their text is not modelled.
- Recorder.TrainingColumns: the decimal text of the columns; the model has their values.
- Recorder.ParseTrace: splitting trace lines into tokens and waiting for the call of main; the model starts from the lines that matter, with numbers already read.
- The random ids of strings outside the chains: only that they are distinct and above the chain ids.
- callsite2fName_map and callsiteid_isSet of the recorder: written, but never printed.
- Specialise.Pass.Embed: the LLVM instructions that split blocks; the emitted code is a nested conditional; comparisons at compile time are over real numbers, not `float`.
- Specialise.TruncationAgreesIff: thresholds at or below -1, and from 2^64 on, have no defined conversion to an unsigned constant.
- Function ids from the pass's own counter may collide with ids read from funcName_id_map.csv; the model keeps that behaviour, and no theorem depends on distinct ids.
- ChainIds.LoadIds: signs, leading blanks and the range error of stoi; the printer writes decimal ids only, which fit.
- PinSlots: creation and removal of the shared memory segment, priorities, and the Migrate and writefile configurations.
- Isqrt: the conversion of the result into the two halves of the caller's structure.
- CallGraph.Search: reading the graph files, and the averages printed at the end.
- AuditQueue.Simulate: times are real numbers, not floats.
- cubic.c, rad2deg.c, plotting, shell drivers, thunks, ELF patching and superseded copies of the programs.
