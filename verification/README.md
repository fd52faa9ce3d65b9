# DFM back end: collector roots, dumps and services

DFM is the compiler's control-flow graph of blocks with parameters. Every call that may
allocate may run a moving collector, which relocates live objects and reclaims dead ones.
The back end keeps programs unaware of that: a liveness analysis writes into each such
call the list of temps to protect, and code generation spills those temps to frame slots,
makes the call, reloads them, and rebinds them through home cells, phis and block-entry
maps. This project models that pipeline, states what it promises, and proves it; beside it
stand the textual dump of DFM with its parser, the wire format of the syntax tree, tagged
integer arithmetic, the JIT's section memory and the on-disk object cache.

`dafny verify dfyconfig.toml` checks the whole project.

## The main results

- **Objects may move unseen** (`Machine.GcTransparent`). One machine runs a function with
  temps holding object identities. Another runs it with temps holding words; at every
  allocating call an arbitrary injective relocation is applied, only the call's roots are
  rewritten, and every other object may have moved, vanished or had its address reused.
  After `PopulateSafepointRoots` the second machine never reads a stale word and performs
  the first one's run exactly, for every relocation schedule, every environment (which
  answers from the whole history, seeing objects and never addresses) and every length,
  as long as values inhabit their type estimates. `Machine.PopulatedMeans` says what the
  pass writes without the pass's own vocabulary.
  `Machine.OmittedRootBreaksRun` is the other direction: if a run gets to a call whose list
  leaves out an object the run goes on to read, then some schedule, from the start of the
  function, stops the machine.
- **Emitted code keeps that** (`CompiledRun.CompiledTransparent`,
  `Pipeline.AcceptedCompiledTransparent`). The code that `Emit.EmitFunction` builds runs on
  a third machine, with SSA values, home cells and frame slots of which the collector sees
  only the slots. It performs the reference run too, through loops, phis taken in parallel,
  and parameter homes. The cross-block contract it needs is stated as `EdgeContract`;
  `Binding.ContractIffCarriedAlike` says when it holds, and
  `Unthreaded.UnthreadedPointerBreaks` gives an accepted function that breaks without it.
  Which accepted functions get through code generation is said exactly
  (`Succeeds.AcceptedEmittableIff`); that not all do is `Succeeds.RootNotYetEmitted`.
- **Liveness is exact** (`Liveness.ComputeGlobalLiveOut`): the fixpoint loop terminates and
  returns precisely the temps some path reads before overwriting; it is the least solution.
- **The checker says what it checks** (`Verify.Verify`), down to the order of its errors.
  What it leaves out for a run is exactly two things (`Verify.AcceptedWellFormed`): that
  definitions dominate reads (`Verify.OnlyParamsLiveIffDominance`) and that branches enter
  only blocks without parameters. Each is shown to matter by an accepted function
  (`Verify.TextualOrderIsNotDominance`, `Verify.BranchToParamStops`).
- **Populated root lists are accepted exactly when** the lists the pass skips were
  (`Liveness.PopulatedIsAcceptedIff`).
- **The parser inverts the printer** (`DumpModules.ParseInvertsFormat`), character by
  character, up to what the dump leaves out, which `DumpRoundTrip.Canon` spells out; so
  equal dumps mean equal kept modules (`DumpModules.SameDumpIffSameKept`). Class names in
  the names of method bodies are replaced by ids on the way (`DumpNames.NameResolves`,
  `DumpModules.ByNameParsesAsById`).
- **The parser accepts exactly its grammar**: `DumpSpelling` relates texts to what they
  spell, and any text at all is read as a function exactly when its lines spell what may
  stand in their places (`DumpGrammar.FunctionReadIff`, `DumpModules.ModuleReadIff`).
- **Tagged arithmetic is right exactly when the result fits**
  (`TaggedInt.ProgramRightIffFixnum`, `TaggedInt.DivRightIff`).
- **The decoder accepts exactly the encodings** (`Wire.DecodeRecord`,
  `Wire.WholeIffEncoded`), **the cache returns nothing or what was last written**
  and finds a key exactly as long as it is kept (`Cache.CacheSafe`, `Cache.FoundIffKept`),
  **sections never share a page and go to the first that fits** (`JitMm.RunSound`,
  `JitMm.RunPlacesFirstFit`), **an unwind entry is found in the
  packed table exactly when the raw one had it** (`JitMm.FindEntry`), and **the `if` fold
  means what its node says** (`IfChain.BuiltMeansNode`).

## How the model stands to the code

- Passes that mutate are methods of classes or loops over local state, proved equal to
  specification functions; the theorems are about those functions. `Liveness.FunctionCell`
  is the function a pass mutates, `Emit.Emitter` and `Emit.ModuleContext` are the emission
  state and the module's shared counter, `DumpFormat.Buffer` is the output string,
  `JitMm.Manager` the bump allocator and `Cache.DiskCache` the cache directory.
- What can be called, by name and number of arguments, is a parameter of code generation:
  the function table, declared externs, bodies known to the runtime and the arities of
  built-ins together.
- The environment of a run is one function from history to answer: heap, callees and input
  and output are behind it. The collector's choices are a schedule of layouts.
- Two block lookups coexist in the code, first match and hash table. Both are modelled, and
  shown to agree once the checker has accepted (`Verify.AcceptedLookups`).
- Codegen panics on a temp it has no value for or a block it does not know; the model
  returns `UndefinedTemp` or `UndefinedBlock`.
- The doc comment of cache reading mentions a version match on the compiler's own version;
  the code compares ABI version, LLVM major, target and optimisation level only, and the
  model follows the code. The codegen comment that calls the true word 2 is likewise out of
  date: booleans are pinned singletons.

## Model

| member | source | states |
|---|---|---|
| `Ir.IdToIdxFinds` | src/nod-dfm/src/liveness.rs:128-134 | The position table built from block ids finds an id exactly when some block carries it, and then at the last such block. |
| `Ir.TempLookupsAgree` | src/nod-dfm/src/ir.rs:663-672 | With no id listed twice, first-match lookup and the hash table of the temp list agree, except that a missing temp is `Top` for the first. |
| `Ir.LookupsTake` | src/nod-dfm/src/ir.rs:663-672 | Ids repeated or not, the scan takes the first entry for a temp and the table the last. |
| `Ir.OperandIffRenamed` | src/nod-dfm/src/verify.rs:169-187 | A temp is among the operands exactly when renaming it in the fields, result and root list apart, changes the computation. |
| `Ir.OperandsFillFields` | src/nod-dfm/src/liveness.rs:229-247 | Operands come in field order, each as often as it stands there: writing them into the fields and reading them back are inverse, so computations that differ in those fields only are equal when their operands are. |
| `Ir.UsesAndTargetsIffRenamed` | src/nod-dfm/src/liveness.rs:249-256 | An exit's uses and targets are the temps and blocks whose renaming in its fields changes it. |
| `Ir.UsesAndTargetsFillFields` | src/nod-dfm/src/liveness.rs:110-116 | Both in field order: writing them into the exit and reading them back are inverse. |
| `Ir.MayAllocateIff` | src/nod-dfm/src/ir.rs:746-753 | A call may allocate unless it is a direct or sealed call marked otherwise; nothing else does. |
| `Cfg.LiveStep` | src/nod-dfm/src/liveness.rs:126-202 | Liveness, defined as the existence of a path to a read that overwrites the temp nowhere, unfolds one step: read here, or live past some edge that spares it. |
| `Cfg.LiveAtTerminator` | src/nod-dfm/src/liveness.rs:159-202 | Live at a terminator: its own uses and what is live out of the block. |
| `Cfg.LiveAtComputation` | src/nod-dfm/src/liveness.rs:208-227 | Live before a computation: its operands, and what is live after it other than its result. |
| `Liveness.GenKill` | src/nod-dfm/src/liveness.rs:135-157 | The forward walk collects exactly the upward-exposed reads and exactly the definitions of a block. |
| `Liveness.SweepExact` | src/nod-dfm/src/liveness.rs:208-227 | The backward sweep, seeded with exact live-out, is exact path liveness at every position of the block. |
| `Liveness.SweepIsFirstRead` | src/nod-dfm/src/liveness.rs:208-227 | A temp is in the sweep at a position exactly when a read from there on precedes every definition, or it is live out and not defined from there on. |
| `Liveness.SweepIsTransfer` | src/nod-dfm/src/liveness.rs:135-157 | The whole-block sweep minus the block parameters is `gen` plus `live_out` without `kill`. |
| `Liveness.LivenessIsLeastSolution` | src/nod-dfm/src/liveness.rs:159-202 | Exact liveness is contained in every solution of the dataflow equations. |
| `Liveness.Visit` | src/nod-dfm/src/liveness.rs:166-199 | One visit of a block adds only really live temps, and either grows some set or finds the block's equations satisfied. |
| `Liveness.Pass` | src/nod-dfm/src/liveness.rs:163-201 | One pass over the blocks, last to first, strictly grows the sets or leaves a solution. |
| `Liveness.ComputeGlobalLiveOut` | src/nod-dfm/src/liveness.rs:126-202 | The fixpoint loop terminates on every control-flow graph, and a temp is in `live_out[i]` exactly when some path from a successor of `i` reads it before overwriting it. |
| `Liveness.LiveAfterPerComputation` | src/nod-dfm/src/liveness.rs:208-227 | The recorded sets are the sweep at the position after each computation. |
| `Liveness.RootsOf` | src/nod-dfm/src/liveness.rs:71-105 | The root list is strictly ascending and holds exactly the live-after temps other than the result whose table entry needs protection. |
| `Liveness.RootsAreAField` | src/nod-dfm/src/ir.rs:692-712 | The root list is a field of the four call shapes only; writing it changes nothing else and reads back. |
| `Liveness.FunctionCell.PopulateSafepointRoots` | src/nod-dfm/src/liveness.rs:57-107 | In place: every potentially allocating call gets exactly the protected temps live across it, ascending; nothing else of the function changes. |
| `Liveness.PopulateIdempotent` | src/nod-dfm/src/liveness.rs:57-107 | A second run changes nothing, whatever the lists held at first. |
| `Liveness.PopulatedLiveness` | src/nod-dfm/src/liveness.rs:57-107 | Liveness is the same before and after the pass. |
| `Liveness.VerifySafepointRoots` | src/nod-dfm/src/liveness.rs:265-299 | The errors reported are the faults, root by root in textual order, and there are none exactly when every listed root is live across its call and needs protection. |
| `Liveness.SafepointComplaintsAre` | src/nod-dfm/src/liveness.rs:265-299 | The ordered complaints are exactly the faults of some root of some call. |
| `Liveness.PopulatedIsAcceptedIff` | src/nod-dfm/src/liveness.rs:57-107 | After population the checker is silent exactly when the lists of calls that cannot allocate, which the pass leaves alone, held only live and protected temps to begin with. |
| `Liveness.PopulatedIsAccepted` | src/nod-dfm/src/liveness.rs:57-107 | In particular the checker is silent if those lists were empty, and then every allocating call's list is complete as well as sound. |
| `Liveness.StaleNoAllocRootsSurvive` | src/nod-dfm/src/liveness.rs:68-70 | Counterexample: a list left on a call that cannot allocate survives the pass and is rejected by the checker. |
| `Machine.ProtectedIffMayHoldObject` | src/nod-dfm/src/ir.rs:566-580 | An estimate is protected exactly when a value it allows may be an object, or when it is `Bottom`, which allows none. |
| `Machine.CheckedIffMayHoldObject` | src/nod-dfm/src/liveness.rs:265-299 | The checker of root lists goes by the same rule, and takes an unlisted temp for one that may hold anything. |
| `Machine.PopulatedMeans` | src/nod-dfm/src/liveness.rs:57-107 | What the pass leaves at each computation, without its own vocabulary: a call that may allocate lists, ascending, the temps live across it whose listed estimate may hold an object or is `Bottom`; everything else is as it was. |
| `Machine.NoUndefinedRead` | src/nod-dfm/src/verify.rs:67-132 | No run of a well-formed function, of any length and in any environment, reads an undefined temp or takes a jump that does not fit. |
| `Machine.ForwardKeepsLive` | src/nod-dfm/src/liveness.rs:57-107 | At an allocating call the collector can forward every root, and afterwards every temp live across the call holds its value in the new layout. |
| `Machine.PopulatedRootsExact` | src/nod-dfm/src/liveness.rs:57-107 | After population every allocating call lists exactly the protected temps live across it, in the populated function's own liveness. |
| `Machine.StepAgrees` | src/nod-dfm/src/ir.rs:746-753 | One step keeps the non-moving and the moving machine in agreement on all live temps. |
| `Machine.GcTransparent` | src/nod-dfm/src/liveness.rs:57-107 | After population, under every schedule of injective relocations the moving machine never reads a stale or undefined word and performs the reference run: same operands, same answers, same result. It needs live values to inhabit their estimates. |
| `Machine.ReadsLaterIsLive` | src/nod-dfm/src/liveness.rs:126-202 | Whatever the rest of a run reads before overwriting it is live. |
| `Machine.StaleReadBreaks` | src/nod-dfm/src/ir.rs:566-580 | Once a temp is stale and the run goes on to read it, some legal collector behaviour stops the moving machine. |
| `Machine.OmittedRootBreaksRun` | src/nod-dfm/src/liveness.rs:57-107 | No root can be dropped: if some run, from the function's start, gets to an allocating call whose list leaves out an object the run goes on to read, a legal schedule stops the moving machine, from its start, on a stale word. |
| `Verify.Verify` | src/nod-dfm/src/verify.rs:45-167 | The errors reported are exactly the faults, in the order of the text, and there are none exactly when the declarative conditions hold: textual single assignment, definitions before uses, targets, jump arity, returns. |
| `Verify.ComplaintsAreFaults` | src/nod-dfm/src/verify.rs:45-167 | The ordered complaints about ids, entry, parameters, computations and exits are exactly the declared faults. |
| `Verify.NoFaultIffAccepted` | src/nod-dfm/src/verify.rs:45-167 | No fault of any kind exactly when the declarative conditions hold. |
| `Verify.CheckExit` | src/nod-dfm/src/verify.rs:93-158 | The complaints about a terminator, in order: early reads, missing targets, arity mismatch, return mismatch, with a jump's target looked at before its arguments. |
| `Verify.AcceptedWellFormed` | src/nod-dfm/src/verify.rs:45-167 | An accepted function is well-formed for running exactly when its branches go to blocks without parameters and only its parameters are live on entry. |
| `Verify.OnlyParamsLiveIffDominance` | src/nod-dfm/src/verify.rs:67-72 | The entry condition the checker leaves out is exactly dominance: on every path from the entry, what is read was defined on the way. |
| `Verify.AcceptedNeverReadsUndefined` | src/nod-dfm/src/verify.rs:45-167 | With those two conditions, no run of an accepted function reads an undefined temp. |
| `Verify.TextualOrderIsNotDominance` | src/nod-dfm/src/verify.rs:67-72 | Counterexample: an accepted function whose run reads an undefined temp. |
| `Verify.BranchToParamStops` | src/nod-dfm/src/verify.rs:109-132 | Counterexample: an accepted function that meets the entry condition and whose branch enters a block with a parameter; every run stops there. |
| `LoopHeaders.FindLoopHeaders` | src/nod-llvm/src/codegen.rs:5129-5155 | The walk returns exactly the targets of branches that do not go forward in the block list. |
| `LoopHeaders.CyclePassesHeader` | src/nod-llvm/src/codegen.rs:5129-5155 | Every control-flow cycle passes a loop header, whatever the block order. |
| `LoopHeaders.LongWalkPassesHeader` | src/nod-llvm/src/codegen.rs:5129-5155 | Every walk with at least as many edges as blocks arrives at a loop header. |
| `Target.LongWalksPoll` | src/nod-llvm/src/codegen.rs:2432-2437 | In emitted code, every walk over as many edges as there are blocks arrives at a block that starts with a poll. |
| `Target.EntryPolls` | src/nod-llvm/src/codegen.rs:2432-2437 | The emitted entry block starts with a poll. |
| `Target.PollsExactly` | src/nod-llvm/src/codegen.rs:2432-2437 | A block polls only at its start, once, after everything else there, and exactly if it is the entry or some branch to it does not go forward. |
| `Target.HomeIffMayHoldObject` | src/nod-llvm/src/codegen.rs:2334-2377 | A parameter has a home cell exactly when its estimate may hold an object or is `Bottom`. |
| `LoopHeaders.HeaderIsReturnedTo` | src/nod-llvm/src/codegen.rs:5129-5155 | A header is only a block that some block at or after it branches to. |
| `Binding.SeedBound` | src/nod-llvm/src/codegen.rs:2334-2377 | The bindings made before the first block are to values that no block's code defines. |
| `Binding.InstallBound` | src/nod-llvm/src/codegen.rs:2399-2431 | The bindings installed at a block start are to values defined by then, or to a phi of the temp itself, if those carried and noted were. |
| `Binding.AfterComputationBound` | src/nod-llvm/src/codegen.rs:4803-4860 | Emitting a computation, with its reloads or a store's aliasing, keeps every binding on a value already defined or a phi of the temp. |
| `Binding.PointBound` | src/nod-llvm/src/codegen.rs:2340-2456 | At every point each binding is to a value defined by earlier code or to a phi of the temp, and a temp no call reloads is bound to its one definition, if block parameters are read only in their block or later. |
| `Binding.EntriesAreCarried` | src/nod-llvm/src/codegen.rs:2538-2545 | A binding noted for a block is the one that the first earlier predecessor to have the temp bound left with, and every temp an earlier predecessor had bound is noted. |
| `Binding.ContractIffCarriedAlike` | src/nod-llvm/src/codegen.rs:2464-2506 | If every branched-to block follows one of its predecessors, the cross-block contract holds exactly when all edges into a block carry each such temp with one value, which is what the merge diagnostic looks for. |
| `Compiled.SpillsRun` | src/nod-llvm/src/codegen.rs:4753-4762 | Running the spills fills the slots, in order, with the bound values, and changes nothing else. |
| `Compiled.FetchesRun` | src/nod-llvm/src/codegen.rs:4803-4860 | Running the reloads defines each root's new value from its slot and refreshes the homes of parameters. |
| `Compiled.RootsAreLive` | src/nod-dfm/src/liveness.rs:57-107 | Every root of an allocating call is live where the call stands, so its spill reads a current value. |
| `Compiled.SlotsForwarded` | src/nod-llvm/src/codegen.rs:4706-4762 | The collector can forward all published slots, and they then hold the roots' values in the new layout. |
| `Compiled.ComputationSimulated` | src/nod-llvm/src/codegen.rs:2840-3137 | One chunk of emitted code, under any legal relocation, does what the reference step does and keeps every live temp in place. |
| `Compiled.KeptAcrossEdge` | src/nod-llvm/src/codegen.rs:2399-2431 | Taking an edge keeps every live temp in place: phis bound together, homes reloaded, the rest carried by the contract. |
| `CompiledRun.TerminatorSimulated` | src/nod-llvm/src/codegen.rs:4515-4563 | A return, branch or jump of emitted code does what the reference step does, with jump arguments as captured when the jump was emitted. |
| `CompiledRun.StartSimulated` | src/nod-llvm/src/codegen.rs:2334-2377 | The entry prologue leaves the state the reference machine starts in. |
| `CompiledRun.CompiledTransparent` | src/nod-llvm/src/codegen.rs:2273-2456 | Under every schedule of legal relocations, in which only frame slots are rewritten, emitted code never reads a stale or undefined value and performs the reference run. |
| `Pipeline.AcceptedSingleDefs` | src/nod-dfm/src/verify.rs:45-167 | Acceptance gives each temp a single defining site. |
| `Pipeline.AcceptedReadsPhisAfter` | src/nod-dfm/src/verify.rs:67-107 | Acceptance keeps any block from reading a later block's parameter. |
| `Pipeline.AcceptedCompiledTransparent` | src/nod-llvm/src/codegen.rs:2273-2456 | The passes together: an accepted, populated function that codegen accepts and whose bindings meet the contract compiles to transparent code. |
| `Unthreaded.UnthreadedPointerBreaks` | src/nod-llvm/src/codegen.rs:2282-2296 | Counterexample showing the contract cannot be dropped: every other demand holds, codegen accepts, and the code stops on a value its path never defined. |
| `Succeeds.BoundIffInText` | src/nod-llvm/src/codegen.rs:2340-2456 | As long as emission goes well, a temp is bound at a point exactly when it is a parameter of the function or of any block, or a result of something textually before, whichever way control flows. |
| `Succeeds.EmittableIff` | src/nod-llvm/src/codegen.rs:2273-2456 | Code generation has a value for every temp it needs exactly when each is a parameter or stands textually before its use; nothing bound is lost from block to block. |
| `Succeeds.AcceptedEmittableIff` | src/nod-llvm/src/codegen.rs:4566-4571 | An accepted function gets through code generation exactly when its computations are supported and every root of every call is a parameter or stands textually before the call. |
| `Succeeds.RootNotYetEmitted` | src/nod-llvm/src/codegen.rs:4753-4762 | Counterexample: an accepted function with the root lists the analysis computes, every computation supported, whose call has a root that is defined later in the text, so that code generation stops. |
| `Emit.PlanSafepoints` | src/nod-llvm/src/codegen.rs:1447-1494 | The planner's loop yields one plan per call site, numbered in textual order. |
| `Emit.SlotsBounded` | src/nod-llvm/src/codegen.rs:5111-5118 | No call has more roots than the computed slab size. |
| `Emit.SlotsAttained` | src/nod-llvm/src/codegen.rs:5111-5118 | If the slab is not empty, some call has as many roots as it has slots. |
| `Emit.ModuleContext.MintSiteId` | src/nod-llvm/src/codegen.rs:2577-2602 | Hands out the current number and advances the counter by one. |
| `Emit.Emitter.NoteSuccessorEntryTemps` | src/nod-llvm/src/codegen.rs:2538-2545 | Adds the current bindings for a successor; a binding already noted stays. |
| `Emit.Emitter.BeginSafepoint` | src/nod-llvm/src/codegen.rs:4706-4762 | Spills the roots to slots in order; every index is within the slab, so the slot assertion never fires. |
| `Emit.Emitter.EndSafepoint` | src/nod-llvm/src/codegen.rs:4803-4860 | Reloads and rebinds every root and stores a reloaded parameter back to its home. |
| `Emit.Emitter.RebindParam` | src/nod-llvm/src/codegen.rs:4672-4699 | A pointer-shaped parameter becomes a fresh load of its home, any other the argument itself. |
| `Emit.Emitter.InstallEntry` | src/nod-llvm/src/codegen.rs:2399-2431 | A block starts from carried bindings, overridden by noted ones, then parameters, then its phis. |
| `Emit.ResolveCallees` | src/nod-llvm/src/codegen.rs:2975-3050 | Finds a callee to refuse exactly when the call's callee, or for a sealed call some body of its fallback chain, cannot be called with that many arguments, and then the first such. |
| `Emit.CalleesKnownIff` | src/nod-llvm/src/codegen.rs:2975-3050 | The callees of a computation are known exactly when each function it names, fallback chain included, can be called with its arguments. |
| `Emit.Emitter.EmitCall` | src/nod-llvm/src/codegen.rs:3778-3834 | Find the callee, spill, record the site, operate, reload, bind; succeeds exactly when callees are known and operands and roots are bound. |
| `Emit.Emitter.EmitComputation` | src/nod-llvm/src/codegen.rs:2840-3137 | Succeeds exactly for supported computations with bound temps and known callees; computed callees, bare write barriers and dispatches of no or more than eight arguments always fail, and every error names a fault there is. |
| `Emit.Emitter.EmitTerminator` | src/nod-llvm/src/codegen.rs:4515-4563 | Notes the successors and records a jump's argument values as they are at that moment. |
| `Emit.Emitter.EmitBlock` | src/nod-llvm/src/codegen.rs:2399-2443 | Emits the block its entry bindings describe, with polls at the entry and at loop headers, and appends its sites. |
| `Emit.EmitFunction` | src/nod-llvm/src/codegen.rs:2273-2456 | Succeeds exactly when everything read is bound, every target exists, every computation is supported and every callee can be called; then yields the code that is proved transparent. |
| `Emit.CodegenModule` | src/nod-llvm/src/codegen.rs:1347-1392 | On success the sites recorded while emitting equal the planner's plans. |
| `Emit.SiteNumbersIncrease` | src/nod-llvm/src/codegen.rs:1447-1494 | A call site before another has a smaller number, so numbers are unique in the module. |
| `Emit.ModulePlansAre` | src/nod-llvm/src/codegen.rs:1447-1494 | Every call site has its plan at the number of call sites before it; there are no others and the numbers are dense. |
| `Emit.SitePlanSays` | src/nod-llvm/src/codegen.rs:1447-1494 | A call site's plan gives its number, function, block label, position, kind of call, and roots in order with their positions as slots. |
| `TaggedInt.UntagsIffFixnum` | src/nod-llvm/src/codegen.rs:3146-3151 | A tagged word gives its integer back exactly when the integer fits 63 bits. |
| `TaggedInt.RingOpTagged` | src/nod-llvm/src/codegen.rs:3255-3316 | Add, subtract, multiply and negate commute with tagging for all integers, wrap-around included. |
| `TaggedInt.ConstTagged` | src/nod-llvm/src/codegen.rs:3146-3151 | An integer literal's word is the tagged word of its value, for every 128-bit literal. |
| `TaggedInt.WordsAreTagged` | src/nod-llvm/src/codegen.rs:3255-3316 | In a straight-line program, divisions included if what they divide are fixnums, every computed word is the tagged word of the exact value, and the program is undefined exactly when it divides by zero. |
| `TaggedInt.ProgramRightIffFixnum` | src/nod-llvm/src/codegen.rs:3255-3316 | A result of such a program is right exactly when that result fits 63 bits, even if intermediates do not. |
| `TaggedInt.WithoutDivisions` | src/nod-llvm/src/codegen.rs:3255-3316 | A program without divisions meets the condition on divisions and always has values. |
| `TaggedInt.ProgramCompares` | src/nod-llvm/src/codegen.rs:3356-3401 | Comparing two results that fit compares their values. |
| `TaggedInt.DivRightIff` | src/nod-llvm/src/codegen.rs:3282-3295 | Division truncates and is right exactly when the divisor is not zero and it is not the least fixnum by minus one. |
| `TaggedInt.RemRight` | src/nod-llvm/src/codegen.rs:3296-3310 | The shared lowering of `ModInt` and `RemInt` gives the truncated remainder for every non-zero divisor. |
| `TaggedInt.ModIsFloorModIff` | src/nod-llvm/src/codegen.rs:3296-3310 | That remainder is the floor modulus exactly when it is zero or the operands' signs agree. |
| `TaggedInt.ModIsNotFloorMod` | src/nod-llvm/src/codegen.rs:3296-3310 | Counterexample: -1 modulo 2 is computed as -1, where the floor modulus is 1. |
| `TaggedInt.CompareRight` | src/nod-llvm/src/codegen.rs:3356-3401 | All six comparisons of tagged words are the comparisons of the fixnums. |
| `DumpFormat.FmtConst` | src/nod-dfm/src/format.rs:262-310 | Appends exactly the literal's text. |
| `DumpFormat.FmtComputation` | src/nod-dfm/src/format.rs:82-246 | Appends exactly the computation's line. |
| `DumpFormat.FmtTerminator` | src/nod-dfm/src/format.rs:312-349 | Appends exactly the terminator's line, with block labels looked up by id. |
| `DumpFormat.FmtFunction` | src/nod-dfm/src/format.rs:52-80 | Appends exactly the function's lines. |
| `DumpFormat.FormatDfmModule` | src/nod-dfm/src/format.rs:22-31 | The buffer built by the loops is the module's text, the text the parsing theorems are about. |
| `DumpParse.ResolveMethodNameSuffix` | src/nod-dfm/src/parse.rs:349-379 | The token loop computes the name that `DumpNames.NameResolves` describes, and fails where that fails. |
| `DumpNames.NameResolves` | src/nod-dfm/src/parse.rs:349-379 | A name of a generic and tokens is refused exactly when it names an unknown class; otherwise the result is the generic and as many tokens, the decimal id for a class name and the token itself for anything else. |
| `DumpNames.ResolvedNameStays` | src/nod-dfm/src/parse.rs:349-379 | A resolved name names no class any more: resolving it again leaves it alone. |
| `DumpParse.CollectBlocks` | src/nod-dfm/src/parse.rs:127-289 | The first pass classifies body lines by indentation into raw blocks, as the line-by-line specification does. |
| `DumpParse.ParseFunction` | src/nod-dfm/src/parse.rs:127-289 | The two passes over a function's lines agree with the specification, errors included. |
| `DumpParse.ParseDfmModule` | src/nod-dfm/src/parse.rs:79-125 | The loop over lines agrees with splitting the text into functions and parsing each, errors included. |
| `Text.ParseHexBytes` | src/nod-dfm/src/parse.rs:1134-1154 | The pairwise loop accepts exactly what the pairwise specification does. |
| `Text.ParseLeadingQuotedString` | src/nod-dfm/src/parse.rs:1172-1217 | The character loop agrees with the recursive reading of a quoted string. |
| `Text.QuotedParses` | src/nod-dfm/src/parse.rs:1156-1217 | Reading a quoted string gives the string back and leaves what follows it, whichever characters count as printable. |
| `Text.QuotedCharParses` | src/nod-dfm/src/parse.rs:1219-1264 | Likewise for a quoted character. |
| `Text.ParseI128Of` | src/nod-dfm/src/parse.rs:936-1014 | Reading the decimal text of a 128-bit integer gives it back. |
| `Text.ParseHexPairsOf` | src/nod-dfm/src/parse.rs:1134-1154 | Reading the hexadecimal text of any bytes gives them back. |
| `DumpRoundTrip.TypeLabelParses` | src/nod-dfm/src/parse.rs:492-544 | Reading a printed type gives it back, class ids and singleton bits included. |
| `DumpRoundTrip.ClassTypeByName` | src/nod-dfm/src/parse.rs:492-544 | A class type written with a class name reads as the class with the resolved id, and is refused if the name is unknown. |
| `DumpRoundTrip.ConstParses` | src/nod-dfm/src/parse.rs:936-1014 | Reading a printed literal gives it back, for every literal. |
| `DumpRoundTrip.ClassPointerByName` | src/nod-dfm/src/parse.rs:987-1003 | Likewise for a class's metadata pointer. |
| `DumpRoundTrip.ClassCheckReads` | src/nod-dfm/src/parse.rs:880-901 | Reading a printed type test gives a built-in test back as it was, and any other as a user class of that name with the resolved id, or 0. |
| `DumpRoundTrip.OperationParses` | src/nod-dfm/src/parse.rs:546-706 | Reading a printed operation gives back what the dump keeps of it. |
| `DumpRoundTrip.TerminatorParses` | src/nod-dfm/src/parse.rs:1054-1113 | Reading a printed terminator against the labels gives the targets by position. |
| `DumpRoundTrip.HeaderParses` | src/nod-dfm/src/parse.rs:303-347 | Reading a printed header gives back parameters, return type and the name with class names resolved; it fails exactly when one is unknown. |
| `DumpRoundTrip.FunctionParses` | src/nod-dfm/src/parse.rs:127-289 | Reading a printed function gives the function as the dump keeps it, or fails if its name names an unknown class. |
| `DumpModules.ParseInvertsFormat` | src/nod-dfm/src/parse.rs:79-289 | For every module with delimiter-free names, distinct labels and existing targets, parsing its dump gives the module as the dump keeps it, and fails exactly when a function name gives an unknown class by name. |
| `DumpModules.ByNameParsesAsById` | src/nod-dfm/src/parse.rs:303-379 | A dump whose function names give classes by name parses to the same module as the dump with their ids. |
| `DumpModules.OneBlankBetween` | src/nod-dfm/src/format.rs:33-50 | A dump has one blank line between two functions and no other. |
| `DumpModules.ModuleReadIff` | src/nod-dfm/src/parse.rs:79-115 | Any text is read exactly when each of its functions is, numbered from zero in order. |
| `DumpModules.ChunkStep` | src/nod-dfm/src/parse.rs:79-115 | In any text, a run of lines before a blank one is a function's lines, and the rest of the text starts afresh. |
| `DumpGrammar.FunctionReadIff` | src/nod-dfm/src/parse.rs:127-289 | Any lines are read as a function exactly when the first spells a header, each other spells what may stand in its place, and no label is declared twice: the two passes accept what a line-by-line grammar does. |
| `DumpGrammar.HeaderLineIff` | src/nod-dfm/src/parse.rs:381-403 | A line declares a block label exactly when it is two spaces, not four, and a text that spells the label and parameters. |
| `DumpGrammar.LabelKnownIff` | src/nod-dfm/src/parse.rs:208-226 | A branch to a label is resolved exactly when some block declares it, to the first that does. |
| `DumpSpelling.ComputationReadIff` | src/nod-dfm/src/parse.rs:546-706 | A line reads as a declared result and a computation exactly when it spells them in the grammar, for every text. |
| `DumpSpelling.OperationReadIff` | src/nod-dfm/src/parse.rs:546-706 | So for the operation: keyword, operands, callee, roots, marks and notes, with nothing left over. |
| `DumpSpelling.CallReadIff` | src/nod-dfm/src/parse.rs:715-800 | A call reads as callee, arguments, roots and remainder exactly when the text is those pieces. |
| `DumpSpelling.ConstReadIff` | src/nod-dfm/src/parse.rs:936-1014 | A literal reads exactly from the texts that spell it by tag and payload. |
| `DumpSpelling.TypeReadIff` | src/nod-dfm/src/parse.rs:492-544 | A type reads exactly from its name, or from a class or singleton with its payload. |
| `DumpSpelling.ExitReadIff` | src/nod-dfm/src/parse.rs:1054-1113 | A line reads as a terminator exactly when it spells one, with labels that are declared. |
| `DumpSpelling.HeaderReadIff` | src/nod-dfm/src/parse.rs:303-336 | A line reads as a function header exactly when it spells one. |
| `DumpSpelling.BlockHeaderReadIff` | src/nod-dfm/src/parse.rs:381-403 | A text reads as a block header exactly when it spells one. |
| `DumpModules.TempTableLooksUp` | src/nod-dfm/src/parse.rs:463-490 | The rebuilt temp table is sorted by id and gives each temp its first definition's type. |
| `DumpModules.FormatParseFormat` | src/nod-dfm/src/format.rs:22-31 | Printing, parsing and printing again gives the dump of the module with class names in function names resolved; that is the same text when there are none. |
| `DumpModules.SameDumpIffSameKept` | src/nod-dfm/src/format.rs:33-50 | Two modules whose function names give no class by name have one dump, and so one cache-key text, exactly when the dump keeps the same of both. |
| `DumpModules.DifferentChecksSameDump` | src/nod-dfm/src/format.rs:82-246 | Example of what the dump forgets: type tests against two class ids print alike. |
| `Wire.EncodingUnique` | src/nod-driver/src/dylan_parse_wire.rs:160-200 | The records at a position encode at most one tree. |
| `Wire.DecodeRecord` | src/nod-driver/src/dylan_parse_wire.rs:380-418 | Terminates; succeeds exactly when the records there encode a tree, with that tree and its record count; a child overrunning its parent is rejected. |
| `Wire.ParseToTree` | src/nod-driver/src/dylan_parse_wire.rs:310-365 | Accepts exactly the vectors that are one tree's encoding with nothing after it. |
| `Wire.WholeIffEncoded` | src/nod-driver/src/dylan_parse_wire.rs:160-200 | With spans in range, the vectors accepted as a tree are exactly the encoder's output for it. |
| `IfChain.BuildIf` | src/nod-driver/src/dylan_to_ast.rs:990-1055 | The right-to-left fold succeeds exactly when the head is a body with a condition, every clause is a clause with a body, all are `elseif` but the last, which may be `else`, and everything in them translates; the result nests the clauses' own forms with their own spans. |
| `IfChain.BuiltMeansNode` | src/nod-driver/src/dylan_to_ast.rs:990-1078 | Evaluated with effects, what is built takes the first form of each body in turn as a condition, once, until one is not false, and runs the translations of the forms after it, each once and in order; an `else` runs all its forms. |
| `JitMm.PlaceFits` | src/nod-llvm/src/jit_mm.rs:167-196 | A placed section starts on a page and at its alignment, after what is used, and ends inside the reservation. |
| `JitMm.RefusedIffNoRoom` | src/nod-llvm/src/jit_mm.rs:167-196 | A request is refused for want of room exactly when no aligned page past the used ones leaves enough of the reservation. |
| `JitMm.PlaceIsLeast` | src/nod-llvm/src/jit_mm.rs:178-195 | The start is the first aligned page at or after what is used, and the end the first page boundary at or after the last byte. |
| `JitMm.RunPlacesFirstFit` | src/nod-llvm/src/jit_mm.rs:167-200 | After any run, a committed request is refused exactly when no aligned page past all tracked sections leaves it room, and otherwise gets the first such page. |
| `JitMm.RunSound` | src/nod-llvm/src/jit_mm.rs:167-200 | After any sequence of requests, sections are page-aligned, pairwise page-disjoint and inside the reservation. |
| `JitMm.Manager.Alloc` | src/nod-llvm/src/jit_mm.rs:167-196 | Fails exactly for no bytes, no room or no commit, and then leaves `used` alone; otherwise the start and the new `used` are the placement that is proved least. |
| `JitMm.Manager.AllocateSection` | src/nod-llvm/src/jit_mm.rs:240-283 | Tracks the section exactly when it was allocated. |
| `JitMm.Manager.FinalizeMemory` | src/nod-llvm/src/jit_mm.rs:285-327 | The pages that become executable are exactly those of the code sections before the first the system refuses; no data section's page changes. |
| `JitMm.PagesHoldBytes` | src/nod-llvm/src/jit_mm.rs:299-305 | The pages flipped for a section are those that hold one of its bytes. |
| `JitMm.PackUnwindTable` | src/nod-llvm/src/jit_mm.rs:372-394 | In place: live entries moved to the front, the rest zeroed, the front sorted. |
| `JitMm.PackedKeepsLive` | src/nod-llvm/src/jit_mm.rs:372-394 | Packing keeps exactly the multiset of live entries, ascending, with zeros after them. |
| `JitMm.LiveIffCovers` | src/nod-llvm/src/jit_mm.rs:372-394 | An entry is live exactly when it covers some address. |
| `JitMm.PackingKeepsCover` | src/nod-llvm/src/jit_mm.rs:372-394 | An address is covered by a packed live entry exactly when it was covered before. |
| `JitMm.PackedIsSearchable` | src/nod-llvm/src/jit_mm.rs:372-394 | The live front of a packed table is in order, live throughout and without overlaps if the raw table's live entries had none. |
| `JitMm.FindEntry` | src/nod-llvm/src/jit_mm.rs:372-394 | For a raw table whose live entries do not overlap, a binary search of the packed table finds an entry exactly when one of the raw table covers the address, and what it finds is one of those. |
| `Sidecar.ToHexInjective` | src/nod-llvm/src/cache.rs:118-128 | Different keys have different file stems. |
| `Sidecar.ToHexReads` | src/nod-llvm/src/cache.rs:118-128 | The stem is 64 hexadecimal digits, the bytes of the four words, each least significant byte first. |
| `Sidecar.FindStrIff` | src/nod-llvm/src/cache.rs:229-235 | A string field is found exactly as the text in quotes after the first occurrence of its name. |
| `Sidecar.FindU64Iff` | src/nod-llvm/src/cache.rs:236-242 | A number field is found exactly as the number, blanks aside, between the first occurrence of its name and the next comma or brace. |
| `Sidecar.ParseInvertsToJsonIff` | src/nod-llvm/src/cache.rs:195-254 | A sidecar reads back as written exactly when its strings hold no quote. |
| `Cache.DiskCache.WriteCacheEntry` | src/nod-llvm/src/cache.rs:316-348 | Stores the object and a fresh sidecar under the key and touches no other file. |
| `Cache.DiskCache.ReadCacheEntry` | src/nod-llvm/src/cache.rs:350-371 | Returns the object and the refreshed metadata exactly when both files are there and the sidecar fits, and writes the refreshed access time. |
| `Cache.FoundIffFits` | src/nod-llvm/src/cache.rs:350-371 | In any directory a key is found exactly when its object is there and its sidecar reads as one written for that key, that object length and this build configuration. |
| `Cache.DiskCache.EvictTo` | src/nod-llvm/src/cache.rs:417-469 | Removes the files of a prefix of the entries in order of access and counts them. |
| `Cache.EntriesAre` | src/nod-llvm/src/cache.rs:417-441 | The entries considered are exactly the listed sidecars that parse. |
| `Sorting.SortIsStable` | src/nod-llvm/src/cache.rs:441 | Entries accessed at one time stay in listing order. |
| `Cache.EvictionExact` | src/nod-llvm/src/cache.rs:417-469 | The entries removed are the least recently accessed, and keeping one more would exceed the cap, overflow or not; what is kept fits the cap exactly when no prefix of sizes falls between what the saturated total and what the true sum ask to be freed. |
| `Cache.EvictionByKey` | src/nod-llvm/src/cache.rs:417-469 | Key by key: a lookup misses after eviction if the key's entry was removed, and is as before otherwise. |
| `Cache.SaturationStopsShort` | src/nod-llvm/src/cache.rs:417-469 | Counterexample: of two keys' sidecars whose sizes overflow 64 bits together, eviction takes one and leaves the directory over the cap. |
| `Cache.DiskCache.ClearCacheDir` | src/nod-llvm/src/cache.rs:477-491 | Removes the listed files with a cache extension, in listing order. |
| `Cache.ClearedIff` | src/nod-llvm/src/cache.rs:477-491 | After clearing a file is there exactly when it was there and is not a listed cache file. |
| `Cache.CacheFileIff` | src/nod-llvm/src/cache.rs:477-491 | A cache file is one whose name is a stem that is not empty and the extension of an object or a sidecar. |
| `Cache.ClearingByKey` | src/nod-llvm/src/cache.rs:477-491 | Key by key: a lookup misses after clearing if one of the key's files was listed, and is as before otherwise. |
| `Cache.OtherKeyUnchanged` | src/nod-llvm/src/cache.rs:316-371 | Writing or reading one key leaves the lookup of every other key alone. |
| `Cache.CacheSafe` | src/nod-llvm/src/cache.rs:316-371 | After any run of writes, reads, evictions and clears, a lookup gives nothing or exactly the object last written under the key. |
| `Cache.FoundIffKept` | src/nod-llvm/src/cache.rs:316-371 | After any run a key is found exactly when it was written and no eviction has chosen it nor a clear listed one of its files since, whatever else was read, written, evicted or cleared. What is found is the object last written, with the time of that write, the time of the last write or read of the key, and this build configuration. The version string must hold no quote. |
| `Cache.EntryFilesOf` | src/nod-llvm/src/cache.rs:449-469 | An evicted entry loses exactly four files: sidecar, object, manifest and registrations. |

## Left out

- GcTransparent: assumes that in the reference run every live temp holds a value its estimate allows (`Machine.Allowed`): immediates for numbers, characters, booleans and the unit, anything for the other estimates and for `Bottom`, and an immediate for a temp the table does not list, which the analysis never protects. That the lowering infers types soundly is outside the files modelled.
- CompiledTransparent: takes the cross-block contract as a condition, because codegen does not enforce it and silently keeps the first predecessor's binding (`UnthreadedPointerBreaks`); it also assumes that calls which cannot allocate start with empty root lists, which the pass does not enforce (`StaleNoAllocRootsSurvive`).
- CompiledTransparent: assumes the entry block comes first and is never branched to, which LLVM demands of a function.
- ContractIffCarriedAlike: the diagnostic in the code also looks at function parameters, for which every block has its own load of the home cell, so it can report one that is harmless; the contract leaves parameters out.
- EdgeContract: sufficient for compiled code, and shown to be needed by an example, but not equivalent to it. Where two edges carry a temp under different values, the one kept can still stand for the right object on the runs that matter, or be an earlier iteration's word that no collection has touched, so that the code reads a wrong object rather than stopping.
- AcceptedNeverReadsUndefined: stated in one direction at the level of runs, because branches that depend on each other can make a path without definitions unreachable; the path-level equivalence is `OnlyParamsLiveIffDominance`.
- ParseInvertsFormat: names must not hold the dump's own delimiters; the grammar promises nothing for those.
- SameDumpIffSameKept: leaves out function names that give classes by name, for which the dump keeps the ids of the classes but not how they were given.
- FormatDfmModule: of the spellings that read back alike, the printer's are fixed by the definition of the text; numerals without sign or leading zeros (`Text.NumeralIsDecimal`) and single blank lines are the only choices with a property of their own.
- ProgramRightIffFixnum: what is divided must fit, because division of a word that has lost bits is not the division of the value.
- FoundIffKept: needs the compiler's version string to hold no quote, since the sidecar does not escape it.
- Floating point: constants, operations and comparisons on floats, and their dump text; the other primitive operations appear in dumps and machines only through the environment's answers.
- Integer literals given a character or boolean type, and the conversions of characters and call results between machine widths.
- LLVM's text and types: emitted code is a sequence of bindings, loads, stores, operations, phis and exits.
- What the callee tables hold, inline caches, and the target of a dispatch: which callees are known is a parameter, and calls are answered by the environment.
- The safepoint poll: it only parks the thread, so it does nothing in the model; where polls are placed is modelled.
- Operations that observe addresses, such as ordering pointers or hashing by address.
- Recording of JIT and ahead-of-time safepoint tables outside the module's own list of sites.
- Phi inputs are looked up by the position of the predecessor block, so block ids must be unique, as the checker guarantees.
- Texts of parse errors: a malformed dump is `Malformed`, and where it went wrong is not said.
- Which characters count as printable is an arbitrary predicate.
- Lengths are assumed to fit the machine: vectors under 2^63 elements, sections under 2^63 bytes, objects under 2^64 bytes.
- The search for the text section, the sanity check of an unwind table's bounds, and its registration with the operating system; `FindEntry` is the search the system performs on a registered table.
- Manifest and registration files beside a cached object are removed with it, but neither written nor read.
- File-system errors, partial writes and concurrent processes: the directory is a map from names to contents, and object bytes are opaque strings.
- The quality of the cache key's hash, and cache statistics.
- Recovery of operators from the gaps between source tokens, translation of expressions other than `if`, and the walk that prints a decoded tree.
- The lattice of type estimates: joins, meets and subtype tests are mostly case splits.
