# Verified models of the ICN core

Dafny models of five parts of the ICN workspace, with proofs of what they guarantee on every
input or over every run:

1. **The CCL compiler back end.** Blocks of the contract language are lowered to a rule tree
   (`Lower.dfy`), the tree is flattened into opcodes with `if` and section brackets
   (`Codegen.dfy`), and the opcodes become WASM instructions and data segments (`Emit.dfy`).
   `SyntaxData.dfy` says what syntax means as data, `Rewriting.dfy` writes rule trees back as
   source, `TwoPass.dfy` describes lowering and generation together, and `Misreadings.dfy` says
   when a block is compiled as something else. `Decode.dfy` reads generated code back,
   `MemoryLayout.dfy` instantiates the module and reads each argument out of linear memory,
   `HostAbi.dfy` takes the calls apart as the host's functions do, and `Meaning.dfy` runs the
   flat stream and compares it with interpreting the tree. `CclCompiler.dfy` joins
   the passes, from the syntax of section definitions to host calls.
2. **Mana.** `Mana.dfy` holds the token bucket per scope, the manager with its metrics hook and
   transfers; `ManaTheorems.dfy` what they guarantee over runs; `ManaRegenerator.dfy` the
   ticking regenerator over a ledger whose calls may fail.
3. **Resource policies.** `ResourcePolicy.dfy`: quotas and sliding-window rate limits over an
   append-only log.
4. **Quorums.** `QuorumProofs.dfy` (signature proofs), `QuorumConfigs.dfy` (signer lists),
   `QuorumAgreement.dfy` (the two agree), with the counting arguments in `FiniteSums.dfy`.
5. **State and merge algorithms.** `DagStore.dfy` (write batches), `CanonicalJson.dfy`,
   `Reputation.dfy` (running means), `BidSelection.dfy` (scoring and at-most-once assignment).

Code that updates objects in place is a class here too. Each of its methods equals a function
of the old state, and the lemmas are about those functions and about runs of them. Hash-map
iteration is an arbitrary choice of the next key, so results hold for every iteration order.

Inputs from outside are parameters: every clock reading, the JSON text of a value, the decimal
text and parsing of a double, UTF-8 and CBOR encodings, the content identifier of a node,
signature verification, which ledger calls fail, and which assignments are refused. Lemmas ask
of them only what they state, such as that the decimal text of a double determines the double
and has no underscore. Unsigned 64-bit quantities are unbounded naturals except where a width
is named (16- and 32-bit sums, casts and saturation are written out).

Verify with `dafny verify dfyconfig.toml`.

## Findings

- A block whose first key is `function_name` is compiled as a host call named after the block's
  own key, and its statements are lost (`Misreadings.DisguisedBlockMiscompiled`). The same
  holds for object values.
- A definition or metered action inside a block is dropped, whatever it holds, such as the roles
  in the `spending_rules` of the budget template (`TwoPass.NestedIsDropped`,
  `Misreadings.NestedDefinitionLost`).
- Apart from that blocks compile to what they say: `TwoPass.TwoPassComposition` states the emitted
  code for every block that lowers, and `Misreadings.MisreadingsShow` that it is the statements'
  own code if and only if nothing is defined inside, keyed calls keep their names, and whatever is
  taken for a call says just that call. The one exception is a block with both something silent
  and something of several calls taken for calls, where the two errors can cancel
  (`Misreadings.MisreadingsCanCancel`).
- Of two bids a policy admits, the cheaper has the better price component exactly when the policy
  has a `max_price` or the cheaper bid is free (`BidSelection.PriceCountsExactly`).
- A signature quorum with 16-bit weights overflows from a total weight of 32768 on, even when
  every signer agrees (`QuorumProofs.UnanimityCanOverflow`, `QuorumProofs.WeightedExact`). Where
  overflow wraps instead of faulting, accepted proofs still share a signer for every total up to
  65535 (`QuorumProofs.WrappingQuorumsMeet`), but not beyond (`QuorumProofs.WrappingQuorumsMiss`).
- Where 64-bit sums wrap, a quota holds for all sequences of requests if and only if it is zero or
  no request is large enough to wrap a full quota (`ResourcePolicy.QuotaSurvivesWrapping`).
- A percentage rule without authorized signers divides by zero on the empty signer list
  (`QuorumConfigs.DivisionByZeroExact`).
- Under a rate limit above zero, checking a use and then recording it is safe for every log
  exactly when the record's clock is not behind the check's, or the check's clock is within the
  first period and so counts the whole log (`ResourcePolicy.TimingExact`,
  `ResourcePolicy.RecordBeforeCheckExceeds`).
- Uses checked on the same log before any of them is recorded stay within the limit, whenever they
  are recorded, exactly when they would pass as one use (`ResourcePolicy.InterleavedExact`); under
  every limit above zero there are two that do not (`ResourcePolicy.InterleavedChecksExceed`). One
  given schedule in time order stays within it exactly when each use would have passed a check at
  its own record time (`ResourcePolicy.OrderedUsesExact`).
- The regenerator counts a DID as regenerated even when its update failed, so its count is right
  exactly when no update failed (`ManaRegenerator.RegeneratedCountExact`).
- A string or job whose length turns zero or negative in 32 bits, such as one of 2^31 bytes, gets
  no data segment. A module instantiates without the host reading it as written exactly when the
  bytes it stores fit the page and all its bytes do not (`MemoryLayout.UnreadableExactly`,
  `MemoryLayout.HugeMessageUnread`).

## Model

| member | source | states |
|---|---|---|
| Codegen.WasmGenerator.Generate | crates/ccl/icn-ccl-wasm-codegen/src/lib.rs:26-31 | appends the code of every module, in order, to the opcode vector |
| Codegen.WasmGenerator.WalkModule | crates/ccl/icn-ccl-wasm-codegen/src/lib.rs:33-78 | appends a module's code: header, rules or steps, bracketed for sections and roles, a to-do for unhandled kinds |
| Codegen.WasmGenerator.WalkStep | crates/ccl/icn-ccl-wasm-codegen/src/lib.rs:80-130 | appends one action step's opcodes |
| Codegen.WasmGenerator.WalkRules | crates/ccl/icn-ccl-wasm-codegen/src/lib.rs:133-175 | appends each rule's code, recursing into ranges, conditionals and plain maps |
| Codegen.WasmGenerator.WalkIfExpr | crates/ccl/icn-ccl-wasm-codegen/src/lib.rs:178-189 | appends If, then code, optional Else and its code, EndIf |
| Codegen.ResourceNames | crates/ccl/icn-ccl-wasm-codegen/src/lib.rs:103-106 | resources are named by their variants, all different |
| Meaning.MeaningPreserved | crates/ccl/icn-ccl-wasm-codegen/src/lib.rs:26-189 | running the flat stream on a bracket-stack machine performs exactly the calls of interpreting the tree, whatever the conditions answer, and leaves no conditional open |
| Meaning.CompiledProgramMeansItsTree | crates/ccl/icn-ccl-wasm-codegen/src/lib.rs:219-222 | the same through WASM for every program of at most 65408 bytes: generate, emit, instantiate one page, read arguments from memory, run |
| Meaning.ExecutedSectionsBalance | crates/ccl/icn-ccl-wasm-codegen/src/lib.rs:50-73 | in every trace of the interpreted tree sections begin and end in balance, whichever branches are taken |
| Meaning.ExecIf | crates/runtime/host-abi/src/lib.rs:378-389 | a generated conditional runs the branch its condition selects and skips the other, at any nesting depth |
| Meaning.FlatSectionsBalance | crates/ccl/icn-ccl-wasm-codegen/src/lib.rs:50-73 | the same of the calls the flat program executes |
| Decode.DecodeRoundTrip | crates/ccl/icn-ccl-wasm-codegen/src/lib.rs:133-189 | a bracket-matching reader recovers from a rule list's opcodes the list up to map grouping, if keys and JSON text |
| Decode.GenerationInjective | crates/ccl/icn-ccl-wasm-codegen/src/lib.rs:133-189 | two rule lists generate the same code if and only if they agree up to what is erased |
| Decode.RangeKindInjective | crates/ccl/icn-ccl-wasm-codegen/src/lib.rs:138-145 | the section kind of a range determines both its numbers |
| Decode.ProgramNests | crates/ccl/icn-ccl-wasm-codegen/src/lib.rs:33-189 | section and conditional brackets of every program nest properly together |
| Emit.Emitter.EncodePushString | crates/ccl/icn-ccl-wasm-codegen/src/emit.rs:27-48 | stores a non-empty string at the cursor, advances it, pushes pointer and length |
| Emit.Emitter.EncodePushBytes | crates/ccl/icn-ccl-wasm-codegen/src/emit.rs:281-297 | the same for a serialized job |
| Emit.Emitter.EmitOpcode | crates/ccl/icn-ccl-wasm-codegen/src/emit.rs:113-305 | pushes each opcode's operands in order and calls its host function |
| Emit.ProgramToWasm | crates/ccl/icn-ccl-wasm-codegen/src/emit.rs:50-111 | the layout after all opcodes, from the job-id buffer and cursor 128 on |
| MemoryLayout.SegmentsContiguous | crates/ccl/icn-ccl-wasm-codegen/src/emit.rs:59-87 | for every program the cursor ends at 128 plus the bytes stored, in 32 bits; segments are contiguous from byte 128 exactly when that stays within 2^32, and then pairwise disjoint and clear of the job-id buffer |
| MemoryLayout.FitsOnePage | crates/ccl/icn-ccl-wasm-codegen/src/emit.rs:71-78 | the module instantiates in its one 64 KiB page if and only if it stores at most 65408 bytes |
| MemoryLayout.HostReadsProgram | crates/ccl/icn-ccl-wasm-codegen/src/emit.rs:109-306 | the module instantiates and the host sees exactly the program's calls, every pushed pointer and length reading back its own bytes, if and only if the program's strings and jobs take at most 65408 bytes; the job-id buffer is then zeroed |
| MemoryLayout.UnreadableExactly | crates/ccl/icn-ccl-wasm-codegen/src/emit.rs:33-43 | a module instantiates without being read as written if and only if its stored bytes fit and all its bytes do not |
| MemoryLayout.HugeMessageUnread | crates/ccl/icn-ccl-wasm-codegen/src/emit.rs:33-43 | a message of 2^31 bytes is such an input |
| HostAbi.ImportsMatch | crates/ccl/icn-ccl-wasm-codegen/src/emit.rs:343-363 | every opcode calls the import made for it |
| HostAbi.HostUnderstands | crates/runtime/host-abi/src/lib.rs:311-456 | a host that takes its arguments in the order of its parameters understands each call as the opcode it was emitted for |
| HostAbi.ReturnsLastJob | crates/ccl/icn-ccl-wasm-codegen/src/emit.rs:101-106 | the module returns the host's answer to its last job submission, or zero without one |
| HostAbi.ProgramUnderstood | crates/ccl/icn-ccl-wasm-codegen/src/emit.rs:109-306 | the same of every call of a program, in order |
| CclCompiler.CompileToWasm | crates/ccl/icn-ccl-compiler/src/lib.rs:74-78 | succeeds exactly when every number and boolean can be read; the module is the layout of the definitions' code in source order, their own code when nothing is misread or dropped |
| CclCompiler.LowerGenericSection | crates/ccl/icn-ccl-compiler/src/lower.rs:1365-1415 | a definition's kind, unquoted title and lowered block as a section |
| CclCompiler.ProgramReadsBack | crates/ccl/icn-ccl-compiler/src/lower.rs:1365-1415 | a program of sections written back as source lowers to itself: kinds, titles and rules, in order |
| CclCompiler.CompiledSourceRuns | crates/ccl/icn-ccl-compiler/src/lib.rs:74-78 | from syntax to host: a lowered program makes exactly the calls of its definitions if and only if it fits, and running them obeys its conditions |
| CclCompiler.ProgramSurvivesExactly | crates/ccl/icn-ccl-compiler/src/lib.rs:74-78 | a whole program compiles to what it says if and only if every statement survives, unless silent and many-call misreadings occur together |
| Lower.LowerBlockCommonFields | crates/ccl/icn-ccl-compiler/src/lower.rs:254-384 | a block's description and rules, or the first error, as a function of its statements |
| Lower.LowerValueRule | crates/ccl/icn-ccl-compiler/src/lower.rs:386-559 | the rule value of a syntax value, or its error |
| Lower.LowerPairs | crates/ccl/icn-ccl-compiler/src/lower.rs:448-471 | the rules of an object's pairs |
| Lower.LowerCall | crates/ccl/icn-ccl-compiler/src/lower.rs:473-539 | a call as a map of its function name and arguments |
| Lower.LowerRangeStatement | crates/ccl/icn-ccl-compiler/src/lower.rs:561-631 | a range's numbers and lowered block |
| Lower.LowerIfStatement | crates/ccl/icn-ccl-compiler/src/lower.rs:633-712 | a conditional's text and lowered branches |
| SyntaxData.LoweringExact | crates/ccl/icn-ccl-compiler/src/lower.rs:254-384 | a block fails to lower on the first number or boolean that cannot be read, in source order, and otherwise lowers to its last description and exactly the rules its syntax says |
| Rewriting.BlockReadsBack | crates/ccl/icn-ccl-compiler/src/lower.rs:254-712 | a rule tree written back as source lowers to itself: every literal, key, list, map, range and conditional in its place |
| Rewriting.CallReadsBack | crates/ccl/icn-ccl-compiler/src/lower.rs:473-539 | a written call becomes its name and its own arguments |
| Rewriting.OtherFormsReadBack | crates/ccl/icn-ccl-compiler/src/lower.rs:264-333 | nested blocks, bare and identifier fields, ranges and durations read back as what they say |
| Rewriting.TrimQuotesExact | crates/ccl/icn-ccl-compiler/src/lower.rs:270 | trimming takes away exactly the quotes at either end |
| TwoPass.TwoPassComposition | crates/ccl/icn-ccl-compiler/src/lower.rs:254-384 | for every block that lowers, both passes together emit the one-pass code of its statements in source order; it is the statements' own code when nothing is defined inside, no block or object looks like a call and keyed calls keep their names |
| Misreadings.MisreadingsShow | crates/ccl/icn-ccl-wasm-codegen/src/lib.rs:149-163 | the emitted code is the statements' own code if and only if nothing is defined inside, keyed calls keep their names, and whatever is taken for a call says just that call; for every block that does not hold both something silent and something of several calls taken for calls |
| Misreadings.BlockFieldExact | crates/ccl/icn-ccl-wasm-codegen/src/lib.rs:149-163 | one nested block survives if and only if it looks like a call and says just that call, or does not and its contents survive |
| TwoPass.NestedIsDropped | crates/ccl/icn-ccl-compiler/src/lower.rs:376-377 | a definition or action inside a block changes nothing: the block lowers, or fails to, as without it |
| Misreadings.NestedDefinitionLost | crates/ccl/icn-ccl-compiler/src/lower.rs:376-377 | alone in a block it leaves no code, where it says a section around its own statements |
| Misreadings.MisreadingsCanCancel | crates/ccl/icn-ccl-wasm-codegen/src/lib.rs:149-163 | one silent and one two-call misreading that cancel though neither survives, so no guard on single blocks is exact where both kinds occur |
| Misreadings.BlockTakenForCall | crates/ccl/icn-ccl-wasm-codegen/src/lib.rs:213-217 | a block starting with the key function_name becomes one host call named after the block |
| Misreadings.DisguisedBlockMiscompiled | crates/ccl/icn-ccl-wasm-codegen/src/lib.rs:213-217 | a concrete block whose two properties are lost that way |
| TwoPass.DescriptionEmitsNothing | crates/ccl/icn-ccl-compiler/src/lower.rs:281-293 | a block with a description given as a plain value lowers without it too, to the same code |
| SyntaxData.DescriptionIsLast | crates/ccl/icn-ccl-compiler/src/lower.rs:281-287 | the description of a block is its last description that is a string |
| SyntaxData.BlockLowers | crates/ccl/icn-ccl-compiler/src/lower.rs:386-631 | a block lowers without error if and only if every number and boolean in it can be read |
| Mana.ManaPool.Available | crates/common/icn-economics/src/mana.rs:51-64 | the regenerated balance, reported when it changed |
| Mana.ManaPool.Consume | crates/common/icn-economics/src/mana.rs:68-88 | regenerates, then spends or refuses, with its reports |
| Mana.ManaPool.Credit | crates/common/icn-economics/src/mana.rs:103-118 | regenerates, then adds up to the cap, with its reports |
| Mana.ManaManager.EnsurePool | crates/common/icn-economics/src/mana.rs:152-168 | creates a full pool if missing, settles it and reports its balance; no other pool changes |
| Mana.ManaManager.Balance | crates/common/icn-economics/src/mana.rs:179-182 | the settled balance of an existing pool |
| Mana.ManaManager.Spend | crates/common/icn-economics/src/mana.rs:186-195 | spends from one pool only, refusing when missing or short |
| Mana.ManaManager.Transfer | crates/common/icn-economics/src/mana.rs:199-224 | spend, ensure the destination, credit it, with each clock reading its own |
| ManaTheorems.PoolConservation | crates/common/icn-economics/src/mana.rs:51-118 | over any run, balance plus credits plus regeneration equals accepted spending plus final balance plus what the cap clipped; the cap always holds and time never goes back |
| ManaTheorems.TokenBucketBound | crates/common/icn-economics/src/mana.rs:68-118 | in any window of any run, accepted spending is at most the cap plus regeneration and credits of the window |
| ManaTheorems.ClockPathIndependence | crates/common/icn-economics/src/mana.rs:91-99 | after reads at any clock values the balance is min(max, c0 + regen × (highest clock − start)), the same as one read at the highest clock |
| ManaTheorems.ReadIsInvisible | crates/common/icn-economics/src/mana.rs:51-64 | inserting a read before an operation no earlier than it changes neither later states nor what is accepted |
| ManaTheorems.TransferConservation | crates/common/icn-economics/src/mana.rs:199-224 | with the clock still: success exactly when the source covers it, the total drops by exactly the destination's clipping, third pools are untouched, and an error moves nothing, creates nothing and names the available balance |
| ManaTheorems.BalanceExact | crates/common/icn-economics/src/mana.rs:179-182 | a query answers with the balance it leaves stored and touches no other pool |
| ManaTheorems.ReportsOnlyChanges | crates/common/icn-economics/src/mana.rs:51-64 | settling a pool reports if and only if its balance changed and there is a hook |
| ManaTheorems.MetricsMirror | crates/common/icn-economics/src/mana.rs:145-224 | in every reachable state of a hooked manager the last report of each scope is its stored balance |
| ManaRegenerator.Regenerator.Tick | crates/common/icn-economics/src/mana.rs:269-337 | one sweep over the listed DIDs, with counts and errors, or the listing error |
| ManaRegenerator.SweepExact | crates/common/icn-economics/src/mana.rs:281-317 | over a listing without repeats each DID is handled on its own, failures are listed in order, and the count includes failed updates |
| ManaRegenerator.RegeneratedCountExact | crates/common/icn-economics/src/mana.rs:292-303 | the reported count is the DIDs updated plus the failed updates, so it is right if and only if no update failed |
| ManaRegenerator.FailureIsolated | crates/common/icn-economics/src/mana.rs:293-315 | a failed read or update leaves only that DID unchanged and adds exactly one error entry |
| ManaRegenerator.RegeneratorClosedForm | crates/common/icn-economics/src/mana.rs:269-337 | after n ≥ 1 undisturbed ticks a DID's mana is min(c0 + n·r, max), other fields unchanged |
| ManaRegenerator.InMemoryManaLedger.UpdateManaState | crates/common/icn-economics/src/mana.rs:400-403 | stores the state, or fails and stores nothing |
| ResourcePolicy.ResourcePolicyEnforcer.CheckAuthorization | crates/common/icn-economics/src/lib.rs:136-239 | policy lookup, expiry, then the policy's own rule, with every error case of an enforcer over the in-memory repository, a clock before the epoch included |
| ResourcePolicy.ResourcePolicyEnforcer.SetPolicy | crates/common/icn-economics/src/lib.rs:122-125 | replaces the policy of one resource and scope |
| ResourcePolicy.InMemoryResourceRepository.RecordUsage | crates/common/icn-economics/src/lib.rs:259-276 | appends one timed amount to the key's log, leaving other keys alone; fails and records nothing if the clock is before the epoch |
| ResourcePolicy.SlidingWindowSafety | crates/common/icn-economics/src/lib.rs:192-224 | in every run that checks each use of a key with safe clock readings before recording it, no window of the period ever exceeds the limit, in any order of timestamps |
| ResourcePolicy.RateLimitHolds | crates/common/icn-economics/src/lib.rs:192-224 | the same from an empty repository |
| ResourcePolicy.TimingExact | crates/common/icn-economics/src/lib.rs:192-224 | exactly which check and record times keep every log within the limit: a limit of zero, a record no earlier than its check, or a check within the first period |
| ResourcePolicy.CheckIsExact | crates/common/icn-economics/src/lib.rs:202-212 | with no entry in the future, a use is authorized if and only if recording it keeps the current window within the limit |
| ResourcePolicy.QuotaSafety | crates/common/icn-economics/src/lib.rs:171-190 | under a quota the all-time sum never exceeds it |
| ResourcePolicy.OpenPolicyRuns | crates/common/icn-economics/src/lib.rs:166-169 | over any run, under allow-all every live attempt is recorded in order; under a permit list the same for listed DIDs and nothing for others |
| ResourcePolicy.QuotaRuns | crates/common/icn-economics/src/lib.rs:171-190 | over any run, a live attempt is recorded if and only if the all-time sum with it stays within the quota |
| ResourcePolicy.NothingRecorded | crates/common/icn-economics/src/lib.rs:136-162 | expired attempts, and attempts without a policy, record nothing over any run |
| ResourcePolicy.RefusalExact | crates/common/icn-economics/src/lib.rs:136-239 | which error refuses an attempt, in order of precedence |
| ResourcePolicy.InterleavedExact | crates/common/icn-economics/src/lib.rs:202-212 | any number of uses checked on one log keep every window within the limit, at whatever times from then on they are recorded, if and only if they pass as one use |
| ResourcePolicy.OrderedUsesExact | crates/common/icn-economics/src/lib.rs:202-212 | uses recorded in time order keep every window within the limit if and only if each passes a check at its own record time with the earlier ones in the log |
| ResourcePolicy.InterleavedChecksExceed | crates/common/icn-economics/src/lib.rs:202-212 | under every limit above zero two checks before either record reach twice the limit |
| ResourcePolicy.RecordBeforeCheckExceeds | crates/common/icn-economics/src/lib.rs:265-274 | every unsafe pair of check and record times exceeds the limit in a run of two attempts, for every limit and period |
| ResourcePolicy.WrappingAdmitsExact | crates/common/icn-economics/src/lib.rs:175-182 | with wrapping sums a request passes if and only if it fits or carries the sum past 64 bits |
| ResourcePolicy.QuotaSurvivesWrapping | crates/common/icn-economics/src/lib.rs:175-182 | with wrapping sums the quota holds for all sequences of requests up to a size if and only if it is zero or that size cannot wrap a full quota |
| QuorumProofs.QuorumProof.AddSignature | crates/common/icn-identity/src/quorum.rs:199-211 | appends unless the signer is present, and keeps signers distinct |
| QuorumProofs.QuorumProof.Verify | crates/common/icn-identity/src/quorum.rs:214-288 | duplicate check, valid signers, then the quorum rule, overflow being an outcome |
| QuorumProofs.SumValues | crates/common/icn-identity/src/quorum.rs:269 | the total weight in any iteration order, or overflow |
| QuorumProofs.ValidAreSigners | crates/common/icn-identity/src/quorum.rs:228-242 | valid signers are allowed, are among the signers, and are distinct when those are |
| QuorumProofs.ValidAreVerified | crates/common/icn-identity/src/quorum.rs:228-242 | the valid signers are exactly those with a verified signature under the allowed keys |
| QuorumProofs.CountingVerdictExact | crates/common/icn-identity/src/quorum.rs:246-266 | majority and threshold proofs are decided by the number of verified signers, each refusal with its own error |
| QuorumProofs.UnverifiedIsIgnored | crates/common/icn-identity/src/quorum.rs:228-242 | for distinct signers, deleting a signature that does not verify changes no verdict |
| QuorumProofs.NothingFromNothing | crates/common/icn-identity/src/quorum.rs:246-286 | without a verified signature only a threshold of zero is accepted |
| QuorumProofs.MajorityQuorumsMeet | crates/common/icn-identity/src/quorum.rs:246-252 | two accepted majority proofs under the same signer map share a signer valid in both |
| QuorumProofs.ThresholdQuorumsMeet | crates/common/icn-identity/src/quorum.rs:253-266 | so do threshold proofs when twice the threshold exceeds the allowed signers |
| QuorumProofs.ThresholdQuorumsMeetExactly | crates/common/icn-identity/src/quorum.rs:253-266 | where every allowed signer can sign, they always do if and only if twice the threshold exceeds the allowed signers |
| QuorumProofs.WeightedQuorumsMeet | crates/common/icn-identity/src/quorum.rs:267-286 | so do weighted proofs over the same weights |
| QuorumProofs.WeightedExact | crates/common/icn-identity/src/quorum.rs:267-286 | exactly when a weighted proof overflows, is accepted, or is refused with which error; the duplicate check bounds valid weight by total weight |
| QuorumProofs.SmallTotalNeverOverflows | crates/common/icn-identity/src/quorum.rs:269-281 | no overflow when the total is at most 32767 |
| QuorumProofs.WrappingAgrees | crates/common/icn-identity/src/quorum.rs:267-286 | with wrapping sums the verdict is the same wherever nothing overflows, and so for every total up to 32767 |
| QuorumProofs.WrappingQuorumsMeet | crates/common/icn-identity/src/quorum.rs:267-286 | with wrapping sums accepted proofs share a signer for every total up to 65535 |
| QuorumProofs.WrappingQuorumsMiss | crates/common/icn-identity/src/quorum.rs:267-286 | beyond that two disjoint proofs can both be accepted |
| QuorumProofs.UnanimityCanOverflow | crates/common/icn-identity/src/quorum.rs:281 | at 32768 a unanimous proof overflows |
| QuorumConfigs.DivisionByZeroExact | crates/common/icn-types/src/trust.rs:119-123 | validation divides by zero exactly for an empty signer list under a percentage of no authorized signers |
| QuorumConfigs.NewWeighted | crates/common/icn-types/src/trust.rs:71-90 | authorizes exactly the weighed signers or refuses an unreachable threshold; a total that does not fit 32 bits is an arithmetic fault of its own |
| QuorumConfigs.ValidateQuorum | crates/common/icn-types/src/trust.rs:93-137 | authorization, duplicates, then the rule, including division by zero and overflow |
| QuorumConfigs.NewThresholdExact | crates/common/icn-types/src/trust.rs:54-68 | percentages above 100 are refused, others kept with their signers |
| QuorumConfigs.RefusalExact | crates/common/icn-types/src/trust.rs:95-110 | the first unauthorized signer is reported, as unauthorized or malformed; then repeated signers; only then the rule decides |
| QuorumConfigs.WeightedVerdictExact | crates/common/icn-types/src/trust.rs:125-135 | any weighted rule weighs the signers that have a weight; a sum beyond 32 bits is a fault |
| QuorumConfigs.PercentageIsExact | crates/common/icn-types/src/trust.rs:119-123 | the truncated percentage meets t if and only if 100n ≥ t·N, for N > 0 |
| QuorumConfigs.CountingRuleExact | crates/common/icn-types/src/trust.rs:113-123 | majority and percentage accept exactly distinct authorized lists with 2n > N, respectively 100n ≥ t·N |
| QuorumConfigs.CountingQuorumsMeet | crates/common/icn-types/src/trust.rs:113-123 | accepted lists intersect for majority and for percentages above 50 |
| QuorumConfigs.CountingQuorumsMeetExactly | crates/common/icn-types/src/trust.rs:113-123 | all pairs of accepted lists intersect if and only if twice the fewest accepted exceeds the authorized signers |
| QuorumConfigs.WeightedRuleExact | crates/common/icn-types/src/trust.rs:125-135 | a constructed weighted rule never overflows and accepts exactly lists heavy enough |
| QuorumConfigs.WeightedQuorumsMeet | crates/common/icn-types/src/trust.rs:125-135 | accepted lists intersect when the threshold exceeds half the total weight |
| QuorumAgreement.MajorityRulesAgree | crates/common/icn-types/src/trust.rs:113-117 | a majority proof is accepted if and only if the list rule accepts its valid signers |
| QuorumAgreement.WeightedRulesAgree | crates/common/icn-types/src/trust.rs:125-135 | a weighted proof agrees with the list rule at half the total weight plus one |
| DagStore.SharedDagStore.Insert | crates/common/icn-types/src/dag_store.rs:86-92 | stores a node under its identifier, or fails and stores nothing |
| DagStore.SharedDagStore.Remove | crates/common/icn-types/src/dag_store.rs:94-98 | removes one identifier |
| DagStore.DagStoreBatch.Insert | crates/common/icn-types/src/dag_store.rs:169-174 | stages an insertion; the store does not change |
| DagStore.DagStoreBatch.Remove | crates/common/icn-types/src/dag_store.rs:177-180 | stages a removal; the store does not change |
| DagStore.DagStoreBatch.Commit | crates/common/icn-types/src/dag_store.rs:183-197 | leaves the store as replaying the staged calls in order on it would, whatever order the staged map drains in |
| DagStore.DagStoreBatch.Rollback | crates/common/icn-types/src/dag_store.rs:200-213 | forgets what was staged; the store does not change |
| DagStore.BatchRefinesReplay | crates/common/icn-types/src/dag_store.rs:159-197 | the overlay of any staged sequence equals its sequential replay |
| DagStore.RunsLinearize | crates/common/icn-types/src/dag_store.rs:80-213 | every interleaving of direct writes and open batches leaves the store of one sequential history, each batch whole at its commit |
| DagStore.NodesStayKeyed | crates/common/icn-types/src/dag_store.rs:86-98 | in all runs every node is stored under its own identifier |
| CanonicalJson.SortJsonObject | crates/common/icn-types/src/identity.rs:396-419 | the canonical form of an object |
| CanonicalJson.SortJsonArray | crates/common/icn-types/src/identity.rs:421-435 | the canonical form of an array |
| CanonicalJson.CanonicalBytes | crates/common/icn-types/src/identity.rs:125-144 | the rendered canonical form without the top-level proof, or an error for non-objects |
| CanonicalJson.WithoutKeeps | crates/common/icn-types/src/identity.rs:129-135 | exactly the fields of other keys stay |
| CanonicalJson.BeforeExact | crates/common/icn-types/src/identity.rs:400-404 | keys are in ascending dictionary order |
| CanonicalJson.CanonObject | crates/common/icn-types/src/identity.rs:400-416 | a canonical object has the same keys in strict order, each with its canonical value |
| CanonicalJson.CanonExact | crates/common/icn-types/src/identity.rs:396-435 | two values have the same canonical form if and only if they are equal up to key order at every depth |
| CanonicalJson.CanonIdempotent | crates/common/icn-types/src/identity.rs:396-435 | canonicalizing twice changes nothing |
| CanonicalJson.PathsPreserved | crates/common/icn-types/src/identity.rs:396-435 | every path leads to the canonical form of what it led to, arrays keeping their order |
| CanonicalJson.SignedBytesExact | crates/common/icn-types/src/identity.rs:125-144 | two credentials sign the same bytes if and only if they agree, up to key order, at every key but the proof |
| Reputation.ReputationProfile.ApplyEvent | crates/common/icn-types/src/reputation.rs:97-173 | the profile after one event, all fields |
| Reputation.CountersExact | crates/common/icn-types/src/reputation.rs:102-130 | after any run each counter is the number of its events, up to saturation |
| Reputation.CountersAddUp | crates/common/icn-types/src/reputation.rs:102-130 | total = successful + failed and successful = on time + late as long as the total does not saturate |
| Reputation.OtherFieldsExact | crates/common/icn-types/src/reputation.rs:132-172 | penalties are counted up to saturation, stake and score are the last ones announced, the time is the last event's |
| Reputation.RunningMeanBound | crates/common/icn-types/src/reputation.rs:108-130 | with n successes of total duration S, S − n(n−1)/2 ≤ n·a ≤ S |
| Reputation.MeanSaturates | crates/common/icn-types/src/reputation.rs:177-190 | where the sum does not fit 64 bits the mean is U64_MAX divided by the count, uncut by the cast |
| Reputation.RunningMeanBetween | crates/common/icn-types/src/reputation.rs:177-190 | the stored average lies between the shortest and longest duration |
| Reputation.AccuracyMeanExact | crates/common/icn-types/src/reputation.rs:193-202 | over the reals the accuracy mean is exact |
| Reputation.EndorsementsExact | crates/common/icn-types/src/reputation.rs:153-163 | endorsements are duplicate-free and hold exactly those not revoked since |
| BidSelection.CalculateReputationScore | planetary-mesh/src/node.rs:243-275 | the clamped score of a DID's verified successes and failures, in any iteration order |
| BidSelection.ReputationExact | planetary-mesh/src/node.rs:262-274 | fifty, ten more per success and fifteen less per failure, between 0 and 100 |
| BidSelection.NoRecordsMeansFifty | planetary-mesh/src/node.rs:271-273 | a DID without records scores 50 |
| BidSelection.FailureLowersReputation | planetary-mesh/src/node.rs:262-269 | one more failure costs its subject min(15, score) short of the upper clamp, never raises it, and changes no one else |
| BidSelection.SuccessAmount | planetary-mesh/src/node.rs:262-269 | one more success earns its subject min(10, 100 − score) above the lower clamp |
| BidSelection.FailureKeepsWinner | planetary-mesh/src/node.rs:243-275 | with a non-negative reputation weight a failure of a losing bidder leaves the same bid winning |
| BidSelection.AdmittedExactly | planetary-mesh/src/node.rs:127-183 | exactly when a policy admits a bid, and with what score |
| BidSelection.PriceComponentExact | planetary-mesh/src/node.rs:152-158 | under a ceiling the price component is the share of it left over |
| BidSelection.ScoreIsLinear | planetary-mesh/src/node.rs:160-164 | the score is additive in the two weights, and each weight alone gives its own component |
| BidSelection.ChooseBid | planetary-mesh/src/node.rs:656-709 | the last best-scored admitted bid, or the first cheapest without a policy |
| BidSelection.BestScoredExact | planetary-mesh/src/node.rs:695-697 | the choice is the one index no admitted bid outscores and no later one equals; none if none is admitted |
| BidSelection.ChoiceIsBest | planetary-mesh/src/node.rs:127-183 | a winner meets region, price and reputation filters with a positive score that no eligible bid exceeds, or is cheapest without a policy |
| BidSelection.PriceComponentMeaning | planetary-mesh/src/node.rs:152-158 | cheaper never scores lower under a ceiling; without one every price but zero counts the same |
| BidSelection.PriceCountsExactly | planetary-mesh/src/node.rs:152-158 | of two admitted bids the cheaper has the strictly better price component if and only if there is a ceiling or it is free |
| BidSelection.PriceDecidesExactly | planetary-mesh/src/node.rs:162-164 | with a positive price weight and equal reputation the same holds of the scores |
| BidSelection.SuccessKeepsWinner | planetary-mesh/src/node.rs:243-275 | with a non-negative reputation weight one more verified success for the winner leaves the same bid winning |
| BidSelection.MeshNode.HandleBid | planetary-mesh/src/node.rs:750-776 | appends the bid to its job's bids |
| BidSelection.MeshNode.SelectExecutorForOriginatedJobs | planetary-mesh/src/node.rs:638-737 | assigns the winner of every announced, unassigned job whose assignment is not refused, in any iteration order |
| BidSelection.WinnerExact | planetary-mesh/src/node.rs:646-722 | a winner is a stored bid, admitted and outscored by no admitted bid of its unassigned job; without a winner the job is assigned or none of its bids is admitted |
| BidSelection.RoundExact | planetary-mesh/src/node.rs:646-735 | a round assigns exactly the announced, unassigned jobs with an admitted bid whose assignment is not refused |
| BidSelection.BidsAreKept | planetary-mesh/src/node.rs:766-768 | over all runs a job's bids are those received for it, in order and all kept |
| BidSelection.AssignedAtMostOnce | planetary-mesh/src/node.rs:725-735 | over all runs no job gets two successful assignments, the assigned jobs are those won, and every winner is a bid received for its job that was best in the state its round saw |

## Left out

- Misreadings.MisreadingsShow: leaves out blocks with both something silent and something of several calls taken for calls; there no condition on single blocks is exact (MisreadingsCanCancel), and TwoPassComposition still gives the emitted code. What a nested definition says is modelled as a section, a role's description property aside.
- Reputation.RunningMeanBound: holds while the number of successes and their total duration fit 64 bits; beyond that the count or its product with the mean may saturate. The bid accuracy is a real, not a 32-bit float.
- BidSelection.ChooseBid: scores are reals, so rounding and NaN are not modelled.
- Mana.Pool: regeneration and credit are unbounded naturals; the u64 overflow of elapsed times rate, or of balance plus amount, is not modelled.
- ResourcePolicy.Check: usage sums are unbounded naturals, with the wrapping of quotas treated apart (QuotaSurvivesWrapping) and that of rate limits not; repositories other than the in-memory one, whose reads may fail, are not modelled.
- Operand-stack and type-index validity of the emitted WASM; only the data layout, the pushed operands and the order of calls are modelled.
- Parsing, spans and error texts; lowering of definitions other than sections (proposals, roles, actions), and what they say inside a block beyond a bracketed section; string escapes.
- ManaManager's raw access to a pool, the sled ledger, ledger adapters and Prometheus counters.
- Locks and async: each locked section is one atomic step. Listing all nodes of a store.
- Gossip, Kademlia and HTTP in the mesh node; assigning a job to an executor either succeeds or is refused.
- JWS and DID text codecs, score computation with logarithms, and the other economics module.
