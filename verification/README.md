# Verified model of the `san` dataflow core

`san` is a forward abstract interpreter for Rust MIR. This project models its analysis core in Dafny and proves what
the analysis promises: whole-run soundness of its value-range, ownership and capacity facts, termination and
correctness of its fixpoint without assuming monotone transfer functions, exactness of function summaries, and the
behaviour of the summary rounds and of the call-graph expansion.

How the parts fit together:

- `Mir`: the small MIR. Path-string recognisers are flags of a `Callee`, types are an enumeration.
- `Lattice`, `State`, `Merge`, `Rank`: the product state, its merge (as functions and as the loops of `join_with`),
  its order, and the bounded rank that every reported change lowers.
- `Engine`, `Driver`: the worklist fixpoint for an arbitrary graph and transfer, and the loop as it is written.
- `RangeTransfer`, `OwnTransfer`, `CapTransfer`, `Transfer`: the transfer functions, one slice each and together.
  `FlowState` is the same transfer as it runs, one object updated in place.
- `Machine`, `RangeSound`, `RangeFlow`, `RangeVerdicts`: concrete scalar runs and the range results.
- `OwnMachine`, `OwnInvariant`, `OwnSound`, `OwnFlow`, `OwnVerdicts`: concrete ownership runs and the ownership results.
- `CapMachine`, `CapSound`, `CapFlow`: concrete runs over collections and the capacity results.
- `Summary`, `Summarize`, `Rounds`: summaries and their rounds.
- `Consume`, `Carry`, `Chains`: how a pointer parameter is carried through a body and freed, and consuming call graphs.
- `Expansion`: which functions are summarised.
- `Limits`: inputs on which a rule fails, and the exact condition under which it is right.

The state is a product of three slices. They do not read each other, except that an `eq` or `ne` call looks up in the
capacity slice what its arguments refer to. Source maps that differ only by a tag and merge
alike are one map keyed by that tag; `State` lists them.

Where the code and its comments differ, the model follows the code:

- The edge verdict of a switch is wrong not only without a 0 target but also when another explicit value shares the 0
  target, although a comment says multi-value matches are left alone (`RangeFlow.VerdictExact` has the exact shape).
- An unknown call does not untrack its destination, although a comment says the destination is cleared; a call does
  not clear the overflow marks of its destination either.
- The layout checker stays silent on a small size even if the alignment is not a power of two, and on every constant
  or projected size with a power-of-two alignment (`RangeVerdicts.SilenceExact`).

## Model

| member | source | states |
|---|---|---|
| State.SmallLattices | crates/san/src/analysis/object.rs:34-44 | the heap and protocol merges are semilattices, and every change climbs a bounded level |
| State.JoinUpperBound | crates/san/src/analysis/state.rs:272-694 | the merge is above both of its arguments |
| State.JoinLeast | crates/san/src/analysis/state.rs:272-694 | whatever is above both arguments is above the merge, so it is the least upper bound |
| State.JoinIdempotent | crates/san/src/analysis/state.rs:272-694 | merging a state with itself gives that state |
| State.LeqAntisymmetric | crates/san/src/analysis/state.rs:272-694 | the order is antisymmetric on the lattice components when no set entry is empty |
| State.ChangedIffDiffers | crates/san/src/analysis/state.rs:272-694 | with no empty set entry, a change is reported exactly when the merge differs from the left state |
| State.EmptyEntryGoesUnreported | crates/san/src/analysis/state.rs:288-309 | an incoming empty set entry changes the state without a change being reported |
| State.JoinKeepsNonEmpty | crates/san/src/analysis/state.rs:276-309 | merging states without empty set entries creates none |
| Merge.JoinWith | crates/san/src/analysis/state.rs:272-694 | the loops return the least upper bound, and `changed` exactly when the incoming state is not already below |
| Merge.MergeJoined | crates/san/src/analysis/state.rs:276-286 | the loop over the heap or typestate map joins pointwise and reports exactly the changes |
| Merge.MergeSets | crates/san/src/analysis/state.rs:288-309 | the loop over a set-valued map unions pointwise and reports exactly the growth |
| Lattice.AgreeLaws | crates/san/src/analysis/state.rs:430-441 | the agreement policy (`fn_ptr_targets`, `mu_raw_ptr`, `active_variant`) is the least upper bound of its order, and a merge that changes the map loses a key |
| Merge.MergeAgreed | crates/san/src/analysis/state.rs:430-441 | the filter over an agreement map keeps exactly the agreed entries and reports exactly the changes |
| Merge.MergeIntersected | crates/san/src/analysis/state.rs:640-654 | the same for the intersected sets of `mu_field_inits` |
| Rank.RankDrops | crates/san/src/analysis/state.rs:272-694 | the rank of a state is bounded, a merge never raises it, and a merge that reports a change lowers it |
| Engine.PopBound | crates/san/src/analysis/dataflow.rs:113-158 | for every graph and every transfer, monotone or not, the loop pops at most 1 + blocks * (height + 1) blocks |
| Engine.RunSettles | crates/san/src/analysis/dataflow.rs:113-160 | at exit, re-merging any edge out of a reached block would report no change |
| Engine.FixpointCorrect | crates/san/src/analysis/dataflow.rs:94-161 | the result is a post-fixpoint above the initial state, and a block has an entry state exactly when a chain of edges from block 0 reaches it |
| Engine.InvariantEverywhere | crates/san/src/analysis/dataflow.rs:94-161 | what holds initially, flows along edges and survives merging holds of every stored entry state |
| Transfer.FlowPopBound | crates/san/src/analysis/dataflow.rs:94-161 | the same bound for every body and summary map, with the height of the modelled state |
| Transfer.FlowEdge | crates/san/src/analysis/dataflow.rs:130-158 | along every edge out of a reached block, the successor's entry claims no more than what flows in |
| Transfer.FlowInvariantAt | crates/san/src/analysis/dataflow.rs:94-161 | an inductive property of block and state holds of every entry state of a body |
| Transfer.FlowReaches | crates/san/src/analysis/dataflow.rs:94-161 | the end of every path from the entry has an entry state |
| Driver.StoreEdge | crates/san/src/analysis/dataflow.rs:139-157 | one edge delivered: stored, merged or left, and queued exactly if the entry moved and it is not queued |
| Driver.VisitBlock | crates/san/src/analysis/dataflow.rs:113-158 | one popped block delivers to all its successors in order |
| Driver.RunFixpoint | crates/san/src/analysis/dataflow.rs:94-161 | the loop with its vector, queue and set computes the specified fixpoint in the specified number of pops |
| Driver.SeedParamTypeFacts | crates/san/src/analysis/transfer.rs:2622-2631 | the loop over parameters gives the initial state of a flow |
| Driver.ComputeFlow | crates/san/src/analysis/dataflow.rs:69-78 | the entry states of a body from its parameter type facts |
| Driver.StateAtLocation | crates/san/src/analysis/dataflow.rs:48-63 | nothing for an unreached block, else the entry state with the statements before the location replayed |
| FlowState.FlowState.constructor | crates/san/src/analysis/state.rs:8-262 | a state object holding a given state |
| FlowState.FlowState.InvalidateOwner | crates/san/src/analysis/state.rs:716-722 | in place: the owner leaves every alias set and emptied sets disappear |
| FlowState.FlowState.EscapeLocal | crates/san/src/analysis/state.rs:738-753 | in place: live objects of the local escape, freed ones stay freed, and the local is untracked |
| FlowState.FlowState.Reconstitute | crates/san/src/analysis/transfer.rs:1413-1420 | in place: every owned object the local may point to becomes reconstituted, nothing else changes |
| FlowState.FlowState.UpdateOwnerAlias | crates/san/src/analysis/transfer.rs:1894-1962 | in place: the destination aliases exactly the owners its value points into |
| FlowState.FlowState.TrackRvalue | crates/san/src/analysis/transfer.rs:247-691 | in place: the rvalue arms move, copy or drop tracking as specified |
| FlowState.FlowState.StoreProjected | crates/san/src/analysis/transfer.rs:17-80 | in place: a projected store reaches the return place, a field, or escapes |
| FlowState.FlowState.ApplyStatement | crates/san/src/analysis/transfer.rs:17-1100 | in place: all slices after a statement are those of the specification |
| FlowState.FlowState.Replay | crates/san/src/analysis/dataflow.rs:32-63 | in place: a statement list replayed in order |
| FlowState.FlowState.MarkStale | crates/san/src/analysis/transfer.rs:1157-1204 | in place: handles into a reallocated buffer are redirected, hit parameters recorded |
| FlowState.FlowState.InvalidateOwnerArgs | crates/san/src/analysis/transfer.rs:1825-1858 | in place: aliases a callee can break through `&mut` are dropped, except the returned argument's |
| FlowState.FlowState.EscapeArgs | crates/san/src/analysis/transfer.rs:2311-2326 | in place: raw-pointer and tracked arguments escape |
| FlowState.FlowState.ApplySummary | crates/san/src/analysis/summary.rs:190-296 | in place: effects in order, then the destination |
| FlowState.FlowState.CallFacts | crates/san/src/analysis/transfer.rs:1228-1361 | in place: the call drops the proofs of collections it is given mutably, clears its destination map by map, and records what `len`, `capacity`, `deref`, `eq` and `ne` say; the result is the specified range and capacity state |
| FlowState.FlowState.ApplyTerminator | crates/san/src/analysis/transfer.rs:1104-1801 | in place: the ownership, range and capacity state after a terminator are those of the functions whose soundness is proved below |
| FlowState.FlowState.TightenBounds | crates/san/src/analysis/transfer.rs:2073-2142 | in place: each recorded comparison, or its negation, lowers the upper or raises the lower bound of its local; the result is the refinement `RangeFlow.RefineSound` proves true of the machine values |
| FlowState.FlowState.RefineEdge | crates/san/src/analysis/transfer.rs:2023-2157 | in place: one update per fact recorded for the discriminant gives the refined state whose facts `RangeFlow.RefineSound` and `CapSound.PromiseComesTrue` prove true on the edge taken |
| RangeSound.RvalueSound | crates/san/src/analysis/transfer.rs:674-1058 | the fact recorded for an rvalue holds of every machine value it can produce, wrapping included |
| RangeSound.StatementSound | crates/san/src/analysis/transfer.rs:17-1058 | a statement keeps all range and pair facts true of the machine values |
| RangeFlow.VerdictExact | crates/san/src/analysis/transfer.rs:2023-2042 | the truth assumed on switch edges is right for every discriminant if and only if there is a 0 target and no other value shares it unless `otherwise` does |
| RangeFlow.RefineSound | crates/san/src/analysis/transfer.rs:2044-2157 | with a true promise, every refinement of the taken edge is true |
| RangeFlow.TerminatorSound | crates/san/src/analysis/transfer.rs:1104-1801 | terminators and edges keep all range facts true, for the edge the run takes: calls with `eq`/`ne` facts, switches, assertions and outside code |
| RangeFlow.RunSound | crates/san/src/analysis/dataflow.rs:94-161 | facts of any solution of the flow equations hold at every point of every run |
| RangeVerdicts.RangesHoldOnEveryRun | crates/san/src/analysis/transfer.rs:674-1058 | at every point of every run of the fragment, each value satisfies every bound, nonzero, equality and disequality fact of the computed flow; and every unflagged size is the exact result of its whole tree, except in locals reached from an unflagged product or sum of a flagged operand |
| RangeVerdicts.ScalarVerdicts | crates/san/src/analysis/state.rs:808-842 | on every run, `local_is_nonzero`, `local_is_valid_scalar` and `local_is_ascii` imply a nonzero value, a Unicode scalar value (D76, section 3.9 of The Unicode Standard) and a value up to 127 |
| RangeVerdicts.SafeSizeExact | crates/san/src/checkers/layout_unchecked.rs:36-40 | every size up to half of isize::MAX rounds up to alignment 2^k within isize::MAX if and only if k <= 62 |
| RangeVerdicts.CheckAllocSize | crates/san/src/checkers/alloc_size_overflow.rs:30-106 | reports exactly the tainted sizes and layouts |
| RangeVerdicts.UnreportedSizesAreExact | crates/san/src/checkers/alloc_size_overflow.rs:46-66 | on every run, a 64-bit size that is not reported is the exact mathematical value of the whole tree of products and sums it was built by, and at most isize::MAX, unless it comes from an unflagged product or sum of a flagged operand |
| RangeVerdicts.UnflaggedProductExact | crates/san/src/analysis/transfer.rs:912-1023 | at any width, unflagged products of operands within the bounds are all exact if and only if the product of the bounds fits the width or exceeds isize::MAX |
| RangeVerdicts.CheckLayout | crates/san/src/checkers/layout_unchecked.rs:43-124 | reports exactly the layouts that are not suppressed, and every unchecked alignment |
| RangeVerdicts.SilentLayoutsRoundSafely | crates/san/src/checkers/layout_unchecked.rs:60-89 | on every run, a covered size operand (a local, or a constant in range) about which both checkers are silent rounds up within isize::MAX for every power-of-two alignment up to 2^62 |
| RangeVerdicts.SilenceExact | crates/san/src/checkers/layout_unchecked.rs:60-89 | over all size operands, the joint silence is right for all values the facts allow if and only if the size is a local or a constant that rounds within isize::MAX |
| RangeVerdicts.SmallSizeSilenceExact | crates/san/src/checkers/layout_unchecked.rs:60-85 | a small size silences the checker whatever the alignment: right for all sizes the facts allow if and only if the alignment is a power of two, at most 2^62 unless the size is 0 |
| RangeVerdicts.WrongSilences | crates/san/src/checkers/layout_unchecked.rs:60-89 | inputs on which the silence is wrong: a constant beyond isize::MAX, any projected size, a small size with an alignment that is no power of two |
| OwnInvariant.StatementKeeps | crates/san/src/analysis/transfer.rs:17-1100 | every statement keeps: no empty set entry, every named object has a state, heap keys persist, only stale-buffer objects appear |
| OwnInvariant.TerminatorKeeps | crates/san/src/analysis/transfer.rs:1104-1801 | every terminator keeps the same, and allocates at most the object of its own block |
| OwnInvariant.JoinKeeps | crates/san/src/analysis/state.rs:276-309 | so does every merge |
| OwnVerdicts.SaneEverywhere | crates/san/src/analysis/dataflow.rs:94-161 | the invariant holds at every entry of a computed flow; a stale-buffer object is possibly freed or escaped, a site object names a block ending in a call |
| OwnVerdicts.IdsDisjoint | crates/san/src/analysis/transfer.rs:1196-1203 | site, stale-buffer and parameter ids do not overlap below 2^30 blocks and locals |
| OwnVerdicts.ObjectsPersist | crates/san/src/analysis/dataflow.rs:94-161 | an object known at a block stays known at every successor |
| OwnSound.StatementCovers | crates/san/src/analysis/transfer.rs:247-691 | a statement keeps every held allocation tracked, every freed one marked, and owners and locals whose address is taken free of tracked pointers |
| OwnSound.TerminatorCovers | crates/san/src/analysis/transfer.rs:1363-1690 | so does every terminator: allocation, free with the owner it returns, raw realloc, pointer reads and writes, unknown calls, drops and outside code |
| OwnFlow.NoMissedFree | crates/san/src/analysis/state.rs:969-991 | on every run in which no allocation site executes twice, of a body whose flow lets no tracked pointer into memory and takes none out of an owner, a local holding a raw pointer to a freed allocation is Definite or Potential |
| OwnTransfer.ClassifyFreed | crates/san/src/analysis/state.rs:969-991 | Definite if every tracked object is reconstituted, Potential if only some may be freed, else nothing |
| OwnVerdicts.DefiniteIsUniversal | crates/san/src/analysis/state.rs:276-297 | a Definite verdict at a block entry was Definite, or the local untracked, on every incoming edge |
| OwnVerdicts.ReallocMakesStale | crates/san/src/analysis/transfer.rs:1157-1204 | after a reallocating call, every non-reference local aliasing the receiver's owner, neither argument nor destination, is Potential |
| OwnVerdicts.VerdictFollowsPointer | crates/san/src/analysis/transfer.rs:247-268 | any sequence of copies, moves, casts and offsets carries a Potential verdict to its result |
| OwnVerdicts.EscapeArgsExact | crates/san/src/analysis/transfer.rs:2311-2326 | exactly the live objects an argument points to escape, whatever the arguments share |
| CapSound.PromiseMeans | crates/san/src/analysis/transfer.rs:2166-2217 | each comparison form, in each accepted operand order, justifies the claim recorded for the edge it is recorded for |
| CapSound.PromiseComesTrue | crates/san/src/analysis/transfer.rs:2059-2115 | on the edge the comparison decides, a promise from current measurements is true |
| CapSound.CallKeepsProofs | crates/san/src/analysis/transfer.rs:1228-1241 | a call keeps exactly the proofs of collections it is given no recorded `&mut` or `*mut` handle to and does not redefine |
| CapSound.ReachKnown | crates/san/src/analysis/transfer.rs:1228-1241 | in the fragment these are all the measured collections a call can change, through any handle, carried value or memory |
| CapSound.StatementSound | crates/san/src/analysis/transfer.rs:110-241 | a statement keeps capacity proofs true of the sizes, the certified measurements current, and every handle to a measured collection recorded |
| CapSound.TerminatorSound | crates/san/src/analysis/transfer.rs:1228-1304 | so do calls, branches, drops and outside code |
| CapSound.StaleBranchExact | crates/san/src/analysis/transfer.rs:2059-2115 | a recorded comparison of length and capacity is right on its edge, on every machine, if and only if nothing could change the collection between either measurement and the branch; no call but one that assigns it withdraws it |
| CapFlow.CapacityProofsHold | crates/san/src/analysis/transfer.rs:2166-2217 | at every point of every run of the fragment, `has_spare` means len < capacity and `is_full` len == capacity |
| Summary.SeedExact | crates/san/src/analysis/summary.rs:65-82 | the seed tracks exactly the raw-pointer parameters, each owning an object of its own |
| Summary.FirstFrom | crates/san/src/analysis/summary.rs:146-177 | the smallest hit of the scan, or none if there is no hit |
| Summary.MergeOrderFree | crates/san/src/analysis/summary.rs:98-112 | the recorded effects do not depend on the order or repetition of the merged returns |
| Summary.SummaryExact | crates/san/src/analysis/summary.rs:88-133 | a parameter is Reconstituted if and only if it is a raw pointer, a Return is reached and its object is reconstituted before every reached Return; Escaped if and only if the returns neither all free nor all keep it |
| Summary.OwnedReturnIsAllocated | crates/san/src/analysis/summary.rs:135-141 | an owned return is recorded only if some Return returns an object allocated by a call of the body |
| Summarize.BuildSeed | crates/san/src/analysis/summary.rs:65-82 | the loop over parameters builds the seed |
| Summarize.ExtractSummary | crates/san/src/analysis/summary.rs:88-180 | the loops over blocks and parameters compute the specified summary |
| Summarize.ComputeSummary | crates/san/src/analysis/dataflow.rs:83-91 | seed, fixpoint and extraction give the summary of a body |
| Rounds.RoundAt | crates/san/src/lib.rs:341-395 | after a round, a function has exactly the summary its snapshot gives it, or none if that says nothing |
| Rounds.RoundOrderFree | crates/san/src/lib.rs:341-395 | the result of a round does not depend on the order or repetition of `to_summarize` |
| Rounds.StableStays | crates/san/src/lib.rs:396-398 | once a round changes nothing, no later round does |
| Rounds.RunRound | crates/san/src/lib.rs:342-395 | the loop of one round computes the round function of the snapshot |
| Rounds.RunRounds | crates/san/src/lib.rs:339-398 | the loop returns what eight rounds give, and leaving through the equality test leaves a fixpoint |
| Consume.EffectsFree | crates/san/src/analysis/summary.rs:198-222 | applying a freeing summary frees the argument's object, whatever the other effects are |
| Consume.TerminatorKeepsFreed | crates/san/src/analysis/transfer.rs:1104-1801 | no terminator but `mem::forget` of a local that points to it brings a freed parameter back |
| Consume.SummaryActsAsFromRaw | crates/san/src/analysis/summary.rs:198-216 | applying a summary that only frees a parameter changes heap and pointers as a direct `from_raw` does |
| Carry.TerminatorWithin | crates/san/src/analysis/transfer.rs:1104-1801 | a set of locals closed under what statements and calls compute from them contains every local that ever points to the parameter object |
| Carry.TerminatorReady | crates/san/src/analysis/transfer.rs:1104-1801 | a terminator that neither takes the object nor redefines its carrier keeps it live and in the carrier, whatever else it does; calls that only look at the pointer included |
| Chains.ForwardingFrees | crates/san/src/analysis/summary.rs:88-133 | a body that on every path to a Return hands its pointer parameter to a freeing call is summarised as freeing it, across branches, joins, loops and other calls before, any graph after, and any cleanup that does not return |
| Chains.ExternalIsIdle | crates/san/src/lib.rs:341-395 | in no round does an external function have a heap effect in its summary |
| Chains.LinkAfter | crates/san/src/lib.rs:332-398 | in a call graph of such functions, one that frees through functions of depth below d is summarised as freeing from round d + 1 on |
| Chains.SummarizeLinks | crates/san/src/lib.rs:339-398 | at loop exit every function of depth below eight is |
| Expansion.ScanCalls | crates/san/src/lib.rs:308-322 | the calls of one function add only new eligible callees, and all of them while there is room |
| Expansion.ScanFrontier | crates/san/src/lib.rs:306-324 | the same for one level of functions |
| Expansion.Expand | crates/san/src/lib.rs:294-330 | no duplicates, local code first, at most 600 externals, each within two calls of local code, and all of those if the cap is not reached |
| Limits.NonzeroCastExact | crates/san/src/analysis/transfer.rs:663-665 | nonzero crossing a cast is right for all sources if and only if the cast does not narrow |
| Limits.ShiftBoundExact | crates/san/src/analysis/transfer.rs:674-1058 | the bound of a constant right shift covers every result if and only if the amount is below the width |
| Limits.TightenExact | crates/san/src/analysis/transfer.rs:2073-2092 | a refinement admits exactly the values that were allowed and satisfy the comparison, if and only if it does not saturate on an allowed end value |
| Limits.ComparisonOutlivesOperand | crates/san/src/analysis/transfer.rs:120-137 | an assignment withdraws a comparison fact exactly when it assigns the temporary; after the operand was rewritten the fact is right for all new values if and only if their bounds satisfy the old comparison at the far end |
| Limits.FirstComparisonExact | crates/san/src/analysis/state.rs:361-391 | two arms compare a local with different constants: the merged fact is right for every value that passed the second test if and only if the furthest such value satisfies the first bound |
| Limits.FirstComparisonOtherLocal | crates/san/src/analysis/state.rs:361-391 | the same when the arms compare different locals |
| Limits.FirstComparisonFails | crates/san/src/analysis/state.rs:361-391 | with < 10 on one arm and < 20 on the other, a value that passed the test is bounded wrongly |
| Limits.DestinationCleared | crates/san/src/analysis/transfer.rs:1243-1293 | a call replaces bounds, nonzero, pairs and comparison facts of its destination by those of its type if and only if it is resolved and the destination a plain local; the overflow marks stay |
| Limits.ComparingCallExact | crates/san/src/analysis/transfer.rs:1344-1361 | the pair recorded for an `eq` or `ne` call outlives assignments of its arguments; it is right on every run if and only if the callee returns that comparison and no compared local was assigned |
| Limits.OutsideCodeExact | crates/san/src/analysis/transfer.rs:1799-1800 | inline assembly and suspension withdraw no fact; the bounds of a local stay true if and only if it is not written, or they admit none or all of the values of its type |
| Limits.FlaggedSumExact | crates/san/src/analysis/transfer.rs:941-1023 | an unflagged 64-bit sum is exact for all operands the state allows if and only if neither operand is flagged |
| Limits.FlaggedProductExact | crates/san/src/analysis/transfer.rs:909-1023 | an unflagged 64-bit product is, if and only if neither operand is flagged or one is unflagged and bounded by 0 |
| Limits.ReboundedProductHidesWrap | crates/san/src/analysis/transfer.rs:941-1023 | a test re-bounds a flagged product, and a sum with it is unflagged although the product wrapped |
| Limits.HandleRecordedExact | crates/san/src/analysis/transfer.rs:110-137 | a definition records a handle to a collection if and only if it is a borrow of it or of what it points to: raw addresses, casts and copies are not recorded |
| Limits.UnrecordedHandleExact | crates/san/src/analysis/transfer.rs:1228-1241 | a call given a mutable handle to a collection leaves no false proof about it if and only if the handle is the collection itself or a recorded borrow |
| Limits.FieldWriteExact | crates/san/src/analysis/transfer.rs:17-80 | a store into a projection drops no proof; the proof stays right if and only if the store does not go into that collection |
| Limits.SiteReuseExact | crates/san/src/analysis/transfer.rs:1390-1395 | running an allocation site again takes a freed verdict away if and only if every freed object of the pointer is that site |
| Limits.ReborrowedOwnerExact | crates/san/src/analysis/transfer.rs:1403-1443 | after `from_raw`, the free shows on a pointer taken through a local if and only if that local is not the owner returned and points to an owned object of the freed pointer, or to one freed before |
| Limits.ReborrowedOwnerIsFreed | crates/san/src/analysis/transfer.rs:1403-1443 | on the machine a pointer taken out of the owner is a freed one |
| Limits.WrittenPointerExact | crates/san/src/analysis/transfer.rs:1607-1690 | after write, free and read back, the free shows on what was read if and only if the pointer read through points to an owned object of the freed pointer, or to one freed before |
| Limits.WrittenPointerIsFreed | crates/san/src/analysis/transfer.rs:1607-1690 | on the machine what is read back may be the freed pointer in any case |
| Limits.FieldStoreForgetsCopy | crates/san/src/analysis/transfer.rs:40-70 | after copying a pointer into a projection no later free shows on the original if and only if the store is not one into the return place |
| Limits.FreeingIsNotMonotone | crates/san/src/analysis/transfer.rs:1413-1420 | freeing is not monotone in the may-set it frees |
| Limits.SiteReadAsParameter | crates/san/src/analysis/summary.rs:162-166 | a returned allocation of block k + 1 is recorded as parameter k handed back |
| Limits.ReturnedPointerExact | crates/san/src/analysis/summary.rs:150-167 | the recorded pointer is exactly the first parameter object returned if and only if the smallest returned id up to the number of parameters, if any, names that parameter |

## Left out

- The process driver, diagnostics and environment handling of `cargo-san` and `san-driver`.
- The path-string recognisers: which path means what is a flag of a `Callee`.
- rustc internals (type context, trait resolution, HIR walks): types are an enumeration, bodies are given.
- The other state domains (`bounded`, `index_bounded_for`, `finite`, `fd_*`, `init`, `buf_written`, `const_ptr_cast`, `cast_origin`, `array_components`): flag sets with no property beyond those proved here.
- Transfer.FlowPopBound: `fn_ptr_targets`, `mu_raw_ptr`, `active_variant` and `mu_field_inits` are not fields of the modelled state, so their height is not in the bound; their merge policies are in `Lattice` and `Merge`. Which callee a function pointer resolves to is given with the call.
- `precond.rs`, the remaining checkers, finding deduplication and the overlap filter.
- RangeVerdicts.RangesHoldOnEveryRun: only for unsigned scalars whose address is not taken, switches on comparisons computed in the switching block with operands not rewritten afterwards or on `eq`/`ne` calls that compare two scalars by value and honestly, switches of the exact shape, widening casts, shifts below the width, resolved calls into plain destinations, and outside code that writes no scalar local; `Limits` and `RangeFlow.VerdictExact` show why. Comparing calls that take references are outside, because their scalars have their address taken.
- RangeVerdicts.UnreportedSizesAreExact: not for sizes reached from an unflagged product or sum of a flagged operand; `Limits.FlaggedSumExact` and `Limits.FlaggedProductExact` show that these are the exception.
- OwnFlow.NoMissedFree: only for runs without repeated allocation sites, and for bodies in whose flow no tracked pointer is stored in a field, in memory or in a local whose address is taken, no tracked local is borrowed, none is given to an unknown or summarised call or to outside code, or dropped, and the owner `from_raw` returns is only moved, dropped, forgotten or written through. `Limits.SiteReuseExact`, `Limits.WrittenPointerExact`, `Limits.FieldStoreForgetsCopy` and `Limits.ReborrowedOwnerExact` show why.
- CapFlow.CapacityProofsHold: every temporary has one purpose and is assigned before it is read, a branch on two measurements comes before anything that could change what was measured, and an unrecorded handle to a measured collection (a raw address, a cast or copy of a handle, a struct that holds one) is not given to a call, stored, dropped or written through. Parameters name collections of their own, a shared reference changes nothing, and which callees may keep or return a handle is a flag of the `Callee`. `CapSound.StaleBranchExact`, `Limits.UnrecordedHandleExact` and `Limits.FieldWriteExact` show why.
- Chains.ForwardingFrees: the certificate names one local that carries the pointer into each block; a pointer freed out of a field or an aggregate is not followed, and consumption on some paths only is covered by `Summary.SummaryExact`.
- Chains.LinkAfter: recursive functions are outside, because their first summary treats the recursive call as unknown and lets the pointer escape.
- Driver.VisitBlock: the guard for a queued block without entry state is omitted, because a queued block always has one.
- Iteration order of hash maps: loops over maps and sets pick elements in any order, and the results do not depend on it.
