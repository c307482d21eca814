# Verified model of the device host core and the LLVM host runtime

This project models, in Dafny, the parts of the runtime that decide what runs where and on which bytes:

1. **Content addressing and topology binding** (`crates/host-coordinator`). A streaming SHA-256, the canonical byte
   encoders of identities, snapshots, plans and receipts, and the five-stage `bind` gate.
2. **Distributed bind policies and the execution backend** (`macos-arm64/src/distributed_translate.rs`,
   `transaction_backend.rs`). Placement of partitions on devices under a memory headroom, and the
   reserve / run / stage / publish / release / retire protocol under arbitrary device failures.
3. **Device session, driver and launch bindings** (`metal_host.rs`, `device_host.rs`). A handle registry over an
   encode-and-flush driver, page-rounded wraps of memory mappings, offset composition, binding placement.
4. **Tensors** (`wasm/src/collections.rs`, `llvm/src/tensor.rs`). Checked element counts, row-major offsets, slices.
5. **Command line and collections of the LLVM host** (`llvm/src/cli.rs`, `collection_map.rs`). Descriptor decoding,
   argument parsing, operand assignment, command selection, and list-backed maps and sets.

`dafny verify dfyconfig.toml` checks the whole project.

## How it is built

| file | content |
|---|---|
| `Prelude`, `Arithmetic`, `Ordered`, `Handles` | machine integers, results, little- and big-endian strings; products and quotients; BTree iteration order; device handles |
| `Sha256`, `Fips180Constants` | the FIPS 180-4 definition (sections 4.1.2, 4.2.2, 5.1.1, 5.3.3, 6.2.2), the streaming object proved to compute it, and where its constants come from |
| `DeviceIdentity`, `Discovery`, `Partition`, `DeviceSet`, `BoundPlan` | one per source file of the coordinator |
| `DistributedTranslate` | bind policies, from the plan's inputs to the receipt's counts |
| `BackendState`, `BackendPublication`, `BackendReservations`, `BackendOperations`, `TransactionBackend` | the backend as a state machine, what its runs conserve, publish, reserve and allocate, and the object that refines it |
| `LaunchBindings`, `DeviceHost` | slot placement, resolution and dispatch checks |
| `MmapWrap`, `ElementwiseAdd`, `MetalState`, `MetalInvariant`, `MetalGuarantees`, `MetalHost` | page arithmetic; adding views word by word; session and driver as a state machine; its invariant; what callers can rely on; the two objects that refine it |
| `TensorShape`, `Tensor`, `TensorArena` | index arithmetic, values, and the arena written in place |
| `CliDescriptor`, `CliReader`, `CliParse`, `CliRoundTrip`, `CliOperands`, `CliSurface` | descriptor layout and reader, argument scan, round trip, operands and commands, whole surface |
| `CollectionValues`, `CollectionMap` | value equality and set algebra on lists; map and set objects |

Three shapes recur. A *codec* is a pair of functions, `PutX(v, k)` writing a value in front of what follows and
`GetX(b)` reading it back, with a lemma that reading undoes writing whatever follows; the pushing or reading object of
the code is then proved to produce or consume exactly that layout. A *protocol* is a state and a function for each call,
with an arbitrary plan of injected failures; theorems are about every run, and a class with the source's fields is
proved to pass through the states of the run. An *in-place algorithm* is a method over an array, a sequence field or
an offset, proved against a specification that does not mention its steps.

Where a method and the function it is proved against could share a helper, the method spells the code's steps out, and a
lemma says what the function means apart from itself: the constants of SHA-256 by roots of primes, orders by first
differing bytes, integers and hashes by their digits, strings by scalar values.

Where the code does less than its documentation or a natural reading suggests, the model keeps the code, gives a concrete
input, and proves the exact condition instead:

- `DistributedTranslate.OneDeviceBindsAsTwo`: the documentation at `macos-arm64/src/distributed_translate.rs:411-413` says
  promotion rejects a snapshot whose physical membership is not exactly the partition count. One device recorded under a
  made-up promotion id, or recorded twice, is accepted for two partitions (`OneDeviceInstances`), and
  `BindOneDeviceAsTwo` returns the plan. `PromotionSucceedsIff` states exactly which samples are accepted, and
  `PromotionCountIff` exactly which of them have as many devices as partitions.
- `DistributedTranslate.OneDeviceBindsSplit`: lines 413-415 promise the same of splits; two entries of one device pass as
  two devices. `BindDeclared` states that the set has the declared count exactly when the listed devices are distinct.
- `BackendPublication.SaturationLosesBytes`: the staged byte total saturates and then stays wrong; `RunExactIff` states
  exactly which runs keep it exact.
- `MetalGuarantees.UnalignedHandleRefused`: for handles that are not whole words the session and the driver can disagree;
  `MetalGuarantees.CopyAgreesIff` states exactly after which copies they agree.
- `CliRoundTrip.HelpOptionShadowed`: `--help x` is not read as an option named `help`, `--help=x` is; `SeparateFormIff`
  states exactly for which names the separate form is read as the option.
- `CollectionMap.NullTextStoredTwice`: a put of an unreadable text key is never found again and never overwrites;
  `PutFoundIff` and `PutTwiceIff` state that for all entries a put is found, and overwrites, exactly when its key is
  readable.

## Model

| member | source | states |
|---|---|---|
| `Sha256.DigestChunks` | crates/host-coordinator/src/discovery.rs:495-543 | every way of cutting a message into `update` calls yields the digest of the whole message, and below 2^61 bytes that digest is the one FIPS 180-4 defines by folding the compression function over the padded blocks |
| `Sha256.DigestOfIsSha256` | crates/host-coordinator/src/discovery.rs:519-543 | with the wrapping bit counter of the code, messages below 2^64 bits still get exactly the FIPS 180-4 digest |
| `Sha256.Sha256.Update` | crates/host-coordinator/src/discovery.rs:495-517 | the absorbed message grows by the data; hashed full blocks plus the buffered tail below 64 bytes are that message |
| `Sha256.Sha256.Finalize` | crates/host-coordinator/src/discovery.rs:519-537 | the digest is the fold over the padded message for whatever was absorbed |
| `Sha256.Sha256.Compress` | crates/host-coordinator/src/discovery.rs:546-593 | the in-place compression of one block equals the six-step computation of section 6.2.2 |
| `Fips180Constants.ConstantsAreCubeRoots` | crates/host-coordinator/src/discovery.rs:409-474 | constant t is the first 32 bits of the fractional part of the cube root of the t-th prime |
| `Fips180Constants.InitialAreSquareRoots` | crates/host-coordinator/src/discovery.rs:476-490 | initial word i is the first 32 bits of the fractional part of the square root of the i-th prime |
| `Fips180Constants.PrimesInOrder` | crates/host-coordinator/src/discovery.rs:409-474 | those primes are all primes up to 311, in order |
| `Fips180.RotationsAreShifts` | crates/host-coordinator/src/discovery.rs:557-574 | the four sigma functions are rotations and shifts by the distances of section 4.1.2 |
| `Fips180.Choice` | crates/host-coordinator/src/discovery.rs:568-568 | Ch takes the bits of its second operand where the first has ones, and those of the third elsewhere |
| `Fips180.Majority` | crates/host-coordinator/src/discovery.rs:575-575 | Maj takes the bit that two of the three agree on |
| `Fips180.WordsAreBigEndian` | crates/host-coordinator/src/discovery.rs:549-556 | the first byte of a word is the most significant, in and out |
| `Sha256.Sha256.Bytes` | crates/host-coordinator/src/discovery.rs:531-536 | the digest is the eight words in order, most significant byte first |
| `Sha256.Sha256.Tail` | crates/host-coordinator/src/discovery.rs:519-528 | the marker, zero and length bytes the code appends complete the section 5.1.1 padding |
| `Fips180.PadInjective` | crates/host-coordinator/src/discovery.rs:519-531 | padding keeps different messages apart |
| `DeviceIdentity.IdBytesPrefixFree` | crates/host-coordinator/src/device_identity.rs:117-139 | identity bytes are prefix-free: two encodings that agree, whatever follows, come from the same identity |
| `DeviceIdentity.IdRoundTrip` | crates/host-coordinator/src/device_identity.rs:122-139 | an identity is recovered from its bytes whatever follows them |
| `DeviceIdentity.OptStrRoundTrip` | crates/host-coordinator/src/device_identity.rs:122-139 | an optional string is recovered, with its presence flag, whatever follows |
| `DeviceIdentity.IdsRoundTrip` | crates/host-coordinator/src/partition.rs:582-588 | a list of identities of unbounded length is recovered from its count and its bytes |
| `DeviceIdentity.PushId` | crates/host-coordinator/src/device_identity.rs:122-139 | the pushing encoder writes exactly the identity layout in front of what is still to be written |
| `DeviceIdentity.IdOrder` | crates/host-coordinator/src/device_identity.rs:32-74 | the derived order of identities is a strict total order |
| `DeviceIdentity.TextLessMeans` | crates/host-coordinator/src/device_identity.rs:32-74 | strings are ordered by their first differing byte, a proper prefix first |
| `DeviceIdentity.IdLessMeans` | crates/host-coordinator/src/device_identity.rs:32-74 | every CUDA identity comes before every Metal one; within a backend the fields decide in turn, an absent one first |
| `DeviceIdentity.SortedIdsListing` | crates/host-coordinator/src/partition.rs:585-588 | a set of identities is listed once each, smaller ones first |
| `DeviceIdentity.SortedIdsUnique` | crates/host-coordinator/src/partition.rs:585-588 | any ascending list of the same identities is that listing: the encoded order of a set is determined by its members |
| `Discovery.SnapshotBytesDetermineFacts` | crates/host-coordinator/src/discovery.rs:336-394 | two snapshots have equal canonical bytes exactly when probe time, every device entry and the link state agree |
| `Discovery.SnapshotRoundTrip` | crates/host-coordinator/src/discovery.rs:336-394 | a decoder recovers every encoded field of a snapshot with any number of devices |
| `Discovery.EntryRoundTrip` | crates/host-coordinator/src/discovery.rs:340-388 | one device entry is recovered whatever follows it |
| `Discovery.ValuesAscending` | crates/host-coordinator/src/discovery.rs:340-388 | entries are listed, written and searched in ascending ordinals |
| `Discovery.FindEntryLeast` | crates/host-coordinator/src/discovery.rs:340-345 | the entry found for an identity is the one of least ordinal that records it |
| `Discovery.CanonicalBytesWithoutId` | crates/host-coordinator/src/discovery.rs:336-394 | the pushing encoder produces exactly the layout that is proved decodable |
| `Discovery.New` | crates/host-coordinator/src/discovery.rs:243-263 | a snapshot is built exactly when every entry is filed under its own ordinal, and its id is the digest of its canonical bytes |
| `Discovery.FromEnumerated` | crates/host-coordinator/src/discovery.rs:273-283 | enumerated entries always build a snapshot; the last entry of an ordinal stays |
| `Partition.Admit` | crates/host-coordinator/src/partition.rs:298-330 | a ledger is admitted exactly when its exact sum is within the limit, unchanged and active; a refusal reports the exact sum, or nothing exactly when it overflows u64 |
| `Partition.LifecycleOutcome` | crates/host-coordinator/src/partition.rs:398-427 | over any sequence of failures and teardowns the first failure wins, teardown is final, and an untouched partition stays active |
| `Partition.Bound.Record` | crates/host-coordinator/src/partition.rs:401-405 | recording a failure keeps the state equal to the run of all events so far |
| `Partition.ReceiptRoundTrip` | crates/host-coordinator/src/partition.rs:582-605 | every receipt field is recovered from the receipt bytes |
| `Partition.ReceiptBytesInjective` | crates/host-coordinator/src/partition.rs:576-605 | changing any receipt field changes the bytes |
| `Partition.SortedU64Ascending` | crates/host-coordinator/src/partition.rs:590-597 | virtual ids are written in ascending order |
| `Partition.CanonicalReceiptBytes` | crates/host-coordinator/src/partition.rs:582-605 | the pushing encoder produces exactly the receipt layout |
| `DeviceSet.Validate` | crates/host-coordinator/src/device_set.rs:104-113 | a set is accepted exactly when every member is recorded at the current generation; the first failing member in order is reported |
| `DeviceSet.Resolve` | crates/host-coordinator/src/device_set.rs:180-234 | an explicit request is validated as given; a constrained one yields exactly the matching current members, refused below the minimum or above the maximum |
| `DeviceSet.SelectionValidates` | crates/host-coordinator/src/device_set.rs:98-113 | whatever a constrained request selects would pass validation when snapshot identities are distinct |
| `BoundPlan.AdmitPlan` | crates/host-coordinator/src/bound_plan.rs:179-209 | logical admission succeeds exactly for a well-formed hash, at least one partition and constraints over declared partitions; each error names the first check that failed |
| `BoundPlan.Bind` | crates/host-coordinator/src/bound_plan.rs:451-570 | binding succeeds exactly when all five stages hold, reports the first stage that does not, yields the local plan exactly for one declared partition, and its hash spells in hex, two digits a byte after `sha256:`, the digest of its own bytes; no lookup can miss |
| `BoundPlan.WellFormedIffSpelling` | crates/host-coordinator/src/bound_plan.rs:732-742 | the hashes admission accepts are exactly the spellings of 32 bytes |
| `BoundPlan.PrefixSpelling` | crates/host-coordinator/src/bound_plan.rs:566-568 | the prefix of a hash is `sha256:` |
| `BoundPlan.SpelledDigestUnique` | crates/host-coordinator/src/bound_plan.rs:889-896 | a spelled hash determines the digest |
| `BoundPlan.CheckTopology` | crates/host-coordinator/src/bound_plan.rs:460-499 | the topology stage accepts exactly current members, bindings for the declared partitions and bound devices equal to the set |
| `BoundPlan.CheckConstraint` | crates/host-coordinator/src/bound_plan.rs:836-885 | a constraint is accepted exactly when the devices of its partitions are distinct, the same one, or of the required backend |
| `BoundPlan.CheckLimits` | crates/host-coordinator/src/bound_plan.rs:758-803 | launch demands are accepted exactly when every bound device has evaluable limits that meet them |
| `BoundPlan.DistinctCount` | crates/host-coordinator/src/bound_plan.rs:841-850 | pairwise distinct devices is the same as as many devices as partitions |
| `BoundPlan.PlanBytesDetermineFacts` | crates/host-coordinator/src/bound_plan.rs:684-726 | two plans have equal bytes exactly when logical hash, shape, every partition device and virtual id, device set, snapshot id and both classes agree |
| `BoundPlan.PlanRoundTrip` | crates/host-coordinator/src/bound_plan.rs:684-726 | all of those facts are decoded back from the plan bytes |
| `BoundPlan.CanonicalPlanBytes` | crates/host-coordinator/src/bound_plan.rs:684-726 | the pushing encoder produces exactly the plan layout |
| `BoundPlan.BytesIgnoreHash` | crates/host-coordinator/src/bound_plan.rs:557-569 | the bytes that are hashed do not depend on the hash they produce |
| `BoundPlan.ReceiptNamesDeviceSet` | crates/host-coordinator/src/bound_plan.rs:640-675 | the receipt of a bound plan names exactly the bound device set, with its size, and the plan is local exactly for one partition |
| `DistributedTranslate.PolicyFor` | macos-arm64/src/distributed_translate.rs:122-147 | a bind count is accepted exactly when it is one or divides the number of partitions |
| `DistributedTranslate.Headroom` | macos-arm64/src/distributed_translate.rs:149-160 | the headroom is floor(9 * total / 10) for every u64 total, with no intermediate overflow |
| `DistributedTranslate.AdmitVirtual` | macos-arm64/src/distributed_translate.rs:602-639 | a partition is placed on a device exactly when the device is recorded and twice a quarter of the declared budget, of 167772160 if none is declared, is at most nine tenths of the memory of its first entry |
| `DistributedTranslate.LedgerQuarters` | macos-arm64/src/distributed_translate.rs:641-652 | a ledger holds one quarter of the budget for activations, one for transfers and nothing else |
| `DistributedTranslate.FabricatedInjective` | macos-arm64/src/distributed_translate.rs:517-519 | different ranks are made up different ids: the decimal rank after `GPU-promoted-` |
| `DistributedTranslate.FabricatedSpelling` | macos-arm64/src/distributed_translate.rs:518-518 | a made-up id is a CUDA id `GPU-promoted-` and the rank, without a driver id |
| `DistributedTranslate.BindAll` | macos-arm64/src/distributed_translate.rs:463-600 | the placement loop succeeds exactly when every partition fits its device, and otherwise reports the first that does not |
| `DistributedTranslate.BindTranslatedWithConstraints` | macos-arm64/src/distributed_translate.rs:431-446 | binding under a policy succeeds exactly when the device count suits the policy, every ledger fits and all bind stages hold; the device set is the selected membership |
| `DistributedTranslate.BindDeclared` | macos-arm64/src/invocation_facts.rs:95-135 | end to end: for distinct partitions (and, where each claims a device, distinct devices none of them made up) success exactly when the count divides the partitions, the snapshot lists that many devices (at least one for a count of one), the hash is valid and every ledger fits; then partition i lies on device i / (n / count), the receipt counts the device set and all partitions, and exactly when the first count devices are distinct the set has that many, each holding n / count partitions |
| `DistributedTranslate.BlockSize` | macos-arm64/src/distributed_translate.rs:548-600 | each device of an accepted split holds exactly n / count plan positions |
| `DistributedTranslate.SucceedsIffLegal` | macos-arm64/src/distributed_translate.rs:416-446 | for distinct partitions, and distinct devices none of them made up where each partition claims one, policy success is the input-level condition |
| `DistributedTranslate.PromotionSucceedsIff` | macos-arm64/src/distributed_translate.rs:498-546 | for every plan and sample: promotion accepts exactly the nonempty current samples, under a valid plan hash, in which every rank without a device has its made-up id recorded as a device, every ledger is within the headroom of its device, and every recorded device is that of the last occurrence of a partition |
| `DistributedTranslate.PromotionCountIff` | macos-arm64/src/distributed_translate.rs:411-413 | an accepted promotion of distinct partitions has as many distinct devices as partitions exactly when no two ranks share a device; recorded devices past the last rank repeat earlier ones; distinct devices, none made up, are exactly as many as the partitions |
| `DistributedTranslate.OneDeviceBindsAsTwo` | macos-arm64/src/distributed_translate.rs:411-413 | discovered samples of one device, recorded under a made-up promotion id or more than once, meet the preconditions of the bind and are accepted for two partitions, contrary to lines 411-413 |
| `DistributedTranslate.BindOneDeviceAsTwo` | macos-arm64/src/distributed_translate.rs:498-546 | discovering such a sample and binding two partitions by promotion returns a distributed plan whose only device carries both |
| `DistributedTranslate.OneDeviceInstances` | macos-arm64/src/distributed_translate.rs:498-546 | both families have members: one entry under the id made up for the second rank, and two entries of one Metal device |
| `DistributedTranslate.OneDeviceBindsSplit` | macos-arm64/src/distributed_translate.rs:413-415 | two entries of one device are accepted as the two devices of a split of four partitions |
| `BackendHandles.RunConserves` | macos-arm64/src/transaction_backend.rs:173-319 | after any run with any plan of device failures, each session holds exactly the tracked buffers of the partitions bound to it plus the cached module, loaded at most once |
| `BackendHandles.NextConserves` | macos-arm64/src/transaction_backend.rs:281-460 | every single command keeps that, also when it fails inside an operation |
| `BackendHandles.ExecConserves` | macos-arm64/src/transaction_backend.rs:321-406 | every prefix of the device calls of an operation keeps it |
| `BackendHandles.TeardownLeavesModules` | macos-arm64/src/transaction_backend.rs:203-211 | after any run, releasing or retiring every partition leaves each session with its cached module at most |
| `BackendPublication.RunExactIff` | macos-arm64/src/transaction_backend.rs:412-461 | along a run the byte total equals the sum over the staged writes in every state exactly when no true sum reaches 2^64 |
| `BackendPublication.StageExactIff` | macos-arm64/src/transaction_backend.rs:412-423 | one stage keeps the total exact exactly when the new sum fits u64 |
| `BackendPublication.SaturationLosesBytes` | macos-arm64/src/transaction_backend.rs:412-461 | a saturated total reads 0 with a byte still staged |
| `BackendPublication.StagedExactly` | macos-arm64/src/transaction_backend.rs:412-461 | a write is staged after a run exactly when some stage call accepted it and its partition was not retired since |
| `BackendPublication.PublishedAtFirst` | macos-arm64/src/transaction_backend.rs:425-436 | the published writes and total are those staged at the first publish and never change afterwards |
| `BackendPublication.PublishedProvenance` | macos-arm64/src/transaction_backend.rs:425-461 | a write is published exactly when it was accepted before the first publish and its partition not retired in between |
| `BackendPublication.EventsOnSuccess` | macos-arm64/src/transaction_backend.rs:321-406 | an operation completes its events exactly when every device call succeeded |
| `BackendState.EventsMeans` | crates/host-coordinator/src/execution_transaction/mirror.rs:735-775 | an operation completes exactly the events of its kind and reference for the partitions that take part, both sides of a transfer included |
| `BackendState.FaultsKeepTheirMeaning` | macos-arm64/src/transaction_backend.rs:469-490 | a device error names the partition of the call and keeps timeout, cancellation and loss apart; other faults are allocation errors exactly for allocations |
| `BackendState.UnknownSpelling` | macos-arm64/src/transaction_backend.rs:425-431 | a second publish names the partition `unknown` |
| `BackendReservations.ReservedExactly` | macos-arm64/src/transaction_backend.rs:281-315 | a partition holds a reservation after a run exactly when some call granted it and the partition was neither released nor retired since |
| `BackendOperations.OperationTracks` | macos-arm64/src/transaction_backend.rs:321-406 | a successful operation leaves each partition two buffers per nonempty launch, one on each side of a copy and one copy per broadcast participant other than the source; a failed one loses none |
| `BackendOperations.ReserveTracks` | macos-arm64/src/transaction_backend.rs:281-319 | a successful reservation leaves one buffer per nonzero field |
| `BackendOperations.BarrierSyncsOnce` | macos-arm64/src/transaction_backend.rs:391-404 | a barrier over bound partitions makes exactly one sync call for each of their devices |
| `TransactionBackend.DeviceRuntimeBackend.New` | macos-arm64/src/transaction_backend.rs:83-120 | a backend is refused without bindings or with a partition bound outside the set, and otherwise starts empty |
| `TransactionBackend.DeviceRuntimeBackend.HostStageCopy` | macos-arm64/src/transaction_backend.rs:213-273 | a staged copy makes its seven device calls in order and stops at the first failure |
| `TransactionBackend.DeviceRuntimeBackend.RunBroadcast` | macos-arm64/src/transaction_backend.rs:365-390 | a broadcast copies to every participant but the source, stopping at the first failure |
| `TransactionBackend.DeviceRuntimeBackend.RunBarrier` | macos-arm64/src/transaction_backend.rs:391-404 | the barrier loop makes the sync calls counted above, in order, and stops at the first failure |
| `TransactionBackend.DeviceRuntimeBackend.Reserve` | macos-arm64/src/transaction_backend.rs:281-319 | a reservation allocates its nonzero buffers in order and is recorded only when all succeed |
| `TransactionBackend.DeviceRuntimeBackend.Retire` | macos-arm64/src/transaction_backend.rs:450-461 | retiring withdraws exactly the staged writes of the partition and their bytes, then frees it |
| `TransactionBackend.DeviceRuntimeBackend.Execute` | macos-arm64/src/transaction_backend.rs:280-467 | the backend object takes exactly the states of the run that the conservation theorems are about |
| `LaunchBindings.Place` | macos-arm64/src/metal_host.rs:1020-1050 | placement succeeds exactly when the declared indices are a permutation of 0..n, slot i then holds what declared i, errors name the first declaration without a free slot, and the "validated then dropped" branch is dead |
| `LaunchBindings.Pigeonhole` | macos-arm64/src/metal_host.rs:1018-1050 | n distinct indices below n leave no slot empty |
| `LaunchBindings.ArrangementUnique` | macos-arm64/src/metal_host.rs:1020-1050 | each slot holds exactly one declared binding, and only one arrangement exists |
| `DeviceHost.HandlesInBindingOrder` | macos-arm64/src/device_host.rs:357-389 | the same for device handles |
| `DeviceHost.ValidateDispatch` | macos-arm64/src/device_host.rs:563-597 | dispatch is admitted exactly when every binding names a nonempty range inside a live buffer of the backend, and on CUDA at offset zero; the first refusal is reported |
| `DeviceHost.Resolve` | macos-arm64/src/device_host.rs:295-309 | resolving succeeds exactly when the descriptor and the map are legal and every record has a view, room, and a handle that backs its allocation alone; order is kept, and the error names the first unplaced record, or else the first refused |
| `DeviceHost.ValidateLaunch` | macos-arm64/src/device_host.rs:311-355 | bindings are accepted exactly when descriptor and map are legal and each handle backs one allocation whose view and capacity hold the range; otherwise the kind of the first refusal is reported |
| `DeviceHost.ValidateAllocationMap` | macos-arm64/src/device_host.rs:599-631 | a map is legal exactly when it names known allocations once each with buffers of their capacity; otherwise the first bad entry is refused for its name, its kind of handle or its size |
| `DeviceHost.CandidateResolves` | macos-arm64/src/device_host.rs:297-309 | the final validation of a resolved binding fails exactly when its handle backs a second allocation or its range does not fit |
| `DeviceHost.ResolvedDispatches` | macos-arm64/src/device_host.rs:254-263 | what resolves passes the Metal dispatch checks exactly when spans are nonzero and handles are Metal |
| `MmapWrap.WrapForSound` | macos-arm64/src/metal_host.rs:2380-2416 | a wrap is page-aligned, a whole number of pages, inside the mapping that contains the slice, and covers the slice rounded up to words with less than a page to spare |
| `MmapWrap.WrapInIff` | macos-arm64/src/metal_host.rs:2380-2416 | in a page-aligned mapping a contained slice wraps exactly when its word-rounded end stays in the mapping |
| `MmapWrap.WrapFitsIff` | macos-arm64/src/metal_host.rs:2398-2410 | a handle up to 3 bytes longer than the slice fits behind the remainder exactly when the covering pages cover it, and always when it is whole words |
| `MmapWrap.ContainsExact` | macos-arm64/src/metal_host.rs:117-125 | below the last address `contains` is exact interval containment |
| `MmapWrap.ContainsReal` | macos-arm64/src/metal_host.rs:117-125 | whatever the mapping, a slice that ends inside the address space and passes `contains` lies inside the mapping |
| `MmapWrap.AlignedIsMapping` | macos-arm64/src/metal_host.rs:55-64 | a page-aligned mapping of whole pages of more than one byte ends below the last address, where the saturating checks are exact |
| `MmapWrap.PowerOfTwoIff` | macos-arm64/src/metal_host.rs:2390-2392 | the page sizes that are not refused are exactly the powers of two |
| `MmapWrap.MappedWrapFor` | macos-arm64/src/metal_host.rs:2380-2416 | the loop returns the wrap of the first mapping that contains the slice |
| `MmapWrap.ComposeIff` | macos-arm64/src/metal_host.rs:1052-1078 | composition accepts exactly the ranges inside the buffer and adds the offset to the remainder |
| `MmapWrap.LayersAgreeIff` | macos-arm64/src/metal_host.rs:813-867 | session admission and driver composition agree on every binding of a handle exactly when its bytes lie inside the buffer behind the remainder |
| `MetalInvariant.RunKeeps` | macos-arm64/src/metal_host.rs:656-909 | every reachable state, under any plan of failures, keeps the counters equal to the live objects, each handle on its own live token of its kind and length, submits equal to waits, and whole-word handles inside their buffers |
| `MetalInvariant.NextKeeps` | macos-arm64/src/metal_host.rs:1657-1923 | every single call keeps that, refused or failed included |
| `MetalInvariant.WrappedSlotOk` | macos-arm64/src/metal_host.rs:1682-1697 | a wrapped buffer keeps a whole-word handle inside it |
| `MetalGuarantees.RunAccounting` | macos-arm64/src/metal_host.rs:600-620 | live handles are loads minus releases plus allocations minus releases, over every call sequence |
| `MetalGuarantees.NoOrphans` | crates/host-device-core/src/device_registry.rs:39-89 | every live driver object belongs to a registered handle |
| `MetalGuarantees.NextSubmits` | macos-arm64/src/metal_host.rs:1913-1923 | submits and waits grow together, by one, exactly when a call flushes while encodes are pending, its own included; only an accepted launch or add leaves an encode |
| `MetalGuarantees.SubmitsCarryEncodes` | macos-arm64/src/metal_host.rs:1913-1923 | over any run there are no more submits than successful encodes |
| `MetalGuarantees.AdmittedReachesKernel` | macos-arm64/src/metal_host.rs:813-867 | a launch the session admits for whole-word handles is never refused by the driver bounds check |
| `MetalGuarantees.CopyThenReadback` | macos-arm64/src/metal_host.rs:876-890 | after a successful copy into a whole-word handle a readback returns the handle length starting with the bytes copied in, unless it is made to fail |
| `MetalGuarantees.ShortCopyPads` | macos-arm64/src/metal_host.rs:695-722 | a short slice outside every mapping is read back followed by zeros up to the length of the handle |
| `MetalGuarantees.LaunchThenReadback` | macos-arm64/src/metal_host.rs:813-890 | after an accepted launch whose kernel rewrites a slot, a readback of the handle bound there returns the new bytes |
| `MetalGuarantees.WriteMeans` | macos-arm64/src/metal_host.rs:1732-1853 | a kernel write changes the bytes of the one buffer it is bound to, in place |
| `MetalGuarantees.LaunchesInSlotOrder` | macos-arm64/src/metal_host.rs:813-867 | bindings reach the driver in the order of their declared indices, exactly when those are a permutation |
| `MetalGuarantees.CopyPersists` | macos-arm64/src/metal_host.rs:656-909 | those bytes are still read back after any run that neither copies into, binds nor releases the handle |
| `MetalGuarantees.RunIsolated` | macos-arm64/src/metal_host.rs:656-909 | over such a run the handle keeps its registration and its buffer every byte |
| `MetalGuarantees.AllocThenReadback` | macos-arm64/src/metal_host.rs:1666-1680 | a fresh buffer reads back as zeros of its length |
| `MetalGuarantees.AddThenReadback` | macos-arm64/src/metal_host.rs:724-747 | after an accepted elementwise add a readback of the output holds, word by word, the sum of what readbacks of the operands returned before, also when operands and output are the same handle |
| `MetalGuarantees.AddEncodesIff` | macos-arm64/src/metal_host.rs:1393-1427 | the driver accepts an add the session admits exactly when nothing lies behind the bytes of the output |
| `MetalGuarantees.ReleasedStaysDead` | crates/host-device-core/src/device_registry.rs:70-76 | a released id is never live again in any later state |
| `MetalGuarantees.HandleStaysLive` | crates/host-device-core/src/device_registry.rs:64-76 | a live handle keeps its kind and token until it is released |
| `MetalGuarantees.UnalignedHandleRefused` | macos-arm64/src/metal_host.rs:695-722 | a six-byte handle over a three-byte mapped tail is admitted by the session and refused by the driver |
| `MetalGuarantees.CopyAgreesIff` | macos-arm64/src/metal_host.rs:695-722 | after a successful copy into a handle of any length, the driver composes every binding the session admits for it exactly when the pages wrapped for the slice cover the bytes of the handle or, where nothing is wrapped, when its buffer already had room |
| `MetalGuarantees.HandleAgreesIff` | macos-arm64/src/metal_host.rs:813-867 | in every reachable state the driver composes every binding the session admits for a handle exactly when the buffer behind it has room for the handle |
| `MetalHost.FakeMetalDriver.MaybeFail` | macos-arm64/src/metal_host.rs:1354-1363 | a stage fails exactly at its configured call |
| `MetalHost.FakeMetalDriver.CopyInto` | macos-arm64/src/metal_host.rs:1682-1712 | a copy wraps mapped slices and otherwise overwrites an owned buffer of the same size |
| `MetalHost.FakeMetalDriver.LaunchKernelBound` | macos-arm64/src/metal_host.rs:1732-1853 | every range is composed before the kernel runs; an encode adds one pending |
| `MetalHost.FakeMetalDriver.LaunchElementwiseAdd` | macos-arm64/src/metal_host.rs:1714-1730 | the output is overwritten word by word behind its remainder, no stage is counted and one encode is left pending |
| `ElementwiseAdd.SummedAt` | macos-arm64/src/metal_host.rs:1420-1425 | every word below the bound is the sum of the operands' words, all other bytes stay |
| `MetalHost.FakeMetalDriver.CopyOut` | macos-arm64/src/metal_host.rs:1861-1875 | a readback flushes before it can fail and reads behind the remainder |
| `MetalHost.MetalHostSession.CopyInBytes` | macos-arm64/src/metal_host.rs:695-722 | a slice up to 3 bytes short is tried as it is and then zero-padded |
| `MetalHost.MetalHostSession.LaunchKernelBound` | macos-arm64/src/metal_host.rs:813-867 | bindings are ordered, admitted one by one and handed on in slot order |
| `MetalHost.MetalHostSession.LaunchElementwiseAdd` | macos-arm64/src/metal_host.rs:724-747 | every handle is checked, sizes must be equal whole words, and the add is synced at once |
| `MetalHost.MetalHostSession.Release` | macos-arm64/src/metal_host.rs:904-909 | the registration goes before the driver frees the token |
| `MetalHost.MetalHostSession.Execute` | macos-arm64/src/metal_host.rs:549-909 | the session object takes exactly the states of the run and keeps the invariant |
| `TensorShape.ElementCountIff` | wasm/src/collections.rs:123-128 | the count is the product, given exactly when no dimension is negative and no prefix product reaches 2^64 |
| `TensorShape.TensorFlatOffset` | wasm/src/collections.rs:133-149 | the reverse loop returns the row-major offset exactly for indices in bounds of a shape whose product fits |
| `TensorShape.FlatOffsetIff` | wasm/src/collections.rs:130-149 | an offset exists exactly for indices in bounds of a shape with a count, and lies below the count; no other overflow can occur |
| `TensorShape.OffsetOfUnflatten` | wasm/src/collections.rs:133-149 | every position below the count has an index in bounds that leads back to it |
| `TensorShape.UnflattenOfOffset` | wasm/src/collections.rs:133-149 | every index in bounds is the one at its offset: the offset is a bijection |
| `TensorShape.OffsetMonotone` | wasm/src/collections.rs:133-149 | row-major order is lexicographic order |
| `Tensor.SliceGet` | llvm/src/tensor.rs:448-494 | reading row i of an axis-0 slice reads row start + i of the tensor, and rows past the slice read nothing |
| `Tensor.SliceSound` | llvm/src/tensor.rs:448-494 | a sound tensor has exactly the slices within axis 0, and each is sound |
| `Tensor.SetThenGet` | llvm/src/tensor.rs:344-374 | a write succeeds exactly in bounds and changes what that index reads and nothing else |
| `Tensor.GetExact` | llvm/src/tensor.rs:320-341 | an index in bounds reads its row-major element, one with a negative part is refused, any other reads nothing |
| `Tensor.ReshapeGet` | llvm/src/tensor.rs:297-317 | a read of the reshaped tensor gives the element the original tensor has at the same row-major position, and the reshaped tensor is sound |
| `Tensor.FilledGet` | llvm/src/tensor.rs:179-207 | every index in bounds of a created or filled tensor reads the fill |
| `TensorArena.RuntimeContext.Create` | llvm/src/tensor.rs:179-207 | creation is refused exactly for other kinds and shapes without a count; other tensors do not change |
| `TensorArena.RuntimeContext.FromFlat` | llvm/src/tensor.rs:210-246 | building from a flat list needs equal kinds and an exact count |
| `TensorArena.RuntimeContext.Reshape` | llvm/src/tensor.rs:297-317 | reshape stores a copy of equal count; the receiver keeps its shape |
| `TensorArena.RuntimeContext.SetElement` | llvm/src/tensor.rs:344-374 | a write in place is seen through its own handle only |
| `TensorArena.RuntimeContext.Fill` | llvm/src/tensor.rs:378-407 | fill stores a new tensor and leaves the receiver alone |
| `TensorArena.RuntimeContext.Slice` | llvm/src/tensor.rs:448-494 | slice stores a copy of the rows exactly when they exist |
| `TensorArena.RuntimeContext.GetElement` | llvm/src/tensor.rs:320-341 | reading through a handle reads that tensor, and fails for an unknown handle |
| `CliDescriptor.DescriptorRoundTrip` | llvm/src/cli.rs:1210-1255 | decoding a laid-out descriptor returns it and leaves exactly what follows |
| `CliDescriptor.CommandRoundTrip` | llvm/src/cli.rs:1308-1334 | a command is recovered; the function identity and args binding are read past |
| `CliDescriptor.OptRoundTrip` | llvm/src/cli.rs:1276-1291 | an option with all optional parts is recovered whatever follows |
| `CliDescriptor.DefaultRoundTrip` | llvm/src/cli.rs:1389-1405 | each tagged default is recovered |
| `CliDescriptor.ExitRoundTrip` | llvm/src/cli.rs:1257-1274 | each exit policy is recovered; the object half of a field exit is read past |
| `CliDescriptor.TextRoundTrip` | llvm/src/cli.rs:1375-1379 | a UTF-8 string with its u16 length is recovered |
| `CliDescriptor.ValidUtf8Iff` | llvm/src/cli.rs:1370-1380 | strings are accepted exactly when they are encodings of Unicode scalar values |
| `CliDescriptor.MagicSpelling` | llvm/src/cli.rs:1210-1218 | a descriptor starts with `FCLI` and version 1 |
| `CliReader.DescrReader.Take` | llvm/src/cli.rs:1344-1355 | a read moves the offset by its length and never past the end |
| `CliReader.DescrReader.Decode` | llvm/src/cli.rs:1210-1255 | on any input the reader returns what the layout decodes and its offset stays within the input |
| `CliReader.DecodeLaidOut` | llvm/src/cli.rs:1210-1255 | a laid-out descriptor with any trailing bytes is decoded with the reader exactly at its end |
| `CliRoundTrip.ScanRendered` | llvm/src/cli.rs:584-636 | rendered options, in the inline, separate and short forms and flags among them, a terminator and positionals scan back to exactly what was given, every other entry unchanged, and those positionals |
| `CliRoundTrip.AssignedAt` | llvm/src/cli.rs:584-636 | an option nobody gave keeps its entry and one given once holds what it was given: true for a flag, the parsed value otherwise |
| `CliRoundTrip.FlagsGiven` | llvm/src/cli.rs:806-838 | a flag given once or more is true |
| `CliRoundTrip.FlagReads` | llvm/src/cli.rs:819-826 | a flag by its long name takes no argument and turns its entry on |
| `CliParse.ParseI64Iff` | llvm/src/cli.rs:845-850 | a text parses as an integer exactly when it spells it: sign, leading zeros, decimal digits, within i64 |
| `CliParse.InitialOptionEntry` | llvm/src/cli.rs:638-730 | defaults: a flag is on only by a true default, a typed default keeps its value, an option without default is an empty carrier |
| `CliParse.ApplyNamed` | llvm/src/cli.rs:732-838 | the first option with the name is applied: a flag takes nothing, a value comes inline or from the next argument |
| `CliParse.TagsAndWords` | llvm/src/cli.rs:31-37 | the type tags, and the words the scan compares with |
| `CliRoundTrip.TextValuesRoundTrip` | llvm/src/cli.rs:584-636 | any values of text options, in either form, come back: an option assigned once holds exactly its text, an unassigned one its default, and the positionals are those given |
| `CliRoundTrip.FormsAgree` | llvm/src/cli.rs:806-838 | all forms of writing the same options and values give the same entries |
| `CliRoundTrip.ReservedNameShadowed` | llvm/src/cli.rs:594-606 | the separate form of a name that reads as the terminator, help or version is never read as the option |
| `CliRoundTrip.SeparateFormIff` | llvm/src/cli.rs:594-606 | the separate form of a value option is read as that option, whatever follows, exactly when its name is not reserved |
| `CliRoundTrip.HelpOptionShadowed` | llvm/src/cli.rs:594-606 | a text option named help: `--help x` shows the help, `--help=x` sets the option |
| `CliRoundTrip.SplitAtFirst` | llvm/src/cli.rs:740-743 | a long option splits at its first `=` |
| `CliParse.ScanArguments` | llvm/src/cli.rs:592-621 | the loop over an index and a table written in place computes the scan |
| `CliSurface.ParseSurface` | llvm/src/cli.rs:563-636 | parsing is the scan, then operand assignment, options before operands in the record; a refusal names the first thing refused |
| `CliSurface.SurfaceRoundTrip` | llvm/src/cli.rs:563-636 | rendered assignments and positionals parse to those assignments, defaults elsewhere, and operands made of exactly those positionals |
| `CliSurface.FlagsRoundTrip` | llvm/src/cli.rs:563-636 | given flags are true in the parsed record, absent ones only by a true default |
| `CliSurface.TextSurfaceRoundTrip` | llvm/src/cli.rs:563-636 | for text options any values come back in the parsed record, and parsing succeeds exactly when the operands can take the positionals |
| `CliOperands.OperandsConserve` | llvm/src/cli.rs:877-907 | whenever assignment succeeds every positional is consumed exactly once, in order |
| `CliOperands.AssignOperands` | llvm/src/cli.rs:877-907 | assignment succeeds exactly when the operands can take every positional; otherwise the first operand that cannot be made, or the first positional left over, is named |
| `CliOperands.AssignsUnique` | llvm/src/cli.rs:877-907 | the entries are determined by the operands and positionals |
| `CliOperands.SelectCommand` | llvm/src/cli.rs:513-556 | the longest matching path or alias is selected, the earliest command on ties, and none exactly when nothing matches |
| `CliOperands.MatchesMeans` | llvm/src/cli.rs:513-552 | a command matches by its own path or by the parts of an alias |
| `CliOperands.AliasPartsOfSlashed` | llvm/src/cli.rs:554-556 | an alias written from parts splits into those parts, whatever slashes surround them |
| `CliOperands.SlashSpelling` | llvm/src/cli.rs:554-556 | aliases are split at `/` |
| `CollectionValues.EqualIsMeaning` | llvm/src/collection_map.rs:667-690 | on readable values host equality is equality of what they stand for |
| `CollectionValues.ReflexiveIffReadable` | llvm/src/collection_map.rs:667-690 | a value equals itself exactly when it is readable |
| `CollectionValues.AlgebraRefines` | llvm/src/collection_map.rs:520-575 | union, intersection, difference and symmetric difference compute the mathematical result without duplicates |
| `CollectionValues.SubsetIff` | llvm/src/collection_map.rs:577-598 | subset and superset decide mathematical inclusion |
| `CollectionValues.ProperSize` | llvm/src/collection_map.rs:474-483 | a duplicate-free list has as many members as its set |
| `CollectionValues.MembersGrow` | llvm/src/collection_map.rs:667-690 | what a collection stands for does not change as text memory grows |
| `CollectionValues.PushTwiceIff` | llvm/src/collection_map.rs:650-659 | adding a member twice is adding it once exactly when it is readable |
| `CollectionMap.PutRefines` | llvm/src/collection_map.rs:45-80 | putting updates the finite map at what the key means and keeps keys distinct |
| `CollectionMap.PutFoundIff` | llvm/src/collection_map.rs:45-80 | whatever the entries, a key that was put is found again exactly when it is readable |
| `CollectionMap.PutTwiceIff` | llvm/src/collection_map.rs:45-80 | putting a key twice overwrites exactly when the key is readable; an unreadable one is stored once more by each put |
| `CollectionMap.NullTextStoredTwice` | llvm/src/collection_map.rs:45-80 | the null text pointer put twice into an empty map is stored twice and found neither time |
| `CollectionMap.PutKeepsUnique` | llvm/src/collection_map.rs:45-80 | no put makes two keys equal in the eyes of the host |
| `CollectionMap.MapGrows` | llvm/src/collection_map.rs:667-690 | a map stays sound and stands for the same finite map as text memory grows |
| `CollectionMap.DeleteRefines` | llvm/src/collection_map.rs:229-234 | deleting removes exactly what the key means |
| `CollectionMap.FindKeyIff` | llvm/src/collection_map.rs:127-190 | the linear search finds exactly the keys of the map, with their value |
| `CollectionMap.RuntimeMap.Put` | llvm/src/collection_map.rs:45-80 | the map object is updated in place exactly when both kinds match; a sound map put with a readable key becomes the updated finite map |
| `CollectionMap.RuntimeMap.Get` | llvm/src/collection_map.rs:127-190 | a lookup returns the value of the first equal key, which in a sound map is that of the finite map |
| `CollectionMap.RuntimeMap.Delete` | llvm/src/collection_map.rs:229-234 | deletion reports whether the key was there |
| `CollectionMap.RuntimeMap.Length` | llvm/src/collection_map.rs:237-245 | the length is the number of keys of the finite map |
| `CollectionMap.RuntimeSet.Add` | llvm/src/collection_map.rs:368-392 | adding inserts into the set in place, without duplicates |
| `CollectionMap.RuntimeSet.Delete` | llvm/src/collection_map.rs:435-471 | deleting removes exactly that member and reports whether it was there |
| `CollectionMap.RuntimeSet.Has` | llvm/src/collection_map.rs:435-471 | membership is membership of what the value stands for |
| `CollectionMap.RuntimeSet.FromArray` | llvm/src/collection_map.rs:396-416 | an array becomes the set of its elements, once each |
| `CollectionMap.RuntimeSet.UnionOf` | llvm/src/collection_map.rs:520-531 | the union of two sets of a kind is a new set; the operands do not change |
| `CollectionMap.RuntimeSet.SubsetOf` | llvm/src/collection_map.rs:577-587 | inclusion is decided for sets of the same kind only |

## Left out

Modelled in another form:

- Machine widths: u8 to u64, usize and i64 are integers with their ranges, usize is 64 bits wide. Counters that the code
  increments once per call (tokens, ids, loads, submits, stage calls) are unbounded.
- `BTreeMap` and `BTreeSet` are maps and sets; where their iteration order is observable it is the sorted listing.
- Error values keep their kind and the facts a caller can test; message texts are not modelled.
- Strings are their UTF-8 bytes. Arguments arrive already decoded.
- The page mask `addr & !(page - 1)` is `addr - addr % page`, which is equal for the powers of two the code insists on.
- Handles of arena objects and of tensors are positions, not addresses.

- TransactionBackend.DeviceRuntimeBackend.SumWrites: the u64 sum in `retire` wraps, as in a release build; a debug build panics instead.
- TransactionBackend.DeviceRuntimeBackend.HostStageCopy: the transport adapter between the two devices is one call that may fail; its chunking and timeouts are not modelled, and a readback or copy that is not byte-exact counts as that call failing.
- BoundPlan.Bind: the bound hash is computed by an external SHA-256 crate in the code; the model uses the verified digest.
- DistributedTranslate.BindTranslatedWithConstraints: the translated plan is the input, with fewer than 2^64 - 14 partitions and snapshot devices below 2^64.
- DistributedTranslate.BindDeclared: covers the device-count policy and the bind of `prepare_distributed_image`, not image decoding before it; the legal inputs and the blocks are stated for distinct partitions and, where each claims a device, distinct devices none of them made up; for all other inputs success is that of the bind's stages, and of promotion PromotionSucceedsIff.
- DistributedTranslate.OneDeviceBindsAsTwo: a family of samples of one device; the general statement is PromotionSucceedsIff.
- MetalHost.FakeMetalDriver.LaunchKernelBound: what a kernel computes, entry tables and arities are a given outcome: a refusal, or at most one buffer rewritten in place at its size.
- MetalHost.FakeMetalDriver.CopyInto: reads a wrap's bytes from the mapping's contents; the mapping itself is given.
- MetalHost.MetalHostSession.Execute: a session over the fake driver is always admitted, so the admission check at metal_host.rs:916-924 never refuses; upload counts, environment reports and timestamps are not calls of the model; the f32 copies and readbacks are the byte ones.
- MetalHost.FakeMetalDriver.LaunchElementwiseAdd: what f32 addition gives on two words is a given function on their bytes.
- MmapWrap.WrapForSound: for mappings that end below the last address, as every aligned mapping of whole pages does (AlignedIsMapping).
- DeviceHost.Resolve: the descriptor's own validation (`KvCacheDescriptor::validate` in another crate) is a given yes or no.
- DeviceHost.ValidateLaunch: the same given validation.
- Tensor.GetExact: indices are i64 vectors already read from an integer list.
- TensorArena.RuntimeContext.Create: reading the fill value through a pointer and null contexts are not modelled; `tensor_shape_has_element_count` of the faber crate is taken as equality with the element count.
- CliParse.ScanArguments: which texts parse as f64, and to what, is a given table; store failures of the arena do not occur.
- CliRoundTrip.ScanRendered: for options whose value parses.
- CollectionMap.RuntimeMap.Put: the finite map is stated for lists of readable keys; what an unreadable one does to the list is PutTwiceIff.

Not modelled:

- FMIR wire decoding and admission, and the coordinator's transaction object that drives the backend.
- The Metal and CUDA drivers, `mmap`, GPU timestamps, kernel numerics and the simulated fused carrier.
- Raw pointers, FFI status wrappers, unwinding and alignment checks.
- Device topology links and the link gate, health generation arithmetic, hex display: one branch each.
- Float element arithmetic, tensor conversion, reductions and matrix products; float keys in maps and sets, whose equality is not reflexive.
- Help and version printing, the dispatcher that splits arguments after an alias match, and reading fields of the parsed table.
- Capability tables, manifests, wasm outcome categories, providers and the random generator.
- Map key and value snapshots, and the direct text-key setter, which repeats the put.
