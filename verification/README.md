# Chtholly: verified models of the component runtime and its tools

Chtholly is a compiler with a component runtime. This project models the parts of it whose correctness is
easy to get wrong, and proves what each of them promises, for every input and every run:

- the two **component loaders**, as state machines over any number of threads (`LoaderV1.dfy`, `LoaderV2.dfy`);
- the **resource lease** behind the second loader and the **payload transport** on it (`ResourceLease.dfy`,
  `PayloadTransport.dfy`, `PayloadQueue.dfy`);
- the **transparency log's Merkle proofs**: generated proofs are accepted, accepted proofs show a prefix or a
  member, or a hash collision (`MerkleTree.dfy`, `MerkleProofs.dfy`);
- the **streaming SHA-256** hasher against FIPS 180-4, down to its constants (`Sha256.dfy`, `Sha256Spec.dfy`,
  `Sha256Constants.dfy`, `Primes.dfy`, `Words.dfy`);
- the loader's **UTF-8 check** against RFC 3629 and its **descriptor verifier** (`Utf8.dfy`, `Descriptor.dfy`,
  `ContractSharing.dfy`, `Exports.dfy`, `Hex.dfy`);
- the **artifact cache report**: roots, reachability marking and byte accounting (`ArtifactNames.dfy`,
  `ArtifactReferences.dfy`, `ArtifactCache.dfy`, `ArtifactReport.dfy`, `Strings.dfy`);
- the **test runner**: Windows argument quoting, the manifest line format and the parallel scheduler
  (`CommandLine.dfy`, `Manifest.dfy`, `ManifestLanguage.dfy`, `Scheduler.dfy`);
- the **language server's** matching of results to requests (`LanguageServer.dfy`, `RequestIds.dfy`);
- the **id stores, worklist, diagnostics and source index** of the compiler (`Interning.dfy`,
  `DenseWorklist.dfy`, `Diagnostics.dfy`, `SourceBuffer.dfy`);
- the **telemetry** example's frame parser and accounting (`TelemetryFrames.dfy`, `Telemetry.dfy`).

How the models are built. A C++ object that updates its fields is a class with those fields; each of its methods
is proved equal to a function of the old state (or to a specification of its result), and the theorems are lemmas
about those functions. Code that runs concurrently is cut at its critical sections: a class method runs one section,
a `Step` function interleaves the sections of any number of threads, and an inductive invariant gives the theorems
about all runs. Waiting for a mutex is a step of its own where it matters. Machine integers are written out: 64-bit counters wrap (`Inc64`, `Dec64`,
`Add64`, `Sub64`), words are naturals below 2^32 with bitwise operations defined bit by bit.

Some promises hold only under a condition. It is exact, or a run or an input that breaks it is given:

- `CommandLine.ChildReceivesArguments`: the quoted command line gives the child its arguments if and only if no
  argument contains a NUL character.
- `LanguageServer.CancellationIsExact`: in a run of the server every registered request is found by its id at every
  state if and only if no request was registered under the key of one that still was. Clients that follow the
  protocol meet the condition (`ProtocolMakesCancellationWork`); `SharedKeyFails` is a run in which one request
  first takes over another's entry and its completion then erases it. Answers stay right in either case.
- `LoaderV1.DeleteIsSafeExactlyAlone`, `LoaderV2.DeleteIsSafeExactlyAlone`: a granted release can delete the module
  without a later use of it if and only if no other thread is inside the loader: none waits for the mutex, holds it
  (ABI 2 reads `closed` without it), or has been granted a release too. `ReleaseCanRaceWithCloser`,
  `ReleaseCanRaceWithClose` and `ReleaseCanRaceWithWaiter` are runs that fail; clients that release only when alone
  are safe in every run (`OrderlyClientsAreSafe`).
- `LeaseHistories.DestroyResult`: a closed lease without tokens is destroyed if and only if the number of transports
  open on it is a multiple of 2^32, which is more than zero in the run of `ManyTransportsOutliveTheLease`.
- `Telemetry.ProcessFrames`: the signed total cannot overflow on up to 2^32 frames, and on one more it can
  (`OneFrameMoreCanOverflow`).
- `Descriptor.ContractTextIsInjective`: newline-free identities and names make the canonical contract text
  injective. The verifier accepts newlines, and then two accepted components with different exports
  (`AcceptedContractsCanCollide`), or with different identities (`AcceptedIdentitiesCanCollide`), share their
  contract digest. Which component shares its text is exact for plain ones
  (`ContractSharing.PlainContractIsSharedExactlyWithRoom`): those with room for 131 bytes between two neighbouring
  names, or between the identity and the first of several.

`dafny verify dfyconfig.toml` checks the whole project.

## Model

| member | source | states |
|---|---|---|
| LoaderV1.ComponentModule.Admit | runtime/src/component_loader_v1.cpp:457-472 | admitting a call: refused while closing or without a match, otherwise the first matching export and one more active call |
| LoaderV1.ComponentModule.Finish | runtime/src/component_loader_v1.cpp:474-479 | finishing a call: one active call less, closers notified exactly when none is left |
| LoaderV1.ComponentModule.Invoke | runtime/src/component_loader_v1.cpp:446-486 | a whole invocation of a thread alone: Closing, ExportNotFound, InvokeFailed and OK are answered each exactly for its cause, the first export with the id runs, and the fields are left as they were |
| LoaderV1.ComponentModule.CloseLibrary | runtime/src/component_loader_v1.cpp:187-199 | the library handle is dropped exactly when the platform grants the unload or there is no library |
| LoaderV1.ComponentModule.Close | runtime/src/component_loader_v1.cpp:501-513 | closing up to the first wait |
| LoaderV1.ComponentModule.Resume | runtime/src/component_loader_v1.cpp:503-513 | a woken closer: sleeps again while calls are active, otherwise unloads once and closes, or reports the refusal |
| LoaderV1.StepKeepsInv | runtime/src/component_loader_v1.cpp:401-538 | every critical section of every thread keeps the loader's invariant |
| LoaderV1.EveryRunIsSafe | runtime/src/component_loader_v1.cpp:401-538 | in every interleaving active_calls is the number of threads inside a call, each of them sees the library loaded and runs the export it asked for, the library is unloaded at most once, and neither a null descriptor nor unloaded code is used |
| LoaderV1.NoLostWakeup | runtime/src/component_loader_v1.cpp:474-503 | a sleeping closer always has a call to wait for, and the end of a call wakes it if and only if no other is left |
| LoaderV1.ClosingDrains | runtime/src/component_loader_v1.cpp:459-479 | once closing is set it stays set and no call is admitted: calls in flight plus calls finished since then are constant |
| LoaderV1.ClosedIsTerminal | runtime/src/component_loader_v1.cpp:500-512 | after closed no step changes a field or unloads again |
| LoaderV1.AdmissionResult | runtime/src/component_loader_v1.cpp:457-472 | in every run a call is refused exactly when the module is closing or no export has the id; otherwise the first one with the id is entered and one more call is counted |
| LoaderV1.CloseResult | runtime/src/component_loader_v1.cpp:501-515 | what each answer of close means, in both directions, over reachable states |
| LoaderV1.IntrospectionResult | runtime/src/component_loader_v1.cpp:401-444 | export count and export info answer from the loaded descriptor until closing is set, with each status for its cause; the copied fields are those of the export, and the name arrives zero-terminated with the rest of the buffer unchanged |
| LoaderV1.ReleaseExactlyWhenClosed | runtime/src/component_loader_v1.cpp:523-533 | release is granted exactly on a closed module, with no call in flight and no closer asleep |
| LoaderV1.DeleteIsSafeExactlyAlone | runtime/src/component_loader_v1.cpp:501-533 | after a granted release some thread inside the loader can use the deleted module if and only if another one waits for the mutex, is a woken closer, or was granted a release too |
| LoaderV1.OrderlyClientsAreSafe | runtime/src/component_loader_v1.cpp:446-533 | with clients that release only when alone, and begin nothing else meanwhile, no run uses the deleted module |
| LoaderV1.ReleaseCanRaceWithCloser | runtime/src/component_loader_v1.cpp:474-533 | a run in which one of two woken closers closes and releases the module and the other takes its deleted mutex |
| LoaderV1.WaitingCloserCanFinish | runtime/src/component_loader_v1.cpp:495-515 | a waiting closer is never stuck: a schedule of bounded length unloads the library |
| LoaderV1.FailedUnloadCanBeRetried | runtime/src/component_loader_v1.cpp:504-511 | a refused unload changes nothing but closing, and a later close can succeed |
| ResourceLease.AcquireKeepsLease | runtime/src/Host/next_resource_lease_v2.c:97-138 | a token is granted if and only if the lease is not ended, an exclusive one has no user, both counters have room and the record can be allocated; it is a fresh generation, and a refusal changes nothing |
| ResourceLease.ReleaseKeepsLease | runtime/src/Host/next_resource_lease_v2.c:140-165 | only the token given back goes, and only a lease in use without another token becomes available again |
| ResourceLease.EndingKeepsLease | runtime/src/Host/next_resource_lease_v2.c:167-189 | beginning a close and quiescing change the state only, and quiescing succeeds if and only if a close has begun and no token is active |
| LeaseHistories.StepKeepsInv | runtime/src/Host/next_resource_lease_v2.c:97-251 | every use of a lease keeps its state, its tokens and its transport counter in agreement |
| LeaseHistories.ExclusiveIsExclusive | runtime/src/Host/next_resource_lease_v2.c:97-165 | in every history at most one token of an exclusive lease is in use, and no history changes the policy |
| LeaseHistories.LeaseAnswers | runtime/src/Host/next_resource_lease_v2.c:97-189 | in every history: exactly when a token is granted, when a transport may be opened, and when quiescing succeeds, in terms of the tokens that users hold |
| LeaseHistories.DestroyResult | runtime/src/Host/next_resource_lease_v2.c:191-205 | destroy answers OK if and only if the lease is closed, no token is active and the number of open transports is a multiple of 2^32; with fewer open at once no transport outlives its lease |
| LeaseHistories.ManyTransportsOutliveTheLease | runtime/src/Host/next_resource_lease_v2.c:191-428 | a run in which a lease with 2^32 open transports is destroyed and one of them uses it |
| PayloadQueue.Queue.Append | runtime/src/Host/next_resource_lease_v2.c:490-491 | a node becomes the last of the linked list |
| PayloadQueue.Queue.TakeHead | runtime/src/Host/next_resource_lease_v2.c:514 | the first node leaves the linked list |
| PayloadQueue.Queue.PutBack | runtime/src/Host/next_resource_lease_v2.c:516-518 | a node becomes the first of the linked list |
| PayloadQueue.Queue.TryTake | runtime/src/Host/next_resource_lease_v2.c:513-520 | the head is taken, or taken and put back with the queue as it was |
| PayloadQueue.Queue.DropAll | runtime/src/Host/next_resource_lease_v2.c:581-583 | a close empties the list and visits every payload once, in order |
| PayloadTransport.StepKeepsInv | runtime/src/Host/next_resource_lease_v2.c:454-604 | every section of senders, receivers and closers, and every other use of the lease, keeps the transport's invariant |
| PayloadTransport.RoomIsBounded | runtime/src/Host/next_resource_lease_v2.c:454-521 | in every run queue and reservations stay within the capacity, and the counters are what they count |
| PayloadTransport.PayloadsKeepTheirOrder | runtime/src/Host/next_resource_lease_v2.c:490-521 | receivers get a prefix of the commits in their order, and the queue is the end of that list |
| PayloadTransport.EveryPayloadIsSomewhere | runtime/src/Host/next_resource_lease_v2.c:490-590 | every payload committed is in exactly one place: queued, being dropped by a close, in the hands of one receiver, or received or dropped |
| PayloadTransport.FatesAreFinal | runtime/src/Host/next_resource_lease_v2.c:490-590 | over every run a payload received or dropped stays so, and the orders only grow |
| PayloadTransport.SendResult | runtime/src/Host/next_resource_lease_v2.c:454-472 | a send is accepted if and only if the transport is open, fewer payloads wait or are promised than it holds, and the lease grants a token; a refused one changes nothing |
| PayloadTransport.CommitResult | runtime/src/Host/next_resource_lease_v2.c:473-485 | a commit is turned away if and only if the transport was closed meanwhile |
| PayloadTransport.MovedResult | runtime/src/Host/next_resource_lease_v2.c:486-494 | the payload moved becomes the last of the queue, one reservation and the token go |
| PayloadTransport.CancelResult | runtime/src/Host/next_resource_lease_v2.c:495-503 | a send given up frees its place and leaves the queue alone |
| PayloadTransport.ReceiveResult | runtime/src/Host/next_resource_lease_v2.c:507-522 | a receiver gets the oldest payload not yet handed out, if and only if one waits and the lease grants a token; otherwise nothing changes |
| PayloadTransport.SettleResult | runtime/src/Host/next_resource_lease_v2.c:523-556 | a payload in a receiver's hands is that of its position in the order of commits and not yet settled; a copy or a take settles it as received, a cancellation as dropped |
| PayloadTransport.OthersAcquireResult | runtime/src/Host/next_resource_lease_v2.c:97-138 | another user of the lease gets a token if and only if the lease grants one |
| PayloadTransport.OthersEndResult | runtime/src/Host/next_resource_lease_v2.c:167-189 | a close or quiescing of the lease from elsewhere changes its state only, and succeeds exactly when it may |
| PayloadTransport.EveryTokenReturnsOnce | runtime/src/Host/next_resource_lease_v2.c:454-590 | every lease token handed out is active in one place or has been given back, none is given back twice, and on an exclusive lease at most one is active |
| PayloadTransport.CloseResult | runtime/src/Host/next_resource_lease_v2.c:571-590 | a close marks the transport and its lease, takes the queue away exactly when no token is active and no other close is at it, and then ends quiescent |
| PayloadTransport.DestroyResult | runtime/src/Host/next_resource_lease_v2.c:597-604 | destroy succeeds exactly when quiescent, and then every payload has its fate, no token is left, and the lease can be destroyed |
| PayloadTransport.TransportCanBeDestroyed | runtime/src/Host/next_resource_lease_v2.c:473-604 | from every state a schedule bounded by active tokens and waiting payloads ends with the transport destroyed |
| LoaderV2.ComponentModule.Invoke | runtime/src/component_loader_v2.cpp:158-217 | a whole invocation of a thread alone: Closing, DescriptorMismatch, NotReady, OperationFailed and OK are answered each exactly for its cause, in terms of the request, the lease and the memory; it leaves one lease token more, that of the operation it hands out, or none |
| LoaderV2.ComponentModule.CloseModule | runtime/src/component_loader_v2.cpp:219-246 | a whole close answers OK if and only if it was closed, or the provider agreed and nobody else held the module, and then everything has been let go |
| LoaderV2.ComponentModule.Retain | runtime/src/component_loader_v2.cpp:247-255 | an owner reference is refused if and only if the module is closed, or closing with none left; otherwise one more is counted |
| LoaderV2.ComponentModule.Unretain | runtime/src/component_loader_v2.cpp:256-261 | one owner reference less, and never below zero |
| LoaderV2.OperationKeepsLease | runtime/src/Host/next_resource_lease_v2.c:97-276 | beginning an operation hands out a fresh token if and only if the lease grants one and there is memory, and keeps the lease's invariant |
| LoaderV2.StepKeepsInv | runtime/src/component_loader_v2.cpp:152-265 | every section of every thread, and every completion of an operation, keeps the invariant; after closing it only lets go |
| LoaderV2.EveryRunIsSafe | runtime/src/component_loader_v2.cpp:152-265 | a provider close never overlaps a provider invoke or another close, provider code runs only while library and lease exist, tokens never outlive the lease, an exclusive module has at most one operation outstanding, live owners keep the library, one unload at most |
| LoaderV2.InvokeResult | runtime/src/component_loader_v2.cpp:158-207 | in every run an invocation is refused exactly when the module is closing, its transport does not fit, or no operation can begin (memory, room, or another one of an exclusive module); otherwise it enters the provider with a token of its own |
| LoaderV2.OwnerResult | runtime/src/component_loader_v2.cpp:247-261 | in every run an owner reference is counted exactly when the module is not closed, nor closing with none left, and giving one back takes one away |
| LoaderV2.ClosedIsTerminal | runtime/src/component_loader_v2.cpp:219-261 | closed means no invocations, no owners, no lease, no library, forever |
| LoaderV2.ClosingOnlyShrinks | runtime/src/component_loader_v2.cpp:159-255 | after closing, invocations and tokens only disappear, and owners that reach zero stay at zero |
| LoaderV2.CloseResult | runtime/src/component_loader_v2.cpp:232-246 | close answers OK if and only if the provider agreed and neither owners nor operations are left |
| LoaderV2.CloseStartResult | runtime/src/component_loader_v2.cpp:222-228 | the provider's close is called if and only if nobody is inside the provider |
| LoaderV2.CloseCanFinish | runtime/src/component_loader_v2.cpp:208-261 | from every closing state a schedule of calls, provider returns and completions of operations, bounded by what still holds the module, ends with it closed |
| LoaderV2.DeleteIsSafeExactlyAlone | runtime/src/component_loader_v2.cpp:219-265 | once a release has read `closed`, some thread inside the loader can use the deleted module if and only if another one waits for the mutex, holds it, or has read `closed` too |
| LoaderV2.OrderlyClientsAreSafe | runtime/src/component_loader_v2.cpp:152-265 | with clients that release only when alone, and begin nothing else meanwhile, no run uses the deleted module |
| LoaderV2.ReleaseCanRaceWithClose | runtime/src/component_loader_v2.cpp:232-265 | a run in which a release between the last statement of close and its unlock deletes the mutex still held |
| LoaderV2.ReleaseCanRaceWithWaiter | runtime/src/component_loader_v2.cpp:219-270 | a run in which a closer that waits for the mutex gets it after the module was closed, unlocked and released |
| MerkleTree.DigestBytes | lib/Driver/Registry/RegistryTransparency.cpp:18-38 | the 32 bytes are returned whose lower-case hexadecimal digits the text is, and nothing for any other text |
| MerkleTree.DigestsAreHex | lib/Driver/Registry/RegistryTransparency.cpp:18-38 | a text passes and reads as some bytes if and only if it is their hexadecimal spelling |
| MerkleTree.NodeHash | lib/Driver/Registry/RegistryTransparency.cpp:40-49 | for the spellings of any 32 bytes a and b the SHA-256 text of 1, a, b; empty for other texts |
| MerkleTree.NodeTellsChildren | lib/Driver/Registry/RegistryTransparency.cpp:40-49 | equal node hashes have equal children, or the two inputs are a SHA-256 collision |
| MerkleTree.LargestPowerOfTwoLessThan | lib/Driver/Registry/RegistryTransparency.cpp:51-56 | the loop finds the power of two below the value and at least half of it |
| MerkleTree.RootSplits | lib/Driver/Registry/RegistryTransparency.cpp:58-67 | a tree built level by level from its leaves is the node of the trees on either side of the split |
| MerkleTree.MerkleRangeIsRoot | lib/Driver/Registry/RegistryTransparency.cpp:58-67 | the top-down recursion over a range computes the root of the levels |
| MerkleTree.InclusionRangeIsPath | lib/Driver/Registry/RegistryTransparency.cpp:69-83 | the generated inclusion proof is the siblings of the nodes above the leaf, from the leaves up |
| MerkleTree.ConsistencyRangeIsBridge | lib/Driver/Registry/RegistryTransparency.cpp:84-102 | the generated consistency proof is the last complete subtree of the old tree, unless the verifier knows it, and the siblings above it |
| MerkleProofs.GeneratedInclusionVerifies | lib/Driver/Registry/RegistryTransparency.cpp:256-301 | the generated proof of every leaf of every log is accepted, if and only if the log holds digests only |
| MerkleProofs.InclusionIsMembership | lib/Driver/Registry/RegistryTransparency.cpp:276-301 | an accepted inclusion proof is the generated one and its leaf is in the log at that index, or two messages collide |
| MerkleProofs.VerifyConsistency | lib/Driver/Registry/RegistryTransparency.cpp:318-366 | the loops over the bits of the last indices compute the two roots by recursion on the proof |
| MerkleProofs.GeneratedConsistencyVerifies | lib/Driver/Registry/RegistryTransparency.cpp:303-366 | the generated proof for every earlier size is accepted, if and only if the log holds digests only |
| MerkleProofs.ConsistencyIsPrefix | lib/Driver/Registry/RegistryTransparency.cpp:318-366 | an accepted consistency proof is the generated one and the old log is a prefix of the new, or two messages collide |
| MerkleProofs.RootTellsLevels | lib/Driver/Registry/RegistryTransparency.cpp:58-67 | logs of one size with one root are equal, or two messages collide |
| Words.OrOfDisjointBits | lib/Support/Digest.cpp:87-90 | or-ing parts without common bits adds them, which is what the byte-to-word shifts rely on |
| Words.RotateDigit | lib/Support/Digest.cpp:30-33 | a rotation moves every binary digit, the lowest ones to the top |
| Sha256.Hasher.constructor | lib/Support/Digest.cpp:139-144 | a new hasher has absorbed the empty message |
| Sha256.Hasher.ExpandBlock | lib/Support/Digest.cpp:84-100 | the in-place expansion computes the message schedule of FIPS 180-4 section 6.2.2 |
| Sha256.Hasher.RunRounds | lib/Support/Digest.cpp:102-128 | the 64 in-place rounds compute the working variables of the standard |
| Sha256.Hasher.Transform | lib/Support/Digest.cpp:83-137 | transform is the compression function on the state |
| Sha256.Hasher.Update | lib/Support/Digest.cpp:37-53 | the hasher has absorbed the old message followed by the data, whatever the split into blocks |
| Sha256.Hasher.HashTail | lib/Support/Digest.cpp:55-72 | padding and length, in one tail block or two, as section 5.1.1 pads the message |
| Sha256.Hasher.Finish | lib/Support/Digest.cpp:55-80 | the text is the hexadecimal SHA-256 digest of the message absorbed |
| Sha256.HashChunks | lib/Support/Digest.cpp:156-175 | any splitting of a message into updates gives the digest of the whole message |
| Sha256.HashText | lib/Support/Digest.cpp:149-154 | sha256Hex is the hexadecimal FIPS 180-4 digest |
| Sha256Spec.PaddingIsSmallest | lib/Support/Digest.cpp:56-72 | the zero bytes appended are the smallest padding that section 5.1.1 allows |
| Sha256Spec.ChDigit | lib/Support/Digest.cpp:113 | Ch of FIPS 180-4 section 4.1.2 chooses digit by digit |
| Sha256Spec.MajDigit | lib/Support/Digest.cpp:118 | Maj votes digit by digit |
| Sha256Spec.SumDigits | lib/Support/Digest.cpp:93-117 | the four sigma functions add up digits moved by the amounts of the standard, without carry |
| Sha256Spec.LengthField | lib/Support/Digest.cpp:68-71 | the eight length bytes spell the bit length |
| Primes.TableListsThePrimes | lib/Support/Digest.cpp:15-28 | the table behind the constants lists primes only, in order and without omissions, so they are the first sixty-four |
| Sha256Constants.RoundConstantsAreCubeRoots | lib/Support/Digest.cpp:15-28 | every round constant is the 32-bit fraction of the cube root of its prime |
| Sha256Constants.InitialHashIsSquareRoots | lib/Support/Digest.cpp:139-141 | every initial word is the 32-bit fraction of the square root of its prime |
| Hex.WriteHex | runtime/src/component_loader_v1.cpp:121-129 | the in-place hex writer spells each byte with two digits |
| Hex.ReadHex | runtime/src/component_loader_v1.cpp:109-119 | reading the digits of 32 bytes gives back the bytes |
| Hex.HexIsInjective | runtime/src/component_loader_v1.cpp:121-129 | different byte strings of one length have different hex texts |
| Utf8.CollectTails | runtime/src/component_loader_v1.cpp:94-99 | the masking and shifting loop accepts exactly continuation bytes and accumulates the code point |
| Utf8.ScanMultibyte | runtime/src/component_loader_v1.cpp:78-104 | one pass of the decoder accepts exactly the multi-byte characters of RFC 3629 section 4 |
| Utf8.ValidUtf8 | runtime/src/component_loader_v1.cpp:61-107 | true if and only if the value has 1 to 4096 bytes and encodes scalar values without controls, all ASCII if asked |
| Utf8.SyntaxIsEncoding | runtime/src/component_loader_v1.cpp:61-107 | the byte syntax of RFC 3629 section 4 is the image of the encoding of section 3: no overlong forms, surrogates or large values |
| Utf8.DecodingIsUnique | runtime/src/component_loader_v1.cpp:61-107 | an accepted value encodes one sequence of characters only |
| Descriptor.Memcmp | runtime/src/component_loader_v1.cpp:131-133 | the byte comparison decides equality and the order, both ways |
| Descriptor.DigestBytes | runtime/src/component_loader_v1.cpp:109-119 | the raw digest recovered from the hex text is the SHA-256 digest |
| Descriptor.VerifyExports | runtime/src/component_loader_v1.cpp:156-178 | exports pass if and only if all are well formed and their ids ascend, and the text built is the canonical contract text |
| Descriptor.VerifyDescriptor | runtime/src/component_loader_v1.cpp:135-185 | each verdict is given exactly for its cause, acceptance exactly for a consistent descriptor |
| Exports.FirstMatch | runtime/src/component_loader_v1.cpp:462-470 | the scan gives the first export with the id, and none only if there is none |
| Descriptor.IdsAreDistinct | runtime/src/component_loader_v1.cpp:161-173 | accepted exports have pairwise distinct ids |
| Descriptor.FirstMatchIsOnlyMatch | runtime/src/component_loader_v1.cpp:462-470 | the scan of invoke finds the only export with the id |
| Descriptor.ContractTextIsInjective | runtime/src/component_loader_v1.cpp:156-179 | for newline-free identities and names the contract texts are equal if and only if identity and contract are |
| Descriptor.NewlineInNameMergesExports | runtime/src/component_loader_v1.cpp:156-179 | with a newline in a name one accepted export reads like two accepted ones |
| Descriptor.NewlineInIdentityMergesExports | runtime/src/component_loader_v1.cpp:156-179 | with a newline in the identity the first of two exports can hide in it |
| Descriptor.MergedNamesCollide | runtime/src/component_loader_v1.cpp:135-185 | the two descriptors that differ so are both accepted and have one contract digest |
| Descriptor.MergedIdentitiesCollide | runtime/src/component_loader_v1.cpp:135-185 | the same for the identities |
| Descriptor.AcceptedContractsCanCollide | runtime/src/component_loader_v1.cpp:135-185 | every identity has two accepted components with one contract digest and different exports |
| Descriptor.AcceptedIdentitiesCanCollide | runtime/src/component_loader_v1.cpp:135-185 | every identity that leaves room shares a contract digest with another one, of different exports |
| ContractSharing.SharingNeedsRoom | runtime/src/component_loader_v1.cpp:135-185 | a plain contract whose text has another reading leaves room for a name, or the identity, to swallow the next export |
| ContractSharing.PlainContractIsSharedExactlyWithRoom | runtime/src/component_loader_v1.cpp:135-185 | a plain accepted component shares its contract text with an accepted one of another contract if and only if two neighbouring names, or the identity and the first of several, leave room for 131 bytes |
| Strings.JoinOfSplit | scripts/report-artifact-cache.py:171-173 | joining the parts of a path gives the path |
| Strings.SplitOfJoin | scripts/report-artifact-cache.py:171-173 | splitting joined parts gives the parts |
| ArtifactNames.SuffixTable | scripts/report-artifact-cache.py:47-57 | which families have which suffix, and no others |
| ArtifactNames.CanonicalPathIsUnique | scripts/report-artifact-cache.py:165-178 | outside the objects a digest has exactly one canonical path in a family |
| ArtifactNames.ObjectPathsAreOpen | scripts/report-artifact-cache.py:165-176 | an object is canonical for a digest if and only if its name goes on with a dot and something more after the digest |
| ArtifactNames.OnlyFamiliesAreCanonical | scripts/report-artifact-cache.py:165-178 | nothing outside the listed families is canonical |
| ArtifactNames.CanonicalFilesAreFiled | scripts/report-artifact-cache.py:159-178 | a canonical path, of an object or in another family, lies in its family and is named after its digest |
| ArtifactNames.NamedAfterDigest | scripts/report-artifact-cache.py:159-162 | a file is named after a digest if and only if its last part is the digest, alone or before a dot |
| ArtifactReferences.ParseFields | scripts/report-artifact-cache.py:134-150 | a map is returned if and only if the lines are the magic and one good line for each field, and it holds their values |
| ArtifactReferences.SpellingIsUnique | scripts/report-artifact-cache.py:134-150 | the lines of a reference determine its fields |
| ArtifactReferences.SessionReferencesAreRead | scripts/report-artifact-cache.py:284-295 | a session reference names a manifest if and only if it is one of its three fields under its magic, the others are good values, and the manifest is in the cache |
| ArtifactReferences.ActiveLeasesAreRead | scripts/report-artifact-cache.py:297-315 | the same for a lease, if it is locked, with a session fingerprint before the three fields |
| ArtifactReferences.RootPaths | scripts/report-artifact-cache.py:275-300 | of the files the walk lists, the session references are those at refs/x.ref and the leases those at leases/x.lease |
| ArtifactReferences.IndexFilesAreRead | scripts/report-artifact-cache.py:317-337 | an index file of each of the four kinds refers to an artifact if and only if it is the magic and one field with the digest of a canonical file in the target family |
| ArtifactReferences.BuildIndex | scripts/report-artifact-cache.py:252-259 | the dictionary holds for every digest exactly its canonical files, in order |
| ArtifactReferences.ReadRoot | scripts/report-artifact-cache.py:286-295 | a root file is accepted exactly when it names a manifest in the cache, and yields its canonical files |
| ArtifactReferences.CollectRoots | scripts/report-artifact-cache.py:284-315 | root collection succeeds exactly when all session references and locked leases are good, and then the roots are what they name; otherwise it reports the first bad session reference, or the first bad lease when there is none |
| ArtifactReferences.RootsAreCanonical | scripts/report-artifact-cache.py:292-295 | every root is a canonical file of the cache |
| ArtifactReferences.CheckIndexes | scripts/report-artifact-cache.py:317-341 | the index check passes exactly when every index file is canonical and refers to an artifact in its target family |
| ArtifactCache.RawDigestIsInjective | scripts/report-artifact-cache.py:357-362 | different digests have different raw markers |
| ArtifactCache.DigestsSpellBytes | scripts/report-artifact-cache.py:37-358 | the digests are the lower-case hexadecimal spellings of 32 bytes, and the marker of a digest is its bytes |
| ArtifactCache.ContainsIsInfix | scripts/report-artifact-cache.py:361 | a marker is found if and only if the bytes are something before it, the marker and something after |
| ArtifactCache.ZeroDigestIsZero | scripts/report-artifact-cache.py:355-358 | the digest that is never looked for is that of 32 zero bytes |
| ArtifactCache.Discover | scripts/report-artifact-cache.py:353-370 | one visited file marks exactly the canonical files whose non-zero digest occurs in its bytes, and queues the new ones |
| ArtifactCache.Mark | scripts/report-artifact-cache.py:346-370 | the worklist ends, with exactly the files reachable from a root by a chain of mentions, or with a reachable file that cannot be read |
| ArtifactCache.ClosedSetHoldsAlive | scripts/report-artifact-cache.py:343-370 | what is reachable lies in every closed set that holds the roots, so the result is the least one |
| ArtifactReport.Group | scripts/report-artifact-cache.py:118-124 | grouping puts every entry in its family, in order |
| ArtifactReport.Charge | scripts/report-artifact-cache.py:377-384 | the four accumulators of a family are its count, its bytes, and the bytes of its reachable and unreachable entries |
| ArtifactReport.ReachabilityPartitionsBytes | scripts/report-artifact-cache.py:381-384 | reachable and unreachable bytes add up to the total |
| ArtifactReport.FamiliesPartition | scripts/report-artifact-cache.py:375-385 | distinct families that cover all entries share out every file and every byte |
| ArtifactReport.ReportConserves | scripts/report-artifact-cache.py:375-385 | in the report every entry is counted once: per family and over all families each column is what it should be |
| ArtifactReport.Scan | scripts/report-artifact-cache.py:246-398 | a valid report is produced exactly when all references are good and all reachable files readable, and charges exactly what is reachable |
| CommandLine.QuoteWindows | lib/Testing/Test.cpp:477-497 | the loop with its backslash counter computes the quoting |
| CommandLine.CommandLineOf | lib/Testing/Test.cpp:553-558 | the loop joins the quoted arguments with single spaces |
| CommandLine.SplitOfJoined | lib/Testing/Test.cpp:477-558 | splitting the line by the C rules gives back exactly the arguments, for every list |
| CommandLine.CommandLinesAreDistinct | lib/Testing/Test.cpp:477-558 | different argument lists have different command lines |
| CommandLine.ChildReceivesArguments | lib/Testing/Test.cpp:553-561 | through the zero-terminated buffer the child receives the arguments if and only if none contains a NUL |
| Manifest.Trim | lib/Testing/Test.cpp:96-106 | the two loops strip blanks from both ends |
| Manifest.TrimmedOf | lib/Testing/Test.cpp:96-106 | blanks around a text that has none at its ends are all that is stripped |
| Manifest.StripComment | lib/Testing/Test.cpp:108-129 | the loop keeps the text before the first number sign outside quotes |
| Manifest.ParseString | lib/Testing/Test.cpp:131-168 | the loop reads the string between the quotes, or refuses |
| Manifest.ParseArray | lib/Testing/Test.cpp:170-214 | the loop reads the elements between the brackets, or refuses |
| Manifest.ReadLine | lib/Testing/Test.cpp:313-334 | what the manifest reader makes of a line: skipped, header, outside a test, field or malformed |
| Manifest.EscapedIsRead | lib/Testing/Test.cpp:136-167 | reading undoes the five escapes for every string |
| Manifest.ArrayRoundTrip | lib/Testing/Test.cpp:170-214 | a rendered array is read back as the same strings, whatever they contain |
| Manifest.LineRoundTrip | lib/Testing/Test.cpp:313-334 | an indented, commented assignment is read back as its key and value in a test, and refused before the first header |
| Manifest.ArrayFieldRoundTrip | lib/Testing/Test.cpp:170-334 | rendering any list in a manifest line and reading the line gives back the list |
| Manifest.StringFieldRoundTrip | lib/Testing/Test.cpp:131-334 | the same for a single string |
| Manifest.ArrayIsOneLine | lib/Testing/Test.cpp:311-313 | a rendered list contains no newline that getline would stop at |
| ManifestLanguage.TrimmedIsInside | lib/Testing/Test.cpp:96-106 | trimming takes away blanks only, and leaves none at the ends |
| ManifestLanguage.CommentsAreCut | lib/Testing/Test.cpp:108-129 | what is left of a line is the text before its first number sign outside quotes |
| ManifestLanguage.StringsAreSpelled | lib/Testing/Test.cpp:131-168 | a text is read as a string if and only if it is, between quotes and blanks around them, a sequence of plain characters and the five escapes that spells it |
| ManifestLanguage.ArraysAreSpelled | lib/Testing/Test.cpp:170-214 | a text is read as a list if and only if it is, between brackets and blanks around them, the texts of its strings with commas between them that are the only ones outside quotes; the last may be followed by a comma and blanks |
| ManifestLanguage.LinesAreRead | lib/Testing/Test.cpp:313-334 | each line is skipped, a header, outside a test, malformed or a field exactly for its cause |
| Scheduler.Runner.Drain | lib/Testing/Test.cpp:897-913 | draining finishes all futures in launch order and stores their results |
| Scheduler.Runner.RunManifest | lib/Testing/Test.cpp:894-939 | every result is that of a sequential run, the progress log is the only legal and complete one, nothing is outstanding at the end |
| Scheduler.OutstandingIsBounded | lib/Testing/Test.cpp:914-938 | at every moment at most max(jobs, 1) tests are outstanding |
| Scheduler.OverlappingTestsAreParallel | lib/Testing/Test.cpp:915-938 | two tests overlap only if neither is serial, and then they are fewer than jobs apart |
| Scheduler.EveryTestOnce | lib/Testing/Test.cpp:897-939 | every test starts once and finishes once with its own outcome, in that order |
| Scheduler.ParallelRefinesSequential | lib/Testing/Test.cpp:894-939 | a complete log reports the results of the sequential run in its order |
| Scheduler.LogIsDetermined | lib/Testing/Test.cpp:894-939 | there is one complete log: tests are launched until all slots are taken, a serial test comes or none is left, and then all are collected |
| RequestIds.KeysTellIdsApart | tools/chtholly-lsp/main.cpp:42-48 | two ids share a key if and only if they are equal or neither is an integer or a string |
| RequestIds.DecimalIsRead | tools/chtholly-lsp/main.cpp:42-48 | an integer id is spelled in decimal, with a minus sign exactly for negative ones and without leading zeros |
| LanguageServer.ReplyAnswers | tools/chtholly-lsp/main.cpp:443-541 | which of content, null and the four errors with their messages a result calls for, each stated for its cause; exactly one reply meets it |
| LanguageServer.Server.CompleteQuery | tools/chtholly-lsp/main.cpp:430-541 | a result is kept if it is early, otherwise both map entries go and the reply is sent: content, null and each of the four errors exactly for its cause |
| LanguageServer.Server.RegisterQuery | tools/chtholly-lsp/main.cpp:543-559 | both maps gain the request, and an early result is answered at once with the reply it calls for |
| LanguageServer.Server.CancelTarget | tools/chtholly-lsp/main.cpp:658-667 | the request a cancellation is passed on for |
| LanguageServer.StepKeepsInv | tools/chtholly-lsp/main.cpp:430-559 | in every interleaving each request is in exactly one place and so is its result |
| LanguageServer.NoResponseIsWrong | tools/chtholly-lsp/main.cpp:430-559 | no request is answered twice, and every answer carries the client's id and the reply that the reported result calls for |
| LanguageServer.SettledMeansAnswered | tools/chtholly-lsp/main.cpp:430-559 | when nothing is left to do every request has been answered and no registration or early result is left over |
| LanguageServer.EveryRequestIsAnsweredOnce | tools/chtholly-lsp/main.cpp:430-559 | from every reachable state a bounded schedule without new requests settles the server, and then every issued request has exactly one response, with its id and the reply that its result calls for |
| LanguageServer.SettledIsWeightless | tools/chtholly-lsp/main.cpp:430-559 | nothing is left to do exactly when the weight that bounds the runs is zero |
| LanguageServer.RunsEnd | tools/chtholly-lsp/main.cpp:430-559 | without new requests every run ends within a number of steps fixed beforehand |
| LanguageServer.CancellationFindsItsRequest | tools/chtholly-lsp/main.cpp:655-669 | with distinct outstanding ids the two maps stay inverse, a cancellation finds exactly its request, and a settled server has three empty maps |
| LanguageServer.CancellationIsExact | tools/chtholly-lsp/main.cpp:430-669 | over every run of the server: each registered request is found at each state if and only if no key was registered twice at a time |
| LanguageServer.FoundExactlyWithFreeKeys | tools/chtholly-lsp/main.cpp:430-669 | the same from any state whose maps are inverse |
| LanguageServer.DistinctIdsAreCourteous | tools/chtholly-lsp/main.cpp:42-48 | for integers and strings the condition on keys is the protocol's condition on ids |
| LanguageServer.ProtocolMakesCancellationWork | tools/chtholly-lsp/main.cpp:543-669 | a client that follows the protocol has every registered request found at every state |
| LanguageServer.SharedKeyFails | tools/chtholly-lsp/main.cpp:438-550 | two requests of one key: registering the second takes over the entry, completing it erases the entry of the first |
| Interning.HashBlock | include/chtholly/Core/Arena.h:114-127 | the loop is the FNV hash of the bytes, on words of 64 or of 32 bits |
| Interning.HashStepIsFnv | include/chtholly/Core/Arena.h:122-125 | one turn of the loop is the exclusive or of the whole word with the byte, times the prime |
| Interning.HashAppend | include/chtholly/Core/Arena.h:122-125 | the hash takes in one byte after the other |
| Interning.BytesDetermineBlocks | include/chtholly/Core/Arena.h:82-84 | comparing sizes and bytes is comparing blocks |
| Interning.BlockStore.Add | include/chtholly/Core/Arena.h:66-75 | a block gets the next id, and nothing is interned |
| Interning.BlockStore.FindInBucket | include/chtholly/Core/Arena.h:79-87 | the loop over the bucket finds the interned id of the contents, whatever else has the same hash |
| Interning.BlockStore.AddCanonical | include/chtholly/Core/Arena.h:77-91 | the store behaves like one without hashes: the interned id, or a new one |
| Interning.CanonicalValueStore.Add | include/chtholly/Core/ValueStore.h:135-144 | the same for values |
| Interning.CanonicalValueStore.Get | include/chtholly/Core/ValueStore.h:146-149 | an id gives the value that was interned under it |
| Interning.CanonicalIdsAreEqualIffValuesAre | include/chtholly/Core/Arena.h:66-91 | after any history two canonical ids are equal if and only if their contents are |
| Interning.EarlierIdsKeepTheirContents | include/chtholly/Core/Arena.h:66-96 | every id of a history still holds what it was given for |
| Interning.PlainIdsAreTheirOwn | include/chtholly/Core/Arena.h:66-75 | the id of a plain add is shared with no other request |
| Interning.IdsAreDense | include/chtholly/Core/ValueStore.h:89-94 | every id below the size was handed out |
| TelemetryFrames.U32IsLittle | examples/telemetry-pipeline/host/ingest.cpp:168-173 | shifting and or-ing four bytes reads the little-endian number |
| TelemetryFrames.ReadU64 | examples/telemetry-pipeline/host/ingest.cpp:175-180 | the loop reads the little-endian number of eight bytes |
| TelemetryFrames.ParseFrame | examples/telemetry-pipeline/host/ingest.cpp:182-201 | the parser in terms of the numbers the bytes spell |
| TelemetryFrames.ParsingInvertsRendering | examples/telemetry-pipeline/host/ingest.cpp:182-201 | a frame is parsed from exactly one byte string |
| Telemetry.ProcessFrames | examples/telemetry-pipeline/host/ingest.cpp:308-375 | when nothing outside fails the input is accepted if and only if it is whole frames with rising numbers; then the totals are its own and the batches cover it, and each rejection has its cause; on up to 2^32 frames the signed total never overflows |
| Telemetry.SkippedIsAWord | examples/telemetry-pipeline/host/ingest.cpp:342-349 | last minus first plus one minus count is never negative and fits in 64 bits |
| Telemetry.GapIsExact | examples/telemetry-pipeline/host/ingest.cpp:346-347 | the gap arithmetic does not wrap around |
| Telemetry.GapsCountMissingNumbers | examples/telemetry-pipeline/host/ingest.cpp:342-349 | the gap count is the number of sequence numbers that never arrived |
| Telemetry.ValueTotalFits | examples/telemetry-pipeline/host/ingest.cpp:353 | up to 2^32 frames of any values no addition leaves the signed 64-bit range |
| Telemetry.OneFrameMoreCanOverflow | examples/telemetry-pipeline/host/ingest.cpp:353 | 2^32 + 1 frames with rising numbers whose total does |
| Diagnostics.DiagnosticEngine.Restore | lib/Basic/Diagnostic.cpp:116-120 | restoring cuts the list back to the snapshot and no further |
| Diagnostics.DiagnosticEngine.DeduplicateSince | lib/Basic/Diagnostic.cpp:122-148 | compaction in place, over moved-from diagnostics, leaves the diagnostics that are the same as no earlier one |
| Diagnostics.SameIsSameEssence | lib/Basic/Diagnostic.cpp:126-134 | two diagnostics are the same if and only if they agree in everything but the presentation, and in the place where they have one |
| Diagnostics.KeptRepresentAll | lib/Basic/Diagnostic.cpp:126-141 | comparing with the kept diagnostics is comparing with all earlier ones |
| Diagnostics.DeduplicatedHasNoRepeats | lib/Basic/Diagnostic.cpp:135-147 | the part before the snapshot is untouched and nothing after it repeats anything before it |
| Diagnostics.DeduplicationIsASelection | lib/Basic/Diagnostic.cpp:135-147 | the result is the list read at increasing positions: the snapshot and the first occurrences after it |
| Diagnostics.DeduplicationIsIdempotent | lib/Basic/Diagnostic.cpp:122-148 | deduplicating twice changes nothing |
| Diagnostics.DeduplicationKeepsErrors | lib/Basic/Diagnostic.cpp:122-148 | deduplication leaves an error exactly when there was one |
| Diagnostics.DiagnosticEngine.HasError | lib/Basic/Diagnostic.cpp:37-44 | the loop finds an error exactly when there is one |
| SourceBuffer.SourceBuffer.ComputeLineStarts | lib/Basic/SourceBuffer.cpp:57-65 | the loop finds zero and every offset after a newline |
| SourceBuffer.SourceBuffer.UpperBound | lib/Basic/SourceBuffer.cpp:35 | the binary search counts the line starts up to the offset |
| SourceBuffer.SourceBuffer.LineColumnOf | lib/Basic/SourceBuffer.cpp:29-39 | line and column count the newlines before the offset and the characters since the last; (1, 1) for foreign locations |
| SourceBuffer.SourceBuffer.LineText | lib/Basic/SourceBuffer.cpp:41-55 | a line is the part between newlines without one trailing carriage return, and empty for other numbers |
| SourceBuffer.PositionsAreMonotone | lib/Basic/SourceBuffer.cpp:29-39 | positions are ordered as offsets are, and differ for different offsets |
| SourceBuffer.PositionIsInvertible | lib/Basic/SourceBuffer.cpp:34-38 | the line index turns a position back into its offset |
| SourceBuffer.LinesAreParts | lib/Basic/SourceBuffer.cpp:46-55 | the indexed lines are the parts of the text between its newlines |
| DenseWorklist.DenseWorklist.PushId | include/chtholly/Compiler/DenseWorklist.h:24-30 | push is the abstract push: refused for invalid, large or pending ids |
| DenseWorklist.DenseWorklist.PopId | include/chtholly/Compiler/DenseWorklist.h:32-44 | pop is the abstract pop of a queue or a stack |
| DenseWorklist.PendingIsDistinct | include/chtholly/Compiler/DenseWorklist.h:24-48 | after any history no id is pending twice and pending and peak counts are at most the number of ids |
| DenseWorklist.AcceptedPushes | include/chtholly/Compiler/DenseWorklist.h:24-30 | after any history a push is accepted if and only if the id is valid, below the count and not pending |
| DenseWorklist.QueueKeepsOrder | include/chtholly/Compiler/DenseWorklist.h:24-44 | in queue order the accepted ids are the popped ones followed by the pending ones |
| DenseWorklist.AcceptedIsPoppedOrPending | include/chtholly/Compiler/DenseWorklist.h:24-50 | in either order accepted pushes are processed plus pending, id by id |
| DenseWorklist.PeakIsTheMaximum | include/chtholly/Compiler/DenseWorklist.h:29-54 | the peak is the greatest number of pending ids of the history |

## Left out

- Platform loading, path handling, the loading of a module and the building of a requirement: loading is a module that exists, unloading a boolean answer of the platform.
- LoaderV1.EveryRunIsSafe: assumes that an export returns, as the no-unwind interface demands; an export that throws would leave its call counted. Argument checks for null pointers and structure sizes are not modelled. A thread inside a locked section counts as still waiting for the mutex.
- LoaderV1.DeleteIsSafeExactlyAlone, LoaderV2.DeleteIsSafeExactlyAlone: speak of the threads that are inside the loader; calls that clients begin on a module already deleted are not continuations.
- LoaderV2.EveryRunIsSafe: the unlocked read of `closed` in release is atomic. Provider callbacks reach the module only through owner references and operations. The lease is a value inside the module instead of an object of its own, and it never leaves the loader, so no transport is opened on it.
- LoaderV2.ComponentModule.Invoke, LoaderV2.ComponentModule.CloseModule: say what a thread sees that is alone with the module.
- PayloadTransport.StepKeepsInv: the queue is a sequence; `PayloadQueue` shows the linked list behind it by itself. Allocation of a node or an owned payload succeeds or the step has no effect, the owner of a typed transport and the digests are not modelled, the lease outlives its transport, and a thread that still holds or waits for the transport's mutex when another destroys it is not modelled.
- PayloadTransport.SendResult, PayloadTransport.ReceiveResult, LeaseHistories.LeaseAnswers: say whether a call succeeds and what it changes, not which status a refusal reports.
- MerkleTree.InclusionRangeIsPath, MerkleTree.ConsistencyRangeIsBridge: the proof vector that the program extends in place is the result of the recursion. Checkpoints, receipts, their texts and their signatures are not modelled.
- Sha256.Hasher.Finish: says nothing for messages of 2^61 bytes or more, which the standard does not define.
- Hex.ReadHex: reads the digests that the hasher writes, the only texts it is given.
- The directory walk, the lock probe and the decoding of reference files into lines are inputs of the cache model; the sort of each group, which the walk has already done, the lease counters, the quarantine sum and the partial report of a failed scan are not modelled.
- ArtifactReferences.CollectRoots: does not say why the reported reference is bad, nor tell a missing manifest from one under a non-canonical path.
- The special rule for the program name at the head of a command line, the conversion from UTF-8 to UTF-16, and the POSIX way of starting a process.
- The typed assignment of manifest values to test fields, the sorting and checking of parsed tests, integers and booleans.
- Scheduler.Runner.RunManifest: the run of a test with its retries is one outcome; filters, reports and exit codes are not modelled.
- LanguageServer.Server.CompleteQuery: the JSON rendering of what a query found is one payload.
- The service that issues request ids: it is assumed to complete each id once and never to reuse one.
- Interning.BlockStore: stores whose equality is not plain equality, and the arena's memory, are not modelled.
- Telemetry.ProcessFrames: after an overflow, which the language leaves undefined, the total goes on as an unbounded number with a flag; starts from zeroed totals, as the program calls it; the channel is assumed to give back the frame it was sent, and the checksum component is a function of call number and bytes.
- Diagnostic rendering, spans and stable-code tables; `charAt` and `slice` of the source buffer.
- Decision tables, option parsing, daemons, the rest of the registries and the parts of the compiler that are declared but not shown.
