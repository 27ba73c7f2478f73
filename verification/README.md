# Session-bound agent identity: a verified model

A confidential-computing agent receives a manifest, then the algorithm and datasets that the manifest
names, runs the computation and hands out results. Around it: signed requests with replay protection, a
manager that boots and reaps virtual machines, TLS exported authenticators that carry an attestation,
wrapped keys, archives, chunked transfers, JSON tokens and a response-cache profile. This project models
the parts of that system whose correctness is not visible from one function, and proves what they promise
for every input, run or reachable state.

`dafny verify dfyconfig.toml` checks everything (Dafny 4.11).

## What is here

| files | component | main results |
|---|---|---|
| `KeyWrap` | AES key unwrap | inverse of section 2.2.1 of RFC 3394 over any invertible block function; accepts exactly the wrappings |
| `BigEndian`, `Extensions`, `Certificate`, `CmwAttestation` | exported-authenticator codec | a byte string encodes a message if and only if it parses to it; an attestation that marshals arrives unchanged; the bytes are those of RFC 8446 |
| `AgentMachine`, `AgentSafety`, `AgentOutcomes`, `AgentProgress`, `AgentService` | computation lifecycle | delivered computations run and complete, from any past; only what the manifest declares is ever run; datasets are conserved; exactly which runs keep that up and serve the consumers; all of it for the object itself |
| `Auth` | request authentication | acceptance exactly; the self-purging nonce table answers as an unbounded history; injective encodings |
| `TtlManager`, `VmManager`, `ManagerService` | VM manager under concurrency | the limit holds in every interleaving; no VM is lost; one removal per VM; one timer per VM; the object takes exactly these steps |
| `Strings`, `Paths`, `SafePaths`, `ZipArchive`, `ZipRoundTrip` | path checks and archives | nothing outside the root changes; archive and extract is the identity on trees, exactly when names allow it |
| `JsonScanner`, `JwtMembers` | duplicate-member scan | a text passes if and only if it is one JSON value without repeated member names |
| `Transfer`, `StreamServer`, `ProgressBars`, `TransferPipeline` | chunked transfer | uploads and downloads are lossless end to end, failing exactly on limits and broken streams |
| `CachePolicy` | response-cache profile | a private policy is valid if and only if its Vary key separates callers and sessions |

Each imperative part exists twice: as a function on values, about which the properties are proved, and as
a class or a method with the source's loops and in-place updates, proved to compute that function.

## Findings

Where the code falls short of what one would expect of it; the named members state when it does:

- A stop that arrives between the event loop's receiving an event and handling it leaves that event to the
  next computation, which can then start without an algorithm
  (`AgentSafety.OvertakingStopBreaksSafety`, `AgentSafety.SafeThroughoutExactly`).
- An algorithm upload that fails only in creating the datasets directory marks the algorithm as received
  without an event; with nothing else under way the agent waits until it is stopped, refusing every upload
  (`AgentSafety.RefusedAlgorithmLeavesAgent`, `AgentOutcomes.StuckWithoutDirectory`,
  `AgentOutcomes.StuckIsReachable`).
- A download action that fails after the run has ended well leaves the consumers an error in place of the
  result (`AgentOutcomes.LateDownloadSpoilsResult`, `AgentOutcomes.ServesThroughoutExactly`).
- A run that outlives a stop leaves its result to the consumers of the next computation
  (`AgentOutcomes.ForeignResultIsServed`, `AgentOutcomes.ServesThroughoutExactly`).
- Two pending datasets with the same content and different names make the agent refuse the second one's
  upload until the first is in (`AgentSafety.MatchingUploadAccepted`, `AgentSafety.SecondTwinIsRefused`).
- The same signed request is accepted twice when the second call straddles the end of its lifetime
  (`Auth.SameRequestAgainExactly`), and a clock that goes back reopens purged nonces
  (`Auth.ClockGoingBackForgets`, `Auth.RepliesAgreeByReadings`).
- Attestations of 65530 to 65533 bytes are built but can never be marshalled
  (`CmwAttestation.LongPayloadNeverMarshals`).
- A shutdown forgets registered VMs without stopping them (`VmManager.ShutdownLosesExactly`,
  `VmManager.ShutdownLosesAVm`); a create whose VM is removed or forgotten before it returns calls a
  method on a missing entry (`VmManager.CreateCrashesExactly`). Should two creates ever draw the same random
  id, the second registration drops the first VM (`VmManager.RepeatedIdReplaces`).
- An archive of a tree with a backslash in a file name cannot be extracted again (`ZipRoundTrip.RoundTrip`).
- An empty dataset reaches the server without its name (`Transfer.DataUploadIsLossless`), and an empty
  chunk against a total of zero divides by zero (`Transfer.NothingExpected`).

## Assumptions

- Hashing, signature checks and the block cipher are function parameters; only determinism is used, and for
  the cipher that decryption and encryption invert each other.
- Clock readings, downloads, file-system outcomes, the delivery of a sent event, the order of a directory
  walk, the pieces that a read yields and the point where a stream breaks are inputs, arbitrary unless a
  contract says otherwise.
- Each request handler (state check and critical section), each handled event, each download action and each
  critical section of the manager is one step; steps interleave freely.
- Go's `path/filepath` is modelled for Unix, over path components; `encoding/json`'s token decoder over
  lexemes, with commas and colons checked against the grammar; `strings.EqualFold` and `strings.ToLower`
  as far as they can reach an ASCII letter.

## Model

| member | source | states |
|---|---|---|
| `KeyWrap.UnwrapKey` | pkg/crypto/decrypt.go:154-202 | the nested countdown loops return exactly `Unwrap` of the input bytes, with both error cases; the input array is never written |
| `KeyWrap.UnwrapOfWrap` | pkg/crypto/decrypt.go:154-202 | for every block function with an inverse, every cipher key and every plaintext of at least two 64-bit blocks, unwrapping the wrapping of section 2.2.1 of RFC 3394 gives that plaintext |
| `KeyWrap.WrapOfUnwrap` | pkg/crypto/decrypt.go:164-201 | whatever is accepted is the wrapping of what it unwraps to, and is 8 bytes longer |
| `KeyWrap.AcceptedIffWrapped` | pkg/crypto/decrypt.go:164-201 | the accepted inputs are exactly the wrappings of plaintexts of at least two blocks |
| `KeyWrap.UnwrapInjective` | pkg/crypto/decrypt.go:164-201 | two accepted inputs that unwrap to the same key are the same input |
| `KeyWrap.UnwrapExactly` | pkg/crypto/decrypt.go:154-202 | for every key, cipher and input: which reply it is, with the wrapping of section 2.2.1 of RFC 3394, lengths of 16, 24 or 32 for the key and of a multiple of 8 from 24 on for the input |
| `KeyWrap.CounterIsBigEndian` | pkg/crypto/decrypt.go:174-178 | what is xor-ed into `a` are the eight bytes that stand for the step number, most significant first; the wrapping direction is defined from those |
| `KeyWrap.IdentityUnwraps` | pkg/crypto/decrypt.go:171-201 | under a cipher that does nothing, for every key length up to 336 bytes: eight 0xA6 bytes with every step number, six for each block, xor-ed in, then the key, unwrap to the key |
| `KeyWrap.XorBitAt` | pkg/crypto/decrypt.go:177-177 | a bit of an exclusive or is set if and only if it is set in exactly one of the two |
| `KeyWrap.UnwrapUndoesWrap` | pkg/crypto/decrypt.go:171-185 | undoing steps t, ..., 1 after doing steps 1, ..., t restores both registers, for every t |
| `KeyWrap.WrapUndoesUnwrap` | pkg/crypto/decrypt.go:171-185 | doing steps 1, ..., t after undoing steps t, ..., 1 restores both registers, for every t |
| `KeyWrap.UnwrapStepUndoesWrapStep` | pkg/crypto/decrypt.go:174-183 | one undo step inverts one wrapping step: the same counter is xor-ed out of the same register |
| `KeyWrap.WrapStepUndoesUnwrapStep` | pkg/crypto/decrypt.go:174-183 | one wrapping step inverts one undo step |
| `KeyWrap.XorCounterTwice` | pkg/crypto/decrypt.go:176-178 | xor-ing the 64-bit big-endian counter twice changes nothing |
| `KeyWrap.SlotOfLoopIndices` | pkg/crypto/decrypt.go:172-174 | loop indices (j, i) are step n*j + i and work on register i, so the loops visit every step from 6n to 1 once |
| `KeyWrap.UndoAllSteps` | pkg/crypto/decrypt.go:171-185 | the outer loop performs all 6n undo steps on the registers that the slices show |
| `KeyWrap.UndoRound` | pkg/crypto/decrypt.go:173-184 | the inner loop performs the n undo steps of one round, in order |
| `KeyWrap.UndoStep` | pkg/crypto/decrypt.go:174-183 | one pass replaces `a` and `r[i]` by the halves of a fresh buffer that hold the undone step |
| `KeyWrap.DecryptBlock` | pkg/crypto/decrypt.go:175-181 | the fresh 16-byte buffer is the decryption of the counter xor-ed into `a`, followed by `r[i]` |
| `KeyWrap.IntegrityHolds` | pkg/crypto/decrypt.go:187-193 | true exactly when the final `a` is the eight 0xA6 bytes |
| `KeyWrap.Concatenate` | pkg/crypto/decrypt.go:195-201 | the output is the data registers in order, without the integrity block |
| `BigEndian.ReadPut16` | pkg/atls/ea/handshake.go:49-55 | reading back a 16-bit field gives the value that was put, when it fits |
| `BigEndian.PutRead16` | pkg/atls/ea/handshake.go:49-55 | putting back what was read from two bytes gives those bytes |
| `BigEndian.ReadPut24` | pkg/atls/ea/handshake.go:49-55 | reading back a 24-bit field gives the value that was put, when it fits |
| `BigEndian.PutRead24` | pkg/atls/ea/handshake.go:49-55 | putting back what was read from three bytes gives those bytes |
| `BigEndian.Put16Exactly` | pkg/atls/ea/handshake.go:54-55 | two bytes stand for a number, most significant first, if and only if they are what is written for it and it fits |
| `BigEndian.Put24Exactly` | pkg/atls/ea/handshake.go:49-53 | three bytes stand for a number if and only if they are what is written for it and it fits |
| `Extensions.MarshalExtensions` | pkg/atls/ea/extensions.go:11-32 | the length loop and the writing loop produce exactly `Marshal`, or fail when the payload exceeds 65535 bytes |
| `Extensions.PayloadLength` | pkg/atls/ea/extensions.go:12-21 | the first loop fails exactly when the encoded vector would exceed 65535 bytes, and otherwise returns its length |
| `Extensions.WriteExtensions` | pkg/atls/ea/extensions.go:24-30 | the second loop writes the encoded vector after the length field and leaves that field alone |
| `Extensions.WriteExtension` | pkg/atls/ea/extensions.go:26-29 | one extension is written at the offset, everything before it stays |
| `Extensions.UnmarshalExtensions` | pkg/atls/ea/extensions.go:34-61 | the parsing loop computes exactly `Unmarshal`, error kinds and leftover bytes included, on arbitrary bytes |
| `Extensions.DecodeLoop` | pkg/atls/ea/extensions.go:44-60 | the loop over the payload computes exactly `Decode` |
| `Extensions.DecodeOfEncode` | pkg/atls/ea/extensions.go:11-61 | every extension list whose encoding fits decodes to itself |
| `Extensions.EncodeOfDecode` | pkg/atls/ea/extensions.go:34-61 | every payload that decodes is the encoding of what it decoded to |
| `Extensions.UnmarshalOfMarshal` | pkg/atls/ea/extensions.go:11-61 | a marshalled vector followed by any bytes parses to that vector and those bytes |
| `Extensions.MarshalOfUnmarshal` | pkg/atls/ea/extensions.go:34-61 | whatever parses is the marshalling of the parsed vector followed by the leftover bytes |
| `Extensions.VectorOnWire` | pkg/atls/ea/extensions.go:11-32 | a vector marshals to given bytes if and only if they stand for it: lengths, types and data in the order of section 4.2 of RFC 8446 |
| `Extensions.VectorErrors` | pkg/atls/ea/extensions.go:34-61 | a vector that is cut off, or has a rest too short for an extension, is truncated; an extension that announces more than there is has an invalid length |
| `Certificate.UnmarshalOfMarshalHandshake` | pkg/atls/ea/handshake.go:21-47 | a framed handshake message followed by any bytes is read back, with those bytes left over |
| `Certificate.MarshalOfUnmarshalHandshake` | pkg/atls/ea/handshake.go:21-47 | whatever is read as a handshake message is its framing followed by the leftover bytes |
| `Certificate.UnmarshalOfMarshalEntry` | pkg/atls/ea/certificate.go:22-35 | one marshalled certificate entry parses back to itself, whatever follows |
| `Certificate.MarshalOfUnmarshalEntry` | pkg/atls/ea/certificate.go:71-91 | whatever parses as an entry is the marshalling of that entry followed by the rest |
| `Certificate.UnmarshalOfMarshalEntries` | pkg/atls/ea/certificate.go:16-95 | every entry list that marshals parses back to itself |
| `Certificate.MarshalOfUnmarshalEntries` | pkg/atls/ea/certificate.go:46-95 | every entry list that parses is the marshalling of what it parsed to |
| `Certificate.SplitOfBody` | pkg/atls/ea/certificate.go:37-68 | context and entry list are recovered from a body when their lengths fit the 8- and 24-bit fields |
| `Certificate.BodyOfSplit` | pkg/atls/ea/certificate.go:54-68 | every accepted body is the body of the context and list it was split into |
| `Certificate.UnmarshalOfMarshalCertificate` | pkg/atls/ea/certificate.go:16-95 | every message that marshals parses back to itself, and the raw bytes returned are the input |
| `Certificate.MarshalOfUnmarshalCertificate` | pkg/atls/ea/certificate.go:46-95 | every accepted byte string is the marshalling of the message it parsed to |
| `Certificate.AcceptsExactlyTheEncodings` | pkg/atls/ea/certificate.go:16-95 | a byte string encodes a message if and only if it parses to that message |
| `Certificate.CertificateOnWire` | pkg/atls/ea/certificate.go:16-44 | a message marshals to given bytes if and only if they stand for it: type 11, lengths, context and entries in the order of section 4.4.2 of RFC 8446 |
| `Certificate.EntryOnWire` | pkg/atls/ea/certificate.go:22-35 | an entry marshals to given bytes if and only if they stand for it, which takes a certificate that is not empty |
| `Certificate.FrameErrors` | pkg/atls/ea/certificate.go:46-53 | a frame that is cut off is truncated; one of another type or with something after it has an invalid length |
| `Certificate.BodyErrors` | pkg/atls/ea/certificate.go:54-68 | a body too short for its context is truncated; one whose list length is not what is left has an invalid length |
| `Certificate.EntryErrors` | pkg/atls/ea/certificate.go:71-91 | an entry too short for its length is truncated; one that announces no certificate, or more than there is, has an invalid length |
| `Certificate.ListFits` | pkg/atls/ea/certificate.go:16-44 | a message marshals only if its entry list fits the 24-bit length field, so that field is never truncated |
| `Certificate.MarshalCertificate` | pkg/atls/ea/certificate.go:16-44 | the loop that appends entries computes exactly `Marshal`, error kinds included |
| `Certificate.UnmarshalEntryLoop` | pkg/atls/ea/certificate.go:71-91 | the loop over the entry list computes exactly `UnmarshalEntries`, on arbitrary bytes |
| `Certificate.UnmarshalCertificateMessage` | pkg/atls/ea/certificate.go:46-95 | the parser computes exactly `Unmarshal`, on arbitrary bytes |
| `CmwAttestation.DataExtension` | pkg/atls/ea/cmw_attestation.go:15-23 | built exactly for payloads of 1 to 65533 bytes; the extension carries the payload behind its own length |
| `CmwAttestation.ExtractFromExtensions` | pkg/atls/ea/cmw_attestation.go:25-40 | nothing exactly when there is no attestation extension; otherwise the first one's payload, or an error exactly when its inner length is wrong or zero |
| `CmwAttestation.ValidatePlacement` | pkg/atls/ea/cmw_attestation.go:42-54 | succeeds exactly when no entry but the leaf carries an attestation extension |
| `CmwAttestation.CarriedIsReadable` | pkg/atls/ea/cmw_attestation.go:15-40 | what the builder puts into an extension is what the extractor reads out of it |
| `CmwAttestation.CarriesOnWire` | pkg/atls/ea/cmw_attestation.go:15-23 | the extension for a payload has type 0xFF00 and as data two bytes that stand for its length, then the payload, and is the only such |
| `CmwAttestation.LongPayloadNeverMarshals` | pkg/atls/ea/extensions.go:13-21 | an extension with a payload over 65529 bytes makes every vector it is in unmarshallable |
| `CmwAttestation.SoleExtensionMarshalsIff` | pkg/atls/ea/extensions.go:13-21 | alone in its vector the attestation extension marshals exactly up to 65529 payload bytes |
| `CmwAttestation.LongPayloadNeverMarshalsInMessage` | pkg/atls/ea/certificate.go:16-44 | no Certificate message with such an extension anywhere can be marshalled |
| `CmwAttestation.SendAndReceive` | pkg/atls/ea/authenticator.go:124-132 | an attestation is sent exactly when it is built and the message with it marshals, as that marshalling, which takes 1 to 65529 bytes; then it is received unchanged, or refused when the chain carries another |
| `AgentSafety.RunsOnlyWhatWasDeclared` | agent/service.go:720-882 | in every state reached by a run in which, since its last clean stop (one that gets to its reset), no outlived event has led from a state it is not justified in, or to one in which the held event is not, a started computation has the algorithm with the manifest's hash, nothing pending, and stored exactly the declared datasets |
| `AgentSafety.SafeThroughoutExactly` | agent/statemachine/state.go:90-147 | at every point of a run a started computation, running or ended well, has the algorithm with the manifest's hash and nothing pending, if and only if the run never handles an event, in order or outlived, that leads to Running while one of the two is missing |
| `AgentSafety.StepSafeExactly` | agent/service.go:223-333 | from a safe state, one step of any kind leads to a safe one if and only if it is not such an event |
| `AgentSafety.CleanStopRestores` | agent/service.go:282-333 | whatever outlived events did before, a clean stop brings back the full invariant, with events left to outlive it |
| `AgentSafety.UnharmedKeeps` | agent/service.go:161-333 | so the invariant holds at the end of any run without harm since its last clean stop |
| `AgentSafety.DatasetsAreConserved` | agent/service.go:503-575 | in every state of every run pending and stored datasets together are, as a multiset, the manifest's, and every stored content has its declared hash |
| `AgentSafety.StepKeepsBase` | agent/service.go:223-333 | every step of every kind, an outlived event included, keeps the table's shape, the manifest's entries in it, the account of the datasets and the count of events |
| `AgentSafety.ReachableBase` | agent/service.go:161-333 | so every run keeps them |
| `AgentSafety.AlgorithmLeadsWhereManifestSays` | agent/service.go:266-277 | in every state of every run, although the table survives resets: once a manifest has arrived the received algorithm leads straight to Running exactly when that manifest declares no datasets |
| `AgentSafety.AtMostSixEvents` | agent/statemachine/state.go:127-147 | in every state of every run at most as many events have been handled since the last reset as the state's rank, hence at most six |
| `AgentSafety.FinalStatesAbsorb` | agent/service.go:181-196 | in every state of every run that is Complete or Failed, no step but a stop that gets to its reset changes the state |
| `AgentSafety.TransitionsRaiseRank` | agent/service.go:181-196 | every transition of the table, initial or added by any manifest, leads to a state of strictly higher rank |
| `AgentSafety.ThroughoutExactly` | agent/statemachine/state.go:90-147 | a run keeps the invariant from start to end if and only if every outlived event that leads anywhere is justified in the state it meets and leads to one in which the held event is justified too |
| `AgentSafety.StepKeepsExactly` | agent/service.go:223-333 | from the invariant, one step of any kind keeps it if and only if it is not an outlived event that leads somewhere and fails one of those two conditions |
| `AgentSafety.StaleEventExactly` | agent/statemachine/state.go:90-125 | handling an event held across a stop keeps the state earned and the held event justified if and only if the table gives it nowhere to lead, or it is justified before and the held event is in the state it leads to |
| `AgentSafety.CarefulStopsAreHarmless` | agent/statemachine/state.go:110-125 | when every stop comes while the loop holds no event, no outlived event ever does harm |
| `AgentSafety.OvertakingStopBreaksSafety` | agent/statemachine/state.go:90-125 | without that condition there is a run that starts a computation with no algorithm |
| `AgentSafety.ReachableInv` | agent/service.go:161-333 | the invariant holds after every run from a new agent without a harmful outlived event since its last clean stop |
| `AgentSafety.ManifestTable` | agent/service.go:266-277 | a manifest leaves every entry of the table that is not its own as it was, and sets its own, whatever earlier manifests left there |
| `AgentSafety.InitialTableExactly` | agent/service.go:181-196 | the initial table holds the seven listed transitions and no other |
| `AgentSafety.HandleKeeps` | agent/statemachine/state.go:127-147 | from the invariant, handling the held event earns the state it leads to |
| `AgentSafety.InitKeeps` | agent/service.go:223-280 | accepting or refusing a manifest keeps the state earned and the held event justified |
| `AgentSafety.StopKeeps` | agent/service.go:282-333 | a stop, clean or failed, keeps the state earned and the held event justified |
| `AgentSafety.AlgoKeeps` | agent/service.go:720-797 | an algorithm upload with any outcome keeps the state earned and the held event justified |
| `AgentSafety.DataKeeps` | agent/service.go:799-882 | a dataset upload with any outcome keeps the state earned and the held event justified |
| `AgentSafety.ResultKeeps` | agent/service.go:884-907 | a result request with any outcome keeps the state earned and the held event justified |
| `AgentSafety.DownloadAlgorithmKeeps` | agent/service.go:362-479 | the algorithm download action with any outcome keeps the state earned and the held event justified |
| `AgentSafety.DownloadDatasetsKeeps` | agent/service.go:483-576 | the dataset download action, stopped anywhere, keeps the state earned and the held event justified |
| `AgentSafety.FinishRunKeeps` | agent/service.go:925-1015 | the end of a run with any outcome keeps the state earned and the held event justified |
| `AgentSafety.CleanPassLeavesUploads` | agent/service.go:503-575 | a backwards delete loop that fetches every remote dataset leaves exactly the non-remote ones, in their original order |
| `AgentSafety.CleanPassNotStopped` | agent/service.go:503-575 | the pass gets to the front of the list exactly when every remote dataset was fetched with its declared hash |
| `AgentSafety.StoppedMeans` | agent/service.go:503-575 | where the pass stops, everything behind was fetched and the dataset at that point is remote and was not |
| `AgentSafety.PassMoves` | agent/service.go:503-575 | what the pass leaves and what it stores are together, as multisets, what it started from |
| `AgentSafety.PassMatches` | agent/service.go:503-575 | the pass stores only content with the declared hash |
| `AgentSafety.RefusedAlgorithmLeavesAgent` | agent/service.go:730-790 | a refused algorithm upload changes nothing, except exactly when all but the creation of the datasets directory succeeded, or a download brought other requirements |
| `AgentSafety.MatchingUploadAccepted` | agent/service.go:799-882 | an upload that matches a pending dataset in hash and name is taken if and only if the first pending dataset with that hash is unnamed or has that name |
| `AgentSafety.SecondTwinIsRefused` | agent/service.go:838-875 | for every hash function, content and pair of different names, the first not empty, a run from a new agent leads to where the second of two datasets with that content is refused for its name, and taken once the first is in |
| `AgentProgress.DeliveredComputationRuns` | agent/service.go:223-882 | when events are delivered, from a new agent or one started anew, for every manifest: the algorithm uploaded or downloaded, the remote datasets downloaded and the others uploaded in any order (those with the same content declared alike, or the first one's name decides, as `AgentSafety.MatchingUploadAccepted` says) lead to Running, with exactly that algorithm, its settings (type bin by default) and those datasets stored |
| `AgentProgress.StopIsAnew` | agent/service.go:282-333 | after any run at all a clean stop starts the agent anew: no algorithm, result, error or consumed mark is left |
| `AgentProgress.FreshIsAnew` | agent/service.go:161-217 | a new agent that has been sent its start event is such an agent |
| `AgentProgress.AlgorithmLeadsOn` | agent/service.go:720-797 | the algorithm, by either route, leads to Running without datasets and to ReceivingData with them, and starts what belongs there |
| `AgentProgress.UploadsTaken` | agent/service.go:799-882 | uploads of all pending datasets in any order are each taken for the dataset they were declared as, and the last announces that all are in |
| `AgentProgress.DownloadsTaken` | agent/service.go:483-576 | a pass that can fetch everything stores every remote dataset, the last first, leaves the others in order, and announces that all are in exactly when it leaves none |
| `AgentProgress.GoodRunCompletes` | agent/service.go:884-1015 | a run that ends well leads to ConsumingResults; every declared consumer gets its result, and the first request leads to Complete, where the reply stays the same |
| `AgentProgress.BadRunFails` | agent/service.go:884-1015 | a run that goes wrong, or ends after an earlier error, leads to Failed, where a declared consumer gets the error and nothing changes |
| `AgentProgress.FailedAlgorithmFails` | agent/service.go:362-479 | an algorithm download that fails while awaited leads to Failed; the algorithm is marked exactly when only the datasets directory could not be made |
| `AgentProgress.FailedDatasetsFail` | agent/service.go:483-576 | a dataset download that fails while awaited leads to Failed |
| `AgentProgress.AlgorithmReplies` | agent/service.go:720-797 | an algorithm upload is taken if and only if it is awaited, has not come, has the declared hash and everything can be written; the other replies told apart |
| `AgentProgress.DataReplies` | agent/service.go:799-882 | which reply a dataset upload gets when nothing is to be fetched, each if and only if; a refused one changes nothing |
| `AgentProgress.RemoteDataIsFetched` | agent/service.go:812-836 | while a remote dataset is pending, what an upload sends does not matter: the agent fetches that dataset |
| `AgentProgress.ResultReplies` | agent/service.go:884-907 | which reply a result request gets in every state and for every caller, and when it changes anything |
| `AgentProgress.ControlReplies` | agent/service.go:223-333 | a manifest is taken if and only if one is awaited; a stop that cannot clean up changes nothing |
| `AgentProgress.UnexpectedEventEndsLoop` | agent/statemachine/state.go:90-147 | after an event without a transition no run without a clean stop or an outlived event leaves the state |
| `AgentProgress.AlgorithmDownloadOnce` | agent/service.go:362-372 | a started download of the algorithm runs once |
| `AgentProgress.DatasetDownloadOnce` | agent/service.go:483-490 | a started download of the datasets runs once |
| `AgentProgress.RunOnce` | agent/service.go:925-935 | a started run runs once |
| `AgentProgress.OutlivedOnce` | agent/statemachine/state.go:97-101 | an outlived event is handled once |
| `AgentOutcomes.ServesThroughoutExactly` | agent/service.go:884-1015 | at every point of a run, whenever a computation has ended well there is a result and no error, and, if one asks for it, the result of that computation and not of a stopped one, if and only if no step of the run spoils it: after the computation has ended well a failing download, or a second run without a result or of a stopped computation; before, the handling of the event that ends it while there is no such result |
| `AgentOutcomes.StepServesExactly` | agent/service.go:362-576 | one step of any kind keeps that promise if and only if it is not one of those, whether or not one asks whose result it is |
| `AgentOutcomes.ConsumerGetsFileExactly` | agent/api/grpc/endpoint.go:51-64 | once a run has ended well, a declared consumer gets a file if and only if there is a result and no recorded error, and any other caller is refused |
| `AgentOutcomes.ConsumersGetTheResult` | agent/service.go:884-907 | a computation that has ended well gives every declared consumer the result, its own if one asks for that, after every run in which since the last clean stop there was no failing download or second run without a result while it had ended well or the loop held the event that says so, no run of a stopped computation whose result shows (if one asks), and no outlived event that ended it otherwise |
| `AgentOutcomes.RunKeepsPromise` | agent/service.go:925-1015 | that there is a result and no error as soon as the loop holds the event that ends a computation well, and ever after, is kept by the end of a run, which sends that event, if and only if it is not one of those steps |
| `AgentOutcomes.StepKeepsPromise` | agent/service.go:223-1015 | no step but those takes away the result of a computation that has ended well or is about to, and but for outlived events each of those does |
| `AgentOutcomes.UnendangeredIsUnspoilt` | agent/service.go:884-1015 | so after every run without those steps no step has spoilt the result either: handling a held event never does |
| `AgentOutcomes.LateDownloadSpoilsResult` | agent/service.go:362-479 | for every hash function and result there is a run without a stop in which the run ends well and the declared consumer then gets an error |
| `AgentOutcomes.ForeignResultIsServed` | agent/service.go:925-1015 | for every hash function and result there is a run in which a computation has ended well and its declared consumer gets the result of an earlier, stopped one |
| `AgentOutcomes.StuckWithoutDirectory` | agent/service.go:720-797 | after an upload that failed only in creating the datasets directory, with no event or download under way, every run without a clean stop stays in ReceivingAlgorithm or goes to Failed, and every further upload in it is refused and changes nothing |
| `AgentOutcomes.StuckIsReachable` | agent/service.go:720-797 | for every hash function there are a run from a new agent and an upload that meet all that the previous row asks for |
| `AgentOutcomes.StuckStays` | agent/service.go:720-797 | a marked algorithm with nothing under way stays so through every run without a clean stop |
| `AgentService.StateMachine.AddTransition` | agent/statemachine/state.go:55-63 | the table gains the transition, replacing one with the same source and event |
| `AgentService.StateMachine.SendEvent` | agent/statemachine/state.go:78-88 | a waiting loop may receive the event; otherwise it is dropped and nothing changes |
| `AgentService.StateMachine.HandleEvent` | agent/statemachine/state.go:127-147 | moves along the table, or reports that there is no transition; the table stays |
| `AgentService.StateMachine.Reset` | agent/statemachine/state.go:110-125 | back to the initial state with a new loop and the same table |
| `AgentService.AgentService.constructor` | agent/service.go:161-217 | a new agent is where the run of its one step, the sent start event, leads |
| `AgentService.AgentService.HandleEvent` | agent/statemachine/state.go:90-108 | the object takes the step of a handled event and no other: state, table, loop, started actions and history |
| `AgentService.AgentService.HandleOutlivedEvent` | agent/statemachine/state.go:97-101 | the object takes exactly the step of an event that a replaced loop still holds |
| `AgentService.AgentService.EndLoop` | agent/statemachine/state.go:104-105 | the object takes exactly the step of a loop whose context ends |
| `AgentService.AgentService.InitComputation` | agent/service.go:223-280 | the object takes exactly the step, in every state, and replies as the model does |
| `AgentService.AgentService.StopComputation` | agent/service.go:282-333 | the object takes exactly the step, whether the directories could be removed or not, and replies as the model does |
| `AgentService.AgentService.Algo` | agent/service.go:720-797 | the object takes exactly the step and replies as the model does, for every upload, download and file outcome |
| `AgentService.AgentService.Data` | agent/service.go:799-882 | the object takes exactly the step and replies as the model does, with both search loops |
| `AgentService.AgentService.FindRemote` | agent/service.go:812-828 | the first dataset with a remote source, or none |
| `AgentService.AgentService.FindHash` | agent/service.go:838-875 | the first pending dataset declared with the hash, or none |
| `AgentService.AgentService.Store` | agent/service.go:867-867 | the dataset is deleted from the list and recorded with its content; nothing else changes |
| `AgentService.AgentService.Result` | agent/service.go:884-907 | the object takes exactly the step and replies as the model does |
| `AgentService.AgentService.DownloadAlgorithmIfRemote` | agent/service.go:362-479 | the object takes exactly the step of the started action, which it uses up, for every download and file outcome |
| `AgentService.AgentService.FetchBackwards` | agent/service.go:503-575 | the backwards loop stores and leaves exactly what the model's pass does and stops exactly where it does |
| `AgentService.AgentService.FetchLoop` | agent/service.go:503-575 | what the loop has done and what it has yet to do are together the pass from its end, at every turn |
| `AgentService.AgentService.FetchOne` | agent/service.go:506-574 | one turn: a remote dataset that comes with its declared hash is deleted and stored, another remote one stops the loop, any other stays |
| `AgentService.FetchesAll` | agent/service.go:503-575 | the loop's turns one after another make the pass: what it leaves, what it stores, and whether it stops |
| `AgentService.AgentService.DownloadDatasetsIfRemote` | agent/service.go:483-576 | the object takes exactly the step of the started action, which it uses up, wherever the loop stops |
| `AgentService.AgentService.RunComputation` | agent/service.go:925-1015 | the object takes exactly the step of the started action, of whichever computation, which it uses up; an earlier error turns the run into a failure |
| `AgentService.ObjectConservesDatasets` | agent/service.go:503-575 | whatever calls have been made on an object, its pending and stored datasets are the manifest's and contents match hashes |
| `AgentService.ObjectRunsOnlyWhatWasDeclared` | agent/service.go:720-882 | an object that runs a computation has the algorithm with the manifest's hash and all its datasets, unless an outlived event has done harm since the last clean stop |
| `Auth.PayloadInjective` | agent/auth/auth.go:207-209 | two requests with the same signed payload are the same, for arbitrary nonces, when role, method and issue time hold no newline |
| `Auth.SharedPayloadExactly` | agent/auth/auth.go:207-209 | for roles and issue times without a newline, two requests share a payload if and only if they are the same or one's method swallows the other's issue time and the beginning of its nonce |
| `Auth.ReplayKeyInjective` | agent/auth/auth.go:233-233 | two requests in the same replay slot agree in role, method and nonce, for arbitrary nonces, when role and method hold no NUL |
| `Auth.MarkRefines` | agent/auth/auth.go:222-239 | at any later clock reading the purged table decides as the full history does, and still stands for it afterwards |
| `Auth.PurgingIsInvisible` | agent/auth/auth.go:151-239 | for every run of calls under a clock that never goes back, the purging table gives the same replies as an unpurged history of all successes |
| `Auth.FreshTableAnswersByHistory` | agent/auth/auth.go:151-239 | the same from the empty table of a new service |
| `Auth.MarkAgreesExactly` | agent/auth/auth.go:222-239 | at any clock reading, earlier ones included, the table decides as the history if and only if the key is free in the history or still in the table with a later expiry |
| `Auth.RepliesAgreeExactly` | agent/auth/auth.go:151-239 | under any clock, the table answers a whole run of calls as the history if and only if that holds of every call that gets to it |
| `Auth.FreshTableAgreesExactly` | agent/auth/auth.go:151-239 | the same from the empty table of a new service |
| `Auth.ClockGoingBackForgets` | agent/auth/auth.go:222-239 | for any key, a mark of another key at or after its expiry and then an earlier reading: the table accepts what the history forbids |
| `Auth.TableHoldsExactly` | agent/auth/auth.go:222-239 | under any clock, a key is in the table after a list of marks if and only if one of them was taken for it and no reading after that has reached its expiry, and then with that mark's expiry |
| `Auth.TableRefusesExactly` | agent/auth/auth.go:222-239 | so after a list of marks the table refuses a key at a reading if and only if such a mark of it expires after that reading |
| `Auth.MarksAgreeExactly` | agent/auth/auth.go:222-239 | under any clock, table and history give the same verdicts on a list of marks if and only if at each, no earlier one that the table took for its key expires after its reading, or one does whose expiry no reading in between has reached |
| `Auth.CountsExactly` | agent/auth/auth.go:222-239 | under any clock, whether the table takes a mark is settled by the keys, expiries and readings of the marks alone |
| `Auth.RepliesAgreeByReadings` | agent/auth/auth.go:151-239 | from keys, expiries and readings alone, under any clock: a new service answers a whole run of calls as the unpurged history if and only if at each mark the calls ask for, no earlier one that counts for its key expires after its reading, or one does whose expiry no reading in between has reached |
| `Auth.SameNonceIsSeparated` | agent/auth/auth.go:151-239 | two successes with the same role, method and nonce: the second is marked no earlier than the first one's issue time plus five minutes |
| `Auth.SameRequestTwice` | agent/auth/auth.go:151-220 | the same signed request succeeds twice only when the second call straddles the exact end of its lifetime |
| `Auth.SameRequestAgainExactly` | agent/auth/auth.go:151-239 | an accepted request is accepted again if and only if its lifetime ends between the freshness check and the mark |
| `Auth.ReplayOnlyOfItself` | agent/auth/auth.go:151-239 | a call refused as a replay was preceded by a success with the same role, method and nonce that has not expired |
| `Auth.Presented` | agent/auth/auth.go:151-171 | accepted metadata has a non-empty signature and nonce and an issue time that parses |
| `Auth.AcceptsExactly` | agent/auth/auth.go:151-239 | a call is accepted as the i-th of its role if and only if its metadata hold one non-empty signature, time and nonce, the time parses and is at most five minutes old and one minute ahead, the i-th of that role's own keys is the first to verify the spelled-out payload, and the nonce is not taken |
| `Auth.RepliesTo` | agent/auth/auth.go:151-239 | for metadata presented properly: which of the four replies it is, each if and only if |
| `Auth.RefusesImproper` | agent/auth/auth.go:151-171 | missing metadata, and metadata not presented properly, each if and only if, with the table unchanged |
| `Auth.AcceptedIsRemembered` | agent/auth/auth.go:222-239 | an accepted call leaves exactly the entries that have not expired, and its own until five minutes after its issue time |
| `Auth.Service.MarkNonce` | agent/auth/auth.go:222-239 | purges, looks up and inserts as `Mark` does: new table and verdict |
| `Auth.Service.FindSigner` | agent/auth/auth.go:176-202 | the first key of the role's list that verifies the signature, or none |
| `Auth.Service.AuthenticateUser` | agent/auth/auth.go:151-205 | reply and new table are those of `Authenticate`, in every error case |
| `VmManager.LimitIsNeverExceeded` | manager/service.go:157-215 | under every interleaving of creates, removals, expiries and shutdowns with a positive limit, at most the limit or the number restored at the start is registered |
| `VmManager.NoIdIsLost` | manager/service.go:201-272 | in every run without shutdown, even when ids repeat, no started id is lost: each is in flight, registered, or has had its stop called |
| `VmManager.NoVmIsLost` | manager/service.go:201-272 | in every run without shutdown and with fresh ids no VM is lost: besides that, none is dropped from the map for another |
| `VmManager.ReplacesExactly` | manager/service.go:206-215 | a step drops a VM for another if and only if it is a registration below the limit that finds one under its id |
| `VmManager.RepeatedIdReplaces` | manager/service.go:206-215 | two creates that draw the same id drop the first VM if and only if the limit is not one |
| `VmManager.LostExactly` | manager/service.go:201-290 | in every run with fresh ids, shutdowns included, the lost VMs are exactly those that a shutdown forgot and whose stop had not been called |
| `VmManager.ShutdownLosesExactly` | manager/service.go:279-290 | at any point of such a run, a shutdown loses exactly the registered VMs whose stop was never called |
| `VmManager.ShutdownLosesAVm` | manager/service.go:157-290 | under any limit: create, register, shut down, and the VM is lost |
| `VmManager.RemovedAtMostOnce` | manager/service.go:252-272 | in every run with fresh ids, for each id at most one removal, asked for or from expiry, ever succeeds |
| `VmManager.RemovalExactly` | manager/service.go:252-272 | a removal, asked for or by expiry, takes the VM out if and only if it was registered and its stop succeeded; its stop is called if and only if it was registered; the three replies told apart |
| `VmManager.LeavesOnlyWhenStopped` | manager/service.go:252-290 | in every run a VM leaves the map only by a removal whose stop succeeded, or by a shutdown |
| `VmManager.CreateExactly` | manager/service.go:157-250 | a create that nothing comes in between of registers its VM if and only if there is room, the parameters hold and the VM boots; a timer runs for it if and only if it also has a TTL that parses |
| `VmManager.RefusedIsStopped` | manager/service.go:206-213 | a VM that finds the map full after booting has its stop called and is not registered |
| `VmManager.RunningTimersAreStored` | manager/ttl.go:25-66 | in every run, even when ids repeat, a running timer is the one stored under its id, and no id has two running |
| `VmManager.RemoveCancelsTimer` | manager/service.go:252-272 | right after a removal, successful or not, no timer runs for that id |
| `VmManager.ShutdownStopsTimers` | manager/service.go:279-282 | right after the first half of a shutdown no timer runs at all |
| `VmManager.CreateCrashesExactly` | manager/service.go:243-247 | in every run with fresh ids the final transition of a create runs on a missing entry if and only if, since the registration, its VM has been removed or a shutdown has emptied the map |
| `VmManager.ExpiryBeforeReturnCrashes` | manager/service.go:217-247 | from any state where a create is about to arm its TTL, an expiry before its return leads there |
| `VmManager.StepKeepsLimit` | manager/service.go:157-272 | every step keeps the number of registered VMs within the limit or the restored number |
| `VmManager.StepKeepsIds` | manager/service.go:157-272 | every step with fresh ids keeps each id owned by one creator, registered and removed at most once |
| `VmManager.StepKeepsTimers` | manager/service.go:157-290 | every step keeps running timers stored under their ids |
| `VmManager.StepAccounts` | manager/service.go:157-290 | every step keeps each started VM in flight, registered, stopped or forgotten by a shutdown |
| `VmManager.StepKeepsForgotten` | manager/service.go:157-290 | every step with fresh ids keeps: what a shutdown forgot was started and is neither registered again nor any create's to answer for |
| `VmManager.StepKeepsRegistered` | manager/service.go:157-290 | every step keeps: a create past registration has its VM in the map, or the VM was removed or forgotten |
| `ManagerService.ManagerService.RestoreVMs` | manager/service.go:360-391 | adds exactly the persisted VMs whose process is alive and could be reattached; the object then is the manager of the run that has restored them |
| `ManagerService.ManagerService.BeginCreate` | manager/service.go:157-178 | the object takes exactly the step of the first check: the create goes on exactly when below the limit and its parameters hold |
| `ManagerService.ManagerService.Boots` | manager/service.go:201-204 | booting a VM, without the lock, is exactly the step and leaves the fields of the object alone |
| `ManagerService.ManagerService.RegisterVM` | manager/service.go:206-215 | the object takes exactly the step of the second check and insertion: registered exactly when below the limit, and then within it |
| `ManagerService.ManagerService.StopsRefused` | manager/service.go:208-212 | stopping a VM that the second check refused, without the lock, is exactly the step and leaves the fields of the object alone |
| `ManagerService.ManagerService.ArmTimer` | manager/service.go:217-230 | the object takes exactly the step: a new running timer in the place of the old, or none without a TTL that parses |
| `ManagerService.ManagerService.Conclude` | manager/service.go:243-247 | the object takes exactly the step; it reports a missing entry exactly when the model crashes |
| `ManagerService.ManagerService.RemoveVM` | manager/service.go:252-272 | the object takes exactly the step: cancels the TTL in any case; the VM is gone if and only if it was registered and its stop succeeded, and a failed stop leaves it registered; no other timer changes |
| `ManagerService.ManagerService.Expire` | manager/ttl.go:33-34 | a running timer of the object going off is exactly the step of the model's timer with its number |
| `ManagerService.ManagerService.OnExpiry` | manager/service.go:223-229 | the object takes exactly the step of a due callback, a removal, with the same three outcomes |
| `ManagerService.ManagerService.Shutdown` | manager/service.go:279-290 | the object takes both steps; no VM is registered and no timer runs afterwards |
| `ManagerService.ObjectKeepsLimit` | manager/service.go:157-290 | whatever calls have been made on an object, in whatever order, at most the limit or the number restored is registered |
| `ManagerService.ObjectLosesNoVm` | manager/service.go:157-272 | whatever calls but shutdowns have been made on an object, each id started through it is in flight, registered, or has had its stop called, and with fresh ids no VM was dropped for another |
| `TtlManager.TTLManager.SetTTL` | manager/ttl.go:25-44 | the new timer runs and is stored; the VM's old one no longer runs; all others are as before, also as the model numbers them |
| `TtlManager.TTLManager.CancelTTL` | manager/ttl.go:47-55 | no timer of the VM runs afterwards; all others are as before |
| `TtlManager.TTLManager.CancelAll` | manager/ttl.go:58-66 | no timer runs and none is stored afterwards |
| `TtlManager.TTLManager.Fire` | manager/ttl.go:33-34 | a timer that goes off was the stored one; its entry stays |
| `TtlManager.OneRunningTimerPerVM` | manager/ttl.go:25-66 | two running timers of the same VM are the same timer |
| `SafePaths.AcceptedExactly` | internal/zip.go:196-208 | the first check accepts a name if and only if it holds no NUL or backslash, is relative, and walking it ends strictly below where it starts; the cleaned name is then those plain components |
| `SafePaths.AcceptedByDepth` | internal/zip.go:196-208 | in terms of the components alone: a relative name without NUL and backslash is accepted if and only if walking it never goes above its start and ends below it |
| `SafePaths.AcceptedStaysInside` | internal/zip.go:196-220 | for every cleaned root an accepted name lands at the root extended by its components, Rel gives back the cleaned name, and the second check never fires |
| `SafePaths.ClimbsExactly` | internal/zip.go:216-218 | a relative name is rejected as climbing exactly when its first component is the parent directory |
| `SafePaths.EntryNameBelow` | internal/zip.go:134-146 | the archiver names a file in a directory by the components leading down to it, from any cleaned source path |
| `SafePaths.EntryNameAccepted` | internal/zip.go:134-208 | the extractor accepts such a name if and only if no component holds a NUL or a backslash |
| `SafePaths.FirstCheckExactly` | agent/service.go:335-343 | the first check on a dataset name passes exactly the plain single components and the parent directory |
| `SafePaths.DatasetPathExactly` | agent/service.go:335-358 | the result is the datasets directory extended by the trimmed name if that is a plain single component, and a refusal otherwise |
| `SafePaths.ParentTarget` | agent/service.go:345-357 | for the parent directory the second check sees a climb, or the root itself when the root is "/"; both are refused |
| `Paths.ParseOfShow` | internal/zip.go:204-211 | a cleaned path name reads back as the path it was printed from |
| `Paths.CleanTwice` | internal/zip.go:204-204 | cleaning is idempotent |
| `Paths.JoinPlain` | internal/zip.go:211-211 | joining plain components to any cleaned directory descends by exactly those |
| `Paths.RelOfExtend` | internal/zip.go:212-212 | Rel inverts that descent, from any cleaned directory |
| `Paths.DownAndUp` | internal/zip.go:203-204 | a plain component and the climb out of it vanish, after anything and before anything, relative or rooted |
| `Paths.DotsVanish` | internal/zip.go:203-204 | so do empty components and dots |
| `Paths.LeadingClimbStays` | internal/zip.go:203-204 | a climb at the start of a relative name stays in front of what the rest comes to |
| `Paths.RootHasNoParent` | internal/zip.go:203-204 | a climb at the root vanishes |
| `Paths.JoinOfRel` | internal/zip.go:212-212 | joined to the base, what Rel answers is the target again, for any two paths it answers on |
| `Paths.BaseExactly` | internal/zip.go:134-137 | the last element, trailing slashes apart; of nothing but slashes, the root |
| `ZipArchive.NothingOutsideTheRoot` | internal/zip.go:148-245 | for any archive, readable or not, with entries that cannot be opened, created or copied to the end, extracted with or without error: no file outside the root changes, and no directory that is not inside or above it |
| `ZipArchive.ExtractStaysInside` | internal/zip.go:165-193 | any list of entries changes nothing that is not strictly inside the root |
| `ZipArchive.AcceptedExtractsBelow` | internal/zip.go:165-193 | an accepted entry is extracted at the root extended by its own components |
| `ZipArchive.WalkOrderForgotten` | internal/zip.go:48-73 | two walks that list the same files in different orders give the same archive |
| `ZipArchive.AbsIsRooted` | internal/zip.go:148-155 | the extraction root is a cleaned absolute path |
| `ZipArchive.AbsExactly` | internal/zip.go:148-155 | an absolute target does not depend on the working directory; plain names are looked up in it |
| `ZipArchive.EntryByKind` | internal/zip.go:165-193 | an accepted entry by its kind: a link or special entry fails and changes nothing; a directory is there afterwards or the entry fails; a file is there with its content, or the entry fails with what was there, or with the beginning that was copied; no other file changes |
| `ZipArchive.EntrySucceedsExactly` | internal/zip.go:165-245 | an accepted entry succeeds if and only if it is a directory that can be made, or a file whose parent can, that is no directory, and whose content can be written whole |
| `ZipArchive.MkdirSucceedsExactly` | internal/zip.go:156-158 | a directory can be made if and only if no file is on the way to it without a directory behind |
| `ZipArchive.ExtractInTwo` | internal/zip.go:165-193 | entries are extracted in their order, and the first that fails ends it |
| `ZipArchive.SpecialEntryFails` | internal/zip.go:177-192 | an archive with a link or a special entry anywhere in it fails |
| `ZipArchive.UnzipNeeds` | internal/zip.go:148-164 | without a target, a root that can be made and a readable archive nothing is extracted; what was made of the root stays |
| `ZipArchive.ArchivedExactly` | internal/zip.go:48-146 | a source is archived if and only if none of its listed files is gone, unreadable or without a name |
| `ZipArchive.IrregularLeavesNoTrace` | internal/zip.go:97-110 | a listed path that is no longer a regular file leaves no trace |
| `ZipArchive.WriteZip` | internal/zip.go:48-73 | the loop builds exactly `Archive`: an entry per file that is still regular, in sorted order, or failure |
| `ZipArchive.AddZipFile` | internal/zip.go:97-132 | nothing for a path that is no longer regular, failure for one that is gone, unnamable or unreadable, and otherwise one entry with its content |
| `ZipArchive.FileSystem.MakeDirs` | internal/zip.go:156-158 | creates the missing ancestors top down, keeping those made before a failure |
| `ZipArchive.FileSystem.ExtractZipFile` | internal/zip.go:222-245 | parent directories, opening the entry, creating the file, copying: a failure of each leaves exactly what was done before, a broken copy its beginning |
| `ZipArchive.FileSystem.ExtractOne` | internal/zip.go:165-192 | both name checks, then symlink, directory, other type or regular file, in that order |
| `ZipArchive.FileSystem.UnzipFromMemory` | internal/zip.go:148-194 | disk and verdict are those of `Unzip`, stopping at the first failure |
| `ZipRoundTrip.RoundTrip` | internal/zip.go:48-245 | archive a tree and extract it into an empty root: it succeeds if and only if no name holds a backslash or a NUL, and then the files inside the root are the tree's and the directories exactly those on the way to them, whatever order the walk listed them in |
| `ZipRoundTrip.SingleFileRoundTrip` | internal/zip.go:75-146 | a source that is one file comes back under its own name if and only if that name holds no backslash or NUL, as the only file and with no directory inside the root |
| `ZipRoundTrip.ArchiveHolds` | internal/zip.go:48-146 | the archive of a tree holds each file exactly once, named by the way down to it, with its content |
| `ZipRoundTrip.EntriesOfWalk` | internal/zip.go:97-146 | the entries of any part of a tree are those files with their relative names and contents, in order |
| `ZipRoundTrip.PackedRebuilds` | internal/zip.go:165-245 | extracting the remaining files of a tree onto the ones already there completes the tree, in any order |
| `ZipRoundTrip.UncleanStops` | internal/zip.go:165-208 | one name with a NUL or a backslash makes the extraction fail |
| `JsonScanner.ScanIsExact` | pkg/clients/identity_jwt.go:549-587 | on any JSON value followed by anything, wherever a value may stand: takes exactly the value's lexemes if no object in it, at any depth, repeats a member name, and reports the duplicate otherwise |
| `JsonScanner.CheckExactly` | pkg/clients/identity_jwt.go:534-547 | a text passes if and only if it is one JSON value without repeated member names |
| `JsonScanner.CheckOfValue` | pkg/clients/identity_jwt.go:534-547 | the verdict on any value followed by any lexemes: a duplicate if a name repeats, success if nothing follows, else trailing data or a syntax error |
| `JsonScanner.AcceptedIsValue` | pkg/clients/identity_jwt.go:549-587 | whatever the scanner gets through begins with a JSON value |
| `JsonScanner.MembersAreExact` | pkg/clients/identity_jwt.go:561-577 | the member loop accepts exactly the member lists without a repeated or already seen name |
| `JsonScanner.ItemsAreExact` | pkg/clients/identity_jwt.go:578-583 | the item loop accepts exactly the item lists without repeated member names |
| `JsonScanner.KeysAreText` | pkg/clients/identity_jwt.go:563-569 | in the place of a key the decoder yields only strings, so the non-string error is never reached |
| `JwtMembers.RejectDuplicateObjectMembers` | pkg/clients/identity_jwt.go:549-587 | the recursive method consumes the decoder as the scanner function says, error for error |
| `JwtMembers.RejectInObject` | pkg/clients/identity_jwt.go:560-577 | the member loop with its growing set of seen names computes the member scan |
| `JwtMembers.RejectInArray` | pkg/clients/identity_jwt.go:578-583 | the item loop computes the item scan |
| `JwtMembers.RejectDuplicateMembers` | pkg/clients/identity_jwt.go:534-547 | no error if and only if the text is one JSON value without repeated member names |
| `JwtMembers.RejectDuplicateTokenMembers` | pkg/clients/identity_jwt.go:517-532 | header and payload of a three-part token that decodes are both required to be free of repeated names; a part that does not decode ends the scan without an error |
| `Transfer.DownloadIsLossless` | agent/api/grpc/server.go:220-269 | a client that can write all chunks of a file passes them against its declared size, writes the file, and ends at 100 percent unless the file is empty |
| `Transfer.Chunks` | agent/api/grpc/server.go:253-269 | the chunks are non-empty, at most 1 MiB, and concatenate to the file |
| `Transfer.ChunkSizes` | agent/api/grpc/server.go:253-269 | every chunk but the last is of exactly 1048576 bytes |
| `Transfer.ChunksFit` | agent/api/grpc/server.go:253-269 | a file goes into n chunks if and only if it has at most n times 1048576 bytes |
| `Transfer.PassesExactly` | pkg/progressbar/progressbar.go:215-224 | with a positive total, chunks pass if and only if they fit in it and the sink takes them all; the counters are those of what was counted |
| `Transfer.NothingExpected` | pkg/progressbar/progressbar.go:215-224 | with a total of zero nothing passes: an empty chunk divides by zero, another exceeds the total |
| `Transfer.OwnSizePasses` | pkg/progressbar/progressbar.go:179-224 | a file read in any non-empty pieces passes against its own size and ends at 100 percent unless empty |
| `Transfer.FullBarMeansAll` | pkg/progressbar/progressbar.go:215-224 | the bar shows 100 percent if and only if every expected byte has been counted |
| `Transfer.UploadIsLossless` | pkg/progressbar/progressbar.go:85-131 | requirements first, then the algorithm: each arrives whole in its own field, however the files were read |
| `Transfer.DataUploadIsLossless` | pkg/progressbar/progressbar.go:133-177 | a dataset arrives whole; its name arrives with it exactly when the dataset is not empty |
| `StreamServer.StreamFileData` | agent/api/grpc/server.go:253-269 | sends the file's chunks in order up to where the stream breaks; succeeds exactly when it does not; what was sent is a prefix of the file |
| `StreamServer.StreamDualBuffers` | agent/api/grpc/server.go:436-463 | both buffers are sent in order, in messages of at most 1 MiB a part, none of them empty in both parts, and never more than the stream takes; completely if and only if the stream takes as many messages as the longer buffer needs, and otherwise a beginning of each |
| `StreamServer.AppendBounded` | agent/api/grpc/server.go:295-300 | appends exactly when the result stays within the limit |
| `StreamServer.ReceiveAlgoData` | agent/api/grpc/server.go:320-341 | however two files are cut and interleaved both come back whole; failure if and only if the stream breaks or a total passes its limit, with the first overflow named |
| `StreamServer.ReceiveStreamingData` | agent/api/grpc/server.go:271-293 | the dataset in one piece under the last non-empty name; failure if and only if the stream breaks or the total passes the limit, with the matching error |
| `ProgressBars.ProgressBar.UpdateProgress` | pkg/progressbar/progressbar.go:215-224 | the new counters are those of `Update`, with the overflow and division cases |
| `ProgressBars.ProgressBar.SendBuffer` | pkg/progressbar/progressbar.go:179-206 | counters, outcome and number of pieces sent are those of `Through`, for reads that fail and streams that break anywhere |
| `ProgressBars.ProgressBar.SendAlgorithm` | pkg/progressbar/progressbar.go:85-131 | succeeds if and only if what is read fits the measured total, both reads end well and the stream takes every message; what was sent is always a beginning of requirements, then algorithm; an exact fit ends at 100 percent |
| `ProgressBars.ProgressBar.SendData` | pkg/progressbar/progressbar.go:139-177 | succeeds if and only if what is read fits the measured size, the read ends well and the stream takes every message; what was sent is always a beginning of the pieces under the file's name |
| `ProgressBars.ProgressBar.ReceiveStream` | pkg/progressbar/progressbar.go:369-399 | counts and writes the chunks until one does not fit, a write fails or the stream breaks; the file holds exactly the chunks written and the beginning of the one that failed |
| `ProgressBars.PassInTwo` | pkg/progressbar/progressbar.go:85-115 | two transfers on one bar are one transfer of everything |
| `TransferPipeline.UploadAlgorithm` | agent/api/grpc/server.go:303-341 | client and server together: both files arrive unchanged if and only if neither is over its limit and the stream takes every message |
| `TransferPipeline.UploadDataset` | agent/api/grpc/server.go:344-365 | client and server together: the dataset arrives unchanged if and only if it is not over the limit and the stream takes every message, an empty one without its name |
| `TransferPipeline.Download` | agent/api/grpc/server.go:220-269 | server and client together: the file arrives complete if and only if the stream holds and every chunk can be written, and otherwise a beginning of it has been written |
| `CachePolicy.SameNormalForm` | pkg/agtp/cache_policy.go:107-123 | two lists normalize alike if and only if their sets of canonical, non-blank fields are equal |
| `CachePolicy.NormalizeTwice` | pkg/agtp/cache_policy.go:107-123 | normalization is idempotent |
| `CachePolicy.NormalizeExactly` | pkg/agtp/cache_policy.go:107-123 | the normal form is strictly increasing and holds exactly the canonical, non-blank fields |
| `CachePolicy.NormalizeCacheVary` | pkg/agtp/cache_policy.go:107-123 | the loop with its set of seen fields, then the sort, computes that normal form |
| `CachePolicy.CanonicalExactly` | pkg/agtp/cache_policy.go:125-142 | a field becomes a protected name exactly when it equals it up to case and surrounding space; any other field is only trimmed |
| `CachePolicy.CanonicalTwice` | pkg/agtp/cache_policy.go:125-142 | canonicalizing is idempotent |
| `CachePolicy.MergedNamesFold` | pkg/agtp/cache_policy.go:125-142 | fields with the same canonical form differ only in case and surrounding space |
| `CachePolicy.PartitionExactly` | pkg/agtp/cache_policy.go:144-151 | the containment test holds if and only if any two requests that agree on all Vary fields agree on all caller fields |
| `CachePolicy.PrivateExactly` | pkg/agtp/cache_policy.go:69-105 | a fresh private policy outside security state is valid if and only if its Vary key separates whatever the caller fields separate and, when session-bound, session caching is allowed and Session-ID is among its fields |
| `CachePolicy.SessionIsKept` | pkg/agtp/cache_policy.go:96-100 | two requests that a valid session-bound private policy lets share an answer have the same session |
| `CachePolicy.PublicExactly` | pkg/agtp/cache_policy.go:90-95 | a fresh public policy outside security state is valid if and only if there are no caller fields and no Vary field is a protected one, in any spelling |
| `CachePolicy.EffectiveExactly` | pkg/agtp/cache_policy.go:58-64 | a directive is public, private or no-store if and only if it is that word in any case with any spaces around it; nothing but spaces is no-store too |
| `CachePolicy.VerdictsInOrder` | pkg/agtp/cache_policy.go:69-105 | no-store is always valid; which error any other policy gets, the first in the source's order |
| `CachePolicy.FoldExactly` | pkg/agtp/cache_policy.go:137-137 | names are compared letter by letter whatever the case, the Kelvin sign and the long s being letters |
| `CachePolicy.KnownSpelled` | pkg/agtp/cache_policy.go:25-32 | the eight protected names |
| `CachePolicy.NormalizeSorts` | pkg/agtp/cache_policy.go:107-123 | two one-letter names in the wrong order come out in the right one |
| `Strings.TrimOf` | pkg/agtp/cache_policy.go:126-126 | trimming takes off exactly the spaces around a text |
| `Strings.TrimCuts` | pkg/agtp/cache_policy.go:126-126 | and every text is what trimming leaves with spaces around it |
| `Strings.LeqExactly` | pkg/agtp/cache_policy.go:121-121 | the sort's order: one text comes before another as a beginning of it, or by the first character that differs |
| `CachePolicy.StoredOnlyWhenFreshAndHarmless` | pkg/agtp/cache_policy.go:69-105 | any valid policy that stores has a positive lifetime, is outside security state, and never lets requests with different caller fields share an answer |

## Left out

- AgentSafety.RunsOnlyWhatWasDeclared: says nothing about a second loop that keeps waiting in its select after a stop, because each stop replaces the one loop of the model.
- AgentService.AgentService.FetchBackwards: the list is a value, so a caller's slice that shares its storage with the deleted-from one is not modelled.
- Transfer.PassesExactly: percentages are computed without 64-bit overflow.
- ZipArchive.NothingOutsideTheRoot: lexical only; symbolic links that already exist below the root are not modelled.
- Goroutine interleavings finer than the steps above: two handlers past the same state check, an action that outlives a stop in the middle of its work, a send racing with the closing of its channel.
- Liveness of the agent without delivery: any sent event may be dropped, and then the code alone decides only safety.
- Real cryptography: AES, SHA-3, ECDH, AES-GCM, JWS and COSE verification.
- The acceptance verdict of the identity tokens, `verificationKeyFunc` and `requireProfile`: finite case lists over claims and keys.
- `pkg/atls/identitypolicy`, `eaattestation` and the transport around the codec: certificate chains, transcript hashes, Finished and CertificateVerify messages, the authenticator request.
- The client side of the measurement download and the drawing of the progress bar, which needs a wide enough terminal.
- Zip compression, time stamps and permissions.
- VM processes, ports, certificates and environment files; persistence beyond which ids are restored.
- OCI images, proxies, the command line, TLS setup, logging, metrics, tracing and generated code.
