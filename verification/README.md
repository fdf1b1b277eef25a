# Verification of the AggLayer certificate proxy

The proxy takes certificate submissions, holds the suspicious ones of delayed chains in a database,
releases them after a delay or an override, and stops releases on a kill switch. This project models
its logic in Dafny and proves properties of the model. `dafny verify dfyconfig.toml` checks all of it.

## Layout

- `Bytes`, `Text`, `Sequences`, `Wrappers`: byte strings, decimal text, splitting and joining, permutations.
- `Certificates`, `Identity`, `Layout`, `Commitment`: the submitted messages, the certificate id as the
  program computes it with buffers and loops, where each field stands in the hashed bytes, and what the id
  commits to. The hash is a parameter of which only
  the 32-byte length is known.
- `Chains`, `Tokens`, `Marshal`, `HexText`: the text formats of the delayed chains and the token prices, hexadecimal
  text, and the 32-byte global index.
- `Suspicion`: the dollar value of a certificate, the verdict on it, and its rounding.
- `Metadata`, `Accounting`: the stored summary and the two accountings of held value.
- `KillSwitch`: the attempt table with its pruning, the window count and the flag, as a step system in which
  requests overlap. `Endpoints`: a request in the program's own control flow, taking only steps of that system.
- `CertificateTable`, `Lifecycle`: the rows, and a step system in which the scheduler has explicit program
  points and everything else (submissions, overrides, the flag, the clock, cancellation, the end of the
  process and its restart) interleaves with it. A run is any sequence of steps; a step that is not possible
  changes nothing. Failures of every call are steps too: a send may be delivered and still return an error,
  a mark may fail, the process may end between delivery and mark. A log records what happened; an entry
  carries the log position of its cause.
- `Invariant`: the inductive invariant. `Safety`, `Conservation`, `Release`: what follows for all runs.
- `Process`: the scheduler task in the program's own control flow, shown to take only steps of that system.
- `Submission`: the submission and header calls in the program's own control flow, shown to take only steps
  of that system, and when every withdrawal is held.
- `Relay`: the bidirectional stream relay, two copying loops and a select loop in any interleaving.

In the step system the endpoints may set the flag at any time; when they really do is the subject of
`KillSwitch`. The decision to hold a submission arrives with it; how it is taken is the subject of
`Submission`. Row numbers are positions, one less than the ids of the database.

The repository's README says (line 80) that leaving out either of the two suspicion flags makes every
certificate with exits suspicious. The texts that matter are those in the database, where a flag that is
left out keeps what an earlier start stored. What the code does with them is stated exactly:

- every certificate, the one without exits included, is suspicious iff both texts are missing
  (`Suspicion.AllSuspicious`);
- every certificate with exits is suspicious iff both texts are missing, or both can be read (a missing
  limit can) and no configured address is hexadecimal (`Suspicion.LocksExitsMeaning`);
- every withdrawal from a delayed chain is held iff both texts are missing, or both can be read and each
  token with a hexadecimal address has multiplier one and a dollar value above the limit, which then must
  be there (`Submission.HoldsAllValueMeaning`);
- with a limit alone the check always fails; with prices alone it fails iff they do not parse, says
  "suspicious" iff the scan stops at an unpriced exit, and panics otherwise (`Suspicion.VerdictMeaning`).

The kill switch is meant to follow the last kind of request to reach three attempts in a minute. It does
not always: a request that counted early may set the flag late (`KillSwitch.LateKill`), and the update of
the last to reach three may fail or its process end before it (`KillSwitch.LostRestart`). Stated exactly:

- releases are stopped iff the last update is a kill, in every run (`KillSwitch.StoppedMeaning`);
- the flag follows the last kind to reach three iff the count behind the last update is of that kind; with
  no update at all, iff that kind is a restart (`KillSwitch.FollowsLastToReach`);
- it is enough that the last request to reach three has set the flag and the last to set it was not
  overtaken by a count of the other kind, whatever overlapped or failed before
  (`KillSwitch.LastToReachDecides`).

## Model

| member | source | states |
|---|---|---|
| `Identity.AmountField` | internal/certificate/hashing.go:78-87 | the 32-byte field holds the amount's value modulo 2^256 for amounts of any length |
| `Identity.HashBridgeExit` | internal/certificate/hashing.go:51-98 | the buffer computation is the hash of the exit's canonical view, or a panic iff a part it dereferences is missing |
| `Identity.HashProof` | internal/certificate/hashing.go:108-118 | a proof hash is the hash of the root and all siblings in order |
| `Identity.HashClaim` | internal/certificate/hashing.go:105-162 | mainnet and rollup claims are hashed as their canonical views |
| `Identity.ReverseIndex` | internal/certificate/hashing.go:166-170 | the index loop reverses the first 32 bytes |
| `Identity.HashImportedBridgeExit` | internal/certificate/hashing.go:100-176 | the computation is the hash of the canonical view, with or without a claim, or a panic iff a part is missing or the global index is short |
| `Identity.HashExits` | internal/certificate/hashing.go:13-18 | the combined hashes are those of the exits in order, and they exist iff no exit makes the hashing panic |
| `Identity.HashImportedExits` | internal/certificate/hashing.go:20-25 | the combined hashes are those of the imported exits in order, and they exist iff none makes the hashing panic |
| `Identity.GenerateCertificateId` | internal/certificate/hashing.go:12-47 | the id is a function of the canonical view alone; it exists iff nothing dereferenced is missing, and then every exit has the token address the later check looks at |
| `Layout.FinalBytes` | internal/certificate/hashing.go:27-40 | network, height, roots, the two combined hashes and the metadata stand at their offsets in the final hash input |
| `Layout.ExitsBytes` | internal/certificate/hashing.go:13-18 | the hashes of the exits stand one after the other, 32 bytes each |
| `Layout.ImportedExitsBytes` | internal/certificate/hashing.go:20-25 | so do those of the imported exits |
| `Layout.ExitBytes` | internal/certificate/hashing.go:51-98 | every field of an exit stands at its offset: type byte, networks, addresses, the amount modulo 2^256, metadata |
| `Layout.ImportedBytes` | internal/certificate/hashing.go:100-176 | the hash of the exit, of the claim if there is one, and of the reversed global index |
| `Layout.ClaimBytes` | internal/certificate/hashing.go:105-162 | the hashes of the proofs in order and the leaf, hashed for mainnet and not for rollup |
| `Layout.ProofBytes` | internal/certificate/hashing.go:108-118 | the root and then every sibling at its offset |
| `Commitment.ExitPreimageInjective` | internal/certificate/hashing.go:51-98 | an exit's hash input determines every field of its view |
| `Commitment.ProofPreimageInjective` | internal/certificate/hashing.go:108-118 | a proof's hash input determines the root and the siblings |
| `Commitment.LeafCommits` | internal/certificate/hashing.go:120-125 | the leaf input commits to both exit roots, the block hash and the timestamp |
| `Commitment.ClaimPreimageLength` | internal/certificate/hashing.go:127-161 | 96 bytes for mainnet claims, 168 for rollup claims |
| `Commitment.ClaimCommits` | internal/certificate/hashing.go:105-162 | equal claim hashes mean equal claims of the same kind, barring a collision among the inputs |
| `Commitment.ImportedCommits` | internal/certificate/hashing.go:100-176 | equal imported-exit hashes mean equal views, a missing claim included, barring a collision |
| `Commitment.ExitsCommit` | internal/certificate/hashing.go:13-18 | the combined hash commits to the list of exits, its length included |
| `Commitment.ImportedExitsCommit` | internal/certificate/hashing.go:20-25 | the combined hash commits to the list of imported exits |
| `Commitment.FinalPreimageFields` | internal/certificate/hashing.go:27-40 | the final hash input determines its fields |
| `Commitment.ViewsCommit` | internal/certificate/hashing.go:12-47 | equal ids mean equal views when no two different inputs collide |
| `Commitment.IdCommitsToView` | internal/certificate/hashing.go:12-176 | ids are equal if the views are; and if ids are equal, the views are, or two different inputs hashed in the two computations collide |
| `Commitment.WidthsAreNeeded` | internal/certificate/hashing.go:33-36 | without fixed field widths, different certificates share an id |
| `Commitment.IdIgnoresSpelling` | internal/certificate/hashing.go:51-98 | respelled exits and fields outside the view leave the id of a whole certificate alone |
| `Commitment.Respellings` | internal/certificate/hashing.go:55-94 | leading zeros, bytes above the 32nd, absent metadata and non-transfer leaf types are such respellings |
| `Commitment.AmountFieldValue` | internal/certificate/hashing.go:78-87 | the amount field reads back as the amount modulo 2^256 |
| `Chains.ParseChainIDs` | cmd/proxy/main.go:316-328 | exactly the well-formed parts, in order |
| `Chains.Service.SetDelayedChains` | internal/certificate/service.go:108-118 | after a successful write the stored text stands for exactly the given list; a failed one changes nothing |
| `Chains.Service.GetDelayedChains` | internal/certificate/service.go:66-90 | the list the stored text stands for, or the error of the read |
| `Chains.Service.IsChainDelayed` | internal/certificate/service.go:92-106 | membership in that list, or the error of the read |
| `Chains.ChainsRoundTrip` | internal/certificate/service.go:67-118 | every list of 32-bit ids survives printing and parsing |
| `Chains.SpacedList` | internal/certificate/service.go:78-87 | white space around the ids of a list makes no difference |
| `Chains.MalformedSkipped` | internal/certificate/service.go:78-87 | a part that is no 32-bit number is passed over, the others count as before |
| `Chains.SpacedExample` | cmd/proxy/main.go:316-328 | the text 1, 137 is the list of 1 and 137 |
| `Chains.NormalisationIsStable` | cmd/proxy/main.go:316-328 | parse, print, parse gives what one parse gives, for any text |
| `Tokens.ParseTokenValues` | internal/certificate/tokens.go:22-56 | one table for the whole list, or an error if any entry is bad |
| `Tokens.IDInjective` | internal/certificate/tokens.go:17-20 | ids are equal exactly for equal networks and addresses equal up to case |
| `Tokens.ParsePrintedEntry` | internal/certificate/tokens.go:26-53 | network:address:dollars:multiplier, in this order, parses to that token with a lower-case address |
| `Tokens.TokensRoundTrip` | internal/certificate/tokens.go:17-56 | parsing a printed list gives the last-wins table, looked up by id as by network and address |
| `Marshal.HexRoundTrip` | internal/certificate/marshal.go:99-114 | decoding inverts printing for nonempty bytes, with or without 0x |
| `Marshal.HexMeaning` | internal/certificate/marshal.go:99-114 | exactly which texts decode, their length, and that the number is kept for odd lengths too |
| `Marshal.PutUint32` | internal/certificate/marshal.go:201-204 | four little-endian bytes in place, the rest untouched |
| `Marshal.ReverseInPlace` | internal/certificate/marshal.go:211-214 | the swap loop reverses the buffer |
| `Marshal.EncodeGlobalIndex` | internal/certificate/marshal.go:197-216 | after the hash-time reversal the bytes are LE32(leaf), LE32(rollup), flag, 23 zeros |
| `Marshal.IndexBytes` | internal/certificate/hashing.go:166-172 | read as numbers, the hashed bytes are leaf and rollup index in little-endian order, the flag, and zeros |
| `Marshal.IndexRecoverable` | internal/certificate/hashing.go:166-172 | the hashed bytes determine flag, rollup index and leaf index |
| `Suspicion.Scan` | internal/certificate/grpc.go:179-218 | the loop with its early returns gives the verdict of the quantified specification |
| `Suspicion.CheckForSuspiciousValue` | internal/certificate/grpc.go:141-219 | the outcome for every pair of configuration texts, errors and panics included |
| `Suspicion.VerdictMeaning` | internal/certificate/grpc.go:141-219 | suspicious iff a token is unpriced or the total exceeds the limit, when both are configured; an error iff a needed text does not parse; exactly what happens when one or both are missing |
| `Suspicion.AllSuspicious` | internal/certificate/grpc.go:168-171 | every certificate is suspicious iff both texts are missing |
| `Suspicion.LocksExitsMeaning` | internal/certificate/grpc.go:168-203 | every certificate with exits is suspicious iff both texts are missing, or both can be read and no configured address is hexadecimal |
| `Suspicion.PriceByPair` | internal/certificate/grpc.go:190-199 | the lookup by textual id is the lookup by network and address in the configured list |
| `Suspicion.PricedByAddress` | internal/certificate/grpc.go:190-199 | a configured address prices an exit iff it denotes the exit's 20 bytes, in either letter case |
| `Suspicion.TotalOfPermutation` | internal/certificate/grpc.go:181-214 | the total does not depend on the order of the exits |
| `Suspicion.VerdictOfPermutation` | internal/certificate/grpc.go:181-218 | neither does the verdict |
| `Suspicion.NeverCleared` | internal/certificate/grpc.go:181-218 | more exits or a lower limit never clear a suspicious certificate |
| `Suspicion.RoundingBound` | internal/certificate/grpc.go:205-211 | the total is at most the exact value and short by strictly less than the exits' dollar values together |
| `Suspicion.Merging` | internal/certificate/grpc.go:205-211 | replacing two exits of one token, anywhere in a certificate, by their sum raises the total by nothing or by one dollar value |
| `Metadata.BytesToUint64` | internal/certificate/grpc.go:304-322 | the big-endian value modulo 2^64, for any length |
| `Metadata.ExtractExit` | internal/certificate/grpc.go:345-361 | the summary of an exit carries its token address in hexadecimal and its amount modulo 2^64 in decimal |
| `Metadata.SummaryTexts` | internal/certificate/grpc.go:345-361 | the texts of a summary read back as the address and as the amount modulo 2^64 |
| `Metadata.ExtractImported` | internal/certificate/grpc.go:371-393 | the summaries of the imported exits that hold an exit, in order |
| `Metadata.ExtractMetadata` | internal/certificate/grpc.go:324-395 | the summary of a certificate |
| `Accounting.AddExits` | internal/certificate/api.go:278-329 | each token's total grows by exactly the amounts of its own exits, and all together by the sum of the list |
| `Accounting.TokenTotals` | internal/certificate/api.go:272-335 | the totals a certificate shows: for each token the amounts of its exits and imported exits |
| `Accounting.GroupingLosesNothing` | internal/certificate/api.go:272-355 | whatever tokens the exits spread over, the totals together grow by the sum of the amounts |
| `Accounting.AddTokens` | internal/certificate/api.go:352-355 | the chain total grows by the sum over the tokens, in whatever order they come |
| `Accounting.LoadChainTotals` | internal/certificate/api.go:252-364 | one total per network above zero with a pending certificate: the sum over all exits and imported exits of its unprocessed rows |
| `Accounting.UpdateMetrics` | internal/metrics/updater.go:70-113 | one total per network among the certificates the query returned: the sum over all their exits, with no further test |
| `Accounting.AccountingsAgree` | internal/certificate/api.go:252-364 | over one state of the table, each query in any order: the same networks, and the HTTP total is the metrics total plus the imported exits of pending certificates |
| `Accounting.SummaryLosesHighParts` | internal/certificate/grpc.go:304-322 | the withdrawal value is the summarised sum plus 2^64 times what truncation cut off |
| `Accounting.ContributionOfCertificate` | internal/certificate/grpc.go:80-85 | the contribution is congruent to the withdrawal value modulo 2^64, and equal iff every amount fits |
| `Accounting.HeldCertificateCounts` | internal/certificate/grpc.go:324-395 | what one held certificate adds to each accounting of its own network, from its amounts, and to no other network |
| `KillSwitch.WindowAgrees` | internal/certificate/sqlite.go:310-332 | while the table keeps the last five minutes, a count in it equals the count over the full history |
| `KillSwitch.Reachable` | internal/certificate/api.go:430-535 | the invariant on table, history, counts and updates holds after every run |
| `KillSwitch.CountsAreFull` | internal/certificate/sqlite.go:301-332 | in every run each count read is the number of attempts of its kind recorded in the minute up to it, whatever was pruned |
| `KillSwitch.StoppedMeaning` | internal/certificate/api.go:430-535 | in every run, with requests overlapping and failing: releases are stopped iff the last update is a kill; each update relies on its own earlier count of at least three in the full history of a minute |
| `KillSwitch.FollowsLastToReach` | internal/certificate/api.go:430-535 | in every run the flag follows the last kind to reach three iff the count behind the last update is of that kind |
| `KillSwitch.LastToReachDecides` | internal/certificate/api.go:430-535 | the last kind to reach three decides if that request has set the flag and the last update was not overtaken by the other kind |
| `KillSwitch.LateKill` | internal/certificate/api.go:430-454 | a run in which an overtaken kill request leaves releases stopped although a restart was the last to reach three |
| `KillSwitch.LostRestart` | internal/certificate/api.go:511-535 | runs without any overlap in which the last to reach three is a restart whose update fails or whose process ends, and releases stay stopped |
| `Endpoints.Handler.CountRecent` | internal/certificate/sqlite.go:310-323 | the count of the full history of the last minute, or an error |
| `Endpoints.Handler.Cleanup` | internal/certificate/sqlite.go:325-332 | exactly the attempts of the last five minutes stay |
| `Endpoints.Handler.Handle` | internal/certificate/api.go:430-535 | one request among others: its attempt is recorded before its count; an error iff the count or a needed update failed; three or more attempts set the flag by an update relying on that count, fewer are reported |
| `Endpoints.Handler.ThreeRequests` | internal/certificate/api.go:430-535 | three requests of a kind within a minute whose calls succeed set the flag, whatever earlier requests do meanwhile |
| `CertificateTable.Processable` | internal/certificate/sqlite.go:160-191 | exactly the unprocessed rows received at least the delay, in seconds, before now, or overridden, in row order |
| `CertificateTable.FindById` | internal/certificate/sqlite.go:357-364 | the first row with the id, or none |
| `Invariant.TaskStep` | internal/certificate/schedule.go:73-105 | start, flag reading and loop head keep the invariant |
| `Invariant.SnapshotStep` | internal/certificate/sqlite.go:160-191 | so does reading the ready rows |
| `Invariant.DeliverStep` | internal/certificate/service.go:200-200 | so does a delivery |
| `Invariant.AnswerStep` | internal/certificate/service.go:144-147 | so does an answer or an error |
| `Invariant.MarkStep` | internal/certificate/service.go:149-151 | so does a mark or its failure |
| `Invariant.SubmissionStep` | internal/certificate/grpc.go:89-136 | so does every step of a submission |
| `Invariant.ControlStep` | internal/certificate/schedule.go:51-69 | so do the endpoints, cancellation, the end of the process and its restart |
| `Invariant.Reachable` | internal/certificate/service.go:120-153 | the invariant holds after every run |
| `Safety.DuplicateBound` | internal/certificate/service.go:136-152 | deliveries of a row are at most one more than its failed sends and lost marks; it is marked at most once, and exactly then processed |
| `Safety.MarkedAfterAck` | internal/certificate/service.go:144-151 | a mark follows an acknowledged send of the same row |
| `Safety.NoEarlyRelease` | internal/certificate/sqlite.go:161-191 | at a delivery the delay in force at the snapshot was over, or the row had been overridden before the snapshot |
| `Safety.RowsAreKept` | internal/certificate/sqlite.go:148-208 | in any run rows are never removed and only their two time stamps change, never back |
| `Safety.ReadyUntilProcessed` | internal/certificate/sqlite.go:161-191 | under a fixed delay a ready row stays ready until it is processed |
| `Safety.StoppedDelivery` | internal/certificate/schedule.go:86-102 | after a switch-off a delivery comes only from a batch that read the flag, as active, before it |
| `Safety.KillSafety` | internal/certificate/schedule.go:86-102 | all those deliveries belong to one snapshot and are of different rows, in row order, over restarts too |
| `Safety.StoppedStaysStopped` | internal/certificate/sqlite.go:99-110 | with the flag off and no batch running nothing is sent until a restart request fires; a new process does not change that |
| `Safety.Shutdown` | internal/certificate/service.go:136-147 | after cancellation at most the send already past its check is made, from any program point |
| `Safety.CancelStops` | internal/certificate/schedule.go:51-69 | a cancellation lets at most one more send happen |
| `Conservation.Reachable` | internal/certificate/grpc.go:89-136 | the account of submissions holds after every run |
| `Conservation.Conservation` | internal/certificate/grpc.go:89-136 | a returned submission has exactly one acknowledged forward or exactly one row, never both; rows keep what was submitted |
| `Conservation.HeaderMovesForward` | internal/certificate/grpc.go:229-269 | the source of the answer for an id only moves from unknown to pending to processed |
| `Conservation.HeldIdResolves` | internal/certificate/sqlite.go:357-364 | the id of a held submission resolves, to its own row iff no earlier row has that id |
| `Conservation.SecondTwinResolvesToFirst` | internal/certificate/sqlite.go:357-364 | a run in which the id of a held submission resolves to the row of an earlier one |
| `Process.Task.GetSchedulerStatus` | internal/certificate/schedule.go:86-97 | the task goes on iff the flag is read without error and active; an error reads as inactive |
| `Process.Task.GetProcessableCertificates` | internal/certificate/service.go:123-132 | the batch is the ready rows in order, or the first of them if the read breaks off |
| `Process.Task.SendToAggSender` | internal/certificate/service.go:144-147 | delivered or not, and where the loop goes on |
| `Process.Task.MarkCertificateProcessed` | internal/certificate/sqlite.go:194-200 | the time is written into that row and no other, or nothing is if the call fails |
| `Process.Task.ProcessPendingCertificates` | internal/certificate/service.go:120-153 | the ready rows are tried in order and only cancellation ends the loop early; what became of each row, and so what is sent and what is marked, follows from how its calls ended |
| `Process.Task.ProcessCertificates` | internal/certificate/schedule.go:73-105 | so does the whole task; exactly the rows it reports as done get a time, in that time; undisturbed it sends exactly the rows due and gives them the time |
| `Process.CancelledTask` | internal/certificate/service.go:136-147 | however the task's run goes on after cancellation, at most the row past its check is sent |
| `Release.UndisturbedBatch` | internal/certificate/service.go:120-153 | undisturbed, a batch sends each ready row once, in order, and marks it |
| `Release.ReleasedWhenDue` | internal/certificate/sqlite.go:160-191 | one undisturbed batch sends and marks a row iff it is unprocessed and its delay is over or it was overridden; no other row changes |
| `Release.ReleasedAfterRestart` | internal/certificate/sqlite.go:99-110 | so does the first batch of a new process, with any delay |
| `Release.OverrideReleases` | internal/certificate/api.go:602-606 | an override is written to its own row; from then on the row is ready, whatever the delay, until processed |
| `Submission.Server.SumExits` | internal/certificate/grpc.go:80-85 | the withdrawal value is the untruncated sum |
| `Submission.Server.Decide` | internal/certificate/grpc.go:66-110 | where a submission goes |
| `Submission.Server.SendImmediately` | internal/certificate/grpc.go:119-127 | how far the forward gets in the run, and the id, the error or the panic it ends in; a call that reached the node may still fail |
| `Submission.Server.StoreCertificate` | internal/certificate/grpc.go:129-136 | the row that is inserted, or the error |
| `Submission.Server.SubmitCertificate` | internal/certificate/grpc.go:49-136 | stored iff delayed, with an amount, suspicious and inserted; passed on iff not delayed, without amount or not suspicious; refused iff the check is; one row or one forward in the run of all calls, and which id is answered |
| `Submission.Server.Dispatch` | internal/certificate/grpc.go:49-136 | one call takes only steps of the system and gets exactly as far as database and node let it |
| `Submission.HoldsAllValueMeaning` | internal/certificate/grpc.go:87-110 | every withdrawal from a delayed chain is held iff both texts are missing, or both can be read and no configured token ever lets an amount pass |
| `Submission.Server.GetCertificateHeader` | internal/certificate/grpc.go:229-269 | PENDING iff the first row with the id is read and not processed; when the call fails and when it panics |
| `Relay.CopyLoop` | internal/certificate/proxy_handler.go:82-98 | one copying loop makes exactly moves of a direction; given the answers of the two streams, where it stops, what it delivers and its one result |
| `Relay.AdvanceKeepsInv` | internal/certificate/proxy_handler.go:100-116 | every move keeps the direction in order and uses up its budget |
| `Relay.StepKeepsInv` | internal/certificate/proxy_handler.go:55-80 | every interleaved step keeps the invariant; every select uses up a channel |
| `Relay.Faithful` | internal/certificate/proxy_handler.go:55-116 | deliveries are in-order prefixes of what was read; a nil return means the caller has every backend frame; nil iff a clean end was taken, an error iff an error was |
| `Relay.BackendSideTaken` | internal/certificate/proxy_handler.go:72-78 | a clean end of the backend's side makes the handler return nil, an error that error |
| `Relay.CallerSideTaken` | internal/certificate/proxy_handler.go:63-71 | a clean end of the caller's side only closes the backend's input, an error ends the call |
| `Relay.CleanRunSucceeds` | internal/certificate/proxy_handler.go:55-116 | a run in which no call fails, once nothing is left to do, has returned nil with every backend frame delivered |
| `Relay.Terminates` | internal/certificate/proxy_handler.go:55-80 | runs are bounded, the select loop goes round at most twice and is not left waiting |

## Left out

- Relay.Faithful: assumes that a server-side `SendMsg` never returns `io.EOF`, as gRPC promises; if it did, the relay would report success with a frame missing.
- Relay.StepKeepsInv: models the two goroutines and the select loop as steps on values; the shared channels and the frame buffer of each goroutine are fields of the state.
- Commitment.IdCommitsToView: Keccak is a parameter, so a collision is exhibited, not excluded.
- Accounting.AccountingsAgree: the JSON text of the metadata is read back as it was written; network ids are exact in it.
- CertificateTable.Processable: assumes that SQLite returns the ready rows in row order, which the query does not ask for; the row order in `Safety.KillSafety` rests on it.
- Conservation.HeaderMovesForward: assumes that SQLite returns the first of several rows with one id.
- Metadata.ExtractExit: keeps the token address and the amount of the summary; destination network and address are only copied for display.
- Metadata.ExtractImported: keeps the same two fields; destinations and the global index text are only copied for display.
- Metadata.ExtractMetadata: keeps the network id and the exits; height, roots, counts, metadata and the chain data are only copied for display.
- Messages without exit roots, certificate metadata or claim parts, on which hashing also panics, are outside the messages modelled. Every other panic is an outcome: `None` of the hashing methods, `Panics`, `Panicked`, and the end of the process in the step system.
- A byte field that is present but empty is treated as absent in summaries, as it arrives after protobuf decoding.
- Appending to a decoded slice in the rollup branch of the hash may write into its spare capacity; byte strings are values here.
- Text is a sequence of characters; the 40-character check counts characters and lower-casing changes only A to Z, which is exact for ASCII text.
- Timestamps are compared as numbers, and a delay never overflows 64-bit nanoseconds; the textual form of times in SQLite is not modelled.
- The wait group of the scheduler, the gRPC and HTTP servers, authentication, logging, metrics gauges, the HTML page and number formatting.
- Keccak, protobuf and JSON encoding, and the conversion of JSON maps to messages beyond hexadecimal text and the global index.
- Several proxy processes on one database.
