# Verification models of the blob gateway

Dafny models of the gateway's stateful core and proofs of what it promises. `dafny verify dfyconfig.toml` checks the whole project.

A SQL table is a map or a set in a class, a transaction is one step, and a crash is a step that stops early. Hashes, signature checks, request bodies, date parsing, clocks and network answers are parameters, and nothing is assumed of them beyond what a member's `requires` says; where a property rests on a hash, the proof returns two inputs that collide instead of assuming there are none. Each class is tied to step functions on values, and the runs of those steps are what the main results speak of.

| files | what they model |
|---|---|
| `read_quota`, `quota_runs`, `quota_recovery`, `read_calls`, `read_flight`, `read_runs`, `read_outcomes`, `admission`, `read_service`, `scale` | the Midnight read RPC: daily budget in two files, its runs and its recovery, allowed calls, single-flight cache, what becomes of each read, admission, all of them together, set-ending headers |
| `batch_record`, `batch_accepts`, `batch_merge`, `batch_store`, `batch_saves`, `batch_runs` | batch records, which are accepted and what a merge leaves of two, the store several processes write, what one save or claim changes in it, and its runs |
| `batch_index`, `batch_claims`, `claim_pages`, `leaf_pages` | what the leaf index and the claims say in any run, and the paged reads |
| `upload_sigs`, `upload_messages`, `sig_runs`, `sig_clock`, `upload_quota`, `upload_slots` | upload signatures, what they sign, their one-time use under clocks that run forward and that do not, upload quotas, who holds a slot, and re-keying |
| `midnight_store`, `midnight_objects`, `midnight_runs`, `midnight_saves`, `midnight_pages` | the Midnight proof store: its checks, the objects they accept, its runs, the saves it accepts, and its pages |
| `merkle`, `l1_anchor`, `koios` | the chunk-Merkle root and the verdict on a Cardano anchor |
| `billing_pages`, `billing_aggregate`, `billing_cursor` | billing pages, totals and cursors |
| `evidence`, `base62` | the evidence vector of a receipt, the text of an API token |
| `keyset` | paging by key, shared by all paged reads |
| `common`, `hex`, `text_order`, `json`, `json_text`, `decimal` | shared datatypes, hex text, the order of texts, JSON values and texts, decimal numerals |

## Where the code and its comments part

- `src/storage.ts:331` says a crash after the rename is repaired by the startup backfill. The backfill reads the directory before its transaction (`src/storage.ts:370`), so a batch first written in between by a process that then dies is left to a later backfill. `BatchIndex.BackfillCoversExactly` says exactly when a batch is missed, `BatchIndex.LateTornSaveIsMissed` gives a run.
- Historical files are indexed without being validated (`src/storage.ts:366`). A later save may then replace such a file by a valid batch without one of its leaves, and the leaf stays indexed; so does the leaf of one of two old files whose names differ only in case (`BatchIndex.LeavesStray`). The index is exact from exactly the stores in which neither can happen (`BatchIndex.IndexIsExact`), among them all whose old files are valid for their ids (`BatchIndex.ValidOldLeavesStay`); for a batch about to be saved it can be checked by comparing leaves (`BatchIndex.OldLeavesStayForBatch`).
- A claim can be hidden again where two old batch files of one id differ in case and in their claims (`BatchClaims.TwoSpellingsHideAClaim`), and only there (`BatchClaims.ClaimsAreNeverLost`).
- `src/upload-auth.ts:32-33` says a signature accepted before a restart is refused after it even if the store was lost. That holds exactly for timestamps before the new start (`SigRuns.LostStoreAcceptsAgainExactly`); a request whose timestamp is still to come is accepted again.
- `src/routes/midnight-read-rpc.ts:178` charges a job to the day on which it is reserved, and `:186-187` sends it up to 12 seconds later, after the jobs before it. A day can therefore send its caps and, on top, what was queued when it began: exactly then the caps fail for what is sent (`QuotaRuns.CapOfADayExactly`), by at most 8 jobs of 32 calls (`ReadService.SentOnADay`); `QuotaRuns.LateJobPassesTheCap` is a run. For what is charged the caps always hold.
- A used signature is forgotten by the reading of the spend that purges it (`src/upload-auth.ts:143-147`). If the clock then steps back into its window the request is accepted again (`SigClock.ClockStepBackAcceptsTwice`), and only then (`SigClock.AcceptedAgainExactly`, `SigClock.AcceptedTwiceSteppedBack`).
- `src/quota.ts:476-489` charges a chunk without asking whether its upload still holds a slot, so an upload that was silent for ten minutes and lost its slot may go on beside a full set of others (`UploadSlots.LateChargePassesTheCap`); without such charges the limit on uploads active in the last ten minutes holds (`UploadSlots.RecentUploadsWithinCap`, `UploadSlots.LateChargesExactly`).
- The comment on `decodeCursor` (`src/billing/aggregate.ts:199-201`) has the route start from the beginning when a cursor is malformed; the route refuses it (`src/routes/billing.ts:344-353`).
- The two root-only transactions of `src/l1-anchor-verify.ts:102` name a root but no batch (`L1Anchor.RootOnlyDoesNotBind`).
- `mergeBatch` can name a claim neither writer made (`BatchRecord.MixedClaimCanAppear`), so claims are shown to grow, not to be the union.

## Model

| member | source | states |
|---|---|---|
| `ReadQuota.ReadBudget.Reserve` | src/routes/midnight-read-rpc.ts:95-115 | One reservation: both files are checked against each other and the clock, the row is committed, then the high-water file renamed; a crash between the two leaves the row alone changed, only a completed rename lets the caller send, an exhausted day is answered as such, and anything else throws |
| `ReadQuota.ReadBudget.Open` | src/routes/midnight-read-rpc.ts:78-127 | Startup refuses a missing half of the pair, creates both files when both are missing, and starts only when a zero charge is granted |
| `QuotaRuns.DailyCap` | src/routes/midnight-read-rpc.ts:110-113 | In every run of reservations, sends, deadlines, failed writes, restarts and arbitrary clock readings, whatever databases are put in place, no day is charged more than 80,000 calls or 40,000 requests, and of what is charged to a day no more than that is ever sent |
| `QuotaRuns.RunKeepsGuarded` | src/routes/midnight-read-rpc.ts:104-115 | In every run what was charged to a day is within the caps and, on the marked day, under the high-water mark; no day past the mark is charged; and what of a day was sent or is queued was charged to it |
| `QuotaRuns.GrantOrder` | src/routes/midnight-read-rpc.ts:107-114 | Whenever a charge is granted, what was sent or waits <= what was charged <= high-water mark <= latest row <= caps, and the new charge covers what is granted |
| `QuotaRuns.SentOnADay` | src/routes/midnight-read-rpc.ts:186-187 | In every run, whatever the clock reads, a day sends at most its caps and what it sends of jobs charged to other days |
| `QuotaRuns.SentIsCapAndQueue` | src/routes/midnight-read-rpc.ts:178-187 | While the clock does not go back, a day sends at most its caps and the jobs that were queued when it began |
| `QuotaRuns.CapOfADayExactly` | src/routes/midnight-read-rpc.ts:178-187 | When a day begins on which the service can charge and the clock has not gone back, the caps hold for what is sent on that day, in every run on from there whose clock does not go back, if and only if no job is queued then |
| `QuotaRuns.LateJobPassesTheCap` | src/routes/midnight-read-rpc.ts:186-187 | A job of 32 calls charged before midnight and sent after it: a run that sends 80,032 calls in 40,001 requests on one day |
| `ReadService.LineWithinActive` | src/routes/midnight-read-rpc.ts:222-226 | In every reachable state of admission, reads and budget together, no more jobs wait to be sent than requests are active, so at most 8 |
| `ReadService.RunKeepsInv` | src/routes/midnight-read-rpc.ts:172-245 | In every run of the whole service the jobs that wait run, are awaited by different admitted requests, and are the budget's queue with their own call counts; the queue never costs more than 256 calls and 8 requests |
| `ReadService.SentOnADay` | src/routes/midnight-read-rpc.ts:12-13 | In every run of the whole service whose clock does not go back, at most 80,256 calls and 40,008 requests are sent on a day |
| `ReadService.JobsAreChargedTheirCalls` | src/routes/midnight-read-rpc.ts:176-181 | A job that waits is charged exactly the calls of its request, one for each missing key, at most 32 |
| `ReadService.SendingSendsTheRequest` | src/routes/midnight-read-rpc.ts:181-187 | Sending a job adds to what was sent exactly the calls of its request, filed under the day it was charged to and the day of the send |
| `QuotaRuns.WholeBudgetUsable` | src/routes/midnight-read-rpc.ts:110-112 | Without failures or restores nothing is lost: every charge is sent or waits, and a job is granted exactly when the clock has not moved back and what was charged to the day leaves room under both caps |
| `QuotaRuns.RewoundStaysShut` | src/routes/midnight-read-rpc.ts:109-109 | While a database is behind the high-water mark nothing is charged in any run, whatever the clock reads, and only what was charged before is still sent |
| `QuotaRecovery.LatestRowLeads` | src/routes/midnight-read-rpc.ts:104-115 | In every run with any failed writes, crashes and restarts in which nobody replaces the database, the latest row is never behind the high-water mark, it covers all that was charged to its day, and it is one counter charged at each commit |
| `QuotaRecovery.ChargedExactly` | src/routes/midnight-read-rpc.ts:104-115 | In every such run a job is charged and queued exactly when no write fails, the clock is not before the day last counted, and what was counted on the day leaves room under both caps |
| `QuotaRecovery.RefusedExactly` | src/routes/midnight-read-rpc.ts:109-113 | A reservation without room answers that the budget is exhausted exactly on a day not before the one last counted, and throws otherwise |
| `QuotaRecovery.StartsExactly` | src/routes/midnight-read-rpc.ts:116-127 | After every such run a start in which no write fails succeeds exactly on a day not before the one last counted, or on no files at all |
| `ReadCalls.ParseInverts` | src/routes/midnight-read-rpc.ts:17-27 | Every allowed call is accepted in its own method and params |
| `ReadCalls.ParseIsSound` | src/routes/midnight-read-rpc.ts:17-27 | Whatever is accepted is one of the eight allowed calls, with exactly that method and params |
| `ReadCalls.ArgExactly` | src/routes/midnight-read-rpc.ts:15-27 | The varying param of an allowed call is none, a block number of 32 bits, or "0x" and 64 hex digits in lower case, as its method asks |
| `ReadCalls.KeyInjective` | src/routes/midnight-read-rpc.ts:142-142 | Two allowed calls with one cache key are one call |
| `ReadCalls.KeyLacksBar` | src/routes/midnight-read-rpc.ts:142-142 | No cache key contains the bar that separates keys in a group name |
| `ReadCalls.JoinInjective` | src/routes/midnight-read-rpc.ts:176-176 | Joining keys that lack the separator can be undone |
| `ReadFlight.GroupInjective` | src/routes/midnight-read-rpc.ts:176-176 | Two reads have one group name only if their missing key sets are equal |
| `ReadFlight.Partition` | src/routes/midnight-read-rpc.ts:172-175 | A read is split into what the cache answers now and one call for each key that is missing |
| `ReadFlight.PutKeepsCacheOk` | src/routes/midnight-read-rpc.ts:150-171 | Storing an answer, lengthening the proofs of a set-ending header and dropping expired rows keep every row an upstream answer to its own call with a lifetime its method allows |
| `ReadFlight.ReadRow` | src/routes/midnight-read-rpc.ts:197-205 | The checks on one upstream row and the answer it gives |
| `ReadFlight.ReadRows` | src/routes/midnight-read-rpc.ts:196-206 | Rows are read until one is malformed or repeats an id, and results before it are stored all the same |
| `ReadFlight.Receive` | src/routes/midnight-read-rpc.ts:194-207 | An answer is used exactly when it has one well-formed row for each request; then each request has the answer of the row naming it |
| `ReadFlight.AllNamed` | src/routes/midnight-read-rpc.ts:195-201 | As many different in-range ids as there are requests name every request |
| `ReadRuns.UpstreamReads.Begin` | src/routes/midnight-read-rpc.ts:172-210 | A read up to its await: it is answered from the cache, joins the pending job of its group, is refused by the quota, or starts a job |
| `ReadRuns.UpstreamReads.Settle` | src/routes/midnight-read-rpc.ts:194-211 | An upstream answer is read, stored, and given to every read that awaits the job |
| `ReadFlight.ReopeningKeepsCacheOk` | src/routes/midnight-read-rpc.ts:128-128 | What startup leaves of an earlier process's cache is upstream's own answers with allowed lifetimes, although nothing is assumed of the proofs, block hashes and unjustified blocks in it |
| `ReadFlight.ReopenedExactly` | src/routes/midnight-read-rpc.ts:128-128 | A new process goes on with every cached answer but finality proofs, block hashes and blocks whose justifications are null |
| `ReadRuns.NextKeepsInv` | src/routes/midnight-read-rpc.ts:139-212 | Every step of reads, jobs, failures, evictions and restarts keeps the link between keys, jobs, cached rows and what upstream answered |
| `ReadRuns.EveryCallGetsItsOwnAnswer` | src/routes/midnight-read-rpc.ts:172-212 | In every run, each call of a read that succeeds has an answer upstream gave to that very method and params |
| `ReadRuns.SharedJobsHaveEqualKeys` | src/routes/midnight-read-rpc.ts:176-177 | Reads that await one job miss exactly the keys that job asks for |
| `ReadRuns.ServedAnswersAreFresh` | src/routes/midnight-read-rpc.ts:147-156 | In every run through any restarts what the cache serves is never stale: heads under 3 s, unjustified blocks under a minute, proofs under a minute unless their block is known to end its set, block hashes and nulls never |
| `ReadOutcomes.RunKeepsAttended` | src/routes/midnight-read-rpc.ts:176-209 | In every run each pending group names a running job, each running job is pending under its own keys, and every read that waits awaits a running job |
| `ReadOutcomes.RunningJobsDiffer` | src/routes/midnight-read-rpc.ts:176-177 | No two running jobs ask for the same keys |
| `ReadOutcomes.CachedReadIsAnswered` | src/routes/midnight-read-rpc.ts:172-175 | A read whose calls are all cached is over at once, each call with the value cached for it, and nothing else changes |
| `ReadOutcomes.MissingReadJoins` | src/routes/midnight-read-rpc.ts:176-210 | A read that misses exactly the keys of a running job awaits that job, whatever the quota says |
| `ReadOutcomes.MissingReadAsks` | src/routes/midnight-read-rpc.ts:177-209 | Any other read with missing keys starts a running job for just those keys and awaits it if the quota grants it, is told that it is exhausted if refused, and fails if the quota throws |
| `ReadOutcomes.AnsweredExactly` | src/routes/midnight-read-rpc.ts:194-211 | When upstream answers a job, each read that awaits it is answered if and only if there is one usable row for each request, and fails otherwise |
| `ReadOutcomes.AnsweredByItsRow` | src/routes/midnight-read-rpc.ts:196-211 | An answered read has, for each call it missed, what the row for that very call says, result or error code, and for the others what the cache gave it |
| `ReadOutcomes.BrokenReadsFail` | src/routes/midnight-read-rpc.ts:186-195 | A job that meets its deadline or gets no usable text fails the reads that await it |
| `ReadOutcomes.JobEndsAlone` | src/routes/midnight-read-rpc.ts:208-209 | However a job ends it is no longer running or pending, and no other job and no other read is touched |
| `ReadOutcomes.StoredIsServedExactly` | src/routes/midnight-read-rpc.ts:150-171 | A stored answer is served for its call exactly for 3 seconds, a minute or a week, live proofs of a block now known to end its set for another week, and every other call as before; an answer that may not be kept changes nothing |
| `ReadOutcomes.SettledAnswerIsServed` | src/routes/midnight-read-rpc.ts:194-206 | What a usable answer says about a call, if it may be kept, is served to later reads of the call for its time |
| `Admission.Handler.Admit` | src/routes/midnight-read-rpc.ts:222-225 | Admission drops old rate windows, refuses when 8 requests are active, the peer has had 600 in its window or 256 peers have one, and otherwise counts the request |
| `Admission.Handler.Hold` | src/routes/midnight-read-rpc.ts:236-241 | A response is held only within one response budget and within two for all requests |
| `Admission.Handler.Release` | src/routes/midnight-read-rpc.ts:226-226 | A request gives back its slot and its bytes once, after it is both settled and finished |
| `Admission.RunKeepsInv` | src/routes/midnight-read-rpc.ts:222-244 | In every order of admit, hold, settle, finish and close, active is the number of unreleased requests and at most 8, responseBytes is what they hold and at most two budgets, and the rate limits hold |
| `Admission.QuiescentRunHoldsNothing` | src/routes/midnight-read-rpc.ts:226-244 | Once every request is settled and finished both counters are zero |
| `Admission.ReleasedExactly` | src/routes/midnight-read-rpc.ts:226-244 | In every run a request has given back what it holds exactly if, after it was admitted, its handler settled and its response finished or closed |
| `Admission.HeldExactly` | src/routes/midnight-read-rpc.ts:236-241 | Room for a response is reserved exactly once, before its request settles, up to 40 MiB and 80 MiB in all |
| `Admission.AdmittedExactly` | src/routes/midnight-read-rpc.ts:222-225 | A request is admitted exactly while fewer than 8 are active and its peer has under 600 in its minute, or begins one as one of at most 256 peers; a minute keeps its first time, and the minutes of others stay until they are over |
| `Admission.WindowsCountAdmitted` | src/routes/midnight-read-rpc.ts:222-225 | While the clock does not go back, a peer's window counts exactly its requests admitted since the window began, at most 600 |
| `Scale.AcceptsWhatDecodes` | src/routes/midnight-read-rpc.ts:31-48 | A log is accepted exactly if it decodes, by an independent reader, to a scheduled change with delay zero |
| `Scale.DecodeInvertsLog` | src/routes/midnight-read-rpc.ts:31-36 | The reader undoes the encoder in the one-, two- and four-byte compact modes and reads nothing longer |
| `Scale.EncodedChangeEndsSet` | src/routes/midnight-read-rpc.ts:37-48 | The encoding of a scheduled change is accepted exactly if its delay is zero and it has fewer than 26,843,546 seats |
| `Scale.ChangeInHeaderEndsSet` | src/routes/midnight-read-rpc.ts:154-165 | Every change whose log fits into the 256 KiB a kept header may have is accepted exactly if its delay is zero; it has at most 3,276 seats |
| `Scale.HeaderEndsSet` | src/routes/midnight-read-rpc.ts:39-48 | A header ends its set exactly if one of its logs is hex text that decodes to such a change |
| `Scale.HexRoundTrip` | src/routes/midnight-read-rpc.ts:42-43 | Bytes written as hex read back as the same bytes |
| `Merkle.MerkleRoot` | src/merkle.ts:34-55 | The loop over levels computes the root of the tree defined top down |
| `Merkle.ComputeRootHashFromChunks` | src/merkle.ts:92-114 | The root over a manifest's chunk digests, or the place of the first chunk that names none |
| `Merkle.RootKeptByDuplicate` | src/merkle.ts:45-47 | Repeating the last leaf of an odd list longer than one keeps its root |
| `Merkle.FindCollision` | src/merkle.ts:43-54 | From two different lists of one length and one root two colliding hash inputs are computed |
| `Koios.RenderingsAgree` | src/l1-anchor-verify.ts:210-239 | A record decodes to the same anchor record in the plain and in the detailed schema |
| `Koios.WrittenIsDecoded` | src/l1-anchor-verify.ts:221-239 | What an anchor worker writes of a batch is what is decoded, of this protocol in version 2 and of no other |
| `Koios.RowIsObserved` | src/l1-anchor-verify.ts:241-289 | The first row about a tx is what is observed, with its inputs, its record and its depth counted from one |
| `Koios.MissingIsPending` | src/l1-anchor-verify.ts:255-265 | A tx no row is about is observed in no block |
| `Koios.Addresses` | src/l1-anchor-verify.ts:283-287 | Every input names an address, or the whole answer is malformed |
| `Koios.VerifiedAgainstAnswer` | src/l1-anchor-verify.ts:241-289 | A claim that verifies is proved by a row of the raw answer: its tx is in a block, all its inputs are wallet addresses, and its record names the claim's batch |
| `L1Anchor.RecordChecks` | src/l1-anchor-verify.ts:410-455 | No comparison fails exactly if the tx's record names the batch, or its root alone for a root-only tx; an anchor id is derived exactly if the roots match, the manifest is a hash and the tx is not root-only, and it is the hash of the two |
| `L1Anchor.VerifyL1Anchor` | src/l1-anchor-verify.ts:509-554 | Outside the root-only exceptions the answer is verified exactly if everything is established and wallets alone fund the tx, and an answered anchor id is the hash of the batch's root and the record's manifest |
| `L1Anchor.LocalExactly` | src/l1-anchor-verify.ts:357-390 | The batch checks pass exactly if the record is well formed, its leaves recompute to its root and the leaf is listed |
| `L1Anchor.RecordExactly` | src/l1-anchor-verify.ts:392-455 | Outside the root-only exceptions no comparison fails exactly if root, leaf count, blocks, genesis and anchor id all match |
| `L1Anchor.VerifiedExactly` | src/l1-anchor-verify.ts:509-545 | A claim verifies exactly if the tx is in a block with a matching record, the batch checks pass, and wallets fund every input of at least one |
| `L1Anchor.OutcomeExactly` | src/l1-anchor-verify.ts:469-554 | The answer case by case, root-only transactions included: failed if the batch does not hold, unknown if the chain cannot be asked or no wallets are configured, pending in no block under an hour after a time of sending that is not over five minutes ahead, verified or failed otherwise |
| `L1Anchor.WellFormedExactly` | src/l1-anchor-verify.ts:357-372 | A record is well formed exactly if it states some nonempty list of hashes and its number, an ordered range of block numbers, a root, and an anchor id or none |
| `L1Anchor.SpelledIsNormal` | src/l1-anchor-verify.ts:145-147 | A hash is compared as its digits however it is spelled, with any white space around it |
| `L1Anchor.FailsByItsChecks` | src/l1-anchor-verify.ts:509-554 | A claim fails exactly if one of the checks it reports failed |
| `L1Anchor.TxIsReported` | src/l1-anchor-verify.ts:515-537 | The tx is reported in a block, lost, or not known yet |
| `L1Anchor.VerifiedClaimsAgree` | src/l1-anchor-verify.ts:509-545 | Two claims verified against one anchor record have one leaf list, block range, genesis and stated anchor id, or two colliding hash inputs are returned |
| `L1Anchor.RootOnlyDoesNotBind` | src/l1-anchor-verify.ts:100-105 | For the two root-only transactions two different leaf lists verify against one record |
| `BatchRecord.ValidateBatch` | src/batch-record.ts:18-42 | A record is accepted exactly if hashes, leaf count, tree, block range and genesis fit and some admissible genesis derives the manifest and the anchor id |
| `BatchRecord.Compare` | src/batch-record.ts:36-40 | From two records deriving one id: the same root, leaves, blocks, network and genesis, or two inputs that collide under one of the three hashes |
| `BatchRecord.IdBindsBatch` | src/batch-record.ts:18-42 | A valid record under an id fixes the batch: any other valid one has the same content unless a collision is returned |
| `BatchAccepts.ValidExactly` | src/batch-record.ts:13-42 | A record is stored under an id exactly if it states, text by text, a root, 1 to 4,096 leaves that make it, blocks, a network and one genesis whose manifest and root derive the id and agree with what is stated of both |
| `BatchAccepts.ClaimExactly` | src/batch-record.ts:62-71 | An object makes a claim exactly if it names a known network and a transaction, with its time where that is a date of at most 64 characters |
| `BatchAccepts.ParsedExactly` | src/batch-record.ts:50-58 | A claim sent on its own is accepted exactly if it makes one in at most 1,024 bytes, holds no other field and no time that is not a date |
| `BatchRecord.CardanoClaims` | src/batch-record.ts:60-73 | The loop over candidates computes the first claim of each transaction, in order |
| `BatchRecord.FirstClaimWins` | src/batch-record.ts:62-71 | Each transaction is claimed once, as the first candidate naming it claims it |
| `BatchRecord.DistinctKeys` | src/batch-record.ts:62-71 | No transaction a candidate names is dropped and none is invented |
| `BatchRecord.MergeBatch` | src/batch-record.ts:75-85 | The merged record: incoming fields win, three top-level fields of the earlier record stay, claims are joined, at most 32 claims and 2 MiB |
| `BatchRecord.MergeKeepsClaims` | src/batch-record.ts:75-85 | The merged record claims exactly what both records claim and the transaction its top-level fields name |
| `BatchRecord.MixedClaimCanAppear` | src/batch-record.ts:76-79 | The network of one writer beside the transaction of another is a claim neither made |
| `BatchMerge.MergeKeepsFields` | src/batch-record.ts:75-79 | A merged record has the earlier record's network, transaction and time wherever it states them, else the incoming value of a field, else the earlier one, and no field that neither has |
| `BatchMerge.JoinedExactly` | src/batch-record.ts:80-80 | The joined claims are all of the earlier record's, each with its own time, then the other's for transactions the earlier does not claim, in order |
| `BatchMerge.MergeListsClaims` | src/batch-record.ts:80-84 | A merged record lists exactly the joined claims; a merge is refused over 32 of them or over 2 MiB, and only for capacity |
| `BatchMerge.StatedClaimStays` | src/storage.ts:332-360 | Once the file of an id states a network, a transaction or a time, no run of saves, crashes and backfills of any processes changes it |
| `BatchStore.Storage.IndexBatchLeaves` | src/storage.ts:316-328 | Every entry that is a hash is indexed under the batch, in lower case, and nothing else |
| `BatchStore.Storage.Prepare` | src/storage.ts:332-340 | The record on disk is read, merged with the new one and validated, or the save is refused |
| `BatchStore.Storage.SaveBatch` | src/storage.ts:332-364 | A save changes nothing, or the file alone when the process dies after the rename, or the file, the name table and the index |
| `BatchStore.Storage.IndexExistingBatches` | src/storage.ts:367-403 | A backfill indexes the listed names one after another; a name that is not lower case is skipped beside one that is |
| `BatchStore.Storage.SaveCardanoClaim` | src/storage.ts:405-419 | A well-formed claim on a stored, valid batch is added once and never replaced |
| `BatchSaves.ReadExactly` | src/storage.ts:299-314 | The file an id is answered from, and when reading it fails: it cannot be read, or is over 2,097,152 bytes |
| `BatchSaves.LeavesIndexedExactly` | src/storage.ts:316-328 | The leaves indexed of a record are those some entry of its list is the text of |
| `BatchSaves.SaveExactly` | src/storage.ts:332-340 | A save is accepted exactly for a hex id over a usable file or none, if the two records claim at most 32 transactions, fit in 2,097,152 bytes and state a batch that belongs under the id; it writes both, merged |
| `BatchSaves.RefusedExactly` | src/storage.ts:332-340 | A save is refused for capacity exactly over an unusable file or past the limits, and as malformed otherwise |
| `BatchSaves.UnusableFileStays` | src/storage.ts:299-314 | No run of any processes writes over a file that cannot be read or is over the budget |
| `BatchSaves.ClaimSavedExactly` | src/storage.ts:405-419 | A claim on a stored record that states a batch of its id adds its row unless there is one, changes no other, and touches nothing else |
| `BatchRuns.EveryFileIsValid` | src/storage.ts:336-355 | In every run from any store, historical files included, a file is as it was at the start or a whole record that validates for its name and fits the read budget, and none disappears |
| `BatchRuns.ResavesKeepTheBatch` | src/storage.ts:337-340 | In every run from any store, any two records ever written under one id hold one batch, or a hash collision is returned |
| `BatchIndex.BackfillCoversExactly` | src/storage.ts:367-403 | After a process has listed the directory and later indexed its list, a batch's leaves are indexed if and only if the list spells its id, or no save of it in between was cut off after the rename, or another save of it was committed or another listing of it indexed in between; old files that stand for their id are mapped and indexed |
| `BatchIndex.LateTornSaveIsMissed` | src/storage.ts:331-331 | For every id there are hashes and a batch for which a run of listing, cut-off save and indexing leaves the batch unindexed |
| `BatchIndex.ValidOldLeavesStay` | src/storage.ts:366-366 | Historical files that are valid for their id keep their leaves: they list the same ones, and no save over them drops one, or a hash collision is returned |
| `BatchIndex.OldLeavesStayExactly` | src/storage.ts:331-366 | Given one valid record of an id, its old files keep their leaves if and only if they list the same ones and those a save can replace list leaves of that record alone, or inputs that collide are returned |
| `BatchIndex.OldLeavesStayForBatch` | src/batch-record.ts:75-85 | What a caller can check before saving a batch that merges with each old file: they keep their leaves if and only if they list the same ones, all of them leaves of the batch |
| `BatchIndex.RestatedReplaces` | src/batch-record.ts:18-42 | A valid record that restates what an old one states replaces it exactly if their merge keeps both limits |
| `BatchIndex.IndexedLeafIsInFile` | src/storage.ts:316-328 | In every run from a store whose historical files under the id keep their leaves, an indexed leaf is a leaf of the record read under the id, or a hash collision is returned |
| `BatchIndex.LeavesStray` | src/storage.ts:382-395 | Where they do not, some run leaves a leaf indexed that the record does not list: two old spellings listed in one order, or a save that drops a leaf |
| `BatchIndex.IndexIsExact` | src/storage.ts:367-403 | After run, listing, steps of others and indexing, the index lists exactly the leaves of the record read under the id, if and only if the batch was not missed |
| `BatchClaims.ClaimsAreNeverLost` | src/storage.ts:299-314 | While the old files of one id claim the same transactions apart from those in the table, no run hides a transaction once claimed for it |
| `BatchClaims.TwoSpellingsHideAClaim` | src/storage.ts:382-394 | Where they do not, from any store two listings in different orders show a claim and then hide it |
| `ClaimPages.ReadClaims` | src/storage.ts:423-453 | A page of claims, record and table read one after the other: malformed ids, cursors and limits, missing batches and queried rows that do not parse again are refused, exactly, and the page is sound for the union of table and record |
| `ClaimPages.ParsedClaimParsesAgain` | src/storage.ts:435-442 | A claim that was parsed once parses again to itself exactly if its own text is not too long |
| `ClaimPages.ClaimPage` | src/storage.ts:432-449 | A page holds the first keys of the union, in order, with the table's time wherever the table has a row |
| `ClaimPages.TableWins` | src/storage.ts:432-447 | The cut-off at limit + 1 rows never hides a table row from a page that shows its key |
| `ClaimPages.CursorKey` | src/storage.ts:426-429 | Exactly the texts a page can answer are read as cursors, each as the key it names |
| `ClaimPages.CursorExactly` | src/storage.ts:425-429 | A missing or empty cursor asks for everything, a text a page answers for what comes after its claim, and nothing else is accepted |
| `ClaimPages.TableKeysExactly` | src/storage.ts:434-434 | The sort keys of a batch's table rows are those of its own claims |
| `ClaimPages.TableRowIsTheClaim` | src/storage.ts:434-434 | A table row is found under its claim's sort key, with its own time |
| `ClaimPages.KeysFollowText` | src/storage.ts:444-448 | Sort keys compare as the text of the cursors does |
| `ClaimPages.WalkFindsEveryClaim` | src/storage.ts:423-453 | Pages read to the end while other processes save and backfill: no claim comes twice, and every claim stored before the walk began comes, as long as the old files of this id agree on their claims |
| `LeafPages.BatchesByLeaf` | src/storage.ts:492-536 | A page visits ids in order from both sources, shows exactly those whose record lists the leaf, reports unreadable ones, stays in 2 MiB unless it shows one candidate, and stops early only for the budget |
| `LeafPages.ReadBatches` | src/storage.ts:485-511 | Malformed leaves, cursors and limits are refused; the cursor and the old index file are read in either case with or without prefix |
| `LeafPages.VisitedOnceAsFound` | src/storage.ts:517-534 | A visited id is a candidate exactly if its record lists the leaf, and unreadable exactly if reading it failed |
| `LeafPages.BurstsExactly` | src/storage.ts:525-530 | A page stops early exactly before a batch that holds the leaf and would bring two or more candidates over 2,097,152 bytes |
| `LeafPages.WalkAnswersEveryBatch` | src/storage.ts:485-537 | Cursors followed to null answer candidates strictly ascending and name unreadable ids strictly ascending, no id is both, every batch indexed throughout that holds the leaf whenever read is answered, and every one unreadable whenever read is named |
| `UploadSigs.VerifyUploadSig` | src/upload-auth.ts:76-132 | A request is accepted exactly if every signature it carries signs its message, it is fresh, not from before the start, and a batch writer has signed v2; a refusal names a reason that holds |
| `UploadSigs.SignatureStore.Claim` | src/quota.ts:192-203 | Expired rows are purged, then either all signatures become used until the given time or none does |
| `UploadSigs.SignatureStore.Spend` | src/upload-auth.ts:143-147 | Freshness is checked again on the reading the purge uses, then all signatures are claimed |
| `UploadSigs.MessageNamesItsTime` | src/upload-auth.ts:53-62 | Messages that end in different timestamps are different messages |
| `UploadMessages.MessageNamesTheRequest` | src/upload-auth.ts:53-62 | Two requests with one version 2 message have the same method, path, body hash, id, address and time; only the path may hold bars |
| `UploadMessages.OldMessageNamesTheId` | src/upload-auth.ts:116-118 | Version 1 messages are equal exactly if id, address and time are |
| `UploadMessages.VersionsDiffer` | src/upload-auth.ts:61-61 | No message is of both versions |
| `UploadMessages.AcceptedSignatureNamesItsRequest` | src/upload-auth.ts:100-130 | In any run a signature accepted for two requests that differ in method, path, body, id, address or time verifies for two different messages, both returned, unless it signs version 1 for both, which covers id, address and time alone |
| `UploadMessages.AuthenticExactly` | src/upload-auth.ts:76-137 | A request is authentic exactly if, header by header, it names an account and a fresh time not before the start, is signed, by a batch writer in version 2, and every signature it carries proves the text of its version; the reuse keys are the bytes of those signatures |
| `SigRuns.AcceptedTwiceSignsTwice` | src/auth.ts:99-111 | In any interleaving of requests, purges and restarts that keep the store, with clock readings that do not decrease, a signature accepted twice signs two different messages, both returned |
| `SigRuns.ReplayRefused` | src/upload-auth.ts:143-147 | With clock readings that do not decrease, a request repeating a signature of an accepted one with a time no later is refused, the v1 of a v2 pair alone included |
| `SigRuns.SharedSignatureRefused` | src/quota.ts:195-198 | While an accepted signature's window is open, no request carrying it is accepted |
| `SigRuns.AllOrNone` | src/quota.ts:196-201 | A refused request enters none of its signatures, an accepted one all of them |
| `SigRuns.LostStoreRefusesOlder` | src/upload-auth.ts:97-99 | After the store is lost or replaced by an older copy, whatever is accepted carries a time no earlier than the new start |
| `SigRuns.LostStoreAcceptsAgainExactly` | src/upload-auth.ts:32-34 | With clock readings that do not decrease, a request accepted in a run can, after the store is lost up to some rows, be accepted once more if and only if its time is not before the new start and none of its signatures was kept |
| `SigClock.StoreHoldsExactly` | src/quota.ts:192-203 | After any run, whatever the clock read, the store holds a signature exactly if a request was accepted with it and no spend since then read a time past that request's window |
| `SigClock.AcceptedAgainExactly` | src/upload-auth.ts:143-147 | After any run and at any reading, a request is accepted, once more or for the first time, if and only if it is authentic at that reading and each of its signatures was never used, was purged by a spend past the window it was used in, or has that window closed now |
| `SigClock.AcceptedTwiceSteppedBack` | src/upload-auth.ts:143-147 | At most once whatever the clock reads: a request accepted twice was passed by a spend that read a time past its window, and a later spend read a time within it |
| `SigClock.ClockStepBackAcceptsTwice` | src/upload-auth.ts:145-147 | For every window and time a run of requests with well-formed signatures in which the clock steps back and one request is accepted twice |
| `UploadQuota.Quotas.StartUpload` | src/quota.ts:408-444 | Stale slots of the owner are dropped, and a slot is taken, even over another owner's row, only below the owner's limit |
| `UploadQuota.Quotas.ChargeDailyBytes` | src/quota.ts:447-470 | A charge is added only if the day stays within the byte limit; a row of zeros appears either way |
| `UploadQuota.Quotas.RecordChunkBytes` | src/quota.ts:476-489 | An admitted charge is also added to the owner's own slot, if it has one |
| `UploadQuota.Quotas.FinalizeUpload` | src/quota.ts:717-749 | The slot is freed whether or not the receipt can still be counted |
| `UploadQuota.Quotas.RetireAddressDerivedApiKeys` | src/quota.ts:154-172 | All guessable key hashes are re-keyed in three tables, or none is when a new hash breaks a primary key |
| `UploadQuota.EveryRunStaysWithinCaps` | src/quota.ts:408-497 | In every run, re-keyings included, open slots, bytes and receipts of every owner stay within its limits each day, and its bytes are the sum of the charges admitted |
| `UploadQuota.RekeyedAllMoves` | src/quota.ts:165-169 | Re-keying moves each owner's limits, daily counters and open slots to its new name unchanged |
| `UploadQuota.RetiredOnce` | src/quota.ts:147-153 | After a retirement no key hash is derived from an address, so another finds nothing to do |
| `UploadQuota.ClashesExactly` | src/quota.ts:160-169 | A re-keying breaks a primary key exactly if it would give one key hash, or one hash and day, to two rows |
| `UploadQuota.UnusedHashesGo` | src/quota.ts:160-169 | Hashes drawn that are in use nowhere clash with nothing, so every guessable key is retired |
| `UploadQuota.StartKeeps` | src/quota.ts:765-787 | A start fills at most one slot of its owner and none of another's |
| `UploadSlots.StartExactly` | src/quota.ts:404-444 | A start removes exactly the owner's active uploads last heard of over ten minutes ago and no other row, and is allowed exactly while fewer than the limit are left |
| `UploadSlots.RecordExactly` | src/quota.ts:447-494 | A chunk is charged exactly while the day has room; then the owner's own row is heard of now and holds the bytes, and nothing else changes but the day's row |
| `UploadSlots.FinalizeExactly` | src/quota.ts:717-749 | A finished upload gives its slot back in any case, and its receipt counts exactly below the day's limit |
| `UploadSlots.SlotsAreHeld` | src/quota.ts:404-497 | In every run, re-keyings included, the active rows are the uploads that hold a slot: begun in a free one, heard of at each charge, and neither finished, taken over, nor passed by a start of their owner after ten silent minutes |
| `UploadSlots.RecentUploadsWithinCap` | src/quota.ts:408-444 | While the clock does not go back and no chunk is charged for an upload that lost its slot, an owner's uploads begun or charged in the last ten minutes, and neither finished nor taken over, never exceed its limit |
| `UploadSlots.LateChargesExactly` | src/quota.ts:476-489 | After every charge all uploads heard of in the last ten minutes hold a slot, in exactly the runs without such a late charge |
| `UploadSlots.LateChargePassesTheCap` | src/quota.ts:476-489 | A run with a limit of one in which two uploads are active within ten minutes: the first is silent for ten minutes, loses its slot to the second, and goes on |
| `MidnightStore.CheckedObject` | src/midnight-proof-store.ts:40-83 | The checks on a member snapshot, a set or a plan, and what the object is about |
| `MidnightStore.CheckEntries` | src/midnight-proof-store.ts:61-78 | The loop over a plan's entries accepts exactly if every entry is well formed and, when asked, every snapshot is the planned one and no receipt comes twice |
| `MidnightRuns.ProofStore.SaveObject` | src/midnight-proof-store.ts:125-149 | A save refuses a bad scope, a bad object or another body under a stored key, and otherwise stores the body with its index rows |
| `MidnightRuns.ProofStore.GetObject` | src/midnight-proof-store.ts:151-161 | A read answers the stored body, none, or refuses what does not check |
| `MidnightRuns.EveryStoreIsSound` | src/midnight-proof-store.ts:125-149 | In every reachable store objects check, plans refer to stored snapshots, and an index row exists exactly if a stored object is about its subject |
| `MidnightRuns.StoredIsAnswered` | src/midnight-proof-store.ts:151-161 | A read of a reachable store refuses nothing that is stored |
| `MidnightRuns.BodiesNeverChange` | src/midnight-proof-store.ts:136-138 | The body of a key never changes once stored |
| `MidnightRuns.PlannedSnapshotsAreStored` | src/midnight-proof-store.ts:68-78 | In every reachable store each entry of a plan has its snapshot stored with equal genesis, height, anchor, root and manifest, and no receipt is in two of them |
| `MidnightObjects.SetExactly` | src/midnight-proof-store.ts:46-54 | A set is accepted exactly if it is what is written for some genesis, 1 to 1,024 ids, registry, transaction and block, under their commitment, and it is about those ids |
| `MidnightObjects.PlanExactly` | src/midnight-proof-store.ts:55-82 | A plan is accepted exactly if it is what is written for some genesis, block, registry and 1 to 64 batches whose anchors derive, under their commitment, and it is about that commitment |
| `MidnightSaves.SavedExactly` | src/midnight-proof-store.ts:125-149 | A save is accepted exactly on either network, for the text of its digest within the budget, that is a snapshot, a set, or a plan each of whose snapshots is stored as planned with no receipt listed twice, and that is not another text under its key |
| `MidnightPages.CandidatePage` | src/midnight-proof-store.ts:163-187 | A page shows its digests in order, each as found or as unreadable, reads at most the larger of 2 MiB and its first object, and stops early only for the budget |
| `MidnightPages.ShownOnce` | src/midnight-proof-store.ts:170-184 | A visited digest is shown as found exactly if it reads well and as unreadable exactly if not |
| `MidnightPages.WalkReportsEveryDigest` | src/midnight-proof-store.ts:196-222 | Cursors followed to null show found digests strictly ascending and unreadable ones strictly ascending, none is both, and every digest indexed throughout is among them |
| `MidnightPages.IndexedCandidateIsReadable` | src/midnight-proof-store.ts:176-182 | In a reachable store no indexed plan or set is unreadable |
| `MidnightPages.IndexedMemberIsReadable` | src/midnight-proof-store.ts:207-219 | In a reachable store no indexed snapshot is unreadable, and its row names its anchor |
| `MidnightPages.ReadsAsIndexed` | src/midnight-proof-store.ts:176-183 | In a reachable store a plan or set reads as a row, genesis, registry and subject, exactly if that row is indexed |
| `MidnightPages.AllowanceExactly` | src/midnight-proof-store.ts:173-178 | What a page may read is at most 2,097,152 bytes or its first object alone |
| `MidnightPages.StopsExactly` | src/midnight-proof-store.ts:174-174 | A page stops early exactly before a body within the budget that would bring it over 2,097,152 bytes, and never before its first row |
| `BillingPages.Submissions.RecordMeteringSubmission` | src/worker_bounds.ts:277-306 | A content hash, whatever its text, is stored once; a retry changes nothing |
| `BillingPages.Submissions.BillingPage` | src/worker_bounds.ts:336-388 | A page holds the tenant's rows of the window past the cursor in the order of period start and content hash, whatever texts the hashes are, and a cursor exactly with a full page |
| `BillingPages.WalkShowsEveryRow` | src/routes/billing.ts:350-369 | Cursors followed to null show rows in order of period start and content hash, none twice, and every row stored before the walk |
| `BillingPages.PagesAreTheQuery` | src/worker_bounds.ts:370-388 | Over an unchanging table the pages together are the unpaged query |
| `BillingAggregate.JoinRecords` | src/routes/billing.ts:387-443 | The three maps filled in loops give each row its last status, anchor and score; an anchor only with a certified status and certificate |
| `BillingAggregate.AggregateRecords` | src/billing/aggregate.ts:102-163 | The single pass computes the totals of the list, and the number of different workers |
| `BillingAggregate.CountsMean` | src/billing/aggregate.ts:122-135 | The four counts are the numbers of records, of certified, of anchored, and of those with a trust score above zero |
| `BillingAggregate.SumsMean` | src/billing/aggregate.ts:136-146 | Each total is the sum of its own field over the records |
| `BillingAggregate.ExtremesMean` | src/billing/aggregate.ts:147-158 | First and last are the least and the greatest period start, and absent exactly without records |
| `BillingAggregate.PagesAddUp` | src/billing/aggregate.ts:102-163 | Counts, exact sums, extremes and worker sets of pages add up to those of the whole list |
| `BillingAggregate.AnswerPage` | src/routes/billing.ts:377-446 | Asking the chain for a page's own hashes, each once, and joining by maps gives each row what the chain says of it, and the page's totals |
| `BillingAggregate.PageTotalsAreTheTotals` | src/routes/billing.ts:350-446 | Over one table the page totals of a walk, each page joined with the chain's answers to its own hashes, add up to the totals of the tenant's whole window |
| `BillingAggregate.AnchoredCertifiedSubmitted` | src/billing/aggregate.ts:14-21 | On every page anchored <= certified <= records, and records counts each row once |
| `BillingCursor.CursorRoundTrip` | src/billing/aggregate.ts:174-225 | Decoding a cursor, through base64url and JSON.parse, gives back the row it was built from |
| `BillingCursor.NextPageGoesOn` | src/billing/aggregate.ts:174-225 | A page has a cursor text exactly if it is full, and the text sent back is read as the sort key at which the next page goes on |
| `JsonText.ReadsInt` | src/billing/aggregate.ts:212-216 | JSON.parse reads an integer as it was written and stops at the first character that is not part of it |
| `BillingCursor.PaddingComesBack` | src/billing/aggregate.ts:186-211 | Stripping the padding and restoring it is the identity on base64url text |
| `BillingCursor.OctetsOfSextets` | src/billing/aggregate.ts:186-212 | Six-bit groups decode to the bytes they encode |
| `BillingCursor.DecodeCursor` | src/billing/aggregate.ts:203-225 | A decoded cursor names a content hash of 64 lower-case hex digits |
| `BillingCursor.CursorsDiffer` | src/billing/aggregate.ts:174-191 | Rows of different sort keys have different cursors |
| `BillingCursor.CursorIsUrlSafe` | src/billing/aggregate.ts:185-190 | A cursor holds letters, digits, dash and underscore only |
| `Evidence.EvidenceTable.InsertReceiptEvidence` | src/receipt_attestation_evidence.ts:179-235 | A submission is normalised and stored unless its triple is stored, in which case the stored row is returned |
| `Evidence.StoredAsSpelled` | src/receipt_attestation_evidence.ts:145-157 | However receipt, nonce, key and signature are spelled, in either case and with or without a prefix, one row is stored |
| `Evidence.EvidenceTable.ListReceiptEvidence` | src/receipt_attestation_evidence.ts:253-284 | Exactly the receipt's rows, strictly sorted by discriminant and attestor key |
| `Evidence.RecomputeReceiptEvidenceHash` | src/receipt_attestation_evidence.ts:295-308 | Hash, count and types describe the listed vector |
| `Evidence.EncoderKeepsOrder` | src/schemas/compute_metering_v2.ts:669-691 | The encoder's stable sort leaves the listed order as it is |
| `Evidence.TableHoldsFirsts` | src/receipt_attestation_evidence.ts:190-202 | After any history the table holds exactly the first submission of each triple |
| `Evidence.SameFirstsSameVector` | src/receipt_attestation_evidence.ts:238-252 | Histories whose first submissions agree have one vector |
| `Evidence.AnyOrderSameVector` | src/receipt_attestation_evidence.ts:238-252 | Two orders of submissions with distinct triples have one vector |
| `Evidence.ReplayChangesNothing` | src/receipt_attestation_evidence.ts:174-202 | A replay changes nothing, whatever it carries beside its triple |
| `Evidence.SameTableSameFuture` | src/receipt_attestation_evidence.ts:179-235 | Histories that led to one table lead to one table whatever follows |
| `Base62.ToBase62` | src/api-tokens.ts:111-125 | The digit loop writes the buffer's big-endian number, in exactly 43 characters for up to 32 bytes |
| `Base62.WidthIsTight` | src/api-tokens.ts:106-114 | 62^42 < 2^256 < 62^43 |
| `Base62.TextsTellBuffersApart` | src/api-tokens.ts:105-125 | Different buffers of one length have different texts |
| `Keyset.WalkVisitsEachKeyOnce` | src/storage.ts:511-536 | Sound pages followed by their cursors visit keys strictly ascending, and every key stored throughout |
| `Keyset.ShownPartsAscend` | src/storage.ts:511-536 | What the pages of a walk show of the keys they visit comes strictly ascending |
| `Keyset.WalkOfUnchangedStore` | src/worker_bounds.ts:336-388 | Over an unchanging store the pages are the unpaged query |
| `Keyset.PageAdvances` | src/storage.ts:535-535 | A page that returns a cursor moves strictly past the one it was asked with, to a stored key |
| `Keyset.UnionPrefix` | src/storage.ts:485-537 | The first keys of the union of a truncated query and another source leave out no key up to the last of them |
| `TextOrder.TextOrderIsPlaceOrder` | src/worker_bounds.ts:354-356 | Texts of any length compare as their places, numbers between 0 and 1, do, and different texts have different places |

## Left out

- BillingCursor.DecodeCursor: the digits of the base64 text up to the first "=" are decoded, other characters skipped; a byte is a character, where UTF-8 decoding would change only texts inside strings that name no row; integers are exact, where JSON.parse rounds those past 2^53.
- BillingAggregate.AggregateRecords: fractional amounts are reals, so floating-point rounding of the sums is not modelled.
- ReadFlight.PutKeepsCacheOk: which rows leave a full cache is not modelled; any row may vanish at any time.
- ReadRuns.ServedAnswersAreFresh: of the rows an earlier process left that startup keeps, it is required that they are upstream's own answers, heads for 3 seconds and others for at most a week; what this model leaves behind meets that (`ReadFlight.CacheOkIsOldCacheOk`).
- ReadFlight.GroupInjective: the order `sort` gives to keys is any fixed arrangement of a set.
- ReadRuns.NextKeepsInv: a job fails or is answered at any time; its turn and its deadline are steps of `ReadService`, which has no clock of seconds, so a job may wait for any time.
- Koios.VerifiedAgainstAnswer: block heights and times of the tip that are not integers read as malformed, where the source would accept them.
- L1Anchor.VerifiedExactly: texts of the checks and the depths that make an anchor settled or final are not modelled, and lower-casing is that of ASCII; the short-lived lookup cache is any lookup.
- ClaimPages.ReadClaims: rows whose transaction is not 64 lower-case hex digits, which no claim that parses makes, are not in the table that is read.
- BatchStore.Storage.SaveBatch: temporary files, file permissions and fsync are not modelled; the rename is atomic and the write lock makes a save one step.
- BatchIndex.BackfillCoversExactly: a pair of hash inputs that collide is the one way out, and is returned.
- BillingAggregate.PageTotalsAreTheTotals: the chain's answers to a hash and a certificate do not change during a walk; each page asks for its own.
- UploadSigs.VerifyUploadSig: hashing of the body and the address codec are parameters; sr25519 is a predicate on message, signature bytes and address.
- UploadQuota.EveryRunStaysWithinCaps: limits stay as registered, and re-keying draws hashes that are in use nowhere.
- MidnightStore.CheckedObject: the snapshot parser and the anchor and commitment hashes come from an SDK that is not part of this model; the comparison of joined field names is the comparison of the sets, which differs only for objects that later checks refuse.
- Evidence.EvidenceTable.InsertReceiptEvidence: row ids, submission times and the columns that track submission to the chain are not modelled.
- Express routing, HTML, SSE, notifications and outbound requests: input and output only.
- Metering validation and period bounds, the faucet ledger, the firehose bus, registries and explorer pages: thin table access, or checks separated from their writes by awaits.
- Provider binding of the read-RPC state, private-file checks and process locks: one owner of the state directory is assumed.
