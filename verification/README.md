# A model of the grid coordinator and its clients

The coordinator is a stateless request handler over a string-keyed key/value store with no
transactions. Clients submit sealed jobs for a node, nodes pull them under leases and post signed
results, and everything that matters (who may act, where a job is, what bytes were signed) hangs on
key grammars, nonces, canonical bytes and an index that must stay in step with the job records. This
project models those parts and proves what they keep over whole runs.

## How the model is laid out

- **Keys, bytes, documents.** `Keys` is the storage key grammar, `Signing` the newline-framed signing
  string and `concatBytes`, `JsonText` a printer and a reader for compact ASCII JSON, `JsonValue` the
  JavaScript encoder, `PyDocument` the Python one and the round trip between them. `CanonicalText` says what text a
  string or an integer stands for, character by character, and `Base64` what the key and header grammars admit, both
  without the functions of the encoder and the checks. `Decimal` and `Ordering` hold the numerals and orders.
- **The job machine.** `Store` has one typed table per key family. `Handlers` gives each request as a
  function of store, request and clock, and a run as a sequence of events: requests handled one at a
  time, records that expire, and index entries that resurface. `Shapes` reads off what each handler
  changes. `Storage` is the real string-keyed namespace, tied to the typed tables by a representation
  relation, and `Coordinator` is the imperative program over it, loops and all, proved to step exactly
  as `Handlers` says. What the other modules prove of `Handlers` therefore holds of that program.
- **Properties over runs.** `Index`, `Window`, `Leases`, `Drain`, `Counter`, `Replay`, `Reacceptance`, `Authority`.
  `Race` and half of `Counter` drop the assumption that a request's reads and writes happen at once.
- **Who is let in, and what becomes of it.** `Admission` says for each request when it is accepted and which refusal it
  gets otherwise, from literal header texts and framed bytes. `Fates` says what becomes of each single job, as a schedule
  over job records that knows nothing of index, window or loop. `Roster` says what the grid shows of a node, as the
  last word of the node's own accepted requests over a run, and `Census` what one node adds to the statistics.
- **What a signature stands for.** `Cards` says exactly which member cards pass and what the club's signature
  covers; `Intent` reads calls from the signed message itself and shows that what takes effect is what was signed;
  `Receipts` shows that a receipt the client verifies is one the node's key holder made for this job and these bytes.
- **The simple coordinator.** `Mock` is the dict-scanning coordinator of the test kit, as functions and
  as a class; `Simulation` proves the indexed machine equal to it, receipts up to the JavaScript round trip, and
  says exactly when.
- **Bounded scans.** `Stats` is the budgeted statistics scan against a plain fold, `Paging` the two
  paged listings and the client loop that reassembles them.
- **End to end.** `Party` is the client and the honest node over abstract cryptography, `EndToEnd`
  follows one job through both, and `HonestRun` follows whole runs, from the node listing the client seals by to the
  answer it reads, with lost answers and retries. `PartyLaws` exhibits libraries that satisfy the assumed laws.

The outside world enters as parameters: the clock, fresh job ids, the signature verifier, the base64
decoder and the card decoder are arguments, sealed boxes and signatures are functions with an
open-what-was-sealed law and a verify-what-was-signed law. A request reads the clock once.

## What the code turned out to do

- The comment in `pygrid/client.py` (lines 251-252) says a replayed submit keeps the right reply key.
  It does not when the answer that created the job was lost: the retry stores a new key under the old
  job, and the result can never be opened. `HonestRun.LostAnswerLosesTheKey` shows it,
  `HonestRun.ReplyKeyMatches` and `HonestRun.KeyAfterSubmit` give the exact condition.
- `canonicalJson` is said to reproduce the Python encoder exactly (`coordinator/src/logic.js`, lines
  269-277). It sorts keys by code unit where Python sorts by code point, so two keys on either side of the
  surrogates sign different bytes: `PyDocument.AstralKeysDiffer`, with the exact condition in
  `PyDocument.SameBytes`. Python integers beyond 2^53 are refused, not reproduced.
- Zero padding makes text order age order (`coordinator/src/logic.js`, line 191) for all times below ten to
  the sixteenth milliseconds, which every JavaScript date is. For any two times whatever, it does so exactly
  when the later one, cut to as many digits as the earlier one has, still exceeds it: `Keys.QueueOrderExactly`.
- The indexed pull and the scan of the test kit agree on a pull exactly when the node has at most forty
  unfinished jobs or ten deliverable ones among its first forty: `Simulation.PullsMatchExactly`.
- A nonce record that lives its 600 seconds to the millisecond lets one request in twice when it was 300
  seconds early and is 300 seconds late, and in no other case, on the node path and the member path alike:
  `Replay.ReplayedExactlyWhen` and, over whole runs, `Reacceptance.ReacceptedExactlyWhen`.
- A client cannot address a node that sorts after the first five thousand ids, and reports an honest receipt of a node
  that has come to sort there as unverified, because it looks nodes up through its own capped listing:
  `EndToEnd.ListingAddresses` and `HonestRun.HonestJobReadsBack`.
- Status moves forward and the first result wins (`coordinator/src/logic.js`, line 829) as long as a request's
  read and write are not separated. When they are, a pull that read a job before its result was written
  writes it back to running without the result, and a second result can replace the first:
  `Race.LateResultIsLost` and `Race.SecondResultWins`. A result posted alone is final in every interleaving if
  and only if it is written before the lease ends, which a node can see to: `Race.LeaseDecides`.
- The mock's status answer is not the worker's when a receipt holds a whole float such as 65.0; the two then
  differ by the JavaScript round trip, in nothing else, and sign the same bytes: `Simulation.SameAnswer`.
- A job that asks for zero tokens gets the default sixteen: `EndToEnd.NodeAnswers`.

## Model

| member | source | states |
|---|---|---|
| Keys.KeysInjective | coordinator/src/logic.js:125-198 | two well-formed records with one storage key are the same record: the families are injective and pairwise disjoint |
| Keys.KeyTexts | coordinator/src/logic.js:183-197 | the storage name of every record, letter for letter |
| Keys.EntryText | coordinator/src/logic.js:191-198 | an index entry's name holds its creation time as a numeral of sixteen digits, more only when the time has more |
| Keys.PrefixSelectsNode | coordinator/src/logic.js:125-198 | a node's queue prefix matches exactly that node's index entries among all keys |
| Keys.NodePrefixSelectsNodes | coordinator/src/logic.js:183-185 | the `node:` prefix matches exactly the node records |
| Keys.QueueOrderExactly | coordinator/src/logic.js:191-194 | for any two entries of a node, text order is order by creation time and job id if and only if the later time, cut to the digits of the earlier, still exceeds it |
| Keys.QueueOrderIsAge | coordinator/src/logic.js:191-194 | below ten to the sixteenth milliseconds text order is always order by creation time, then job id |
| Keys.PaddingRunsOut | coordinator/src/logic.js:191-194 | ten to the sixteenth milliseconds sorts before the millisecond before it |
| JsonText.ReadEscape | coordinator/src/logic.js:311-327 | every escape the encoder writes is read back as the one unit it stands for by the grammar of section 7 of RFC 8259 |
| JsonText.ReadPrint | coordinator/src/logic.js:278-327 | reading printed JSON gives the printed tree and leaves exactly the text that followed it |
| JsonText.PrintInjective | coordinator/src/logic.js:278-327 | two trees printed alike are equal |
| CanonicalText.EscapeExactly | coordinator/src/logic.js:311-327 | the text of every code unit: seven two-character escapes, printable ASCII as itself, and everything else a `u` escape in lower-case base 16 |
| CanonicalText.QuoteExactly | coordinator/src/logic.js:311-327 | a quoted string is the units' texts in order between two quotes, and no other text is |
| CanonicalText.IntExactly | coordinator/src/logic.js:283-288 | an integer's text is its decimal digits without a leading zero, a minus sign before negative ones and none on zero |
| JsonValue.ParseCanonical | coordinator/src/logic.js:278-309 | parsing the canonical bytes of any document returns the document, at every nesting depth |
| JsonValue.CanonicalDefined | coordinator/src/logic.js:283-288 | the encoder answers null exactly when some nested number is not a safe integer |
| JsonValue.CanonicalInjective | coordinator/src/logic.js:268-309 | equal canonical bytes mean equal documents |
| JsonValue.CanonicalString | coordinator/src/logic.js:311-327 | the escaping loop builds exactly the text of the string, every escape fixed character by character |
| JsonValue.CanonicalJson | coordinator/src/logic.js:278-309 | the recursive encoder with its `parts` loops returns a text if and only if it is the canonical text of the document |
| JsonValue.WritesExactly | coordinator/src/logic.js:268-309 | a text is the canonical one of a document if and only if it is written by the rules of the format: keys in order, no spaces, literal escapes and numerals, safe integers only |
| JsonValue.CanonicalArray | coordinator/src/logic.js:290-298 | the array loop stops at the first refused item and otherwise joins every item in order |
| JsonValue.CanonicalObject | coordinator/src/logic.js:299-307 | the member loop goes through the sorted names and stops at the first refused value |
| PyDocument.UnitsRoundTrip | pygrid/crypto.py:155-179 | a Python string survives becoming UTF-16 code units and back |
| PyDocument.NumbersAfterRoundTrip | pygrid/crypto.py:182-193 | rewriting numbers after the round trip is rewriting them before it |
| PyDocument.RoundTripKeepsBytes | pygrid/testkit.py:60-77 | the canonical bytes of any document are unchanged by the JavaScript round trip |
| PyDocument.CoordinatorRoundTrip | pygrid/testkit.py:60-77 | what the coordinator re-emits for a document it can carry is what the test kit's round trip computes |
| PyDocument.SignedBytesSurvive | pygrid/crypto.py:155-179 | bytes signed before a trip through the coordinator are the bytes verified after it |
| PyDocument.ReturnsUnchangedExactly | pygrid/testkit.py:60-77 | a document comes back from the round trip unchanged if and only if it holds no whole float |
| PyDocument.SameBytes | pygrid/crypto.py:155-193 | the Python and JavaScript encoders agree on a document exactly when its numbers are safe integers and its keys sort alike both ways |
| PyDocument.BasicPlaneAgrees | pygrid/crypto.py:155-193 | keys in the basic plane, ASCII among them, always sort alike both ways |
| PyDocument.AstralKeysDiffer | coordinator/src/logic.js:299-307 | two keys around the surrogates make the encoders disagree |
| Signing.SignedMessageInjective | coordinator/src/logic.js:104-110 | without newlines in the fields, equal signed bytes mean equal host, method, path, timestamp, nonce and body |
| Signing.NewlineMovesABoundary | coordinator/src/logic.js:129-130 | with a newline two different requests sign the same bytes |
| Signing.BuildersAgree | pygrid/crypto.py:196-220 | the two builders sign the same bytes exactly for methods already in upper case |
| Signing.ConcatBytes | coordinator/src/logic.js:92-102 | the two-pass copy fills one buffer with the parts in order |
| Storage.PutRepresents | coordinator/src/logic.js:183-198 | writing under a rendered key changes that one typed record and no other |
| Storage.DeleteRepresents | coordinator/src/logic.js:183-198 | deleting a rendered key removes that one typed record and no other |
| Storage.ListingIsQueue | coordinator/src/logic.js:191-198 | listing a queue prefix by text gives exactly the node's entries, oldest first, cut at the limit |
| Storage.Namespace.Get | coordinator/src/logic.js:662-720 | a read by name is the typed lookup |
| Storage.Namespace.Put | coordinator/src/logic.js:662-720 | a write by name is the typed update and keeps the representation |
| Storage.Namespace.Delete | coordinator/src/logic.js:740-780 | a delete by name is the typed removal and keeps the representation |
| Storage.Namespace.ListQueue | coordinator/src/logic.js:735-736 | a prefix listing is the node's queue, oldest first |
| Coordinator.Coordinator.BuildSignedMessage | coordinator/src/logic.js:104-110 | head and raw body are concatenated into the signed message |
| Coordinator.Coordinator.CheckSignature | coordinator/src/logic.js:228-266 | the checks in order, the nonce read, and the nonce written only for a genuine signature; what passes is `Admission.SignatureAcceptedExactly` |
| Coordinator.Coordinator.CheckMemberCard | coordinator/src/logic.js:432-450 | open without a club key, else only a club-signed card whose key signed this request passes; what passes is `Admission.GateOpensExactly` |
| Coordinator.Coordinator.VerifyCardDocument | coordinator/src/logic.js:349-383 | the field-by-field check accepts a document exactly as a complete card, with safe numbers only, whose canonical bytes the club's key verifies |
| Coordinator.Coordinator.Register | coordinator/src/logic.js:453-509 | the whole new store and reply of a registration |
| Coordinator.Coordinator.Heartbeat | coordinator/src/logic.js:511-546 | the whole new store and reply of a heartbeat; what it is for is `Roster.LastWordIsKnown` |
| Coordinator.Coordinator.Submit | coordinator/src/logic.js:662-723 | the whole new store and reply of a submit: size, gate, body, idempotency, cap, three writes |
| Coordinator.Coordinator.PullOne | coordinator/src/logic.js:743-789 | one round of the pull loop, in all its branches, over names and records |
| Coordinator.Coordinator.PullListed | coordinator/src/logic.js:736-790 | the loop over the listed snapshot, stopping at ten jobs, while it deletes entries and rewrites jobs |
| Coordinator.Coordinator.Pull | coordinator/src/logic.js:725-791 | the whole new store and reply of a pull |
| Coordinator.Coordinator.BumpJobsDone | coordinator/src/logic.js:584-601 | the counter is read defensively and written one higher |
| Coordinator.Coordinator.Result | coordinator/src/logic.js:793-843 | the whole new store and reply of a result |
| Coordinator.Coordinator.JobStatus | coordinator/src/logic.js:845-858 | the result and receipt are shown only when the job is done |
| Coordinator.Coordinator.Serve | coordinator/src/logic.js:877-905 | one request moves the string-keyed store exactly as the typed machine steps |
| Admission.GenuineExactly | coordinator/src/logic.js:228-253 | the shared signature check passes if and only if the timestamp is a numeral within 300 seconds of the clock, the nonce is 1 to 128 base64 characters, and the signature decodes and verifies over the framed bytes |
| Admission.VerdictExactly | coordinator/src/logic.js:228-253 | the exact condition of each of its six refusals |
| Admission.SignatureAcceptedExactly | coordinator/src/logic.js:228-266 | a node's signature is accepted if and only if that holds, the id is a node id, and the nonce is unspent; otherwise 401 and nothing changes |
| Admission.ClientRequestAccepted | pygrid/crypto.py:145-152 | what the Python client signs, with a nonce that is the base64 of 1 to 96 random bytes, is accepted within 300 seconds |
| Admission.ClientMemberAdmitted | coordinator/src/logic.js:387-450 | with a club card in its header such a request opens the member gate for the card's key |
| Admission.GateOpensExactly | coordinator/src/logic.js:432-450 | the gate opens for a member key if and only if a card header of at most 8192 characters carries a club card with that key and the key signed this request |
| Admission.RegistrationAcceptedExactly | coordinator/src/logic.js:453-489 | a registration is accepted if and only if ids agree, both keys are 32 bytes, and the current key, or the new one for a new id, signed it with an unspent nonce |
| Admission.HeartbeatAcceptedExactly | coordinator/src/logic.js:511-541 | a heartbeat is accepted if and only if it is signed by a known node and its readings are valid |
| Admission.PullAnsweredExactly | coordinator/src/logic.js:725-733 | a pull is answered if and only if the named node signed it |
| Admission.ResultAcceptedExactly | coordinator/src/logic.js:793-832 | a result is accepted if and only if its job is the signer's own and running, and acknowledged as a duplicate exactly when it is done |
| Admission.SubmitAcceptedExactly | coordinator/src/logic.js:669-700 | past the gate a submit creates a job if and only if the body is in order, no idempotency record answers for it, and fewer than 100 entries wait; at 100 it gets 429, and a repeat gets the first job's id |
| Admission.RegistrationAnswersExactly | coordinator/src/logic.js:453-509 | the refusals of a registration, and that it says rotated exactly for a known id |
| Admission.HeartbeatAnswersExactly | coordinator/src/logic.js:511-541 | which refusal a heartbeat gets, if and only if |
| Admission.PullRefusedExactly | coordinator/src/logic.js:725-733 | which refusal a pull gets, if and only if |
| Admission.ResultRefusedExactly | coordinator/src/logic.js:793-832 | which refusal a result gets, if and only if |
| Admission.SubmitRefusedExactly | coordinator/src/logic.js:669-690 | which refusal a submit gets before the queue cap, if and only if |
| Index.StepKeepsInv | coordinator/src/logic.js:700-720 | every request keeps index and jobs in agreement and every queue within the cap |
| Index.IndexAgreement | coordinator/src/logic.js:700-841 | after any run a node's entries are exactly the slots of its unfinished jobs, each naming its own job, at most 100 |
| Window.PullExact | coordinator/src/logic.js:735-791 | a pull returns exactly the first ten deliverable entries of the forty-entry window, oldest first |
| Fates.PullMovesExactly | coordinator/src/logic.js:735-789 | with index and jobs in agreement a pull moves a job's record exactly when fewer than 40 unfinished jobs of the node are older and fewer than 10 of those ready: a ready job runs, once more attempted, under a 600000 ms lease; one past its fifth lease fails; every other record stays |
| Fates.PullHandsOutExactly | coordinator/src/logic.js:735-791 | the answer holds those ready jobs, as submitted, oldest first, and no others |
| Fates.StaleEntriesGo | coordinator/src/logic.js:743-762 | whatever the index holds, a pull that answers with fewer than ten jobs deletes each window entry that names no unfinished job, and no pull touches an entry past the window |
| Fates.SubmitFilesExactly | coordinator/src/logic.js:700-723 | a creating submit files exactly this record, index entry, idempotency record and nonce; any other spends a member nonce at most |
| Fates.ResultFilesExactly | coordinator/src/logic.js:816-841 | an accepted result closes exactly its job, its entry and one count more; any other answer leaves jobs, index and counter alone |
| Fates.StatusShowsExactly | coordinator/src/logic.js:845-858 | the status answer is the record's status, with blob and receipt exactly when done |
| Window.RunKeepsWindow | coordinator/src/logic.js:735-789 | running jobs stay inside the window over every run whose new keys sort last |
| Window.RunningBound | coordinator/src/logic.js:735-789 | at most forty of a node's jobs run at once, however long its queue |
| Mock.MockCoordinator.Register | pygrid/testkit.py:432-462 | a registration is recorded and says whether the node was known |
| Mock.MockCoordinator.JobStatus | pygrid/testkit.py:643-659 | the result and the Python receipt are shown only when the job is done |
| Mock.MockCoordinator.CreateJob | pygrid/testkit.py:514-556 | creation in the dict coordinator: unknown node, idempotency, cap, new record |
| Mock.MockCoordinator.ScanOne | pygrid/testkit.py:574-589 | the scan's treatment of one job |
| Mock.MockCoordinator.ScanJobs | pygrid/testkit.py:571-589 | the scan over all jobs, stopping at ten |
| Mock.MockCoordinator.Pull | pygrid/testkit.py:558-590 | a pull of the dict coordinator |
| Mock.MockCoordinator.PostResult | pygrid/testkit.py:592-641 | a result in the dict coordinator |
| Simulation.SimStep | coordinator/src/logic.js:453-843 | one admissible registration, heartbeat, submit, pull or result gets the same reply from both coordinators and leaves them alike, the worker holding what JSON makes of the mock's receipts |
| Simulation.RunsAgree | pygrid/testkit.py:432-641 | over any admissible run all replies agree and the end states are alike |
| Simulation.FreshRunsAgree | pygrid/testkit.py:432-659 | the same from empty stores, and afterwards every status answer is the same, receipts up to the JavaScript round trip |
| Simulation.PullsMatchExactly | pygrid/testkit.py:558-590 | one pull matches the scan if and only if forty or fewer are pending or ten are deliverable in the window |
| Simulation.StatusesAgree | pygrid/testkit.py:60-71 | alike coordinators answer the status route alike; the receipts differ by the round trip, sign the same bytes, and are equal exactly when there is no whole float |
| Leases.LeaseHistory | coordinator/src/logic.js:765-780 | deliveries of a job equal its attempts, at most five, a lease apart; queued means none; failed means five and five leases gone by |
| Leases.StatusOnlyForward | coordinator/src/logic.js:758-841 | through expiry and resurfaced entries a status only moves forward and a terminal record never changes |
| Leases.NoJobTwice | coordinator/src/logic.js:740-789 | one pull never lists a job twice, whatever the index holds |
| Drain.DrainBound | coordinator/src/logic.js:740-780 | without new submits and with pulls a lease apart, six pulls per waiting job leave all of a node's jobs terminal |
| Drain.BoundedRun | coordinator/src/logic.js:771-784 | attempt counts stay in range over every run, so a drain can start anywhere |
| Counter.CounterIsExact | coordinator/src/logic.js:584-601 | with requests handled one at a time the counter is the number of done jobs |
| Counter.NeverOverCounts | coordinator/src/logic.js:590-601 | under any interleaving of reads, writes and failures the counter never exceeds the accepted results |
| Counter.MayUnderCount | coordinator/src/logic.js:590-601 | two results that read before either writes are counted once |
| Race.PullWriteIsRound | coordinator/src/logic.js:748-780 | read and written back at once, a pull's half-steps are the round of the pull loop |
| Race.PostWriteIsResult | coordinator/src/logic.js:822-838 | read and written back at once, a result's half-steps are the result handler |
| Race.DoneIsSafeIff | coordinator/src/logic.js:748-838 | wherever interleaved requests have got to from none in flight, a done job stays done in every continuation if and only if no pull that read it earlier has yet to write |
| Race.LeaseDecides | coordinator/src/logic.js:758-838 | a running job's lone result is final in every interleaving if and only if it is written before the lease ends |
| Race.FreshJobKeepsResult | coordinator/src/logic.js:758-838 | from a queued job and one delivery, a lone result written within ten minutes of the pull's read is never undone or replaced |
| Race.LateResultIsLost | coordinator/src/logic.js:771-838 | a late result written between a pull's read and write is lost and the job runs again |
| Race.SecondResultWins | coordinator/src/logic.js:829-838 | of two results that both read the job running the later write stays |
| Replay.AcceptedInWindow | coordinator/src/logic.js:240-241 | whatever is accepted is dated within 300 seconds of the accepting second |
| Replay.AcceptedOnce | coordinator/src/logic.js:240-265 | if nonce records are readable through second t + 600 no signed request, node or member, is accepted twice |
| Replay.SecondAcceptanceIsTight | coordinator/src/logic.js:397-426 | with an exact time to live a second acceptance comes exactly 600 seconds after the first |
| Replay.ReplayedExactlyWhen | coordinator/src/logic.js:240-265 | an accepted request is accepted again if and only if it was 300 seconds early, is 300 seconds late, and 600000 ms have passed |
| Reacceptance.NodeAcceptedExactly | coordinator/src/logic.js:228-266 | a node's request spends its nonce exactly when the handler gets to the check, the signature is genuine under the key it asks for, and the nonce is unspent |
| Reacceptance.MemberAcceptedExactly | coordinator/src/logic.js:387-427 | a member's submit spends its pair exactly when it gets past size and gate and the pair is unspent |
| Reacceptance.AcceptedAgainExactlyWhen | coordinator/src/logic.js:387-427 | on either path, the nonce living its exact time, an accepted request is accepted again exactly under that condition |
| Reacceptance.ReacceptedExactlyWhen | coordinator/src/logic.js:240-265 | some run with an advancing clock and exact nonce times accepts the same request, node or member, a second time exactly under that condition |
| Authority.KeysMoveByOwner | coordinator/src/logic.js:484-508 | one request changes a node's keys only if it is that node's registration signed with its current key |
| Authority.KeyCustody | coordinator/src/logic.js:484-508 | over any run a node keeps both keys until a registration signed with the key it holds |
| Authority.NewNodeProvesItsKey | coordinator/src/logic.js:484-489 | a new node id is taken only by a registration signed with the key it brings |
| Authority.RefusedChangesNothing | coordinator/src/logic.js:225-266 | a refused request changes nothing but nonce records |
| Authority.NodeReach | coordinator/src/logic.js:764-841 | a node's pull or result leaves every other node's jobs and entries as they were |
| Authority.OneJobPerMemberNonce | coordinator/src/logic.js:669-720 | with a club key, jobs map one to one into pairs of member key and nonce, each unspent until the accepted submit that created the job for it |
| Authority.JobsNeedIssuedCards | coordinator/src/logic.js:432-450 | if the club's key verifies only cards the club issued, every job of a run was created under the member key on an issued card |
| Cards.AcceptedExactly | coordinator/src/logic.js:345-383 | a document is accepted if and only if its card is complete, holds safe numbers only, names this member key, and the club's key verifies its canonical bytes |
| Cards.RefusedExactly | coordinator/src/logic.js:349-383 | the exact condition of each of the three refusals |
| Cards.SignedBytesNameTheCard | coordinator/src/logic.js:345-347 | two cards signed over the same bytes are the same card |
| Cards.BoltedFieldIsNotCovered | coordinator/src/logic.js:345-347 | a card with a field added or altered has other signed bytes |
| Cards.OnlyIssuedCardsPass | coordinator/src/logic.js:345-383 | a card that passes is one the club issued, unaltered |
| Cards.GateMeansClubCard | coordinator/src/logic.js:432-450 | the gate opens for a member key if and only if the request carries such a card and a genuine signature under the key on it |
| Intent.GenuineWasWritten | coordinator/src/logic.js:104-110 | a genuine request is, part for part, a message the key's holder signed |
| Intent.SignedBytesDecideTheCall | coordinator/src/logic.js:877-890 | requests signed over the same bytes make the same call on the same fields |
| Intent.RotationWasWritten | coordinator/src/logic.js:484-508 | a node's new keys are those in a registration the holder of its current key signed |
| Intent.ResultWasWritten | coordinator/src/logic.js:793-843 | an accepted result stores the blob and receipt of a message the node's key holder signed, on the job it names |
| Intent.SubmitWasWritten | coordinator/src/logic.js:662-723 | behind a member gate a created job has the target, blob and reply key the member signed |
| Intent.PullWasWritten | coordinator/src/logic.js:725-733 | an answered pull drains the queue named in the path the node signed |
| Stats.Scan.ReadOne | coordinator/src/logic.js:623-637 | one record moves the accumulators as the fold moves |
| Stats.Scan.ReadPage | coordinator/src/logic.js:617-638 | a page is read to its end or to the get budget, and flagged exactly when cut |
| Stats.ScanPages | coordinator/src/logic.js:615-643 | the page loop reads the first names up to both budgets and is partial exactly when the grid does not fit them |
| Stats.Stats | coordinator/src/logic.js:603-660 | the report is the fold over what was read, sorted by neighborhood, within 20 lists and 801 gets; over any node table it is unflagged if and only if the table fits, and then it is the fold over every alive node |
| Stats.HoodsAddUp | coordinator/src/logic.js:628-655 | in every report neighborhood counts and watts sum to the totals and measured watts are part of all watts |
| Stats.PartialIsFloor | coordinator/src/logic.js:610-614 | the totals of a cut scan are a floor of the full ones |
| Stats.TableServed | coordinator/src/logic.js:615-617 | every node table is served, a thousand names a page in key order, by some listing the scan can meet |
| Stats.TableFits | coordinator/src/logic.js:610-643 | a table fits both budgets if and only if it has at most 800 nodes |
| Stats.AliveInTable | coordinator/src/logic.js:615-637 | what a complete scan of a table counts is its alive records in id order, none missed and none twice |
| Census.OneMoreNode | coordinator/src/logic.js:619-640 | a node more in an uncut scan adds one node, its watts if positive, its measured watts and its line's share exactly when last heard of within 90000 ms, and changes no figure otherwise |
| Census.NoNodes | coordinator/src/logic.js:603-660 | an empty grid counts nothing |
| Roster.LastWordIsKnown | coordinator/src/logic.js:484-546 | after any run the store holds each node's last word on each fact: keys, watts, source and neighborhood of its last accepted registration or heartbeat, and when that was |
| Roster.ListingShowsLastWord | coordinator/src/logic.js:548-580 | a listing that reaches a node shows that last word, its box key as pubkey, and alive exactly when at most 90000 ms have passed |
| Roster.StatsCountLastHeard | coordinator/src/logic.js:619-625 | the statistics count a node exactly until 90000 ms after its last accepted registration or heartbeat |
| Roster.SinceFirstRegistration | coordinator/src/logic.js:491-507 | a node's registration time is that of its first registration |
| Paging.MockPageAt | pygrid/testkit.py:497-510 | the dict coordinator's page after a cursor is the next stretch of ids, with a cursor exactly when more remain |
| Paging.WorkerPageAt | coordinator/src/logic.js:548-580 | the deployed coordinator's page holds the same nodes, with a storage key as cursor; what it shows of each is `Roster.ListingShowsLastWord` |
| Paging.Nodes | pygrid/client.py:170-186 | against either server the client loop returns the first nodes in id order, each once, up to a hundred pages of 1 to 200 nodes |
| Party.GridClient.Remember | pygrid/client.py:247-254 | a reply key is kept under the answered job id and an existing one is never overwritten |
| EndToEnd.NodeAnswers | pygrid/node.py:208-268 | the node's result for an envelope of an order is the engine's output for it, sealed to its reply key, with a signed receipt |
| EndToEnd.PayloadDefaults | pygrid/node.py:192-199 | what a payload leaves out is the empty prompt, sixteen tokens and temperature zero |
| EndToEnd.ReceiptReturns | coordinator/src/logic.js:802-815 | a signed receipt comes back from the coordinator as its JavaScript round trip, signature untouched |
| EndToEnd.ReceiptVerifies | pygrid/client.py:315-338 | an honest receipt verifies after the trip if the listing shows the node under its key, and not if it shows no node; that nothing else verifies is `Receipts.VerifiedIsMade` |
| EndToEnd.ReceiptStates | pygrid/node.py:231-241 | after the trip an honest receipt has exactly its nine fields, each saying what the node did |
| Receipts.CanonicalPyInjective | pygrid/crypto.py:155-179 | equal canonical bytes mean equal documents, whole floats read as integers |
| Receipts.ReceiptIsNoRequest | pygrid/crypto.py:196-220 | no receipt's canonical bytes are the signed bytes of a request, so one key can sign both |
| Receipts.VerifiedIsMade | pygrid/client.py:315-338 | if all a listed key verifies are requests and receipts its holder made, a receipt that verifies under it is one of those, made for this job about exactly these bytes |
| Receipts.ReadingIsSound | pygrid/client.py:282-313 | so what the client reports as verified is such a receipt about the bytes it opened |
| Receipts.ReadsExactly | pygrid/client.py:282-313 | the client gets a text if and only if it holds a reply key that opens the blob of a done job, and which error it gets otherwise |
| EndToEnd.ClientReads | pygrid/client.py:282-313 | with the job's own key the client reads the engine's output and a receipt that states the work done for this very blob |
| EndToEnd.WrongKeyReadsNothing | pygrid/client.py:301-309 | with another key it cannot open the result |
| EndToEnd.ListingVouches | pygrid/client.py:329-335 | the listing shows the node exactly when it is among the first five thousand ids |
| EndToEnd.ListingAddresses | pygrid/client.py:200-206 | the client can address a node exactly when the listing reaches it, and then seals to the key the node registered |
| PartyLaws.LawsCanHold | pygrid/crypto.py:77-143 | the laws assumed of sealed boxes, signatures, base64 and flat documents hold together for some libraries |
| HonestRun.NextSound | pygrid/client.py:232-254 | every act of client, node, others or store keeps jobs, envelopes and reply keys tied to the orders behind them |
| HonestRun.ReplyKeyMatches | pygrid/client.py:247-254 | after any run the stored reply key is the job's own if and only if the answer that created the job arrived |
| HonestRun.KeyAfterSubmit | pygrid/client.py:247-254 | after an answered submit the key is right if and only if the answer is no duplicate or the right key was held before |
| HonestRun.HonestJobReadsBack | pygrid/client.py:225-338 | over any honest run, each prompt sealed to the key the client's listing shows, a done job reads back as the engine's output for its own prompt, with a receipt that states the work and verifies exactly when the node is listed |
| HonestRun.UnfinishedReads | pygrid/client.py:260-279 | until then the client waits, and gives up exactly on a failed job |
| HonestRun.LostAnswerLosesTheKey | pygrid/client.py:247-254 | a lost creating answer and an idempotent retry leave the client with a key that is not the job's |

## Supporting lemmas

What follows reads one handler or adds up earlier results, and is listed apart for that reason.

- `Shapes.StepShape`, `Shapes.PullShape`, `Shapes.ResultShape`, `Shapes.SubmitShape`, `Shapes.RegisterShape` and
  `Shapes.HeartbeatShape` read off what one round of the pull loop and each handler changes, and when.
- `Race.ResultIsFinalIff` says what finality is for a scene; `Race.LeaseDecides` turns it into a deadline.
- `Base64` and the `Exactly` lemmas of `Cards` turn each field check into the grammar it stands for.
- `Drain.DrainAtCap` puts the queue cap into the drain bound: at most 600 pulls.
- `Mock.MockCoordinator.NextSeq` and `Mock.MockCoordinator.Heartbeat` are the remaining methods of the dict coordinator.

## Left out

- Leases.StatusOnlyForward: requests are handled whole, one at a time; the interleavings in which it fails are the subject of `Race`, for one job's record and not for the index or the nonces.
- Counter.CounterIsExact: speaks of whole requests without expiry; finer interleavings are the subject of Counter.NeverOverCounts, which gives the upper bound only.
- Reacceptance.ReacceptedExactlyWhen: leaves out a registration that moves a known node to another verify key, because the repeated request is then checked under that other key.
- Intent.GenuineWasWritten: host, verb and path are taken to hold no newline, as an HTTP request line and header do.
- Replay.AcceptedOnce: assumes a clock that never goes back and a store that shows a nonce record as soon as it is written; delayed propagation between edges is not modelled.
- Simulation.RunsAgree: asks for receipts a double carries exactly, since the worker alone rounds integers beyond 2^53; of a node it compares whether it is known, not its record or `last_seen`, which only the dict coordinator touches on a pull.
- PyDocument.SameBytes: floats that are not whole are opaque texts, both zeros are one number, and lone surrogates do not occur in Python strings here.
- PyDocument.SignedBytesSurvive: asks for whole numbers within the safe range and no tuples, the documents JSON and a double carry exactly.
- Stats.Stats: sums are exact reals before rounding to one decimal; the listing's page size is whatever the store returns.
- EndToEnd.NodeAnswers: sealed boxes, signatures, hashes, base64 and `json.dumps` are abstract functions with laws; a payload whose `max_tokens` or `temperature` is not a number raises, where Python would try to convert it.
- HonestRun.HonestJobReadsBack: the node's keys are not rotated and its record does not expire during the run; the polling loop is one status answer; the client names its node, so `pick_node` is not modelled.
- Receipts.VerifiedIsMade: takes the floats of a received receipt that are not whole to have the text of a JSON number that is no integer, as parsing gives them.
- Census.OneMoreNode: speaks of scans that are not cut short; of a cut one Stats.PartialIsFloor gives the floor only.
- Expiry of records other than nonces is an event that may happen at any time; the times to live of nodes, jobs, entries and idempotency records are not counted.
- One clock reading serves a whole request, where the handlers read the clock two or three times.
- Parsing and field validation of request bodies (sizes, base64, neighborhoods, watts) arrive as a refusal code or as checked fields; only the checks that name keys are modelled.
- The HTTP router, CORS, cache headers, preflight and the worker adapter keep no state and are not modelled.
- Ed25519, X25519, XSalsa20-Poly1305, SHA-256 and base64 decoding are not modelled; the encoding of section 4 of RFC 4648 is, in `Base64`.
- Agreement of the Python card checker with the JavaScript one: their accepted sets differ in several fields.
- The command line tools, key files, card art, measured watts and the serving loops of the Python processes.
