# Verification of the BetterDesk API core

This project models the parts of the BetterDesk server in which a property has to hold over every
input or every run, and proves those properties. `dafny verify dfyconfig.toml` checks all of it.

| files | what they model |
|---|---|
| `Decimal`, `GuacWire`, `GuacStream`, `GuacBridge`, `GuacCharacters` | the Guacamole instruction codec, the incremental parser, the two pumps between browser and guacd as a state machine over their steps, and lengths in bytes against lengths in characters |
| `ReplayCache`, `DeviceProof` | the nonce cache with its clock-skew window, and the two kinds of signed device proofs |
| `Enrollment`, `EnrollmentRules`, `EnrollmentRuns`, `EnrollmentKeys`, `EnrollmentModes`, `EnrollmentPending`, `EnrollmentTokens` | the enrollment store and its steps, the rules they follow over the tables' fields, and what holds over whole runs: lifecycle, bound keys, changes of mode, pending entries, tokens |
| `EnrollmentAnswers`, `EnrollmentServer` | what answers mean, and the handlers that carry the steps out |
| `Options`, `Text`, `Json`, `AddressBook`, `AddressBookMeaning`, `OrgSecrets`, `AdminTags` | address books: merging, organization books and vault passwords, synchronization with the peers table |
| `DeviceScope`, `DeviceScopeUse` | which devices a user sees, and the places where that set is applied |
| `BillingPeriod`, `BillingSettlement` | billing months, and the settling of sessions at month boundaries |
| `ClientSessions` | login sessions with sliding expiry |

Loops and updates in place are methods and classes, each proved equal to a function of its inputs
or of the old state; the theorems are lemmas about those functions, and the two `Serve` methods
carry them back to the tables. Runs are sequences of events, and a theorem about runs quantifies
over all of them.

## Where the code differs from what it promises

Each of these is proved, and each promise that fails has the exact condition under which it holds.

- A duration cannot hold the difference to a timestamp 2^63 nanoseconds or more ahead, and its
  negation wraps, so such a timestamp passes the skew check while it is that far ahead. A proof can
  be accepted a second time exactly in this case (`ReplayCache.AcceptedAgainExactly`).
- The cache forgets a nonce after exactly twice the skew. That is enough for readings that reach it
  in order and for no others: one nanosecond of disorder lets a proof pass twice
  (`ReplayCache.LifetimeIsExact`). The clock is read before the cache is locked.
- The pump from guacd ignores parse errors. The names in force are those last shown to the browser
  exactly when the first read that fails completes no new `args` (`GuacBridge.NamesFollowExactly`),
  and a connect sent after such a read may be rewritten with older names
  (`GuacBridge.ConnectFreshExactly`).
- A nonce is remembered under the device id and the nonce joined by a colon, so a proof that was never
  presented may be refused because of another device's; exactly when, is stated by
  `DeviceProof.ManagementRefusedExactly` and `DeviceProof.SharedKeyExactly`.
- After a ban is lifted, the next registration is pending unless it contradicts what a login or
  another registration queued meanwhile; then it is a conflict (`EnrollmentRuns.LiftedBanMeansPending`).
- A registration in open or locked mode leaves an entry that managed mode queued, and approving that
  entry later replaces the key bound to the row. Entries never stand beside rows, and keys are never
  replaced, exactly as long as this does not happen (`EnrollmentModes.NeverStaleExactly`,
  `EnrollmentModes.KeyStableExactly`). For the same reason an approval may leave a key in force that
  was never submitted to the entry (`EnrollmentPending.ApprovalBindsFirstKey`).
- The synchronization of an address book means to drop deleted peers as well as banned ones, but
  the lookup by ids (betterdesk-server/db/sqlite.go:932-985) leaves soft-deleted rows out, so they
  stay; and without an active listed peer the banned ones stay too (`AdminTags.CleanExactly`).
- Recomputing the visible set over a filtered list may hide a peer when another peer's id differs
  from its id only by surrounding blanks (`DeviceScopeUse.LocalExactly`).
- For a role that may not browse, the address book keeps server-known devices while the peer list
  is empty (`DeviceScopeUse.BooksAgreeExactly`).
- The first expiry of a session is not capped by the maximum, so with a maximum below the expiry a
  session is usable past its limit until its first use (`ClientSessions.WithinLimitExactly`).
- A month boundary is not offered to sessions that began before 1970, and an interval that ends
  exactly at the boundary is not split although its two ends have different keys
  (`BillingPeriod.SplitExactly`, `BillingPeriod.RefusedExactly`).
- A session that spans several months draws on one monthly allowance for all of them but possibly
  the first, because the contract moves on to the month of the clock at the first boundary. Each month
  gets an allowance of its own only in the cases of `BillingSettlement.OwnAllowancesExactly`;
  `BillingSettlement.TwoMonthsShare` is a session in which it does not.
- When a contract moves on and its month has no record yet, one is made from the contract after the
  piece was drawn, and the piece is then added once more (`BillingSettlement.RecordCountsTwice`).
- The Guacamole manual (chapter "The Guacamole protocol", section "Design") counts field lengths in
  characters; the code counts bytes, and so does the model. For valid text the two forms are the
  same exactly for ASCII fields (`GuacCharacters.ManualFormExactly`).

## Model

| member | source | states |
|---|---|---|
| `Decimal.NatToText` | betterdesk-server/api/remote_target_gateway.go:337 | the decimal length is all digits, not empty, without leading zeros, and its value is the number |
| `GuacWire.ReadField` | betterdesk-server/api/remote_target_gateway.go:290-312 | the digit loop and the length checks at any index equal the one-field scanner on the bytes from there |
| `GuacWire.ParseInstruction` | betterdesk-server/api/remote_target_gateway.go:286-328 | the index-moving loop returns the verdict of the recursive parser, for every buffer: complete with its length, incomplete, or malformed |
| `GuacWire.ParseIffWire` | betterdesk-server/api/remote_target_gateway.go:286-328 | the parser completes with an instruction after n bytes if and only if the first n bytes are a wire form of it by the grammar and the opcode is not empty |
| `GuacWire.IncompleteIffUnfinished` | betterdesk-server/api/remote_target_gateway.go:286-328 | a buffer is incomplete if and only if it is an unfinished wire form by the grammar, and malformed if and only if it is neither that nor starts with a wire form of an instruction with an opcode |
| `GuacWire.VerdictStable` | betterdesk-server/api/remote_target_gateway.go:286-328 | on non-empty data complete and malformed verdicts survive any appended bytes, and a complete one is reached on the consumed bytes alone |
| `GuacWire.EncodeInstruction` | betterdesk-server/api/remote_target_gateway.go:330-343 | the builder loop writes the encoding |
| `GuacWire.EncodeParseRoundTrip` | betterdesk-server/api/remote_target_gateway.go:286-343 | parsing an encoding followed by anything gives back the instruction and its exact length if the opcode is not empty and every field is within the limit, and is malformed otherwise |
| `GuacWire.ParsedFits` | betterdesk-server/api/remote_target_gateway.go:303-306 | every field of a parsed instruction is within the limit |
| `GuacStream.InstructionParser.Feed` | betterdesk-server/api/remote_target_gateway.go:263-284 | output, error and kept buffer are those of draining the old buffer followed by the chunk |
| `GuacStream.ParseAllResumes` | betterdesk-server/api/remote_target_gateway.go:263-284 | parsing may stop after any byte and resume with what it left |
| `GuacStream.GuardUnreachable` | betterdesk-server/api/remote_target_gateway.go:272-281 | with a buffer that holds no complete instruction and a chunk within the limit, the oversize error never fires |
| `GuacStream.GuardFiresOnLargeChunk` | betterdesk-server/api/remote_target_gateway.go:272-281 | with a larger chunk it does fire |
| `GuacStream.ChunkIndependence` | betterdesk-server/api/remote_target_gateway.go:263-284 | over every cutting into chunks within the limit, feeding fails if and only if one parse of the whole stream fails, otherwise output and kept buffer are the same, and the output is always a prefix |
| `GuacStream.EncodedStreamReadsBack` | betterdesk-server/api/remote_target_gateway.go:263-343 | a stream of encodings reads back as the same instructions with nothing left over if and only if each of them is encodable |
| `GuacBridge.RewriteConnect` | betterdesk-server/api/remote_target_gateway.go:171-196 | every argument gets what its name asks for: host names the target's host, port its decimal port, user names its user if it has one, password the saved one if there is one, ignore-cert the word false; every other is as the browser sent it, or empty |
| `GuacBridge.RewriteMeans` | betterdesk-server/api/remote_target_gateway.go:175-193 | the same of the function behind the loop, with the names as bytes compared up to case |
| `GuacBridge.Opcodes` | betterdesk-server/api/remote_target_gateway.go:107-136 | the opcodes as bytes, and the sizes of reads and messages |
| `GuacBridge.RewriteImposes` | betterdesk-server/api/remote_target_gateway.go:171-196 | imposed slots do not depend on what the browser sent, other supplied values pass through, and rewriting twice is rewriting once |
| `GuacBridge.EveryRun` | betterdesk-server/api/remote_target_gateway.go:92-151 | the invariant of both pumps holds after every interleaving of their steps |
| `GuacBridge.StreamTransducer` | betterdesk-server/api/remote_target_gateway.go:92-125 | in every reachable state the bytes written to guacd parse back to the browser's instructions in order, up to those still queued, with only select and connect arguments changed and nothing lost, added or split; every connect carries host, port, user and password of the target under the names guacd asked for them |
| `GuacBridge.SessionEndsExactly` | betterdesk-server/api/remote_target_gateway.go:92-125 | after any run the session ends exactly at a message that is not text, too large or makes the stream malformed, at a connect whose password cannot be opened, or when told to |
| `GuacBridge.LastArgsMeans` | betterdesk-server/api/remote_target_gateway.go:134-141 | the names in force are those of the last args instruction, or none |
| `GuacBridge.ConnectUsesFreshNames` | betterdesk-server/api/remote_target_gateway.go:106-146 | in every run, up to the first guacd read that fails to parse, the argument names are those of the last args looked at, nothing is relayed before it is looked at, and every connect is rewritten with the names after at least as many of these instructions as the browser had been shown |
| `GuacBridge.ConnectFreshExactly` | betterdesk-server/api/remote_target_gateway.go:106-146 | in every run a connect is rewritten with the names of all that the browser had been shown, or later ones, if and only if it had not been shown a read that failed to parse, or that read completes no args or repeats the names before it |
| `GuacBridge.FailureSticks` | betterdesk-server/api/remote_target_gateway.go:130-146 | once the guacd-side parser has failed it fails on every later read |
| `GuacBridge.NamesFollowExactly` | betterdesk-server/api/remote_target_gateway.go:130-146 | in every run, once all is relayed, the browser has been shown what was looked at and what the first failing read completed, and the names in force are those of the last args shown exactly when that read completes no args or the last one it completes repeats them |
| `GuacBridge.MalformedReadLosesArgs` | betterdesk-server/api/remote_target_gateway.go:130-146 | for every args followed by a malformed byte in one read, the browser gets the args and the names stay empty |
| `GuacCharacters.AsciiExactly` | betterdesk-server/api/remote_target_gateway.go:337 | valid UTF-8 text has as many characters as bytes exactly when every byte is below 128 |
| `GuacCharacters.ManualFormExactly` | betterdesk-server/api/remote_target_gateway.go:330-343 | for instructions of valid text the encoder writes the form with lengths in characters exactly when every field is ASCII |
| `ReplayCache.SkewWindow` | betterdesk-server/api/bd_mgmt_handlers.go:151-158 | the timestamp check passes exactly in the closed skew interval, or when the timestamp is too far ahead for a duration to hold the difference |
| `ReplayCache.NonceCache.MarkUsed` | betterdesk-server/api/bd_mgmt_handlers.go:73-86 | expired entries go, the answer is whether the key is among the live ones, and the key is entered only if it is not |
| `ReplayCache.EntryStays` | betterdesk-server/api/bd_mgmt_handlers.go:73-86 | an accepted key stays in the cache, with its expiry, until a reading that reaches the cache passes that expiry |
| `ReplayCache.AtMostOnce` | betterdesk-server/api/bd_mgmt_handlers.go:139-184 | over every run whose readings at the cache are out of order by at most d, with a lifetime of at least twice the skew and d, a second acceptance needs a timestamp that was too far ahead to be measured at the first |
| `ReplayCache.LifetimeIsExact` | betterdesk-server/api/bd_mgmt_handlers.go:33-34 | readings out of order by at most d never replay a measurable proof if and only if an entry lives at least twice the skew and d; for the shipped constants if and only if d is zero |
| `ReplayCache.AcceptedAgainExactly` | betterdesk-server/api/bd_mgmt_handlers.go:151-181 | a genuine proof inside the window at its first reading can be accepted again, in some run with ordered readings, if and only if its timestamp is too far ahead to be measured at that reading |
| `ReplayCache.DisorderReplays` | betterdesk-server/api/bd_mgmt_handlers.go:73-86 | for every lifetime below twice the skew and d, a run out of order by d accepts a measurable proof twice |
| `ReplayCache.RefusedExactly` | betterdesk-server/api/bd_mgmt_handlers.go:73-86 | with ordered readings a proof that reaches the cache is refused if and only if an earlier accepted one has the same cache key and its entry still lives |
| `DeviceProof.VerifyEnrollmentProof` | betterdesk-server/api/enrollment_proof.go:58-102 | the checks in their order accept exactly a present, timely and genuine proof under whose cache key no entry lives, and only then make an entry |
| `DeviceProof.VerifyManagementRequest` | betterdesk-server/api/bd_mgmt_handlers.go:139-184 | the same for a management request |
| `DeviceProof.EnrollmentPayloadReads` | betterdesk-server/api/enrollment_proof.go:46-51 | the signed text of an enrollment proof determines verb, path, device, key, timestamp and nonce, even for device ids with line breaks |
| `DeviceProof.ManagementPayloadReads` | betterdesk-server/api/bd_mgmt_handlers.go:88-90 | the signed text of a management request determines device, timestamp and nonce, even for device ids with line breaks |
| `DeviceProof.PayloadsDiffer` | betterdesk-server/api/enrollment_proof.go:43-51 | no text is both an enrollment and a management payload, whatever the fields hold |
| `DeviceProof.ManagementGenuineExactly` | betterdesk-server/api/bd_mgmt_handlers.go:139-178 | a management request is genuine if and only if its headers are there and the bound key signed its text |
| `DeviceProof.SignatureProvesOneThing` | betterdesk-server/api/enrollment_proof.go:46-102 | a signature genuine for two requests names the same key and fields in both, and never serves for both kinds of proof |
| `DeviceProof.ManagementProofOnce` | betterdesk-server/api/bd_mgmt_handlers.go:139-184 | over every run whose readings reach the cache in order, a device, nonce and timestamp accepted twice had a timestamp too far ahead to be measured at the first acceptance |
| `DeviceProof.SharedKeyExactly` | betterdesk-server/api/enrollment_proof.go:98 | two device and nonce pairs share a cache key if and only if they are the same, or a part of one device id behind a colon is the head of the other's nonce |
| `DeviceProof.NoColonNoShare` | betterdesk-server/api/bd_mgmt_handlers.go:178 | device ids without a colon, or nonces without one, share a key only when they are the same |
| `DeviceProof.ManagementRefusedExactly` | betterdesk-server/api/bd_mgmt_handlers.go:139-184 | over every run with ordered readings a genuine, timely proof is refused if and only if an earlier accepted one shares its cache key and its entry still lives |
| `DeviceProof.OtherDeviceRefused` | betterdesk-server/api/bd_mgmt_handlers.go:178-181 | the family of runs in which a device is refused because of another one's nonce |
| `EnrollmentServer.HasEnrollmentCredential` | betterdesk-server/api/enrollment_proof.go:212-229 | the search finds a credential if and only if one candidate is a usable token for the device, bound to it where that is asked |
| `EnrollmentServer.Server.AuthorizeTokenIssue` | betterdesk-server/api/enrollment_proof.go:233-249 | authorized exactly by a proof verified before, by a proof that holds over the tables, or without any proof header by a usable token shown; and a proof that authorized is used up while its nonce entry lives |
| `EnrollmentServer.Server.IssueEnrollmentToken` | betterdesk-server/api/branding_handlers.go:1431-1454 | the new token is a bound credential of this device, of no other, at any time, and every earlier token is as it was |
| `EnrollmentServer.Server.StorePendingDevice` | betterdesk-server/api/branding_handlers.go:1561-1646 | new pending entry, an enriched one, or a refusal that changes nothing |
| `EnrollmentServer.Server.HandleDeviceRegister` | betterdesk-server/api/branding_handlers.go:428-739 | the answer is exactly the one the tables call for; approved means an active row, and in managed mode one that was there before; waiting means an entry; any other answer leaves every device as it was |
| `EnrollmentServer.Server.HandleDeviceRegisterStatus` | betterdesk-server/api/branding_handlers.go:743-852 | no device changes; approved means an active row, waiting an entry without a rejection marker |
| `EnrollmentServer.Server.HandleApproveDevice` | betterdesk-server/api/branding_handlers.go:1106-1227 | approved exactly for a well-formed request about a pending device, which then has an active row and the key of its entry, and neither entry nor marker |
| `EnrollmentServer.Server.HandleRejectDevice` | betterdesk-server/api/branding_handlers.go:1231-1340 | afterwards no entry, a marker that says whether there was a ban, and with ban a banned row |
| `EnrollmentServer.Server.HandleClearEnrollmentRejection` | betterdesk-server/api/branding_handlers.go:1346-1403 | afterwards neither marker nor ban, and of a banned device no row, key or bundle |
| `EnrollmentServer.Server.HandleUnbanPeer` | betterdesk-server/api/server.go:1347-1392 | the same for an unban |
| `EnrollmentServer.Server.QueueManagedViewerEnrollment` | betterdesk-server/api/client_sessions.go:158-198 | only pending entries change, and in managed mode a device with neither row nor marker has one afterwards |
| `EnrollmentServer.Server.Serve` | betterdesk-server/api/branding_handlers.go:428-1403 | a server that starts empty and serves any run under any changes of mode ends with the tables and answers of the run, every active row approved or admitted outright; in managed mode throughout the store is sound and every approved answer goes back to an approval |
| `EnrollmentAnswers.RegisterAnswers` | betterdesk-server/api/branding_handlers.go:428-739 | exactly when a registration is approved, and exactly when it waits, in every mode and store |
| `EnrollmentAnswers.PollAnswers` | betterdesk-server/api/branding_handlers.go:743-852 | exactly when a poll is approved, and exactly when it waits; it changes no device |
| `EnrollmentAnswers.AuthorizesOnce` | betterdesk-server/api/enrollment_proof.go:58-102 | an accepted proof is refused with the same headers at every reading while its entry lives, whatever the key |
| `EnrollmentAnswers.CreatedDevice` | betterdesk-server/api/branding_handlers.go:1456-1522 | creation succeeds exactly for a named device that is not removed by soft delete; the row, key and bundle it leaves, and every other device as it was |
| `EnrollmentAnswers.QueueMeans` | betterdesk-server/api/client_sessions.go:158-198 | the entry a login leaves, and that it leaves none for a shut or enrolled device or outside managed mode |
| `EnrollmentAnswers.ClearExactly` | betterdesk-server/api/branding_handlers.go:1346-1403 | what clearing a rejection leaves of marker, decision, row, key and bundle, in any store |
| `EnrollmentRules.ProofAcceptedExactly` | betterdesk-server/api/enrollment_proof.go:58-164 | a proof is accepted if and only if its text is signed by the one who may: the explicit key of a device with a row, else the row's own, else nobody; without a row the key captured while pending, else the key sent; and it is timely and its nonce not remembered |
| `EnrollmentRules.WithoutKeyNoProof` | betterdesk-server/api/enrollment_proof.go:117-121 | no proof is accepted for a device with a row and no key bound in any way |
| `EnrollmentRules.AuthorizedExactly` | betterdesk-server/api/enrollment_proof.go:200-249 | exactly what authorizes a token, over the status, expiry, uses and device of the tokens shown |
| `EnrollmentRules.FirstKeyNeedsToken` | betterdesk-server/api/branding_handlers.go:591-600 | an enrolled device without a key is authorized only by an active token of its own |
| `EnrollmentRules.SubmissionExactly` | betterdesk-server/api/branding_handlers.go:1561-1646 | a submission is refused if and only if its uuid, key or bundle differs from a non-empty one of the entry; otherwise every field is the entry's, or what was sent where that was empty |
| `EnrollmentRules.TagsKept` | betterdesk-server/api/branding_handlers.go:1679-1697 | the tags kept are the trimmed, distinct parts between commas, separated by commas again |
| `EnrollmentRules.StatusExactly` | betterdesk-server/api/branding_handlers.go:428-739 | the status of every registration in every mode and store over the fields of the tables: invalid, refused, a conflict of machines or of entries, waiting or approved |
| `EnrollmentRules.ReadmitTokenExactly` | betterdesk-server/api/branding_handlers.go:582-614 | exactly when a device with a row is handed a token |
| `EnrollmentRules.ReadmitLeaves` | betterdesk-server/api/branding_handlers.go:541-600 | what a registration leaves of a device with a row: the row, a first key exactly for an approved request that tries no proof and shows an active token, and a support agent's first bundle |
| `EnrollmentRules.OpenTokenExactly` | betterdesk-server/api/branding_handlers.go:620-648 | exactly when a newcomer in open mode is handed a token |
| `EnrollmentRules.PollTokenExactly` | betterdesk-server/api/branding_handlers.go:743-852 | exactly when a poll is handed a token |
| `EnrollmentRules.LockedUses` | betterdesk-server/api/branding_handlers.go:697-739 | admission by a token counts one use of it, binds it if it was pending, and leaves every other token alone |
| `EnrollmentRules.AdmissionsWithinLimit` | betterdesk-server/api/branding_handlers.go:697-739 | over every run with changing modes a token's uses are the devices it admitted, and never exceed its limit |
| `EnrollmentRuns.RunsAreSound` | betterdesk-server/api/branding_handlers.go:490-739 | every managed-mode run from an empty store keeps: pending implies no row and no marker, a banned row has a marker and carries the reject reason, any other row none, and keys and bundles belong to rows |
| `EnrollmentRuns.StepKeeps` | betterdesk-server/api/branding_handlers.go:428-1403 | in any mode every step keeps all of this except that an entry may stand beside a row |
| `EnrollmentRuns.StepIsLocal` | betterdesk-server/api/branding_handlers.go:428-1403 | in any mode a step leaves row, entry, marker, decision, key and bundle of every other device alone |
| `EnrollmentRuns.StaleOrigin` | betterdesk-server/api/branding_handlers.go:620-739 | an entry comes to stand beside a row exactly when its device is admitted outright |
| `EnrollmentRuns.ActiveMeansApproved` | betterdesk-server/api/branding_handlers.go:1106-1227 | in every managed-mode run an unbanned row was created by an operator's approval of a pending device, and has existed since |
| `EnrollmentRuns.ApprovedAnswerMeansApproved` | betterdesk-server/api/branding_handlers.go:428-852 | in every managed-mode run an approved answer to a registration or poll means that the operator approved the device and the row has existed since |
| `EnrollmentRuns.LiftedBanLeavesNothing` | betterdesk-server/api/branding_handlers.go:921-977 | rejecting with ban and then clearing or unbanning leaves no row, entry, marker, decision, key or bundle of the device |
| `EnrollmentRuns.LiftedBanMeansPending` | betterdesk-server/api/branding_handlers.go:650-676 | over every managed-mode run, after a rejection with ban that was lifted and before the next decision, a registration that passes validation is answered with pending, or with a conflict exactly when it contradicts what was queued meanwhile, and never approved |
| `EnrollmentRuns.LoginMakesConflict` | betterdesk-server/api/client_sessions.go:158-198 | after reject with ban and unban, a login with one uuid makes a registration with another a conflict |
| `EnrollmentRuns.PendingEffect` | betterdesk-server/api/branding_handlers.go:1561-1646 | a submission writes its own entry only, keeps the first one, and may only fill in what it left empty |
| `EnrollmentPending.PendingWriteOnce` | betterdesk-server/api/branding_handlers.go:1561-1646 | over every run with changing modes, while a device stays pending each field of its entry moves at most once, from empty to non-empty |
| `EnrollmentPending.EntryHoldsFirstKey` | betterdesk-server/api/branding_handlers.go:1561-1646 | over every run with changing modes the key in a pending entry is the first one accepted in that pending episode |
| `EnrollmentPending.ApprovalBindsFirstKey` | betterdesk-server/api/branding_handlers.go:1134-1160 | over every run with changing modes the key in force after an approval is that first key, if and only if one was submitted or none was bound before |
| `EnrollmentPending.ManagedApprovalBindsFirstKey` | betterdesk-server/api/branding_handlers.go:1134-1160 | in managed mode throughout, the key in force after an approval is always that first key, or none |
| `EnrollmentPending.ApprovalKeepsOtherKey` | betterdesk-server/api/branding_handlers.go:1134-1160 | registering without a key in managed mode, with one in open mode and approving the entry leaves the second key in force |
| `EnrollmentKeys.RegistrationKeyStep` | betterdesk-server/api/branding_handlers.go:541-600 | in any mode and store a registration, poll or login leaves the row of an enrolled device alone, and changes its key exactly when an authorized request binds a first one |
| `EnrollmentKeys.BoundKeyStable` | betterdesk-server/api/bd_mgmt_handlers.go:111-137 | from any store at all and under any changes of mode, registrations, polls and logins never change the row of an enrolled device nor a key bound to it |
| `EnrollmentKeys.KeyStep` | betterdesk-server/api/branding_handlers.go:541-1403 | in any mode, while the row exists, the key changes exactly by an authorized first key or by the approval of an entry with a key beside the row |
| `EnrollmentKeys.ManagedKeyStable` | betterdesk-server/api/bd_mgmt_handlers.go:111-137 | over every managed-mode run, with any operator steps, while the row exists a bound key is never replaced and a first key appears only through a registration that brings it and shows an active token of the device |
| `EnrollmentKeys.FirstKeyShowsToken` | betterdesk-server/api/branding_handlers.go:592-600 | a first key of an enrolled device is bound only by a request that shows an active token of that device |
| `EnrollmentModes.NeverStaleExactly` | betterdesk-server/api/token_handlers.go:457-480 | over every run with changing modes a pending device never has a row if and only if no registration is ever admitted outright while an entry of its device is waiting |
| `EnrollmentModes.ActiveMeansEnrolled` | betterdesk-server/api/branding_handlers.go:428-1227 | whatever the modes, every active row goes back to an approval or an outright admission and has existed since |
| `EnrollmentModes.KeyStableExactly` | betterdesk-server/api/branding_handlers.go:1106-1160 | over every run with changing modes, while the row exists, a bound key stays the same throughout if and only if no entry beside the row that holds another key is approved |
| `EnrollmentModes.ModeChangeReplacesKey` | betterdesk-server/api/branding_handlers.go:1106-1160 | for every two keys: registering with one in managed mode, with the other in open mode and approving the first entry replaces the bound key under a row that exists throughout |
| `EnrollmentTokens.StepNonces` | betterdesk-server/api/enrollment_proof.go:58-102 | each step changes the nonce cache exactly by the proofs it presents, in order |
| `EnrollmentTokens.PollReissueExactly` | betterdesk-server/api/branding_handlers.go:807-822 | a poll hands a token to an enrolled device exactly when it is neither blocked nor disabled, shows no bound credential, carries an accepted proof, and the new text is free |
| `EnrollmentTokens.ReissueHasProof` | betterdesk-server/api/branding_handlers.go:582-614 | a step that hands a token to an enrolled device presents an accepted proof first, the one in its own headers, signed by the only key that may sign for the device at that moment |
| `EnrollmentTokens.TokensNeedDistinctProofs` | betterdesk-server/api/enrollment_proof.go:233-249 | over every run with changing modes whose readings reach the cache in order, two tokens handed to the same enrolled device rest on different pairs of instant and nonce, unless the instant behind the first was too far ahead to be measured |
| `EnrollmentTokens.TokensBoundedByProofs` | betterdesk-server/api/branding_handlers.go:807-822 | over every such run the tokens handed to an enrolled device for measurable instants are never more than the pairs of instant and nonce signed for it by the key in force |
| `Json.PeersRoundTrip` | betterdesk-server/api/address_book_merge.go:125-147 | writing peers and reading them back gives the same peers |
| `Json.EmptyExactly` | betterdesk-server/api/address_book_merge.go:112-123 | a value is empty if and only if it is missing, null, an empty list or white space |
| `Json.ParseBookExactly` | betterdesk-server/api/address_book_merge.go:33-51 | the fields of a parsed book: the object's own, empty lists for missing peers and tags, and nothing else |
| `AddressBook.UniteTags` | betterdesk-server/api/address_book_merge.go:149-162 | the loops with their set of seen tags compute the ordered union |
| `AddressBook.AddTagsClean` | betterdesk-server/api/address_book_merge.go:149-162 | the union is trimmed, has no blanks and no repetitions, starts with the first list, and holds exactly the tags of both |
| `AddressBook.UnionTagsAssociative` | betterdesk-server/api/address_book_merge.go:149-162 | the union is associative as a list |
| `AddressBook.MergePeerMaps` | betterdesk-server/api/address_book_merge.go:87-110 | the two loops compute the field-wise merge |
| `AddressBook.MergePeerAssociative` | betterdesk-server/api/address_book_merge.go:87-110 | merging peers is associative |
| `AddressBook.MergeAddressBookMaps` | betterdesk-server/api/address_book_merge.go:53-85 | the index-driven merge in place equals adding the overlay's peers one by one at the last entry of their id, and keeps every other top-level field of the base |
| `AddressBook.OtherFieldsKept` | betterdesk-server/api/address_book_merge.go:16-31 | over any overlays every top-level field other than peers and tags is the base's |
| `AddressBook.MergedIds` | betterdesk-server/api/address_book_merge.go:53-85 | the merged list has the base's ids in their order, and behind them the overlay's new ones in theirs |
| `AddressBook.OtherEntriesKept` | betterdesk-server/api/address_book_merge.go:53-85 | a base entry without an id, or that is not the last of its id, is not touched |
| `AddressBook.MergePeersAssociative` | betterdesk-server/api/address_book_merge.go:53-85 | merging peer lists is associative as lists, even with repeated or missing ids |
| `AddressBook.MergeBooksAssociative` | betterdesk-server/api/address_book_merge.go:53-110 | merging books is associative: peer order, field maps, tag order and the other fields |
| `AddressBook.MergeAddressBookJSON` | betterdesk-server/api/address_book_merge.go:18-31 | the loop over overlays skips blank ones and folds the merge |
| `AddressBook.PreMergedOverlays` | betterdesk-server/api/address_book_merge.go:18-31 | merging overlays one by one equals merging the base with the overlays merged beforehand |
| `AddressBookMeaning.FindInMergeAll` | betterdesk-server/api/address_book_merge.go:53-110 | the maintained entry of an id is the merge of all its entries in order |
| `AddressBookMeaning.FirstNonEmptyWins` | betterdesk-server/api/address_book_merge.go:53-123 | for a base with unique ids every field but tags of every id is the first non-empty value in the order base, overlay 1, ..., and an id is there if and only if some book has it |
| `AddressBookMeaning.TagsUnited` | betterdesk-server/api/address_book_merge.go:87-110 | the tags of an id are the ordered union over all its entries as soon as an entry behind the first brings any, and the first entry's until then |
| `AddressBookMeaning.TopTagsUnited` | betterdesk-server/api/address_book_merge.go:53-85 | the top-level tags are the ordered union over all books, unless every overlay is skipped |
| `OrgSecrets.StripSecrets` | betterdesk-server/api/org_ab_sanitize.go:9-33 | the loop with its changed flag computes the stripped document |
| `OrgSecrets.StrippedMeaning` | betterdesk-server/api/org_ab_sanitize.go:9-33 | the same peers in the same places without password and hash and with every other field, everything else as it was, and stripping twice is stripping once |
| `OrgSecrets.CollectSecrets` | betterdesk-server/api/org_peer_vault_ab.go:22-51 | the secret of an id is its first usable one over the organizations that share their book |
| `OrgSecrets.FirstSecretMeans` | betterdesk-server/api/org_peer_vault_ab.go:33-49 | the first usable credential of an id is the first that opens to something other than white space |
| `OrgSecrets.InjectCredentials` | betterdesk-server/api/org_peer_vault_ab.go:51-83 | the loop with its changed flag fills empty passwords only |
| `OrgSecrets.InjectedPeers` | betterdesk-server/api/org_peer_vault_ab.go:51-83 | every peer is in its place with an empty password replaced by the secret of its id, and nothing else changes, whether or not the document was rewritten |
| `OrgSecrets.PasswordSource` | betterdesk-server/api/address_book_merge.go:235-259 | through merge and injection the shown password is the user's own non-empty one, else the first vault secret, never one from an organization's document |
| `AdminTags.MergeAdminTagsIntoAB` | betterdesk-server/api/client_api_handlers.go:638-830 | the loops over peers, tags and sets, with their early returns, compute the synchronized document |
| `AdminTags.SyncedKeeps` | betterdesk-server/api/client_api_handlers.go:732-806 | a peer keeps its id and every unrelated field, a missing hostname, platform or username becomes the row's where it has one, and its string tags are its own followed by the administrators' |
| `AdminTags.RowKinds` | betterdesk-server/api/client_api_handlers.go:693-720 | which rows are active and which are dropped, and which fields are missing |
| `AdminTags.TagTexts` | betterdesk-server/api/client_api_handlers.go:706-716 | the tags of a row are its parts, trimmed, without blanks |
| `AdminTags.KeptExactly` | betterdesk-server/api/client_api_handlers.go:732-806 | the peers left are exactly the synchronized forms of those not dropped |
| `AdminTags.WhatMergingDoes` | betterdesk-server/api/client_api_handlers.go:638-830 | fields other than peers and tags are untouched, tags only grow, and banned peers go if some listed peer is known and active; otherwise the document is returned as it was |
| `AdminTags.MergedTwice` | betterdesk-server/api/client_api_handlers.go:638-830 | synchronizing twice is synchronizing once |
| `AdminTags.SoftDeletedStays` | betterdesk-server/api/client_api_handlers.go:685-830 | in the synchronized document every listed peer with a soft-deleted row is still listed, unchanged |
| `AdminTags.CleanExactly` | betterdesk-server/api/client_api_handlers.go:685-830 | no peer left has a banned or soft-deleted row if and only if no listed row was soft-deleted, and some listed peer is known and active or no listed row was banned |
| `DeviceScope.PanelAccessAllowed` | betterdesk-server/api/rustdesk_groups.go:154-172 | both searches together decide exempt, unlisted, listed by name, or listed by a user group |
| `DeviceScope.PanelGroupPeerIDs` | betterdesk-server/api/rustdesk_groups.go:174-209 | the ids are exactly the members by list or tag among the peers that pass the filter, each once |
| `DeviceScope.VisiblePeerSet` | betterdesk-server/api/rustdesk_groups.go:221-324 | with all early returns and loops, a peer passes if and only if the rule shows it: by default restricted, allowed; otherwise not restricted or allowed |
| `DeviceScope.SeesExactly` | betterdesk-server/api/rustdesk_groups.go:154-324 | who sees a device, over groups, tags, folders, lists, grants and roles: whoever is exempt, was granted it or is named by one of its groups or folders, and without a restricted default everyone when none of them names others instead |
| `DeviceScopeUse.MoreNeverHides` | betterdesk-server/api/rustdesk_groups.go:273-323 | a further grant or user group never hides a peer |
| `DeviceScopeUse.MembersUnchanged` | betterdesk-server/api/rustdesk_groups.go:174-209 | when no peer shadows another, a group has the same members among the peers of a filtered list |
| `DeviceScopeUse.LocalExactly` | betterdesk-server/api/rustdesk_groups.go:48-110 | for every panel, user and filter the set recomputed over the peers left still shows all of them, if and only if no peer's id trims to another's while carrying a tag that one lacks; ids without surrounding blanks always qualify |
| `DeviceScopeUse.BuildDeviceGroups` | betterdesk-server/api/rustdesk_groups.go:48-110 | one listing for each admitted group and folder, with exactly its visible members |
| `DeviceScopeUse.BuildPeerList` | betterdesk-server/api/rustdesk_peers.go:94-119 | the listed peers are exactly the visible and wanted ones for roles that can browse and none for others; groups are recomputed over them |
| `DeviceScopeUse.ListingsComplete` | betterdesk-server/api/rustdesk_peers.go:94-119 | without shadowing, each listing holds exactly the listed peers that belong to its group or folder among all peers |
| `DeviceScopeUse.FilterAddressBook` | betterdesk-server/api/address_book_merge.go:264-288 | the loop computes the filtered document |
| `DeviceScopeUse.ScopedMeaning` | betterdesk-server/api/address_book_merge.go:264-288 | the peers left are those whose id is not blank and, if known, visible, in order; other fields are kept and filtering twice is filtering once |
| `DeviceScopeUse.ApplyDeviceScope` | betterdesk-server/api/address_book_merge.go:292-306 | the book is filtered by a set that agrees with the rule, or returned as it is for the pro role, exempt roles, and without a panel |
| `DeviceScopeUse.BooksAgreeExactly` | betterdesk-server/api/address_book_merge.go:290-306 | every server-known id left in the book is in the set the peer list is built from, for every panel and book, if and only if the role can browse |
| `BillingPeriod.PeriodRoundTrip` | betterdesk-server/billing/period.go:12-32 | the key of every month, before and after year 0 and beyond 9999, scans back to its year and month |
| `BillingPeriod.KeyShape` | betterdesk-server/billing/period.go:12-18 | keys of the years 0 to 9999 are four digits, a hyphen and two digits |
| `BillingPeriod.NextMonth` | betterdesk-server/billing/period.go:29-30 | each month starts as many days after the one before as that one has in the Gregorian calendar |
| `BillingPeriod.KeysDiffer` | betterdesk-server/billing/period.go:34-37 | two months have the same key only if they are the same |
| `BillingPeriod.BoundsContain` | betterdesk-server/billing/period.go:12-32 | the bounds of an instant's key contain it and hold exactly the instants with that key, if and only if its year is 1970 or later; an earlier one has none |
| `BillingPeriod.SplitExactly` | betterdesk-server/billing/period.go:41-54 | a split happens exactly when the next month from 1970 on starts before the end; the boundary lies strictly between, is that start, and all before it is one month |
| `BillingPeriod.RefusedExactly` | betterdesk-server/billing/period.go:41-54 | a split is refused if and only if the half-open interval lies in one month or starts before 1970 |
| `BillingSettlement.SettleCrossingMonth` | betterdesk-server/billing/period_service.go:104-175 | the loop ends; its pieces are the months of the session, each charged in full as included or overage; what is left lies in one month; what is included is drawn piece by piece from one allowance, which it and the contract's remainder add up to; and each piece is recorded once in its month and in the session's totals, with its amounts |
| `BillingSettlement.MonthsPartition` | betterdesk-server/billing/period_service.go:104-175 | the pieces join up without gaps, none is empty, and each lies in the month it is billed to |
| `BillingSettlement.OwnAllowancesExactly` | betterdesk-server/billing/period_service.go:133-146 | every month gets an allowance of its own if and only if the pieces that draw on the one allowance fit in it and in a package each, or the last that asks finds exactly a package left; for a contract that was behind, if and only if they fit in one package together, at most one bills a minute, or the package is empty |
| `BillingSettlement.TwoMonthsShare` | betterdesk-server/billing/period_service.go:133-146 | a session over two boundaries in which January takes the 60 minutes and February gets none |
| `BillingSettlement.RecordCountsTwice` | betterdesk-server/billing/period_service.go:59-79 | when the month left behind has no record, the one made from the contract already holds the first piece, which is then added again: it agrees with the contract if and only if nothing of the piece was included |
| `BillingSettlement.RoundUpCovers` | betterdesk-server/billing/service.go:497-503 | billed minutes are the least multiple of the rounding that covers the seconds |
| `BillingPeriod.FixedOffsetSteady` | betterdesk-server/billing/period.go:12-32 | every fixed-offset zone meets the condition on zones |
| `ClientSessions.SessionStore.IssueClientSession` | betterdesk-server/api/client_sessions.go:102-141 | the new token is usable exactly until the expiry, all earlier sessions of the device are revoked, and those of other devices are as they were |
| `ClientSessions.SessionStore.AuthenticateClientSession` | betterdesk-server/api/client_sessions.go:228-263 | a refused request changes nothing; an accepted one changes its own row only, within the absolute limit when sliding and not the expiry otherwise |
| `ClientSessions.SessionStore.RevokeClientSessionToken` | betterdesk-server/api/client_sessions.go:265-270 | the token is never usable afterwards and other rows are as they were |
| `ClientSessions.SessionStore.Serve` | betterdesk-server/api/client_sessions.go:102-270 | an empty table serving any run ends as the run says, with at most one live session per device and, with ordered readings, sliding and an expiry within the maximum, every expiry by the formula |
| `ClientSessions.SlidInSeconds` | betterdesk-server/api/client_sessions.go:243-256 | capping in nanoseconds and then storing whole seconds is capping in whole seconds |
| `ClientSessions.LastUsedColumn` | betterdesk-server/api/client_sessions.go:243-260 | after every run the last-used column is the second of the last login or accepted request |
| `ClientSessions.FormulaExactly` | betterdesk-server/api/client_sessions.go:123-134 | under sliding, after every run every stored expiry is the smaller of last use plus expiry and creation plus maximum, if and only if the expiry days are no more than the maximum |
| `ClientSessions.NeverBackwardsExactly` | betterdesk-server/api/client_sessions.go:243-256 | over every run the expiry never moves backwards, if and only if sessions do not slide or the expiry days are no more than the maximum |
| `ClientSessions.WithinLimitExactly` | betterdesk-server/api/client_sessions.go:243-256 | over every run no request is accepted at or after creation plus maximum, if and only if the expiry days are no more than the maximum |
| `ClientSessions.UseCaps` | betterdesk-server/api/client_sessions.go:243-256 | whatever the settings, one accepted request caps the expiry |
| `ClientSessions.OneSessionPerDevice` | betterdesk-server/api/client_sessions.go:110-116 | after every run a device of a user has at most one session that is not revoked |
| `ClientSessions.RevokedForGood` | betterdesk-server/api/client_sessions.go:265-270 | a revoked session is never accepted again |

## Left out

- HTTP, WebSocket, TCP, TLS and DNS, partial writes, logging, audit records and published events: a handler is one step on the store, and database calls succeed atomically.
- Cryptography and encodings: keys and signatures are symbolic, a signature verifies for exactly the text and key it was made with; base64 spellings of a key have one canonical form; timestamps are parsed elsewhere into one instant each; hashing of tokens is left out.
- Clock readings: one clock, integers of nanoseconds; the monotonic reading Go keeps beside wall time is not modelled.
- Request contents that are parsed elsewhere are given as values: whether two device UUIDs name the same machine, whether a request comes from a support agent, whether an approval body is well-formed. Lengths of bundle ids and nonces are counted in characters.
- Enrollment: a manual ban with another reason, soft delete and restore, the TCP admin console and the signal server's own pending queue are not steps of the machine; sync mode, display name and history listing are not stored; writing back an expired token status is left out.
- EnrollmentServer.Server.IssueEnrollmentToken: the token text is a parameter, not random; issue fails when the text is taken.
- JSON text: marshalling is trusted; a document is blank, `{}`, not JSON, or a value. Numbers and booleans are opaque.
- AddressBook.UniteTags: two arguments instead of any number; the callers pass two.
- Address books: `syncServerTagsIntoAddressBook`, response normalization and the storage of books are left out; they would add only field copying.
- AdminTags.WhatMergingDoes: items of the peer list that are not objects are not peers and are not kept when the document is rewritten, as in the code.
- Device scope: the panel store's reads succeed, except that the list of groups may fail; tag comparison by case folding is done on entry; names, notes and ids of groups are left out of the listings, and so are the order of listings and paging.
- DeviceScopeUse.BuildPeerList: the request's own filters are an arbitrary set of wanted ids; the branch for roles that cannot browse is unreachable behind the first check.
- BillingSettlement.SettleCrossingMonth: the text of ledger entries, the recorded limit of a month, the phase of the session and the copy in the live map are left out. Zones may change their offset, but not near the start of a month: within the largest offset they ever have. Rounding and amounts are exact, not in floating point; the rounding and the clock do not change during the loop.
- BillingPeriod.PeriodRoundTrip: keys with blanks in front, which the scanner would skip, are not modelled; no caller makes them.
- ClientSessions: a request is one step, so two requests that interleave between lookup and update are not modelled; an unreadable creation time is left out, and expiry settings are fixed over a run.
- The hub of management sessions, the TFA session store, LDAP, OIDC, branding, chat, help, guest, mesh and CDAP handlers, installers and the Node.js console.
