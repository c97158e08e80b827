# TechStack: verified models of its protocols

Dafny models of the stateful protocols of TechStack's control plane and of its Guard (the agent on a managed
server), with proofs about every run of them. `dafny verify dfyconfig.toml` checks the whole project.

A protocol is a value of its state, a total `Apply` of one step to it, and runs that are any list of steps. What
other processes do, how a call fails, what a clock shows and where a process dies are parameters of the steps, so a
statement about all runs covers all of them. Code that changes an object in place is a class whose methods are
proved against the same functions the runs are made of; loops are methods with invariants.

| file | protocol |
|---|---|
| `NativeLoginTable.dfy`, `NativeLogin.dfy`, `NativeLoginExpiry.dfy` | native login: start, browser handoff and redeem over one table shared by all replicas |
| `Journal.dfy`, `Receipts.dfy`, `Custody.dfy`, `CustodyOverlap.dfy`, `CustodyDeclaration.dfy`, `CustodyServer.dfy` | custody of a server's command evidence: tenant handoff, decommission and pairing with their overlaps, crashes |
| `LockFile.dfy` | the journal lock and the removal of its file |
| `ProbeIds.dfy`, `ProbeHub.dfy`, `ProbePass.dfy`, `ProbeCoverage.dfy`, `ProbeDelays.dfy`, `ProbeDelayRuns.dfy`, `ProbeSlots.dfy` | round-trip probes: command IDs, the durable hub under clock drift, passes over the fleet and what refusals cost, the four slots |
| `Mirror.dfy` | the release mirror: overlapping, dying upload runs against one object bucket |
| `DeviceMessage.dfy`, `DeviceChallenges.dfy`, `Damper.dfy`, `DamperOverlap.dfy` | device confirmation: framed transcripts, one-time challenges, the failure damper under overlapping requests |
| `Lines.dfy` | texts joined by newlines: the commands digest of a handoff and the local device proof |
| `LanBridge.dfy` | the private LAN bridge and its late failure reports |
| `EnrollmentTimeout.dfy` | the optimistic retry that fails an enrollment |
| `Household.dfy` | the reconciler of interrupted household commands |
| `HardwareCache.dfy`, `Convergence.dfy` | the Guard's hardware cache, package convergence backoff and command gate |
| `TenantChoice.dfy` | which tenant a cloud login resolves to |
| `Common.dfy`, `Sorting.dfy`, `Numerals.dfy` | shared facts: filtering, sorting, number text with its reader |

## Findings

Some expectations about this code hold only under a condition, which each of the lemmas named here states exactly:

- One probe per Guard and six-hour window. The hub forgets a settled command 24 h 15 min after it was stamped, so
  this holds for all runs exactly when early plus late clock drift is at most 18 h 15 min and one tick
  (`ProbeHub.OneProbePerIdExactly`).
- Every probed Guard is done for the window. Two refusals are not marked. With a release pin too old for host
  commands nothing is sent, and every pass picks the same first sixteen Guards (`ProbeCoverage.PinTooOldIsStuck`). A
  Guard that itself answers that it needs an upgrade is picked once more and marked then
  (`ProbeCoverage.UpgradeAnswerIsMarkedNext`). So k passes whose dispatches are answered or already sent reach at
  least min(n, 8k) of n due Guards (`ProbeCoverage.Coverage`). They reach min(n, 16k) in all runs exactly when no
  Guard answers that way or n <= 16 (`ProbeCoverage.SixteenEachExactly`). If only certain Guards may answer that way
  and u of them are among the first 16(k - 1), it is min(n, 16k - u) (`ProbeDelays.CoverageWithRefusers`), and
  `ProbeDelayRuns.DelaysExactly` says exactly for which sets of such Guards the promise of sixteen each is kept.
- The commands digest of a handoff hashes its IDs joined by newlines, so different lists can share it
  (`Lines.DigestCollides`). Between lists of non-empty IDs without a newline equal digests mean the same IDs
  (`Lines.PlainDigestsAgree`); among all lists `Lines.DigestIdentifiesExactly` says which are identified.
- A pairing clears every receipt that is there after it succeeded, not those it declared. In every run it clears only
  what it declared exactly when no handoff has finished since it read the receipts, or another pairing has cleared
  again since (`CustodyOverlap.ClearedWereDeclaredExactly`). Of the kinds of steps that may come while a pairing is
  open, exactly handoffs must be kept out (`CustodyOverlap.ClearedKindsExactly`).
- A pairing reads the receipts before it takes the journal lock. A handoff in between takes the tenant's entries from
  the second read and stores its receipt after the first (`CustodyDeclaration.NeitherReadShowsIt`). Which runs account
  for every tenant is stated by `CustodyDeclaration.DeclarationAccountsExactly`; of the kinds of steps that may come
  between the reads, exactly handoffs must be kept out (`CustodyDeclaration.DeclarationKindsExactly`).
- A decommission releases the lock between emptying the journal, looking for receipts and destroying the key. The key
  goes only with no entry kept, no receipt waiting and no binding, in all runs whose steps in between are of certain
  kinds, exactly when neither handoffs nor successes of pairings are among these (`CustodyOverlap.KeyGoesLastExactly`).
  Either alone breaks it (`CustodyOverlap.KeyGoesBeforeAReceipt`, `CustodyOverlap.KeyGoesFromABoundServer`).
- A decommission removes the lock file after it released the lock. A process that has that file open then locks it
  beside one that creates it anew. The lock stays exclusive exactly when nobody has the file open at the removal
  (`LockFile.RemovalIsSafeExactly`).
- A handoff leaves other tenants' journal entries untouched exactly when they were already compact: rewriting the
  log drops acknowledged entries and acknowledged payloads of every tenant (`Journal.OthersUntouchedExactly`).
- The custody declaration of a pairing lists every held tenant exactly when the journal is not denied. The comment
  above `guardPriorCustody` says an unreadable journal fails the enrollment; the code does not ask for the denied
  state (`CustodyDeclaration.DeclarationCompleteExactly`, and a run in `CustodyDeclaration.HeldTenantIsHidden`). The model
  follows the code.
- "Enabled" of the LAN bridge means a live server exactly while no failure handler of the recorded server is waiting
  for the lock (`LanBridge.EnabledMeansLiveExactly`).
- A login is redeemed before its row expires by the time of the redeeming transaction, which may be older than the
  clock when it takes effect. For all runs whose redeeming statements wait at most d every redemption takes effect
  less than g after the expiry exactly when d <= g (`NativeLoginExpiry.LandsInTimeExactly`).
- "Converged" of a household command means that running it changes nothing exactly for removals and app updates that
  name a member, the updates only of a member that is there (`Household.ConvergedMeansNoChangeExactly`); one re-issue
  converges exactly for removals and present members (`Household.ReissueConvergesExactly`).
- Requests in flight pass the failure damper together. With at most c of them, at most
  5 * ((c - 1) / 5 + 1) * (T / 60 s + 1) + (c - 1) % 5 wrong attempts are evaluated in any window of length T
  (`DamperOverlap.OverlappingAttemptsAreBounded`), and that is reached for every c and T
  (`DamperOverlap.OverlapBoundIsAttained`). Up to five in flight cost no more per minute than one, and at most four once.
- A membership row with a blank tenant that sorts first hides every other membership
  (`TenantChoice.PickedExactly`, `TenantChoice.BlankRowHides`).

## Assumptions

- SHA-256, HMAC and the 24-digit probe tag are collision-free functions on texts; random nonces, tickets, row and
  command ids do not repeat; no artifact index contains its own digest.
- PostgreSQL statements are atomic; `now()` is the transaction's start and never later than the clock when a
  statement takes effect. Advisory locks exclude each other.
- The object bucket accepts an upload only if its bytes have the announced checksum and length, evaluates
  `If-None-Match: *` atomically, and is written by mirror runs only. The local directory is read in one state while
  the file list is built; its files may change before they are sent.
- The journal lock is exclusive. `LockFile` says exactly when the removal of its file leaves it so; the custody runs
  assume it. Then a handoff, the emptying part of a decommission and the journal read of a pairing are atomic with
  respect to each other and to the running Guard; all other parts interleave freely. A handoff reads and replaces the
  receipts file in one step with respect to a pairing that clears it.
- No two handoffs put the same time into their receipts.
- Where only certain Guards may refuse, a fresh round trip stays fresh for the rest of its window.
- A rename is atomic, a synced file is durable, archives outside the state directory are not removed.
- A stored server record only moves to higher revisions.

## Model

| member | source | states |
|---|---|---|
| NativeLoginTable.HandoffTable.Purge | cmd/techstack/native_login.go:104-105 | removes only expired rows, at most 100, and all of them if fewer |
| NativeLoginTable.HandoffTable.CountActive | cmd/techstack/native_login.go:121-123 | counts exactly the unexpired rows |
| NativeLoginTable.HandoffTable.Insert | cmd/techstack/native_login.go:146-149 | the new row alone joins the unexpired rows and those of its client for the five minutes after the transaction began, and can be given a ticket in them; every other row counts as before |
| NativeLoginTable.HandoffTable.AttachTicket | cmd/techstack/native_login.go:194-198 | a ticket is attached exactly to an unexpired, unticketed, unconsumed row, and the callback is that row's |
| NativeLoginTable.HandoffTable.Consume | cmd/techstack/native_login.go:231-239 | a transfer comes back exactly when some row is consumed, and it is a redeemable row's |
| NativeLogin.CommitKeepsCaps | cmd/techstack/native_login.go:115-157 | a count made with an old now() still covers every row unexpired at the later clock, so committing keeps both caps |
| NativeLogin.CapsHold | cmd/techstack/native_login.go:104-157 | in every reachable table at most 10000 rows are unexpired and at most 8 unexpired unconsumed rows belong to one client |
| NativeLogin.OneRowPerTicket | cmd/techstack/native_login.go:194-198 | no two rows ever hold the same ticket hash |
| NativeLogin.ConsumesOneRow | cmd/techstack/native_login.go:231-239 | the redeeming UPDATE, which matches by hashes, touches exactly one row |
| NativeLogin.SessionsAreTraced | cmd/techstack/native_login.go:146-254 | every session spends exactly one handoff of exactly one start: verifier hash is that challenge, claims are that handoff's, redeemed before expiry |
| NativeLogin.OneSessionPerStart | cmd/techstack/native_login.go:231-254 | no row yields two sessions |
| NativeLoginExpiry.RedemptionsLandSoon | cmd/techstack/native_login.go:231-239 | in every run whose redeeming statements wait at most d each redemption takes effect at most d after its transaction's time |
| NativeLoginExpiry.LateRunLands | cmd/techstack/native_login.go:231-239 | for every wait d a run redeems one tick before the expiry and takes effect d later |
| NativeLoginExpiry.LandsInTimeExactly | cmd/techstack/native_login.go:231-239 | with waits of at most d, all redemptions of all runs take effect less than g after the expiry exactly when d <= g |
| NativeLoginExpiry.RedeemedAnHourLate | cmd/techstack/native_login.go:231-239 | a concrete run that redeems an hour after the row expired |
| Journal.UnackedPayloadsSurvive | pkg/agent/journal/store.go:888-894 | compaction loses a payload only where its revision was acknowledged |
| Journal.CompactFixesExactly | pkg/agent/journal/store.go:851-898 | a rewrite leaves a list as it is exactly when every entry is unacknowledged and holds no acknowledged payload |
| Journal.CompactIsCompact | pkg/agent/journal/store.go:851-898 | compaction is idempotent |
| Journal.OthersUntouchedExactly | pkg/agent/journal/store.go:782-820 | other tenants' entries come through a handoff untouched exactly when they were compact |
| Journal.HandoffMayDropOthers | pkg/agent/journal/store.go:782-820 | another tenant's acknowledged entry is gone after a handoff |
| Journal.HandedOffHolds | pkg/agent/journal/store.go:782-820 | what is left is, for every other tenant, each unacknowledged entry, stripped, and nothing else |
| Journal.DecommissionedHolds | pkg/agent/journal/store.go:733-753 | a decommission keeps each unacknowledged entry, stripped, and nothing else |
| Journal.DecommissionedComesThrough | pkg/agent/journal/store.go:733-753 | after a decommission a handoff changes no entry of another tenant |
| Journal.UpdateKeepsSame | pkg/agent/journal/store.go:632-653 | recording on a compacted copy and on the original keeps the same evidence |
| Receipts.StoreHandoffReceipt | cmd/techstack/agent_handoff.go:285-304 | the loop computes the stored list, which ends with the new receipt and has at most four |
| Receipts.StandingExactly | cmd/techstack/agent_handoff.go:290-295 | what stands in a history is exactly what no later receipt superseded |
| Receipts.ListIsStandingSuffix | cmd/techstack/agent_handoff.go:285-304 | after any stores the list is a suffix of what stands |
| Receipts.ListIsBounded | cmd/techstack/agent_handoff.go:285-304 | at most four receipts of pairwise different tenants and handoffs, the newest last |
| Receipts.StoreDropsExactly | cmd/techstack/agent_handoff.go:290-299 | a store drops a receipt exactly when it supersedes it or keeps four newer ones |
| Custody.EmptyingKeeps | cmd/techstack/agent_handoff.go:142-160 | removing an archived tenant's entries conserves every admitted entry |
| Custody.WreckKeeps | pkg/agent/journal/store.go:756-773 | an interrupted overwrite of the log destroys only archived or acknowledged entries |
| Custody.HandoffKeepsEvidence | cmd/techstack/agent_handoff.go:139-177 | a handoff conserves all evidence wherever it stops |
| Custody.DecommissionKeepsEvidence | cmd/techstack/agent_decommission.go:45-68 | a decommission conserves all evidence wherever it stops |
| Custody.EvidenceIsConserved | cmd/techstack/agent_handoff.go:103-178 | at every crash point of every run each admitted entry is in the journal, was acknowledged as a whole, or is in a complete archive |
| Custody.VanishedIsArchived | pkg/agent/journal/store.go:782-820 | what leaves the journal for a tenant is exactly what was archived: all its entries, none twice |
| Custody.ReceiptsDescribeRemovals | cmd/techstack/agent_handoff.go:164-177 | in every run each stored receipt has the count and digests of the entries that one handoff removed, and a complete archive holds exactly these |
| Custody.HandoffArchivesWhatItRemoves | cmd/techstack/agent_handoff.go:142-177 | in every run a handoff that removed entries archived exactly the tenant's entries, and none of them is left in the journal |
| Lines.PlainDigestsAgree | pkg/guardbinding/handoff.go:164-170 | between lists of non-empty IDs without a newline equal digests mean the same IDs, in any order |
| Lines.DigestCollides | pkg/guardbinding/handoff.go:164-170 | a newline in an ID, or an empty ID, gives two lists one digest |
| Lines.DigestIdentifiesExactly | pkg/guardbinding/handoff.go:164-170 | among all lists a digest identifies its list exactly when that is one non-empty ID which no newline splits in order |
| CustodyOverlap.OnlyWipeTakesTheKey | cmd/techstack/agent_decommission.go:29-39 | only the wipe of a decommission that saw an empty journal and no receipt takes the key |
| CustodyOverlap.KeyGoesBeforeAReceipt | cmd/techstack/agent_decommission.go:54-67 | a run in which a receipt arrives after the look for receipts and the key goes |
| CustodyOverlap.KeyGoesFromABoundServer | cmd/techstack/agent_decommission.go:54-67 | a run in which a pairing that declared before succeeds between the parts and the key goes |
| CustodyOverlap.KeyGoesLastExactly | cmd/techstack/agent_decommission.go:25-68 | for every set of kinds of steps that may come between the parts of a decommission: the key goes only with no entry kept, no receipt and no binding, in all runs, exactly when neither handoffs nor successes of pairings are in the set |
| CustodyOverlap.KeyGoesWithAllAccounted | cmd/techstack/agent_decommission.go:25-68 | in such runs every admitted entry was acknowledged or is archived when the key goes |
| CustodyOverlap.ReceiptsGoOnlyBy | cmd/techstack/agent_handoff.go:285-304 | in every run a receipt goes only when a finishing handoff supersedes it or keeps four newer ones, or when an accepted pairing clears |
| CustodyOverlap.UndeclaredReceiptIsCleared | cmd/techstack/agent_identity.go:123-146 | a run in which an accepted pairing is about to clear a receipt it did not declare |
| CustodyOverlap.ClearedWereDeclaredExactly | cmd/techstack/agent_identity.go:123-146 | in every run an accepted pairing clears only receipts of its own declaration exactly when no handoff finished since it read them that no other clearing followed |
| CustodyOverlap.ClearedKindsExactly | cmd/techstack/agent_identity.go:123-146 | for every set of kinds of steps that may come while a pairing is open: every cleared receipt was presented, in all runs, exactly when handoffs are not in the set |
| CustodyDeclaration.GuardPriorCustody | cmd/techstack/agent_handoff.go:311-340 | the receipts as read before, with each tenant the journal shows now exactly once, and each held tenant when it is not denied |
| CustodyDeclaration.DeclarationCompleteExactly | cmd/techstack/agent_handoff.go:325-339 | for logs that look alike the declaration covers every held tenant exactly when the log is not denied |
| CustodyDeclaration.HeldTenantIsHidden | cmd/techstack/agent_handoff.go:325-339 | a run after which a pairing goes ahead with a declaration that hides a held tenant |
| CustodyDeclaration.NeitherReadShowsIt | cmd/techstack/agent_handoff.go:318-339 | a run in which a handoff between the two reads leaves a tenant in neither, though it was held at the first and has a receipt at the second |
| CustodyDeclaration.DeclarationAccountsExactly | cmd/techstack/agent_handoff.go:318-339 | in every run a declaration accounts for every tenant held or receipted exactly when either read sees each one hidden by damage and each one whose receipt was stored in between and is there |
| CustodyDeclaration.DeclarationKindsExactly | cmd/techstack/agent_handoff.go:318-339 | for every set of kinds of steps that may come between the reads: declarations from journals not denied account for every tenant, in all runs, exactly when handoffs are not in the set |
| LockFile.QuietRunsAreExclusive | pkg/agent/journal/lock_unix.go:13-31 | in every run that removes the lock file only while nobody has it open at most one process holds the lock |
| LockFile.RemovalIsSafeExactly | cmd/techstack/agent_decommission.go:53-65 | removing the lock file keeps the lock exclusive, whatever openings, lockings and releases follow, exactly when nobody has it open |
| LockFile.DecommissionUnlocksOthers | cmd/techstack/agent_decommission.go:53-65 | a run in which a handoff and a third process hold the lock together after a decommission |
| CustodyServer.Server.WriteArchive | cmd/techstack/agent_handoff.go:150-156 | an existing file is never replaced, and a failed write leaves no complete archive |
| CustodyServer.Server.HandOff | pkg/agent/journal/store.go:782-820 | refuses a blank tenant, destroys a log nothing else needs, compacts another; returns how many of the tenant's entries it removed, and shows nothing after an interrupted overwrite |
| CustodyServer.Server.Transfer | cmd/techstack/agent_handoff.go:142-177 | archive, removal and receipt in this order, each only after the one before; the receipt counts what was removed |
| CustodyServer.Server.RunAgentHandoff | cmd/techstack/agent_handoff.go:103-178 | the whole effect for every place it can stop; success exactly at the end |
| CustodyServer.Server.DecommissionRevokedGuard | cmd/techstack/agent_decommission.go:22-69 | undisturbed, the journal goes first and the key only with no kept entry and no receipt |
| CustodyServer.Server.LoadHandoffReceipts | cmd/techstack/agent_identity.go:116-126 | the first read: refused when bound, otherwise the receipts as they are now |
| CustodyServer.Server.Declare | cmd/techstack/agent_handoff.go:321-340 | the second read: presents the receipts of the first and each tenant held in a readable journal now |
| CustodyServer.Server.ClearHandoffReceipts | cmd/techstack/agent_handoff.go:355-364 | after an accepted pairing no receipt is left, declared or not |
| ProbeIds.WindowIsRecoverable | cmd/techstack/guard_round_trip_probe.go:215-223 | the window can be read back from what follows the last colon of the command ID |
| ProbeIds.CommandIdsMeetExactly | cmd/techstack/guard_round_trip_probe.go:215-223 | two probes share an ID exactly when they are for one Guard identity in one window |
| ProbeIds.CacheHoldsLatestStreak | cmd/techstack/guard_round_trip_probe.go:331-353 | cached IDs belong to the cached window, and an ID is spent exactly when it was marked with no other window since |
| ProbeIds.SentCache.WindowSpent | cmd/techstack/guard_round_trip_probe.go:331-339 | true exactly for a cached ID of the cached window, never for mTLS |
| ProbeIds.SentCache.MarkWindowSpent | cmd/techstack/guard_round_trip_probe.go:341-353 | the ID is spent afterwards; another window's IDs are forgotten |
| ProbeHub.CleanupDropsExactly | pkg/agentcontrol/hub.go:372-388 | in any table an accepted command drops exactly the settled commands of its tenant that are past their retention |
| ProbeHub.OneProbePerId | cmd/techstack/guard_round_trip_probe.go:215-223 | across replicas, restarts and clocks within the bound the hub accepts an ID at most once |
| ProbeHub.OneProbePerGuardAndWindow | cmd/techstack/guard_round_trip_probe.go:273-300 | hence at most one probe per Guard identity and window |
| ProbeHub.SpentMeansHeld | cmd/techstack/guard_round_trip_probe.go:331-339 | a spent window means the hub holds that ID now |
| ProbeHub.OneProbePerIdExactly | cmd/techstack/guard_round_trip_probe.go:210-223 | for all runs at most one acceptance per ID exactly when the drift is within the bound |
| ProbePass.SelectDue | cmd/techstack/guard_round_trip_probe.go:225-252 | picks the first sixteen due and unspent targets when reads succeed, and never a spent one |
| ProbePass.Probe | cmd/techstack/guard_round_trip_probe.go:273-300 | an unspent window is spent afterwards exactly when the probe was answered without an upgrade refusal or already sent |
| ProbePass.PassAdds | cmd/techstack/guard_round_trip_probe.go:225-271 | a pass adds exactly the picks whose probe marked the window, none known before |
| ProbePass.PassCoversExactly | cmd/techstack/guard_round_trip_probe.go:281-300 | a pass leaves all its picks known exactly when every probe marked the window |
| ProbeCoverage.Coverage | cmd/techstack/guard_round_trip_probe.go:225-271 | after k passes whose dispatches are answered or already sent, at least min(n, m + 8k) of the n due Guards of a fleet were probed, m of them known at the start, and min(n, m + 16k) when every probe marks |
| ProbeCoverage.NoneTwice | cmd/techstack/guard_round_trip_probe.go:331-353 | a Guard whose probe marked the window is picked by no later pass of it |
| ProbeCoverage.PinTooOldIsStuck | pkg/jobs/host_maintenance_dispatcher.go:178-186 | with a release pin too old for host commands every pass, whenever it runs and whatever it reads, picks the same first sixteen |
| ProbeCoverage.UpgradeAnswerIsMarkedNext | cmd/techstack/guard_round_trip_probe.go:281-300 | a Guard that answered with the upgrade refusal is picked at most once more, and marked then |
| ProbeCoverage.UpgradeAnswersHalve | cmd/techstack/guard_round_trip_probe.go:281-300 | two passes over any fleet of more than sixteen in which the first sixteen answer so are a run that reached only those |
| ProbeCoverage.SixteenEachExactly | cmd/techstack/guard_round_trip_probe.go:225-300 | min(n, 16k) after every k passes holds for all runs over n Guards exactly when no Guard answers with the upgrade refusal or n <= 16 |
| ProbeDelays.CoverageWithRefusers | cmd/techstack/guard_round_trip_probe.go:225-300 | if only Guards of a given set answer so, and fresh round trips stay fresh, k passes probe at least min(n, 16k - u), u of the set being among the first 16(k - 1) |
| ProbeDelayRuns.DelaysExactly | cmd/techstack/guard_round_trip_probe.go:225-300 | for every such set min(n, 16k) after every k passes holds for all runs exactly when for no k the u > 0 of them among the first 16k leave n > 16(k + 1) - u |
| ProbeSlots.AtMostFourInFlight | cmd/techstack/guard_round_trip_probe.go:253-270 | in every schedule of the loop and its goroutines at most four probes run, none starts twice, and all that the loop came to started once when the wait ends |
| Mirror.KeyTextInjective | cmd/guard-release-tool/r2_mirror.go:158-182 | version, digest and name determine the object key and are determined by it |
| Mirror.ReleaseMirrorFiles | cmd/guard-release-tool/r2_mirror.go:136-183 | a list comes back exactly when every check passes: the artifacts in order, bound to their bytes, the index last |
| Mirror.LegacyBucketIsSound | cmd/guard-release-tool/r2_mirror.go:196-199 | a bucket of earlier uploads without checksums is a sound start |
| Mirror.UploadCompletes | cmd/guard-release-tool/r2_mirror.go:180-182 | an accepted upload keeps every checksummed index complete once the run's earlier files are confirmed |
| Mirror.BucketStaysSound | cmd/guard-release-tool/r2_mirror.go:199-241 | under any overlapping and dying runs every checksum is the digest in its key and every checksummed index names present objects |
| Mirror.ChecksummedBytesNeverChange | cmd/guard-release-tool/r2_mirror.go:199-241 | a checksummed object keeps its bytes forever |
| Mirror.CompletedMakesRerun | cmd/guard-release-tool/r2_mirror.go:70-88 | after a completed run every later run of the directory finds all its files confirmed |
| Mirror.RerunChangesNothing | cmd/guard-release-tool/r2_mirror.go:199-218 | no step of such a rerun changes the bucket, whatever other runs do |
| Mirror.Bucket.Put | cmd/guard-release-tool/r2_mirror.go:199-241 | success confirms the file amid other writers; a confirmed file is reported present and left alone |
| Mirror.Bucket.MirrorRelease | cmd/guard-release-tool/r2_mirror.go:70-88 | success leaves the whole publication confirmed; repeating it writes nothing |
| DeviceMessage.BuildMessage | cmd/techstack/wallet_local_device_reauth.go:42-51 | the builder loop computes the framed message |
| DeviceMessage.DecodeExactly | cmd/techstack/wallet_local_device_reauth.go:42-51 | a decoder inverts the message on all lists of byte strings and accepts nothing else |
| DeviceMessage.TranscriptInjective | cmd/techstack/wallet_local_device_reauth.go:53-57 | transcripts are equal exactly when action, every bound field and every extra agree |
| DeviceMessage.TranscriptKindsDiffer | cmd/techstack/wallet_local_device_reauth.go:144-166 | challenge, reveal and result transcripts never coincide |
| DeviceChallenges.ChallengeTable.Issue | cmd/techstack/wallet_local_device_reauth.go:112-142 | expired challenges go, the cap refuses, otherwise the nonce is pending |
| DeviceChallenges.FirstUseSpends | cmd/techstack/local_device_proof.go:102-113 | in every run, once a given nonce was presented, rightly or wrongly, no later use of it is accepted |
| DeviceChallenges.InvHolds | cmd/techstack/local_device_proof.go:65-75 | in every run the table is within its cap and every pending nonce was given once and not used since |
| DeviceChallenges.TablesAreSmall | cmd/techstack/wallet_local_device_reauth.go:137 | in every run at most 128 wallet challenges and 64 device proofs are pending |
| DeviceChallenges.ChallengesAreSingleUse | cmd/techstack/local_device_proof.go:102-113 | in every run an accepted use spends a live challenge given before, and no nonce is accepted twice |
| DeviceChallenges.AcceptedProofIsThisReveal | cmd/techstack/wallet_local_device_reauth.go:144-166 | a proof is accepted only if it was made for the reveal transcript of this very challenge |
| Damper.SessionDamper.Fail | cmd/techstack/routes_wiring.go:1462-1470 | the fifth failure blocks for a minute and restarts the count |
| Damper.CountsByFive | cmd/techstack/routes_wiring.go:1462-1477 | from a reset on the count is the number of failures modulo five and the cooldown that of the latest fifth |
| Damper.SessionDamper.HandleWrong | cmd/techstack/local_device_proof.go:89-114 | a wrong attempt is evaluated exactly when admitted, on either route |
| Damper.WrongAttemptsAreBounded | cmd/techstack/routes_wiring.go:1443-1477 | without a success at most 5 * (T / 60 s + 1) wrong attempts are evaluated in any window of length T |
| Damper.BoundIsTight | cmd/techstack/routes_wiring.go:1443-1477 | for every T some attempts reach that bound |
| DamperOverlap.OverlappingAttemptsAreBounded | cmd/techstack/routes_wiring.go:1443-1477 | with at most c requests in flight at most 5 * ((c - 1) / 5 + 1) * (T / 60 s + 1) + (c - 1) % 5 wrong attempts are evaluated in any window of length T, and none for c = 0 |
| DamperOverlap.OverlapBoundIsAttained | cmd/techstack/routes_wiring.go:1443-1477 | for every c and every T some run from a fresh damper evaluates exactly that many |
| Lines.RolesDiffer | cmd/techstack/local_device_proof.go:79-107 | server, client and response proofs never share a message |
| Lines.ServerMessagesMeetExactly | cmd/techstack/local_device_proof.go:79 | with valid nonces the message determines origin and both nonces, whatever the origin holds |
| Lines.ClientMessagesMeetExactly | cmd/techstack/local_device_proof.go:106-107 | the same for the client's message with its method and path |
| Lines.ResponseMessagesMeetExactly | cmd/techstack/routes_wiring.go:1393-1401 | with an origin and two cookies on one line each the response determines origin, nonces and cookies as a multiset |
| LanBridge.StepKeepsAgreement | cmd/techstack/local_lan_bridge.go:58-173 | every operation and failure keeps status, recorded server, advertised origin and state file in agreement |
| LanBridge.AgreementHolds | cmd/techstack/local_lan_bridge.go:58-173 | in every reachable state they agree, and no server but the recorded one serves |
| LanBridge.EnabledMeansLiveExactly | cmd/techstack/local_lan_bridge.go:158-173 | enabled means live exactly when the recorded server's failure handler is not waiting |
| LanBridge.EnabledMayBeDead | cmd/techstack/local_lan_bridge.go:158-173 | a run in which an enabled, advertised bridge has no live server |
| LanBridge.OlderFailuresChangeNothing | cmd/techstack/local_lan_bridge.go:163-167 | any failures of other servers leave the recorded one and all it published alone |
| LanBridge.HandledFailureTurnsOff | cmd/techstack/local_lan_bridge.go:168-172 | once its failure is handled the bridge is off, unadvertised and not serving, with its state file kept |
| LanBridge.RestoreBringsBack | cmd/techstack/local_lan_bridge.go:122-131 | a bridge enabled at shutdown is enabled again by a successful Restore |
| LanBridge.Bridge.Enable | cmd/techstack/local_lan_bridge.go:58-108 | success means enabled with a state file; an error leaves nothing advertised and nothing new serving |
| LanBridge.Bridge.StopLocked | cmd/techstack/local_lan_bridge.go:139-156 | nothing serves and nothing is advertised afterwards, also when the shutdown reports an error |
| LanBridge.Bridge.Disable | cmd/techstack/local_lan_bridge.go:110-120 | success removes the state file; a failed stop keeps it |
| LanBridge.Bridge.Restore | cmd/techstack/local_lan_bridge.go:122-131 | enables exactly when the state file was seen; a missing file is no error |
| LanBridge.Bridge.ServeEnds | cmd/techstack/local_lan_bridge.go:158-173 | a closed server changes nothing; a failed one turns off only its own bridge |
| EnrollmentTimeout.TurnSettles | cmd/techstack/guard_heartbeat_timeout_projection.go:62-90 | one turn commits over a record that was enrolling and waiting at that revision, ends on one that no longer waits, or comes back with a newer waiting one |
| EnrollmentTimeout.NilMeansSettled | cmd/techstack/guard_heartbeat_timeout_projection.go:62-90 | a nil return means a timeout replaced a waiting record, the record is gone or no longer waits, or other writers moved it at least once per truthful attempt |
| EnrollmentTimeout.ThreeConflictsMeanThreeWrites | cmd/techstack/guard_heartbeat_timeout_projection.go:62-90 | with a truthful store giving up means the record still waits at least three revisions past the listed one |
| EnrollmentTimeout.UndisturbedCommits | cmd/techstack/guard_heartbeat_timeout_projection.go:62-90 | without other writers the first apply commits |
| EnrollmentTimeout.ServerRecord.Apply | pkg/controlplane/server_events.go:202-229 | commits exactly at the expected revision and generation, moving the record one revision on |
| EnrollmentTimeout.ServerRecord.TryOnce | cmd/techstack/guard_heartbeat_timeout_projection.go:63-88 | one turn of the loop with arbitrary writers between its calls, and what it replaced |
| EnrollmentTimeout.ServerRecord.FailEnrollment | cmd/techstack/guard_heartbeat_timeout_projection.go:62-90 | the retry loop with arbitrary writers between its calls; whatever it replaced was waiting |
| EnrollmentTimeout.ObserveTerminalJob | cmd/techstack/guard_heartbeat_timeout_projection.go:31-55 | only waiting servers of a timed-out provisioning job are touched, in order, up to the first error |
| Household.ParseHouseholdList | cmd/techstack/guard_durable.go:159-177 | unreadable exactly when a name is blank or repeated; otherwise each member under its own name and nobody else |
| Household.AppsMatchIsSameGrant | cmd/techstack/guard_durable.go:179-198 | sorted equality of app lists is equality of grants as multisets |
| Household.ConvergedMeansNoChangeExactly | cmd/techstack/guard_durable.go:126-148 | on every readable list "converged exactly when running the command changes nothing" holds exactly for a named member's removal or app update, the latter only of a member who is there |
| Household.ReissueConvergesExactly | cmd/techstack/guard_durable.go:126-148 | a not-applied command converges after one re-issue exactly for removals and present members |
| Household.ReadableListDecides | cmd/techstack/guard_durable.go:114-148 | a readable list of the command's workspace decides; a projection is never claimed converged |
| Sorting.SortedCopiesAgree | cmd/techstack/guard_durable.go:191-198 | sorted copies are equal exactly when the lists have the same multiset |
| Sorting.SortCopy | cmd/techstack/guard_durable.go:191-198 | the copy is sorted and a permutation |
| HardwareCache.LocalHardware.Current | cmd/techstack/agent_http_mode.go:950-969 | starts a probe when none runs and half an hour passed; returns what the cache keeps |
| HardwareCache.LocalHardware.Complete | cmd/techstack/agent_http_mode.go:950-969 | a finished probe frees the slot and replaces the observation only if it has one |
| HardwareCache.ReturnsExpected | cmd/techstack/agent_http_mode.go:936-969 | every returned value is the latest good observation if at most a day old, else none |
| HardwareCache.OneProbeRuns | cmd/techstack/agent_http_mode.go:936-969 | starts and completions differ by the one running probe |
| HardwareCache.ProbesAreSpaced | cmd/techstack/agent_http_mode.go:936-969 | probes start at least half an hour apart |
| Convergence.RetryDelay | cmd/techstack/agent_http_mode.go:52-58 | the doubling loop computes min(15 s * 2^(n-1), 15 min) |
| Convergence.EarliestClosed | cmd/techstack/agent_http_mode.go:580-617 | failing passes start no earlier than 0, 15, 45, 105, 225, 465, 945 s and then every 15 min |
| Convergence.PassesAreBounded | cmd/techstack/agent_http_mode.go:580-617 | before the first convergence at most 7 + T / 900 s passes start in the first T |
| Convergence.ReadyOnce | cmd/techstack/agent_http_mode.go:580-617 | readiness is set at most once, by the first pass in which both components are ready |
| Convergence.CommandsWaitForReadiness | cmd/techstack/agent_http_mode.go:84-98 | no command executes before such a pass |
| Convergence.Converge | cmd/techstack/agent_http_mode.go:568-618 | the loop computes the run of its passes |
| TenantChoice.BeforeTransitive | cmd/techstack/tenant_resolver.go:180-192 | the comparator is transitive |
| TenantChoice.NotBeforeTransitive | cmd/techstack/tenant_resolver.go:180-192 | not preceding is transitive too, so the comparator is a strict weak order |
| TenantChoice.TiesNameOneTenant | cmd/techstack/tenant_resolver.go:180-192 | neither of two rows precedes the other exactly when tenant and update time agree |
| TenantChoice.StableSortOrders | cmd/techstack/tenant_resolver.go:180-192 | the sorted copy has no row before one that precedes it |
| TenantChoice.PreferredIsMinimum | cmd/techstack/tenant_resolver.go:146-198 | the pick is a kept row that no kept row precedes |
| TenantChoice.OrganizationWins | cmd/techstack/tenant_resolver.go:180-198 | an organization tenant wins whenever one is kept |
| TenantChoice.StaleOrganizationNeverPicked | cmd/techstack/tenant_resolver.go:74-103 | after a successful lookup a cloud organization that is no longer listed is never picked |
| TenantChoice.ResolutionIgnoresOrder | cmd/techstack/tenant_resolver.go:42-116 | the resolved tenant is the same for every permutation of memberships and organizations |
| TenantChoice.FailsOnBlankSubjectExactly | cmd/techstack/tenant_resolver.go:42-116 | resolution fails exactly on a blank subject |
| TenantChoice.BlankTenantExactly | cmd/techstack/tenant_resolver.go:42-116 | the answer is blank exactly when the subject is not, no non-empty demo tenant applies, and the test tenant is blank or, without one, no claim, no membership and a blank organization are there |
| TenantChoice.PickedExactly | cmd/techstack/tenant_resolver.go:146-198 | a membership is picked exactly when a kept row that none precedes names a tenant |
| TenantChoice.BlankRowHides | cmd/techstack/tenant_resolver.go:194-197 | a newer row with a blank tenant hides a membership that would be picked alone |
| TenantChoice.PickMembership | cmd/techstack/tenant_resolver.go:146-198 | the filter loop, the stable sort of the copy and the pick compute the preferred row |
| Numerals.FormatInverts | cmd/techstack/guard_round_trip_probe.go:217-222 | number text reads back to its integer and holds no colon and no NUL |

## Left out

- HTTP handling, cookies, TLS, request signing, file permissions and the privilege-split child process: calls that
  succeed or fail as a step says.
- The route filter and the private-address check of the LAN bridge, and its listener apart from the server using it.
- JSON decoding: models start from decoded values. The mirror takes the index decoder as a parameter.
- Content types and the separate installer upload of the mirror, which is one more `put`.
- Listing of probe candidates, mTLS probes beyond their missing durable ID, withdrawal of queued commands, and the
  log line for answered probes without evidence.
- Deduplication tombstones and generation records of the journal, torn-tail repair, and the order in which entries
  are listed.
- The Windows form of the journal lock.
- Journal growth limits, result validation and the states between intent and result.
- The session issued after a local device proof.
- CustodyServer.Server.RunAgentHandoff: the archive's location, disposition and confirmation expiry are not modelled,
  because they are checked before anything is touched and decide no effect on the journal.
- CustodyOverlap.ReceiptsGoOnlyBy: a receipts file that cannot be decoded is not modelled; the code then changes
  nothing.
- Mirror.RerunChangesNothing: a rerun is of the same directory contents; another build of the same version has other
  digests and so other keys.
- Damper.WrongAttemptsAreBounded: attempts are handled one after another; DamperOverlap has the bound for requests
  that overlap.
- Convergence.PassesAreBounded: the substrate variant of the loop is not modelled; it has no readiness gate.
- The tenant list rungs for demo and test tenants are given values.
