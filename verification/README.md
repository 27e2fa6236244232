# candy-runtime: a verified model of the crash-tolerant control plane

This project models the parts of `candy-runtime` that keep state across power failures, lost replies
and retries, and proves what they promise. Everything is checked by Dafny 4.11; nothing here executes
the original programs.

`dafny verify dfyconfig.toml` checks the whole project.

## What is modelled

* **The netd transaction journal** (`journal_format`, `journal`, `journal_proofs`, `journal_layout`, `journal_netd`,
  `netd`, `netd_proto`, `netd_samples`, `declaration_check`, `declaration_outcomes`): the four file versions, the encoder's loops,
  the offset-driven decoder, the request frames inside and how a declaration is checked.
* **Live sessions of netd** (`network_transaction`, `policy_updates`, `recovery_outcomes`): failed prefixes, policy updates and
  recovery over that journal and a kernel.
* **Grant renewal** (`grant`, `grant_runs`, `grant_outcomes`), **the transport-identity outbox** (`transport_identity`,
  `transport_outcomes`, `registration`), **synchronisation** (`sync`, `sync_runs`, `sync_outcomes`), **activation** (`activation`,
  `activation_runs`, `activation_outcomes`), **certificate renewal and the identity bundle** (`renewal`, `renewal_outcomes`,
  `identity_bundle`) and
  **enrollment** (`enrollment`, `enrollment_runs`, `enrollment_identity`,
  `enrollment_mixed`, `enrollment_outcomes`): protocols over the machine of `host`.
* **Delivered configurations** (`delivery`, `catalogs`, `catalog_outcomes`, `delivery_proofs`, `compatibility_files`) and the
  **network declaration** made from them (`netd_declaration`, `cidr_text`).
* **The vendored package** (`package_digest`, `package`, `package_proofs`, `package_outcomes`, `sorting`), **the bounded
  probe** (`command_probe`, `probe_outcomes`) and **the UDP pacer and accounting** (`pacer`, `udp_rate`).

### How a protocol is written down

`Host.Machine` is a disk of named files that are replaced or removed in one atomic step, and a trace of
every effect since boot, messages included. Each protocol has an imperative method that performs its
effects one by one, and a pure plan; the method's contract says that it appends exactly the plan's
effects. A crash keeps a prefix of a plan (`UpTo`), a run is any sequence of calls cut short anywhere, and
the safety theorems are about all runs. The `_outcomes` modules say how a call that is not cut short ends:
what it said, what it left and what it answered, for every state it finds. The Cloud, Core, clocks, random values and file faults are
parameters of each call. Hashes are parameters too. The framing theorems are about the preimages; where a
theorem needs a hash to tell values apart, it names the preimages on which the hash must not collide.

## What the proofs show about the code

* A journal record with both failed prefixes and a recovery candidate is written with a deadline that a
  version 4 reader does not expect, so it is never read back (`JournalProofs.RoundTrip` gives the exact
  set of records that survive). Every policy update of a session with failed prefixes writes one first;
  killed then, netd refuses its journal (`PolicyUpdates.UpdateSurvivesExactly`, `DegradedUpdateIsLost`).
* Recovery of an interrupted policy update is meant to leave the tunnel alone, and compares the candidate's
  owner with the session's. Reading the journal gives a candidate of the session's own owner no owner at
  all, so after a restart recovery always tears the tunnel down (`PolicyUpdates.ReloadedIsNeverInPlace`,
  `RestartTearsDown`); without a restart it needs the very lease deadline (`InPlaceExactly`). The repository's
  test of this recovery uses a journal in memory, which keeps the owner.
* A receipt is read twice before a promotion. If it stops counting in between, the delivery is reported
  active although nothing was promoted (`ActivationRuns.ReportedWithoutPromotion`).
* A state file from before phases that still waits for an activation is believed
  (`SyncRuns.InheritedIsBelieved`).
* `NetdRequest::encode` accepts prefixes with host bits; `decode` refuses them
  (`NetdSamples.HostBitsPassTheEncoder`).
* The identity rollback starts below the failing index. A write that fails after its rename stays in
  place, and when that is the identity document itself, the commit marker stands beside older files
  (`IdentityBundle.MarkerVouchesExactly`, and `RenewalCanOrphanTheMarker` for an input).
* A renewed certificate that cannot be installed is not counted as a failure, so no pause follows.
* The bare phase string is safe in the delivery digest only because two phases exist.
* Enrollment keeps an installation whole across a retry exactly when the Cloud's second answer changes at
  most one of the five files; otherwise some crash point mixes two answers
  (`EnrollmentIdentity.RetryIsAtomicExactly`). A new certificate changes two files at least
  (`EnrollmentMixed.NewCertificateChangesTwo`), and `MachineIsMixed` is such a machine.
* Package verification ignores every file called `provenance.json`, whereas a refresh spares only the one
  at the top, so a nested one goes unnoticed.
* Prefix texts with a plus sign in an octet are read by the agent but not by the sort key, which puts them
  last. `NetdDeclaration.SortedMeetsOrderExactly` says which requests meet the agent's order all the same,
  and `BuiltButRefused` gives inputs that do not.
* In the pacer a rebase always implies late sends; late sends do not imply a rebase.

## Model

| member | source | states |
|---|---|---|
| `JournalProofs.RoundTrip` | linux/common/apps/candy-netd/src/journal.rs:100-445 | decoding what the encoder produced gives the record back (a candidate owner equal to the active one read as none) if and only if the record is representable: canonical prefixes, completed steps below 64, no deadline without a candidate, not failed prefixes and a candidate together |
| `JournalProofs.StoredButNotLoadable` | linux/common/apps/candy-netd/src/journal.rs:172-301 | a record with failed prefixes and a candidate is accepted by the encoder, yet its file is refused for every deadline whose high half is zero, exceeds a frame, or is a length no preparation has |
| `JournalProofs.ReencodedFileAgrees` | linux/common/apps/candy-netd/src/journal.rs:100-445 | a file accepted in any of the four versions can be encoded again, and that file decodes to the same record unless it was a version 4 file with a candidate |
| `JournalProofs.AcceptedIsEncodable` | linux/common/apps/candy-netd/src/journal.rs:223-445 | every decoded record satisfies everything the encoder demands |
| `JournalProofs.StoredFileFits` | linux/common/apps/candy-netd/src/journal.rs:18-27 | no encoded record is refused by the size check of load; one byte of the bound is never used |
| `JournalLayout.EncodesExactly` | linux/common/apps/candy-netd/src/journal.rs:100-171 | which records have a file, with every bound, order and phase written out: a candidate goes with the phases preparing, prepared, draining and rolling back, and with no other |
| `JournalLayout.EncodedIsLaid` | linux/common/apps/candy-netd/src/journal.rs:172-221 | the file of a record byte by byte, and which of the versions 1, 3 and 4 it is written in |
| `JournalLayout.Numbers` | linux/common/apps/candy-netd/src/journal.rs:179-197 | the numbers that stand for phases and sysctls, and the order of bytes in a number |
| `JournalLayout.SysctlsAt` | linux/common/apps/candy-netd/src/journal.rs:187-191 | where each sysctl change is in the file, and what its three bytes are |
| `JournalLayout.PrefixesAt` | linux/common/apps/candy-netd/src/journal.rs:210-216 | where each failed prefix is, and what its five bytes are |
| `JournalLayout.DecodesExactly` | linux/common/apps/candy-netd/src/journal.rs:223-445 | the decoder answers a record for a byte string if and only if the string is laid out as a file of that record in one of the four versions |
| `JournalLayout.LoadsExactly` | linux/common/apps/candy-netd/src/journal.rs:43-57 | the same of loading, its size check included |
| `JournalLayout.ReplacementIsKept` | linux/common/apps/candy-netd/src/journal.rs:123-134 | a record with a candidate in any of those phases, a draining one with its deadline among them, is stored and loaded back |
| `JournalLayout.SecondVersionIsRead` | linux/common/apps/candy-netd/src/journal.rs:223-300 | its file in version 2, which nothing writes any more, is read as the same record without a deadline |
| `Journal.EncodeRecord` | linux/common/apps/candy-netd/src/journal.rs:100-221 | the loops append exactly the bytes of the format: version, header, sysctls, deadline, length-prefixed requests, failed prefixes, checksum |
| `Journal.DecodeRecord` | linux/common/apps/candy-netd/src/journal.rs:223-445 | for every byte string and every word size of at least 32 bits the offset-driven decoder stays in bounds, overflows no sum and answers what reading the file front to back answers |
| `Journal.FileNetworkJournal.Load` | linux/common/apps/candy-netd/src/journal.rs:43-57 | answers none, the decoded record or a journal error from the file, its privacy and its size |
| `Journal.FileNetworkJournal.Store` | linux/common/apps/candy-netd/src/journal.rs:59-88 | succeeds exactly when the directory is private, the record encodes and the write completes; states the file for a write that fails before and after its rename |
| `Journal.FileNetworkJournal.Clear` | linux/common/apps/candy-netd/src/journal.rs:90-98 | removes the file once and succeeds on an absent one |
| `Journal.LoadAfterStore` | linux/common/apps/candy-netd/src/journal.rs:43-88 | a load after a completed store gives the stored record back exactly for the representable records |
| `JournalNetd.StoreLoadStore` | linux/common/apps/candy-netd/src/journal.rs:43-445 | the two round trips above hold of the request frames the program uses |
| `JournalNetd.LostBelowTheSmallestFrame` | linux/common/apps/candy-netd/src/journal.rs:172-301 | with the program's frames such a file is refused for every deadline below 49 times 2^32 milliseconds, more than six years after the clock's start |
| `NetdSamples.NoSmallerPreparation` | linux/common/crates/candy-netd-proto/src/lib.rs:330-419 | every frame that decodes to a preparation is at least 49 bytes long |
| `NetdSamples.HostBitsPassTheEncoder` | linux/common/crates/candy-netd-proto/src/lib.rs:330-419 | a request with one route to 10.0.0.1/24 is encoded, and the decoder refuses its frame |
| `NetdSamples.PreparationFits` | linux/common/crates/candy-netd-proto/src/lib.rs:330-419 | every valid preparation fits a frame, so the journal never refuses one for its size |
| `NetdProto.EncodedFrameDecodes` | linux/common/crates/candy-netd-proto/src/lib.rs:330-419 | a request's frame decodes to the request, except that host bits in a prefix pass the encoder and not the decoder |
| `NetdProto.DecodedFrameIsTheEncoding` | linux/common/crates/candy-netd-proto/src/lib.rs:365-419 | only the canonical frame of a request is accepted |
| `NetdProto.ProtoCodecIsFaithful` | linux/common/crates/candy-netd-proto/src/lib.rs:303-419 | the frames are bounded and satisfy everything the journal relies on |
| `DeclarationCheck.HasPrefixOverlap` | linux/common/crates/candy-netd-proto/src/lib.rs:212-230 | sorting the ranges and comparing neighbours finds an overlap if and only if some two prefixes share an address |
| `DeclarationCheck.ValidateDeclaration` | linux/common/crates/candy-netd-proto/src/lib.rs:160-230 | the whole check, sweep included, accepts exactly the valid declarations |
| `DeclarationOutcomes.ValidExactly` | linux/common/crates/candy-netd-proto/src/lib.rs:160-210 | a declaration without host bits is valid if and only if its numbers are in range, its lists are strictly ordered, only an egress route is the default route, no address lies in two routes, in two exclusions or in a route and an exclusion, egress routes aside, and the router's address lies in none |
| `DeclarationOutcomes.RequestExactly` | linux/common/crates/candy-netd-proto/src/lib.rs:304-360 | a request is valid if and only if it is numbered, its owner is a complete one, and its declaration, MTU or strictly ordered list of prefixes is valid |
| `NetworkTransactions.NetworkTransaction.SetFailedPrefixes` | linux/common/apps/candy-netd/src/network.rs:535-587 | the backend calls, the journal write, the record and the answer are those of the plan, for every fault |
| `NetworkTransactions.NetworkTransaction.UpdatePolicy` | linux/common/apps/candy-netd/src/network.rs:860-992 | the same of a policy update: intent written, changes in order, new record written, or the way back |
| `NetworkTransactions.NetworkTransaction.RecoverOrphan` | linux/common/apps/candy-netd/src/network.rs:592-703 | the same of recovery: in place, candidate discarded, old session drained, nothing, or everything removed |
| `NetworkTransactions.NetworkTransaction.CleanupRecord` | linux/common/apps/candy-netd/src/network.rs:1116-1239 | the same of removing a session: its candidate, then its steps, last one first, each struck from the journal, and the journal itself once nothing is left |
| `NetworkTransactions.FirewallPolicyChanged` | linux/common/apps/candy-netd/src/network.rs:1363-1391 | two declarations need different firewalls exactly when flags, sorted local prefixes or the presence of egress differ |
| `PolicyUpdates.FailedIsLive` | linux/common/apps/candy-netd/src/network.rs:535-587 | recorded failed prefixes are exactly those named, each once, and memory, journal and kernel agree on them |
| `PolicyUpdates.UpdatedIsLive` | linux/common/apps/candy-netd/src/network.rs:930-950 | a completed update leaves a live session that the journal can hold |
| `PolicyUpdates.UpdateIsAllOrNothing` | linux/common/apps/candy-netd/src/network.rs:860-992 | whatever fails, an update that ends has made all its changes, or left memory, journal and kernel as they were, or stays open with nothing else touched, if and only if the session's policy rule is recorded exactly while it is active |
| `PolicyUpdates.InPlaceExactly` | linux/common/apps/candy-netd/src/network.rs:600-613 | an open update is undone in place if and only if it was asked for under the lease the session already had and link, routes and firewall were installed |
| `PolicyUpdates.RecoveredInPlace` | linux/common/apps/candy-netd/src/network.rs:667-703 | then recovery without a restart brings memory, journal and kernel back without touching the tunnel, or fails and stays open |
| `PolicyUpdates.UpdateSurvivesExactly` | linux/common/apps/candy-netd/src/network.rs:860-992 | killed at any point of an update, netd can load its journal again if and only if the session had no failed prefixes; it then finds the old session, the new one or the intent |
| `PolicyUpdates.ReloadedIsNeverInPlace` | linux/common/apps/candy-netd/src/network.rs:600-613 | no record loaded from a journal file is ever recovered in place |
| `PolicyUpdates.RestartTearsDown` | linux/common/apps/candy-netd/src/network.rs:600-665 | a netd killed during an update and started again removes the tunnel and forgets the session, even if nothing fails |
| `PolicyUpdates.DegradedUpdateIsLost` | linux/common/apps/candy-netd/src/network.rs:860-917 | a committed session whose remote network failed, killed right after the first write of an update that only switches MSS clamping off: the journal is refused from then on |
| `PolicyUpdates.ReplayRepairs` | linux/common/apps/candy-netd/src/network.rs:883-891 | asked for the declaration it has, an active session gets its policy rule again and a suspended one nothing; the record and the journal do not change |
| `PolicyUpdates.UpdateRefused` | linux/common/apps/candy-netd/src/network.rs:860-882 | what is refused before anything happens, and with which error first: an invalid declaration, another owner, a session that is not live or has a candidate, another tunnel |
| `PolicyUpdates.UnwrittenIntent` | linux/common/apps/candy-netd/src/network.rs:906-917 | an update whose intent cannot be written touches nothing, and stays open in memory |
| `PolicyUpdates.FirewallExactly` | linux/common/apps/candy-netd/src/network.rs:1363-1391 | what the firewall policy of a declaration consists of: its flags, the prefixes of its local routes, and whether any route leaves by egress |
| `PolicyUpdates.RetainedExactly` | linux/common/apps/candy-netd/src/network.rs:894-908 | of the failed prefixes exactly those are kept that the new declaration still routes to another site |
| `RecoveryOutcomes.LeaseDecides` | linux/common/apps/candy-netd/src/network.rs:592-665 | a session that nobody is changing is left alone, without any effect, if and only if its owner lives and its lease has time left |
| `RecoveryOutcomes.OrphanIsRemoved` | linux/common/apps/candy-netd/src/network.rs:592-665 | otherwise, with nothing failing, rule, link, sysctls, firewall, routes and the link itself are removed in this order, and record and journal are gone |
| `RecoveryOutcomes.SessionIsRemoved` | linux/common/apps/candy-netd/src/network.rs:1116-1239 | the calls that remove any session, whatever steps it had reached: its candidate first, then exactly the steps recorded, last one first |
| `RecoveryOutcomes.RollbackDecides` | linux/common/apps/candy-netd/src/network.rs:600-665 | an interrupted session is recovered at once: without touching the tunnel if the change was made under its own lease, kept the tunnel, and link, routes and firewall were installed, and otherwise by removing it |
| `RecoveryOutcomes.DrainedByItsOwner` | linux/common/apps/candy-netd/src/network.rs:641-650 | a draining session whose replacement belongs to another process is refused when its time has come, without any effect |
| `RecoveryOutcomes.ReplacementIsDropped` | linux/common/apps/candy-netd/src/network.rs:614-640 | a replacement that never became active is dropped under the same lease rule: the backend is asked about the candidate alone, and the old session stays, active |
| `RecoveryOutcomes.DrainingIsCompleted` | linux/common/apps/candy-netd/src/network.rs:641-650 | a draining session waits for its deadline, and without one for its owner's end; then the old declaration is removed and the candidate and its owner take its place |
| `RecoveryOutcomes.CleanupKeepsTheRest` | linux/common/apps/candy-netd/src/network.rs:1116-1239 | whatever fails during removal, exactly the steps that could not be undone stay recorded, the answer is an error, and the journal goes only when no step is left |
| `RecoveryOutcomes.CandidateStays` | linux/common/apps/candy-netd/src/network.rs:1116-1170 | a candidate whose removal fails stays recorded, with an error, and the journal stays |
| `Grant.RefreshWithClock` | linux/common/apps/candy-cloud-sync/src/grant.rs:519-650 | the steps of a call, in order, are those of its plan for every outcome of the Cloud, Core and the clock, and so is its answer |
| `Grant.FetchGrant` | linux/common/apps/candy-cloud-sync/src/grant.rs:560-650 | the fetching half of a call follows the same plan |
| `GrantRuns.NeverRejected` | linux/common/apps/candy-cloud-sync/src/grant.rs:289-327 | from any readable state no state the call builds is refused by the check inside the store |
| `GrantRuns.ReturnedGrantIsUsable` | linux/common/apps/candy-cloud-sync/src/grant.rs:175-246 | a current or retained grant is usable at the start of the call, a refreshed one at the clock read after verification |
| `GrantRuns.FetchesCountCompletions` | linux/common/apps/candy-cloud-sync/src/grant.rs:548-625 | over every run with crashes the sequence of a fetch is one more than the renewals completed before it, and the request id is that renewal's |
| `GrantRuns.SameRequestUntilCompleted` | linux/common/apps/candy-cloud-sync/src/grant.rs:519-650 | two fetches are the same request if and only if no renewal was completed between them |
| `GrantRuns.OnlyDenialRemoves` | linux/common/apps/candy-cloud-sync/src/grant.rs:560-650 | a call that is not denied, cut short anywhere, leaves the stored grant or replaces it by that of the next renewal |
| `GrantRuns.RevocationIsFinal` | linux/common/apps/candy-cloud-sync/src/grant.rs:534-548 | after a revocation no run fetches for that authorization again and every call for it fails |
| `GrantRuns.RequestIdInjective` | linux/common/apps/candy-cloud-sync/src/grant.rs:68-96 | a request id names one renewal of one authorization |
| `GrantRuns.StatePathInjective` | linux/common/apps/candy-cloud-sync/src/grant.rs:63-67 | different authorizations are kept in different files |
| `GrantOutcomes.RefusesExactly` | linux/common/apps/candy-cloud-sync/src/grant.rs:519-534 | an incomplete authorization is refused first, then a state file that is not a consistent one of it, with every condition written out, and nothing happens |
| `GrantOutcomes.QuietCall` | linux/common/apps/candy-cloud-sync/src/grant.rs:534-548 | without a renewal to ask for nothing happens: revoked, current until the refresh time, or out of sequences |
| `GrantOutcomes.UnansweredCall` | linux/common/apps/candy-cloud-sync/src/grant.rs:615-632 | a transient failure or a stale policy leaves the grant and the pending transaction; the grant is handed out again after the former only, while it lasts |
| `GrantOutcomes.DenialRevokes` | linux/common/apps/candy-cloud-sync/src/grant.rs:633-650 | a denied call leaves no grant, nothing pending and the time of the revocation |
| `GrantOutcomes.DenialIsFinal` | linux/common/apps/candy-cloud-sync/src/grant.rs:534-650 | after a denied call, whatever calls follow, nothing is fetched for the authorization and every call for it fails |
| `GrantOutcomes.IssuedCall` | linux/common/apps/candy-cloud-sync/src/grant.rs:562-607 | a response completes the renewal if and only if Core vouches for it and authorization, response, report and clock fit; then the new grant is stored under the next sequence and handed out, otherwise the old one stays |
| `GrantOutcomes.IssuedMessages` | linux/common/apps/candy-cloud-sync/src/grant.rs:562-585 | the envelope of a response is staged for Core once, and only if it decodes |
| `GrantOutcomes.StagingEnds` | linux/common/apps/candy-cloud-sync/src/grant.rs:566-585 | the staged envelope is gone once it was cleaned up, and otherwise still there |
| `TransportIdentity.Reconcile` | linux/common/apps/candy-cloud-sync/src/transport_identity.rs:180-229 | the persisted, sent and persisted-again steps and the answer are those of the plan, for every state file, identity, wish and reply |
| `TransportIdentity.UnchangedMeansPublished` | linux/common/apps/candy-cloud-sync/src/transport_identity.rs:180-229 | after any run with lost replies, crashes, changed wishes and changed identities, Unchanged means that the last put that can have taken effect for this identity is the desired registration and was confirmed |
| `TransportIdentity.PutIsDesiredAndDurable` | linux/common/apps/candy-cloud-sync/src/transport_identity.rs:200-222 | a put carries exactly the registration asked for and was durable as pending under this identity before it left, so a retry repeats it |
| `TransportIdentity.AppliedThenUnchanged` | linux/common/apps/candy-cloud-sync/src/transport_identity.rs:180-229 | an acknowledged call settles: the same wish sends nothing the next time |
| `TransportOutcomes.RefusesExactly` | linux/common/apps/candy-cloud-sync/src/transport_identity.rs:254-317 | which requests, identities and state files are refused, in this order, before anything is written or sent |
| `TransportOutcomes.CallEnds` | linux/common/apps/candy-cloud-sync/src/transport_identity.rs:180-229 | a settled wish costs nothing; any other is sent once; acknowledged, it is all the file knows, and otherwise it stays pending and the call fails |
| `TransportOutcomes.RetryRepeats` | linux/common/apps/candy-cloud-sync/src/transport_identity.rs:200-222 | after a call without an acknowledgement the same wish sends the same registration again |
| `TransportIdentity.DigestInjective` | linux/common/apps/candy-cloud-sync/src/transport_identity.rs:319-329 | equal registration digests come from equal registrations, unless the libraries cannot tell the two apart |
| `Registration.BuildRegistration` | linux/common/apps/candy-cloud-sync/src/transport_identity.rs:126-178 | succeeds exactly when the ports are unambiguous and the endpoints are few, distinct, concrete and listened on, and then lists them in text order with the identity of their port |
| `Registration.OrderDoesNotMatter` | linux/common/apps/candy-cloud-sync/src/transport_identity.rs:126-178 | the registration does not depend on the order of listeners or public endpoints |
| `Registration.EveryEndpointOnce` | linux/common/apps/candy-cloud-sync/src/transport_identity.rs:150-178 | each endpoint appears once, in order, with what Core reports for its port |
| `Registration.BuiltIsValid` | linux/common/apps/candy-cloud-sync/src/transport_identity.rs:126-178 | what is built from a valid report passes the outbox's own request check |
| `Sync.SyncPass` | linux/common/apps/candy-cloud-sync/src/lib.rs:2066-2597 | one pass performs the effects of its plan in order: settle, one conditional request, and the handling of 204, 304, 200 or anything else |
| `Sync.SyncOnceWithRetry` | linux/common/apps/candy-cloud-sync/src/lib.rs:2066-2597 | a synchronisation is a pass and at most one more |
| `SyncRuns.StoredEtagBelongs` | linux/common/apps/candy-cloud-sync/src/lib.rs:2066-2597 | over every run from no state file or from one without a phase, a stored ETag belongs to a delivery that was verified and published here, whose publication id, content hash and phase are the stored ones, or it is still the old file's and has no phase; every message sent was justified by what came before |
| `SyncRuns.ActiveOnlyAfterCommitPhase` | linux/common/apps/candy-cloud-sync/src/lib.rs:2206-2263 | no run from such a start reports active for a delivery of phase prepare, unless the file it began with already waited for the activation of that very ETag |
| `SyncRuns.InheritedIsBelieved` | linux/common/apps/candy-cloud-sync/src/lib.rs:2128-2164 | that exception is real: for every delivery of phase prepare, a file without a phase that waits for its ETag and a committed receipt make a run report it active |
| `SyncRuns.UnphasedAsksAgain` | linux/common/apps/candy-cloud-sync/src/lib.rs:2262-2301 | an ETag stored without a phase is forgotten when the Cloud answers that nothing changed: without a finished activation nothing is reported and the configuration is asked for again |
| `SyncRuns.EtagHasOnePhase` | linux/common/apps/candy-cloud-sync/src/lib.rs:5298-5318 | one ETag has one phase, unless the hash collides on two deliveries |
| `SyncRuns.PassAsksOnce` | linux/common/apps/candy-cloud-sync/src/lib.rs:2166-2177 | a pass sends at most one configuration request |
| `SyncRuns.RetryForgetsEtag` | linux/common/apps/candy-cloud-sync/src/lib.rs:477-482 | a pass that wants another leaves a readable state without an ETag |
| `SyncRuns.RetryIsUnconditional` | linux/common/apps/candy-cloud-sync/src/lib.rs:2066-2597 | the second request is unconditional, a 304 to it is an error, and there is no third |
| `SyncOutcomes.PassDoes` | linux/common/apps/candy-cloud-sync/src/lib.rs:2095-2186 | a pass settles, asks once under the ETag that is left, and ends as the answer does; what it leaves is the last state saved |
| `SyncOutcomes.Settles` | linux/common/apps/candy-cloud-sync/src/lib.rs:2128-2174 | what settling says and stores for a committed, a rejected and a conflicting activation |
| `SyncOutcomes.NothingToRun` | linux/common/apps/candy-cloud-sync/src/lib.rs:2186-2206 | a 204 withdraws what runs and forgets the delivery |
| `SyncOutcomes.Revalidates` | linux/common/apps/candy-cloud-sync/src/lib.rs:2207-2229 | a confirmed delivery whose activation is outdated is fetched again once, and otherwise an error |
| `SyncOutcomes.Waits` | linux/common/apps/candy-cloud-sync/src/lib.rs:2230-2251 | a rejected one waits a minute from its first confirmation and is then fetched again |
| `SyncOutcomes.Repeats` | linux/common/apps/candy-cloud-sync/src/lib.rs:2252-2314 | a current one repeats prepared or active as its phase says, and is fetched again when there is no publication or phase to name |
| `SyncOutcomes.Refuses` | linux/common/apps/candy-cloud-sync/src/lib.rs:2315-2476 | which verdicts reject a verified delivery, which are only errors, and which ask for another policy |
| `SyncOutcomes.Prepares` | linux/common/apps/candy-cloud-sync/src/lib.rs:2477-2508 | an accepted delivery of phase prepare is published, not activated, reported prepared and stored |
| `SyncOutcomes.Activates` | linux/common/apps/candy-cloud-sync/src/lib.rs:2509-2597 | one of phase commit is published for activation: offered as a candidate when the device needs an activation, and otherwise what runs is withdrawn |
| `SyncOutcomes.OffersOrWithdraws` | linux/common/apps/candy-cloud-sync/src/lib.rs:2186-2597 | a pass withdraws if and only if the Cloud has nothing for the device or commits a delivery that needs no activation, and offers a candidate if and only if it commits one that does |
| `SyncOutcomes.AwaitedWasOffered` | linux/common/apps/candy-cloud-sync/src/lib.rs:2509-2597 | over every run, a stored state that waits for an activation waits for one offered earlier under that ETag, or for the one the first file waited for |
| `Activation.Promote` | linux/common/apps/candy-cloud-sync/src/lib.rs:4116-4140 | the active pointer is replaced before its proof, under the receipt's identity, or nothing is written |
| `Activation.RemoveCandidateIfMatches` | linux/common/apps/candy-cloud-sync/src/lib.rs:4142-4156 | only a candidate of the finished activation is removed |
| `Activation.RequestLocalActivationWithdrawal` | linux/common/apps/candy-cloud-sync/src/lib.rs:4208-4261 | the marker is written before the candidate pointer is removed; nothing is done when there is neither a pointer nor a proof, and when a marker already stands nothing but a remaining candidate is removed |
| `Activation.ReadActivationReadyReceipt` | linux/common/apps/candy-cloud-sync/src/lib.rs:3910-4022 | which receipts count as finished, stale or malformed |
| `Activation.SettleActivation` | linux/common/apps/candy-cloud-sync/src/lib.rs:2123-2164 | promotion, removal, the cleared receipt and the result follow the plan for both readings of the receipt, whatever the inspection of Core and agent says at each |
| `ActivationRuns.RunningWasCommitted` | linux/common/apps/candy-cloud-sync/src/lib.rs:1153-1259 | at every point of every run, running means that active pointer, descriptor, proof and the live Core's policy generation name one activation, and that the agent once announced it as committed |
| `ActivationRuns.ActiveIsLeftAlone` | linux/common/apps/candy-cloud-sync/src/lib.rs:4142-4261 | publishing a candidate, a withdrawal and a rejected receipt never touch the active pointer or its proof |
| `ActivationRuns.PromotionIsCrashSafe` | linux/common/apps/candy-cloud-sync/src/lib.rs:4116-4140 | between the two writes of a promotion the state is not running unless the old proof already names the same activation, and promoting again at any later time leaves the pointer and the proof of that promotion and nothing else changed |
| `ActivationRuns.ActiveReportsAreBacked` | linux/common/apps/candy-cloud-sync/src/lib.rs:2123-2164 | every active report a run of settling sends leaves when the active pointer and a committed proof of that ETag are on the disk, if and only if no settlement loses its receipt between its two readings without having been promoted before |
| `ActivationRuns.ReportedWithoutPromotion` | linux/common/apps/candy-cloud-sync/src/lib.rs:2123-2148 | such a run from an empty machine: the agent commits, is gone before the second reading, and the delivery is reported active with nothing promoted |
| `ActivationRuns.MarkerBeforeRemoval` | linux/common/apps/candy-cloud-sync/src/lib.rs:4208-4261 | at every crash point a removed candidate is named by the marker, with the pointer that was active |
| `ActivationRuns.WithdrawalIsIdempotent` | linux/common/apps/candy-cloud-sync/src/lib.rs:4208-4261 | asking again after any crash ends in the same place, and once done does nothing |
| `ActivationOutcomes.ActiveExactly` | linux/common/apps/candy-cloud-sync/src/lib.rs:3504-3640 | when an activation is active, unproven or proven, with every condition on pointer, descriptor and proof written out |
| `ActivationOutcomes.ReceiptCounts` | linux/common/apps/candy-cloud-sync/src/lib.rs:3910-4022 | which receipts count, for which candidate, and until when a commit does |
| `ActivationOutcomes.StaleExactly` | linux/common/apps/candy-cloud-sync/src/lib.rs:3941-3960 | a receipt is stale, and dropped, if and only if it is well formed and the candidate is another one or gone |
| `ActivationOutcomes.CommitPassedOver` | linux/common/apps/candy-cloud-sync/src/lib.rs:3956-4018 | a commit whose agent is gone or whose Core is another one by now, or whose grant has run out, is passed over; one that cannot be looked into is an error |
| `ActivationOutcomes.RejectionSettled` | linux/common/apps/candy-cloud-sync/src/lib.rs:2153-2172 | a rejection is reported once, the candidate goes unless the Cloud refused the report, the receipt goes, and nothing else changes |
| `ActivationOutcomes.CommitSettled` | linux/common/apps/candy-cloud-sync/src/lib.rs:2140-2172 | a commit that counts at both readings is promoted, reported and its receipt dropped, and nothing else changes |
| `ActivationOutcomes.RereadFails` | linux/common/apps/candy-cloud-sync/src/lib.rs:2148-2150 | a second reading that fails ends the settlement before anything is promoted, reported or dropped |
| `ActivationOutcomes.ProofSettled` | linux/common/apps/candy-cloud-sync/src/lib.rs:2128-2172 | without a receipt that counts the committed proof is reported, and at most the receipt goes |
| `ActivationOutcomes.NothingSettled` | linux/common/apps/candy-cloud-sync/src/lib.rs:2128-2138 | when nothing finished, or something else did, nothing is said and at most a stale receipt goes |
| `ActivationOutcomes.PromotesExactly` | linux/common/apps/candy-cloud-sync/src/lib.rs:4116-4140 | exactly the candidate that stands, as a directory, is promoted |
| `ActivationOutcomes.WithdrawsExactly` | linux/common/apps/candy-cloud-sync/src/lib.rs:4208-4261 | when a withdrawal fails, when it has nothing to do, and what it writes otherwise |
| `ActivationOutcomes.PublishesExactly` | linux/common/apps/candy-cloud-sync/src/lib.rs:6330-6356 | a candidate is published as a directory unless it is there already, and then named by the pointer |
| `ActivationOutcomes.ReconnectingExactly` | linux/common/apps/candy-cloud-sync/src/lib.rs:1153-1259 | the local state is reconnecting if and only if nothing is active or a serving Core is starting or suspends steering |
| `ActivationOutcomes.FailOpenExactly` | linux/common/apps/candy-cloud-sync/src/lib.rs:1153-1259 | when it is running and when it is an error; in all other cases it is open |
| `IdentityBundle.ReplaceIdentityBundle` | linux/common/apps/candy-cloud-sync/src/lib.rs:1938-1961 | the forward loop and the reverse rollback write exactly the planned files for every pattern of write failures |
| `IdentityBundle.EndsExactly` | linux/common/apps/candy-cloud-sync/src/lib.rs:1938-1961 | nothing is written over a file that is missing, empty or beyond a mebibyte; everything is replaced if and only if every write works; a rollback fails if and only if a write below the first failing one cannot be put back |
| `IdentityBundle.ReplacedMeansAllNew` | linux/common/apps/candy-cloud-sync/src/lib.rs:1938-1961 | success replaces all five files and nothing else |
| `IdentityBundle.RestoredExceptFailing` | linux/common/apps/candy-cloud-sync/src/lib.rs:1938-1961 | the exact files a working rollback leaves: the old ones, except that it starts below the failing index |
| `IdentityBundle.RestoredMeansAllOld` | linux/common/apps/candy-cloud-sync/src/lib.rs:1938-1961 | the old identity is restored if and only if the failing write left its file as it was or wrote the old bytes |
| `IdentityBundle.MarkerVouchesExactly` | linux/common/apps/candy-cloud-sync/src/lib.rs:1938-1961 | at every crash point a new identity document comes with four new files, if and only if its own write did not fail after the rename with an effective rollback behind it |
| `IdentityBundle.LastSyncOrphansTheMarker` | linux/common/apps/candy-cloud-sync/src/lib.rs:1938-1961 | if the identity document's own write fails after its rename and the rollback works, the marker stands alone as soon as one other file changes |
| `IdentityBundle.RenewalCanOrphanTheMarker` | linux/common/apps/candy-cloud-sync/src/lib.rs:1938-1961 | a renewal of the five files that ends so: the rollback reports success and the new identity document stands beside old files |
| `Renewal.MaybeRenew` | linux/common/apps/candy-cloud-sync/src/lib.rs:1748-1809 | the state file, the request, the bundle and the removed state follow the plan for every clock, reply and fault |
| `Renewal.SameRequestUntilInstalled` | linux/common/apps/candy-cloud-sync/src/lib.rs:1764-1809 | over every run with crashes all requests of one transaction carry one id |
| `Renewal.ExpiryNeverGoesBack` | linux/common/apps/candy-cloud-sync/src/lib.rs:1878-1936 | between any two points of any run the identity document keeps its device and its expiry does not decrease |
| `Renewal.FailureIsRecorded` | linux/common/apps/candy-cloud-sync/src/lib.rs:1799-1806 | a failed request leaves its id, one more failure and the time before which nothing is tried |
| `Renewal.PauseIsKept` | linux/common/apps/candy-cloud-sync/src/lib.rs:1764-1809 | after a failed request at the end of any run, no attempt of any continuation before the pause is over sends anything, unless the state was removed first |
| `Renewal.InstallFailureIsNotPaused` | linux/common/apps/candy-cloud-sync/src/lib.rs:1784-1797 | a reply that cannot be installed is not counted as a failure, so the next attempt may follow at once |
| `Renewal.BackoffGrows` | linux/common/apps/candy-cloud-sync/src/lib.rs:1828-1833 | the pause never shrinks with failures and stays between thirty seconds and six hours |
| `RenewalOutcomes.BackoffDoubles` | linux/common/apps/candy-cloud-sync/src/lib.rs:1828-1833 | thirty seconds after the first failure, then twice as long each time, up to six hours |
| `RenewalOutcomes.AsksExactly` | linux/common/apps/candy-cloud-sync/src/lib.rs:1748-1809 | an attempt asks once, under the id of its transaction, if and only if the certificate expires within three days, the transaction is in order and not paused, and the request gets out |
| `RenewalOutcomes.NotYetDue` | linux/common/apps/candy-cloud-sync/src/lib.rs:1757-1763 | with more than three days left nothing is asked and a transaction left behind is dropped |
| `RenewalOutcomes.SucceedsExactly` | linux/common/apps/candy-cloud-sync/src/lib.rs:1784-1960 | a due attempt succeeds if and only if it is answered with a later, matching certificate and all five files are written; then they are the new ones and the transaction is over |
| `Delivery.ConfigurationObjectsDigest` | linux/common/apps/candy-cloud-sync/src/lib.rs:5248-5296 | the hasher is fed the domain, both objects, the counted catalog with its envelopes and the counted older generations |
| `Delivery.ConfigurationDeliveryDigest` | linux/common/apps/candy-cloud-sync/src/lib.rs:5298-5318 | the hasher is fed the domain, the objects hash, the bare phase, the route key and the counted grant keys |
| `DeliveryProofs.ObjectsInjective` | linux/common/apps/candy-cloud-sync/src/lib.rs:5248-5296 | two validated configurations with equal preimages have the same objects, catalogs in order, older generations and envelopes |
| `DeliveryProofs.DeliveryInjective` | linux/common/apps/candy-cloud-sync/src/lib.rs:5298-5318 | equal delivery preimages have the same phase, objects hash, route key and grant keys |
| `DeliveryProofs.DigestNamesDelivery` | linux/common/apps/candy-cloud-sync/src/lib.rs:5248-5318 | one digest names one delivery, unless the hash collides on the preimages of the two |
| `DeliveryProofs.BarePhaseIsAmbiguous` | linux/common/apps/candy-cloud-sync/src/lib.rs:5302-5306 | without the restriction to two phases the unprefixed phase makes two different deliveries share a preimage |
| `Catalogs.ValidateCatalog` | linux/common/apps/candy-cloud-sync/src/lib.rs:5163-5181 | accepts exactly the well-formed, strictly ordered catalogs |
| `Catalogs.ValidateCompatibilityGenerations` | linux/common/apps/candy-cloud-sync/src/lib.rs:5183-5228 | accepts exactly strictly increasing older generations whose retained peers are pairwise distinct across all catalogs and not the local projection, within the bounds |
| `Catalogs.ValidateGrantVerificationKeys` | linux/common/apps/candy-cloud-sync/src/lib.rs:5230-5246 | accepts exactly the well-formed keys in strictly increasing order |
| `CatalogOutcomes.CatalogExactly` | linux/common/apps/candy-cloud-sync/src/lib.rs:5163-5181 | a catalog is valid if and only if every entry is named, generated and hashed, and every earlier entry comes before every later one in the order of ids and generations |
| `CatalogOutcomes.OneCatalog` | linux/common/apps/candy-cloud-sync/src/lib.rs:5163-5181 | the same entries make one valid catalog only |
| `CatalogOutcomes.GenerationsExactly` | linux/common/apps/candy-cloud-sync/src/lib.rs:5183-5228 | older generations are valid if and only if they are numbered upwards below the present one, none is empty or hashed to nothing, every peer is kept at one place only and never the device itself, and the bounds hold |
| `CatalogOutcomes.KeysExactly` | linux/common/apps/candy-cloud-sync/src/lib.rs:5230-5246 | keys are valid if and only if each is named, issued and hexadecimal, and every earlier id comes before every later one |
| `CatalogOutcomes.ConfigurationExactly` | linux/common/apps/candy-cloud-sync/src/lib.rs:4977-5010 | every other condition on a configuration written out |
| `CompatibilityFiles.ValidMeansDistinct` | linux/common/apps/candy-cloud-sync/src/lib.rs:5724-5751 | in an accepted configuration no two retained objects share a path |
| `CompatibilityFiles.WriteCompatibilityDirectories` | linux/common/apps/candy-cloud-sync/src/lib.rs:6379-6431 | returns the paths the server configuration will name; with distinct paths every object stands under its own with the given modes; a fresh directory always succeeds |
| `CompatibilityFiles.SealCompatibilityDirectories` | linux/common/apps/candy-cloud-sync/src/lib.rs:6433-6459 | succeeds exactly when everything is present, changes modes only, and leaves everything sealed |
| `CompatibilityFiles.VerifyCompatibilityDirectories` | linux/common/apps/candy-cloud-sync/src/lib.rs:6501-6554 | succeeds exactly when every directory and file is read-only and every content is the expected one, or when nothing is expected and nothing is there |
| `CompatibilityFiles.VerifiedExactly` | linux/common/apps/candy-cloud-sync/src/lib.rs:6501-6554 | a tree is accepted if and only if nothing is there and nothing expected, or every expected directory and file stands under its name, with no write bit, and every file with its content and within the bound |
| `CompatibilityFiles.PublishCompatibility` | linux/common/apps/candy-cloud-sync/src/lib.rs:6630-6645 | for every accepted configuration and its decoded objects, writing, sealing and verifying a fresh directory succeed with the paths the server configuration names |
| `CompatibilityFiles.VerifiedDetermines` | linux/common/apps/candy-cloud-sync/src/lib.rs:6501-6554 | a tree verifies against one content only |
| `NetdDeclaration.BuildNetdDeclaration` | linux/common/apps/candy-cloud-sync/src/lib.rs:5753-5812 | routes are the local and remote ones and exclusions the underlay prefixes and usable Cloud hosts, each stably sorted by numeric prefix and kind; every exclusion appears once, as cloud-api where both apply; fails exactly without a usable Cloud host |
| `NetdDeclaration.CloudExclusions` | linux/common/apps/candy-cloud-sync/src/lib.rs:5427-5443 | the usable IPv4 hosts, sorted and without repetition, or an error when there are none |
| `NetdDeclaration.CloudHostsExactly` | linux/common/apps/candy-cloud-sync/src/lib.rs:5427-5443 | which endpoints are usable Cloud hosts: IPv4 with a port, not the unspecified address, not multicast |
| `NetdDeclaration.OneReasonEach` | linux/common/apps/candy-cloud-sync/src/lib.rs:5779-5801 | no prefix is excluded twice |
| `NetdDeclaration.RouteNamesInOrder` | linux/common/apps/candy-cloud-sync/src/lib.rs:5773-5777 | route kinds compare by name as by protocol number |
| `NetdDeclaration.UnderlayNamesInOrder` | linux/common/apps/candy-cloud-sync/src/lib.rs:5793-5799 | exclusion kinds compare by name as by protocol number |
| `NetdDeclaration.RoutesMeetProtocolOrder` | linux/common/crates/candy-netd-proto/src/lib.rs:168-175 | that condition on the report's own prefixes decides whether the built routes meet the order |
| `NetdDeclaration.ExclusionsMeetProtocolOrder` | linux/common/crates/candy-netd-proto/src/lib.rs:168-175 | the same for the exclusions, asked for in text order |
| `NetdDeclaration.SortedMeetsOrderExactly` | linux/common/crates/candy-netd-proto/src/lib.rs:168-175 | for every list of prefixes and kinds as asked for: sorted, it meets the protocol's strict order if and only if the agent reads each one and each two are placeable: plain ones differ, others lie behind all plain ones, and among the others kind, then order of asking, agrees with the agent's order |
| `NetdDeclaration.BuiltButRefused` | linux/common/apps/candy-cloud-sync/src/lib.rs:5753-5812 | two local prefixes, the numerically smaller one with a plus sign, give a built declaration whose routes the protocol's order refuses |
| `CidrText.KeyIsRankExactly` | linux/common/apps/candy-cloud-sync/src/lib.rs:5814-5825 | for every prefix the agent reads, the sort key is its protocol rank if and only if the prefix is plain; any other one sorts behind every rank |
| `CidrText.OctetsExactly` | linux/common/apps/candy-sdwan-agent/src/lib.rs:1157-1163 | which texts the standard parser and the agent read as a given octet: its decimal digits, and for the agent also any digits of that value behind a plus sign |
| `CidrText.ReadsHost` | linux/common/apps/candy-cloud-sync/src/lib.rs:5427-5443 | a host prefix written for an endpoint is read back as that host by both parsers |
| `CidrText.ReadsPlus` | linux/common/apps/candy-sdwan-agent/src/lib.rs:1147-1174 | every address written with a plus sign in front is read by the agent as that address, and is not plain |
| `Enrollment.Enroll` | linux/common/apps/candy-cloud-enroll/src/main.rs:189-394 | the effects of an invocation, in order, are those of its plan for every disk and every reply |
| `Enrollment.EncodeTranscript` | linux/common/apps/candy-cloud-enroll/src/main.rs:648-671 | the transcript is the eight fields behind two-byte lengths, or an error when one of them is not 32 bytes |
| `Enrollment.LoadOrCreateInstanceId` | linux/common/apps/candy-cloud-enroll/src/main.rs:526-538 | an existing id is validated and kept, a missing one is created |
| `Enrollment.PersistInstanceId` | linux/common/apps/candy-cloud-enroll/src/main.rs:540-550 | a resumed transaction keeps its instance id and refuses another one |
| `Enrollment.TranscriptInjective` | linux/common/apps/candy-cloud-enroll/src/main.rs:648-671 | the signed transcript determines challenge, organization, nonce, both keys and both hashes |
| `Enrollment.MetadataInjective` | linux/common/apps/candy-cloud-enroll/src/main.rs:694-701 | the metadata hash binds instance id and display name, for every name the program accepts in any script |
| `Framing.FieldsInjective` | linux/common/apps/candy-cloud-enroll/src/main.rs:648-701 | a concatenation of length-prefixed fields determines the list of fields |
| `EnrollmentRuns.EveryRunIsCoherent` | linux/common/apps/candy-cloud-enroll/src/main.rs:202-394 | over every sequence of attempts cut short anywhere, a stored transaction matches the stored keys, the instance id and its hashes, and an identity document comes with all four certificate files |
| `EnrollmentRuns.RetriesRepeatTheRequest` | linux/common/apps/candy-cloud-enroll/src/main.rs:269-333 | until the transaction is removed every challenge request has the same id, device and keys, and a completion is repeated word for word, signature included |
| `EnrollmentRuns.TransactionStays` | linux/common/apps/candy-cloud-enroll/src/main.rs:205-317 | between any two points of any run without a removal in between, a pending transaction keeps its identifiers and both private keys, and does not change at all once it holds its challenge |
| `EnrollmentIdentity.ResumedExactly` | linux/common/apps/candy-cloud-enroll/src/main.rs:324-394 | when the transaction and a complete installation are on the disk, a resumed attempt leaves the old or the new installation at every crash point if and only if its answer changes at most one of the five files |
| `EnrollmentIdentity.FirstAttemptFinishes` | linux/common/apps/candy-cloud-enroll/src/main.rs:202-394 | every attempt that would enroll an empty machine reaches that situation when cut after its identity document |
| `EnrollmentIdentity.RetryIsAtomicExactly` | linux/common/apps/candy-cloud-enroll/src/main.rs:202-394 | the same exact condition over runs from an empty machine: a first attempt cut after the identity, then a retry cut anywhere |
| `EnrollmentMixed.NewCertificateChangesTwo` | linux/common/apps/candy-cloud-enroll/src/main.rs:345-384 | two certificates with different PEM texts differ in two files at least |
| `EnrollmentMixed.NewCertificateIsMixed` | linux/common/apps/candy-cloud-enroll/src/main.rs:324-394 | so a retry answered with a new certificate and cut after its first file leaves the new DER file beside the old PEM file |
| `EnrollmentMixed.MachineIsMixed` | linux/common/apps/candy-cloud-enroll/src/main.rs:202-394 | a machine with two attempts on which this happens |
| `EnrollmentIdentity.IdentityIsOfOneCompletion` | linux/common/apps/candy-cloud-enroll/src/main.rs:324-394 | if the Cloud's answers to one request change at most one file, identity, certificate files and private key belong to one completion after every run |
| `EnrollmentRuns.RegisteredIsFinal` | linux/common/apps/candy-cloud-enroll/src/main.rs:202-204 | from any point of any run where an enrollment is complete, the rest of the run changes nothing but the bootstrap document |
| `EnrollmentOutcomes.StopsAtOnce` | linux/common/apps/candy-cloud-enroll/src/main.rs:189-236 | nothing happens without a bootstrap document, on a registered device, over an unreadable state or another installation's, or with a name that does not fit |
| `EnrollmentOutcomes.Begins` | linux/common/apps/candy-cloud-enroll/src/main.rs:205-262 | a first attempt leaves both keys, the installation id and the transaction, which is written last, and says nothing |
| `EnrollmentOutcomes.Resumes` | linux/common/apps/candy-cloud-enroll/src/main.rs:205-262 | a resumed one restores the installation id and goes on for the same Cloud only |
| `EnrollmentOutcomes.KeysFirst` | linux/common/apps/candy-cloud-enroll/src/main.rs:236-262 | without both of its keys a transaction asks for nothing |
| `EnrollmentOutcomes.AsksForChallenge` | linux/common/apps/candy-cloud-enroll/src/main.rs:263-317 | manifest, then challenge, each stored before what follows; which answers stop it, and with what left |
| `EnrollmentOutcomes.TranscriptNeeded` | linux/common/apps/candy-cloud-enroll/src/main.rs:318-326 | unless nonce, keys and hashes all decode to 32 bytes, nothing is sent and nothing written |
| `EnrollmentOutcomes.CompletionEnds` | linux/common/apps/candy-cloud-enroll/src/main.rs:318-394 | the signed proof is sent once; an acceptable answer leaves all five files, no transaction and no bootstrap document, and any other leaves the disk as it was |
| `PackageDigest.TreeDigest` | scripts/packet_port_package.py:24-32 | the loop feeds the hasher the sorted names and contents, each behind its little-endian length |
| `PackageDigest.PreimageDeterminesTree` | scripts/packet_port_package.py:24-32 | equal preimages come from the same map from names to contents |
| `Sorting.ListsIsUnique` | scripts/packet_port_package.py:26-26 | a set of names has one sorted listing |
| `Sorting.StableSortedPairwise` | linux/common/apps/candy-cloud-sync/src/lib.rs:5773-5777 | a relation holds throughout a stably sorted list if and only if it holds, turned as the ranks turn each pair, throughout the list as given |
| `Package.PackageDirectory.Refresh` | scripts/packet_port_package.py:47-101 | the whole directory afterwards: stale files gone, published files and provenance written, or nothing changed when a dependency cannot be resolved |
| `Package.PackageDirectory.Verify` | scripts/packet_port_package.py:104-126 | accepts exactly the directories without links whose visible files match the recorded digests and whose manifest is public |
| `PackageOutcomes.VerifiesExactly` | scripts/packet_port_package.py:104-126 | a package is accepted if and only if it has no links, its record names exactly the files that count with their digests and the digest of all, the sources are the original ones, and the manifest names public dependencies that need no other checkout |
| `Package.Resolve` | scripts/packet_port_package.py:61-74 | which dependency a workspace entry and its overrides resolve to, features united, private ones and ones from elsewhere refused |
| `PackageOutcomes.ResolvesExactly` | scripts/packet_port_package.py:61-76 | a dependency resolves to another one if and only if that is public, from nowhere else, and it itself, its workspace's entry, or this entry with its own fields on top, where features are united into one sorted list |
| `PackageProofs.RefreshThenVerify` | scripts/packet_port_package.py:47-126 | a refreshed package verifies if and only if the refresh left no symbolic link and no resolved dependency still names a workspace |
| `PackageProofs.ChangesAreNoticed` | scripts/packet_port_package.py:104-118 | unless the hash collides on two versions of a file, later content verifies if and only if it has no link and the same visible files |
| `PackageProofs.OtherChangesAreNoticed` | scripts/packet_port_package.py:104-118 | a file added, altered or removed under any other name than provenance.json makes verification fail |
| `PackageProofs.NestedProvenanceIsUnseen` | scripts/packet_port_package.py:81-111 | a provenance.json in a subdirectory can be added, changed or removed unnoticed |
| `PackageProofs.NestedNameExists` | scripts/packet_port_package.py:104-126 | x/provenance.json is such a name: verification skips it by its last component, and it is not the package's own provenance file |
| `PackageProofs.PackageDigestNamesTheFiles` | scripts/packet_port_package.py:24-32 | the package digest alone fixes every visible file, unless the hash collides on the two preimages |
| `PackageProofs.RefreshAgain` | scripts/packet_port_package.py:47-101 | refreshing again from the same source changes nothing |
| `CommandProbe.DrainPipe` | linux/common/apps/candy-cloud-sync/src/command_probe.rs:54-83 | the loop reads, reserves and appends what the drain function says; nothing is subtracted below zero or stored outside the room reserved |
| `CommandProbe.DrainKeepsTheStream` | linux/common/apps/candy-cloud-sync/src/command_probe.rs:54-83 | what is held and what is still to come stay the same string |
| `CommandProbe.DrainIsBounded` | linux/common/apps/candy-cloud-sync/src/command_probe.rs:54-83 | content and every capacity asked for stay within the limit, at most 32 results are taken, and a pipe is closed only by its end |
| `CommandProbe.OwnedProbe.Drop` | linux/common/apps/candy-cloud-sync/src/command_probe.rs:29-42 | a probe that did not complete has its group killed, then its child killed, then waited for, in this order; a completed one is left alone |
| `CommandProbe.OutputControlled` | linux/common/apps/candy-cloud-sync/src/command_probe.rs:94-161 | the outcome of every schedule of turns; whenever a command was started, what was done to it is exactly: found exited on success, else group killed, child killed, child waited for |
| `CommandProbe.OutputIsWhatWasWritten` | linux/common/apps/candy-cloud-sync/src/command_probe.rs:111-161 | output is returned only for a command reaped after both pipes ended, and is exactly what it wrote, within the limits |
| `ProbeOutcomes.DrainEnds` | linux/common/apps/candy-cloud-sync/src/command_probe.rs:54-83 | why a drain stops behind the readings it took: the pipe's end, nothing more to read, 32 readings, a failure, a piece beyond the limit, or room the allocator refuses, and how much room is asked for; every piece before is kept |
| `ProbeOutcomes.LastTurn` | linux/common/apps/candy-cloud-sync/src/command_probe.rs:124-160 | which turn ends a command and how: cancellation before the deadline before the output's failures before those of the errors, and a status exactly when both pipes are closed and the child has exited |
| `ProbeOutcomes.EndedStays` | linux/common/apps/candy-cloud-sync/src/command_probe.rs:124-160 | what would have been found later does not matter |
| `Pacer.RatePacer.WaitFor` | scripts/proxy-gate/udp.py:23-40 | one wait computes target, origin and rebase flag as the timing function does |
| `Pacer.HalfAPeriodApart` | scripts/proxy-gate/udp.py:23-40 | consecutive sends are at least half a period apart |
| `Pacer.OriginCountsRebases` | scripts/proxy-gate/udp.py:23-40 | the origin never moves back and moves by more than 20 ms per rebase |
| `Pacer.LagCountsRebases` | scripts/proxy-gate/udp.py:93-111 | from the first rebase on every send is late, by more than 20 ms per rebase |
| `Pacer.RebasedMeansMoved` | scripts/proxy-gate/udp.py:23-40 | a send is called rebased if and only if it moved the schedule |
| `Pacer.RebasedIsLate` | scripts/proxy-gate/udp.py:97-116 | a rebase implies late sends, so the rebase list adds nothing to the validity gate |
| `Pacer.LateWithoutRebase` | scripts/proxy-gate/udp.py:109-116 | a send can be late although the schedule never moved |
| `UdpRate.Receive` | scripts/proxy-gate/udp.py:69-88 | the loop's maps and lists are the tally of the arrivals |
| `UdpRate.TallyMeans` | scripts/proxy-gate/udp.py:77-88 | a sequence is received if its packet arrived and a duplicate if it arrived twice |
| `UdpRate.ReplyIsThePacket` | scripts/proxy-gate/udp.py:76-88 | a reply is one of the packets sent, byte for byte |
| `UdpRate.IntegrityMeansExactlyOnce` | scripts/proxy-gate/udp.py:108-117 | the integrity gate passes if and only if every packet sent came back exactly once and nothing else did, warm-up packets aside |

## Left out

- HTTP, TLS, X.509, Ed25519, base64, JSON, TOML and Core verdicts: parameters with the checks the code makes on their results.
- SHA-256: a parameter; that it does not collide on the preimages at hand is an explicit hypothesis where it is needed.
- File owners, symbolic links and modes, except in the compatibility directories (modes) and the package (links): boolean inputs or not modelled.
- Torn writes: a replace is one atomic step, as the rename makes it; the sync calls behind it only appear as the failing outcomes of the journal and the identity bundle.
- Concurrent processes: other writers appear only in the activation runs (the agent, Core, an operator) and, in enrollment, as new bootstrap documents.
- `candy leave`, the removal of a registered identity: not part of the enrollment runs.
- NetdProto.EncodedFrameDecodes: the reader works on the rest of the input instead of an offset, a prefix length above 32 (which the mask computation does not define) is a refusal.
- Journal.DecodeRecord: takes the file as one byte string; reading it from disk in pieces is not modelled.
- NetworkTransactions.NetworkTransaction.UpdatePolicy: prepare, commit, suspend, resume, reconfigure, rollback, lease and MTU changes are left out; a session starts from the record they leave. The owner's requests come with a lease, as decoding demands. What the kernel holds of routes, firewall and policy rule is named by what the calls were given.
- Grant.RefreshWithClock: the envelope staged for Core is one file that is written and removed; its random name is a parameter.
- Registration.BuildRegistration: socket addresses are an address and a port with an injective text form; sorting by that text is taken as the library's.
- Activation.SettleActivation: nothing else changes the files between the two readings of the receipt; the world may.
- Sync.SyncPass: what Core, the candidate and a receipt say while settling is an input of each pass; what settling does to those files is `activation`, where reports are tied to the disk. That the device has a tenant and a site is taken as given. Telemetry, profile refresh and local log output have no effect on the stored state and are not part of a pass.
- Activation.ReadActivationReadyReceipt: the inspection of the Core proof named by a receipt is one outcome, a yes, a no or an error; so is the agent's liveness.
- ActivationRuns.RunningWasCommitted: the activation directories' contents other than the descriptor are not modelled.
- Enrollment.MetadataInjective: UTF-8 is a parameter, and that it keeps the two names apart is a hypothesis.
- Enrollment.Enroll: the bootstrap document's code and expiry and the manifest's platform checks are folded into whether an exchange succeeds.
- CompatibilityFiles.WriteCompatibilityDirectories: paths are values naming generation, file and directory rather than joined strings; the names themselves are the strings the code formats.
- PackageDigest.TreeDigest: names and contents are shorter than 2^64 bytes, as memory is; the digest is kept as bytes instead of hexadecimal text.
- Package.PackageDirectory.Refresh: the manifest printer (`literal` and the lines around it) and the TOML parser are taken as an inverse pair, package metadata lines are carried along unexamined, and values are texts, booleans and lists of texts; a directory in the place of a file is not modelled.
- CommandProbe.OutputControlled: time passes in turns of the loop, each with what it finds; the outcome of a list of turns that ends before the command does is called unfinished.
- Pacer.RatePacer.WaitFor: real numbers instead of floating point.
- UdpRate.Receive: the sockets and the receiving thread are the sequence of datagrams that arrive in time; rates and percentiles are left out.
- The activation publishing that renders server and client configurations, netd's own execution of requests, Docker, QEMU, gate and traffic scripts: only easy members or plumbing.
