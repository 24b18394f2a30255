# otaman-bridge, modelled and proved

otaman-bridge is a daemon that carries approvals between coding agents and a person's phone. This project
models its stateful protocols, its two hand-written codecs and its link index, and proves what they keep over
all runs.

Where the source updates objects in place, the model has a state machine written as a total function
`Step` (an event that is not possible changes nothing) and a class whose methods are proved to take exactly
those steps. The machines let threads and coroutines interleave at every lock release and every await; runs
are arbitrary event sequences. The theorems are about all runs, or about all inputs of the codecs. What one
operation does to files, cards, hooks, tokens and messages is stated besides from outside, without the functions
that compute it (`SurfaceTable`, `BusEffects`, `ApprovalEffects`, `InboxEffects`, `RefreshEffects`).

| module | source file | subject |
|---|---|---|
| `SurfacePolicy`, `SurfaceTable` | `bus_surface.py` | which bus messages reach the phone, and which cards carry buttons |
| `Provenance` | `bus_provenance.py` | ledger check, quarantine names |
| `BusMachine`, `BusSafety`, `BusPromises`, `BusLimits`, `BusEffects`, `BusService` | `bus_watcher.py`, `bus_surface_service.py`, `bus_decision.py` | scan, taps, crash, restart recovery |
| `ApprovalMachine`, `ApprovalSafety`, `ApprovalEffects`, `ApprovalService` | `approval_service.py`, `daemon.py` | blocked hooks, taps, snoozes, shutdown |
| `Linger` | `session_linger.py` | timers that may already be firing when they are cancelled |
| `SessionRegistry`, `Times` | `session_registry.py` | the session table and its timestamp strings |
| `Spawn`, `SpawnRaces`, `SpawnDecision` | `spawn_decision.py` | check, spawn, claim and linger as separate steps |
| `InboxFormat`, `InboxRoundTrip`, `InboxMarks`, `InboxStore`, `InboxQueries`, `InboxEffects`, `InboxService` | `inbox.py` | frontmatter codec and file store |
| `RefreshTokens`, `RefreshEffects`, `RefreshStore` | `ce_web_auth.py` | rotation, revocation, failed saves, restarts |
| `Fingerprints`, `Registration` | `dcr_shim.py` | what a fingerprint identifies, and the find-or-create race |
| `Durations` | `afk.py` | duration parser and printer |
| `LinkIndex` | `registries/link_index.py` | outcome/solution index |
| `Text` | | strings as Python compares, strips, pads and lowers them |

## What turned out different from what one would expect

Each of these is stated as a lemma, with the exact condition where there is one.

- A message to a human is not always surfaced, although the policy table says so: the type rule is looked up
  first (`SurfacePolicy.ToHumanSurfacesExactly`, `SurfacePolicy.InfoToHumanIsNotSurfaced`).
- A proposal's ack is written before its announcement. If the announcement fails and the daemon restarts, the
  proposal stays acked and is neither announced nor answerable (`BusLimits.TornDecisionIsNotRecovered`). A restart
  gives a card back exactly when no tap completed or tore and nobody acked the message elsewhere
  (`BusLimits.RecoveryGivesBackExactly`).
- Neither scans nor taps read acks. A decision made on the workspace while its card is open can be turned into its
  opposite by a tap (`BusLimits.TapOverrulesTheWorkspace`, `BusLimits.AckStandsExactly`).
- The announcements the bridge writes are of privileged types. Its own next scan moves one to quarantine unless
  the ledger has a record of it (`BusLimits.AnnouncementSurvivesExactly`, `BusLimits.AnnouncementStaysExactly`).
- Two announcements written in one second can have one file name (`BusLimits.DecisionFilesCollideExactly`).
- A second hook with an id that is still in the table makes the first one unreachable
  (`ApprovalSafety.DuplicateIdLosesAHook`). The last answer written wins, not the first
  (`ApprovalSafety.LastAnswerWins`). A tap on a hook whose id is also a bus card's stem does not reach the hook
  (`ApprovalSafety.TapReachesTheHook`).
- A linger timer pops by key. One that ran out before a renewal expires the renewed entry at once
  (`Linger.LateTimerTakesTheRenewedEntry`, `Linger.RenewedEntryCanExpireAtOnce`); renewal is safe exactly when no timer of the key has run out
  (`Linger.RenewalIsSafeExactly`). A callback already popped survives a cancel.
- The loser of a claim race starts a linger timer too, for a session that is not registered
  (`Spawn.LingerNamesRegisteredExactly`). That start replaces the winner's entry, and the winner's row is then
  never released (`SpawnRaces.RaceStrandsTheWinner`); it is the only way a row loses what would release it
  (`SpawnRaces.RowLosesItsReleaserExactly`). Nothing in the repository calls the clean-up of stale rows.
- The module documentation of the linger manager says that an assignment to a warm session resets the timer; the
  code does not (`Spawn.WarmSessionIsNotRenewed`).
- A revocation that finds no token in memory does not rewrite the file, so after a failed save it can leave a
  valid token there (`RefreshTokens.UnsavedRevocationComesBack`, `RefreshTokens.FailedSaveThenRevokeAgain`).
- A fingerprint joins software id and redirects with line breaks, and the shim accepts line breaks in both. Every
  registration with two redirects shares its fingerprint with another acceptable one; one with a single redirect
  does exactly when a line break in its software id or redirect hides a second redirect
  (`Fingerprints.FingerprintIsSharedExactly`, `Fingerprints.LineBreakMergesFingerprints`).
- The printed remaining time is accepted back, spaces and all, only when it has a single part
  (`Durations.PrintedTextIsAcceptedExactly`).
- An inbox header value with a line break, or an unquoted one that is empty or has outer white space, does not
  come back (`InboxRoundTrip.RoundTripExactly`).

## What is assumed

- Message files of others appear whole and under names never used before. Anyone may ack any message at any time;
  acks are not deleted. The ledger only grows. A write that raises leaves no file. Reading the directory at recovery succeeds.
- The clock does not go back. Minted tokens, client ids and session ids are fresh; hashes are injective.
- The bridge runs on a POSIX system, where text files are written with `\n` as they are.
- A tap may arrive at any point between two steps, which is more interleavings than the event loop allows.
- The expiry callback releases the session it is given, as the linger manager's documentation asks of it.
- `cutoff` and `now` of a clean-up are the same clock reading, `threshold` apart, in microseconds.
- History fields (`log`, `written`, `floors`, `started`, `ended`, `logins`, `root`, `exchanged`, `owner`) record
  what happened so that theorems can speak of it; no step reads them to decide what the source does. The
  exception is freshness: an event that would mint a token, a session or a client id used before does nothing.

## Model

| member | source | states |
|---|---|---|
| `SurfacePolicy.InteractiveUnderAllOverrides` | src/otaman_bridge/bus_surface.py:182-305 | whatever the overrides, a card has buttons exactly when one fixed condition on the message holds, and such a card is always surfaced: recovery classifies as the scan did |
| `SurfacePolicy.OverridesReachOnlyConfigurable` | src/otaman_bridge/bus_surface.py:168-305 | overrides change the decision only for local, non-urgent messages of configurable types, and there the sender's own entry wins over the general one |
| `SurfacePolicy.ToHumanSurfacesExactly` | src/otaman_bridge/bus_surface.py:135-305 | a message to a human is shown under all overrides exactly when it is local and urgent, a proposal, or of no listed type |
| `SurfacePolicy.InfoToHumanIsNotSurfaced` | src/otaman_bridge/bus_surface.py:135-305 | an `info` message to a human is never shown, against the policy table's comment |
| `SurfaceTable.ForeignIsHidden` | src/otaman_bridge/bus_surface.py:182-305 | a message between two organisations is hidden under all overrides |
| `SurfaceTable.UrgentIsShown` | src/otaman_bridge/bus_surface.py:182-305 | a local urgent message is always shown as blocking, and has the one button `acknowledge` exactly when it is to a person |
| `SurfaceTable.KindsWithAFixedRule` | src/otaman_bridge/bus_surface.py:135-305 | a calm local proposal has its four buttons in order; assignments and information are hidden |
| `SurfaceTable.OtherKinds` | src/otaman_bridge/bus_surface.py:135-305 | a type not listed: buttons for a person, shown without buttons at high priority, else hidden |
| `SurfaceTable.ConfigurableFollowsOverrides` | src/otaman_bridge/bus_surface.py:168-305 | a configurable type is shown, without buttons, exactly when the sender's own entry switches it on, or leaves it open and the general entry does; underscored spelling before dashed, and a value that is no boolean is no answer |
| `Provenance.CandidatesDiffer` | src/otaman_bridge/bus_provenance.py:61-76 | the names the quarantine search tries are pairwise different |
| `Provenance.FirstFreeIsLeast` | src/otaman_bridge/bus_provenance.py:61-76 | the search ends at a free name, and every earlier candidate is taken |
| `Provenance.QuarantineNameIsFree` | src/otaman_bridge/bus_provenance.py:61-76 | the chosen name is not in use |
| `Provenance.QuarantineNameExactly` | src/otaman_bridge/bus_provenance.py:61-76 | a file keeps its own name if that is free, else it gets the first free number |
| `Provenance.FindQuarantineName` | src/otaman_bridge/bus_provenance.py:61-76 | the counting loop terminates and returns that name |
| `Provenance.VerifiedExactly` | src/otaman_bridge/bus_provenance.py:34-58 | a message is verified exactly when its file is there and some record has the file's present content under the stem or the id |
| `BusSafety.StepKeepsFiles` | src/otaman_bridge/bus_watcher.py:293-404 | every step keeps each arrived file accounted for, file names equal to stems, and the scan's snapshots true |
| `BusSafety.StepKeepsCards` | src/otaman_bridge/bus_surface_service.py:179-273 | every step keeps: a surfaced, active, interactive message had a card registered and, while the daemon runs, is pending or acked |
| `BusPromises.StepKeepsCounts` | src/otaman_bridge/bus_surface_service.py:277-440 | every step keeps decisions plus open card within the cards registered, and acks equal to decided by tap, torn, or acked elsewhere |
| `BusPromises.StepKeepsActs` | src/otaman_bridge/bus_watcher.py:314-404 | every step keeps: what the policy was asked about and not overwritten was confirmed if privileged |
| `BusPromises.StepKeepsRecords` | src/otaman_bridge/bus_watcher.py:116-127 | every step keeps the recorded surfacings of a message more than seven days apart, across the prune at save |
| `BusPromises.StepKeepsFailures` | src/otaman_bridge/bus_watcher.py:344-404 | every step keeps: a message whose last dispatch failed is not marked seen |
| `BusPromises.RunKeepsInv` | src/otaman_bridge/bus_watcher.py:293-404 | all invariants hold in every state reachable by arrivals, scans, taps, failures, stops, crashes and restarts |
| `BusPromises.NoDeadTap` | src/otaman_bridge/bus_surface_service.py:179-273 | in a running daemon a surfaced, active, undecided, interactive message has its own card in the table, and a deciding tap on it is recorded |
| `BusPromises.TapIsRecorded` | src/otaman_bridge/bus_surface_service.py:277-349 | an approving or rejecting tap whose writes succeed acks the message, announces a proposal's decision, closes that card and no other |
| `BusPromises.OneDecisionPerCard` | src/otaman_bridge/bus_surface_service.py:194-349 | completed decisions plus the open card never exceed the cards registered for a message, and an ack exists exactly when a decision completed, its announcement failed, or the message was acked elsewhere |
| `BusPromises.UnconfirmedIsNeverActedOn` | src/otaman_bridge/bus_watcher.py:320-343 | a message of the four privileged types whose content no record carries under its stem or id never reaches the policy, PM sync or the card table |
| `BusPromises.NothingIsLost` | src/otaman_bridge/bus_watcher.py:320-343 | every file that arrived is active unchanged, archived by others, or in quarantine with its content |
| `BusPromises.QuarantineOnlyGrows` | src/otaman_bridge/bus_provenance.py:61-76 | no step removes or overwrites a quarantined file |
| `BusPromises.SurfacingsAreAWeekApart` | src/otaman_bridge/bus_watcher.py:116-127 | two surfacings of one message that reached the state file are more than 604800 seconds apart |
| `BusPromises.FailedDispatchIsRetried` | src/otaman_bridge/bus_watcher.py:314-404 | a message whose dispatch failed is asked about and sent again when a scan comes to it; that completed scans come to every listed message is `BusLimits.CompletedScanSettlesAll` |
| `BusPromises.UnseenIsSent` | src/otaman_bridge/bus_watcher.py:314-404 | a trusted message not yet seen is put to the policy and, if it is to be shown, is being sent and has its card |
| `BusLimits.TornDecisionIsNotRecovered` | src/otaman_bridge/bus_decision.py:157-174 | for every proposal a failed announcement followed by a restart leaves it acked, surfaced, undecided and without a card |
| `BusLimits.UnconfirmedDecisionFileIsQuarantined` | src/otaman_bridge/bus_decision.py:68-154 | the bridge's own announcement without a ledger record is quarantined by the scan that meets it, and not acted on |
| `BusLimits.DecisionFilesCollideExactly` | src/otaman_bridge/bus_decision.py:68-154 | two announcement names are equal exactly when second, decision and, for a rejection, proposer agree |
| `BusLimits.AnnouncementStaysExactly` | src/otaman_bridge/bus_watcher.py:314-343 | a scan that meets an announcement leaves it active exactly when some record has its content under its stem or id |
| `BusLimits.AnnouncementSurvivesExactly` | src/otaman_bridge/bus_decision.py:68-154 | for every proposal, decision and ledger record, a run from the start in which the announcement is written and the next scan leaves it active exactly when the record has its content and its stem or id, and else quarantines it |
| `BusLimits.RecoveryGivesBackExactly` | src/otaman_bridge/bus_surface_service.py:179-209 | after a crash and restart a surfaced, active, interactive message has its card exactly when no tap completed or tore and nobody acked it elsewhere |
| `BusLimits.AckStandsExactly` | src/otaman_bridge/bus_decision.py:48-65 | over all runs a step changes an ack exactly when it is an ack from elsewhere or a deciding tap on the open card, with another decision |
| `BusLimits.TapOverrulesTheWorkspace` | src/otaman_bridge/bus_surface_service.py:277-349 | for every proposal a run in which a tap turns a rejection made elsewhere into an announced approval |
| `BusLimits.CompletedScanSettlesAll` | src/otaman_bridge/bus_watcher.py:293-404 | a scan that reaches the end of its listing, whatever happens meanwhile, has put each message not surfaced before to the policy or in quarantine, and its save records each but those whose dispatch failed |
| `BusEffects.AcknowledgingTap` | src/otaman_bridge/bus_surface_service.py:277-427 | acknowledging, or approving or rejecting a card that is no proposal, acks the message as acknowledged, closes that card only, and sends a comment, if there is one, to the sender |
| `BusEffects.DecidingTap` | src/otaman_bridge/bus_decision.py:48-174 | a decision on a proposal acks it, closes that card only and writes one file: an approval to all at high priority, a rejection to the proposer |
| `BusEffects.CommentTap` | src/otaman_bridge/bus_surface_service.py:354-392 | a comment that is not blank becomes one file to the sender; card, acks and decisions stay |
| `BusEffects.IdleTap` | src/otaman_bridge/bus_surface_service.py:217-313 | any other action, an id that is no card, or a tap while the daemon is down changes nothing |
| `BusEffects.FailingTap` | src/otaman_bridge/bus_surface_service.py:323-349 | a decision whose first write fails changes nothing; one whose announcement fails leaves the ack and keeps the card |
| `BusEffects.FailingAcknowledgement` | src/otaman_bridge/bus_surface_service.py:394-427 | the same for an acknowledgement; without a comment there is no second write |
| `BusEffects.ScanStart` | src/otaman_bridge/bus_watcher.py:308-314 | a scan starts from the state file, the clock, the overrides and the listing of the moment |
| `BusEffects.SeenIsPassedOver` | src/otaman_bridge/bus_watcher.py:314-316 | a message seen before is passed over |
| `BusEffects.ForgedIsMoved` | src/otaman_bridge/bus_watcher.py:318-343 | a privileged message whose present content is on no record moves to a free quarantine name with its content and is not acted on; a move that fails ends the scan |
| `BusEffects.TrustedIsDispatched` | src/otaman_bridge/bus_watcher.py:345-376 | any other message gets its card before it is sent, or a notice, or the mark that it was seen |
| `BusEffects.SentIsSeen` | src/otaman_bridge/bus_watcher.py:385-395 | a send that succeeds marks the message seen at the scan's time and gives it to PM sync |
| `BusEffects.FailedIsUnseen` | src/otaman_bridge/bus_surface_service.py:255-273 | a send that fails takes the card back and leaves the message unseen |
| `BusEffects.ScanEnd` | src/otaman_bridge/bus_watcher.py:116-127 | the end of a scan that changed something keeps exactly the entries of the last 604800 seconds; a failed write keeps the old file |
| `BusEffects.StartAndStop` | src/otaman_bridge/bus_surface_service.py:179-209 | starting adds exactly the surfaced, unacked, active messages whose card has buttons; a stop or a crash forgets the cards and keeps the files |
| `BusService.Host.Quarantine` | src/otaman_bridge/bus_provenance.py:61-76 | the file moves to the free name with its content and every other quarantined file stays |
| `BusService.Host.SaveState` | src/otaman_bridge/bus_watcher.py:116-127 | the stored state becomes the given one without entries older than seven days |
| `BusService.BusSurfaceService.RecoverUndecidedPendings` | src/otaman_bridge/bus_surface_service.py:179-209 | the loop, under any overrides, adds exactly the surfaced, unacked, interactive, active messages, keeps entries already there and counts those messages |
| `BusService.BusSurfaceService.ScanNext` | src/otaman_bridge/bus_watcher.py:314-395 | one turn of the scan loop, up to its await, is the machine's step |
| `BusService.BusSurfaceService.Resume` | src/otaman_bridge/bus_surface_service.py:233-273 | what follows a send that succeeded or failed is the machine's step |
| `BusService.BusSurfaceService.EndScan` | src/otaman_bridge/bus_watcher.py:396-404 | the end of the scan, with its conditional save, is the machine's step |
| `BusService.BusSurfaceService.RecordDecision` | src/otaman_bridge/bus_decision.py:157-174 | ack, following file and removal of the card, with a failure at either write, is the machine's transition |
| `BusService.BusSurfaceService.DispatchReply` | src/otaman_bridge/bus_surface_service.py:217-349 | a tap is the machine's step, and is handled exactly when its id is a bus card |
| `BusService.BusSurfaceService.ScanOnce` | src/otaman_bridge/bus_watcher.py:293-404 | a whole scan, with taps, arrivals, acks, ledger records and time passing at every await, is one scan of a run of the machine and comes to an end, at the end of its listing or where a move to quarantine raised |
| `ApprovalMachine.StepAdvances` | src/otaman_bridge/approval_service.py:44-168 | every step keeps identity, creation and timeout of each waiting hook, never lowers its deadline, only appends answers, and never changes a result |
| `ApprovalSafety.RunKeepsInv` | src/otaman_bridge/approval_service.py:44-238 | over every interleaving slots, table, tasks and sleeping re-posts stay consistent |
| `ApprovalSafety.AllowNeedsApproval` | src/otaman_bridge/approval_service.py:95-168 | a hook's response carries its own id, and is `allow` only if an approving tap or allowing reply for that id arrived while its own slot was in the table |
| `ApprovalSafety.LastAnswerWins` | src/otaman_bridge/approval_service.py:53-78 | a waking hook takes the last answer written |
| `ApprovalSafety.LeavingRemovesTheId` | src/otaman_bridge/approval_service.py:120-168 | after the hook leaves its id is gone and taps, replies and snoozes for it change nothing |
| `ApprovalSafety.ReturnIsFinal` | src/otaman_bridge/approval_service.py:120-168 | what a hook returned is the same after any further events |
| `ApprovalSafety.NoEntryForReturned` | src/otaman_bridge/approval_service.py:120-168 | no table entry leads to a hook that has returned |
| `ApprovalSafety.ExpiryIsLate` | src/otaman_bridge/approval_service.py:57-78 | a hook expires only at or after its own timeout and every snooze processed before plus thirty seconds |
| `ApprovalSafety.RepostFindsItUnexpired` | src/otaman_bridge/approval_service.py:170-238 | a re-post less than thirty seconds late finds the request not expired |
| `ApprovalSafety.DuplicateIdLosesAHook` | src/otaman_bridge/approval_service.py:120-130 | a new hook keeps every waiting hook reachable exactly when its id is not in the table |
| `ApprovalSafety.DistinctIdsStayReachable` | src/otaman_bridge/approval_service.py:95-168 | with distinct in-flight ids and no shutdown every waiting hook can be answered |
| `ApprovalSafety.TapReachesTheHook` | src/otaman_bridge/daemon.py:840-889 | a deciding reply for a reachable, blocked hook makes it finish with that very answer unless a bus card has its id, and then leaves it untouched |
| `ApprovalSafety.ShutdownAnswersEveryEntry` | src/otaman_bridge/daemon.py:705-714 | shutdown empties the table and queues `ask` for every entry |
| `ApprovalSafety.ShutdownReachesTheHook` | src/otaman_bridge/daemon.py:705-714 | over all runs a hook whose entry the shutdown found wakes to `ask` with its own id, unless another answer is written later |
| `ApprovalEffects.SnoozeExtends` | src/otaman_bridge/approval_service.py:187-212 | using a snooze sets the deadline to the later of the old one and thirty seconds past the re-post, sets one re-post, and touches nothing else |
| `ApprovalEffects.SnoozeHolds` | src/otaman_bridge/approval_service.py:57-85 | over every continuation a snoozed hook keeps that deadline and does not expire before it |
| `ApprovalEffects.SnoozedHookWaits` | src/otaman_bridge/approval_service.py:170-212 | the same from the look-up of the snooze on, whatever happens between look-up and use |
| `ApprovalEffects.RepostIsQueued` | src/otaman_bridge/approval_service.py:220-230 | when the time is up, and not before, the entry is looked up again |
| `ApprovalEffects.RepostIsStored` | src/otaman_bridge/approval_service.py:232-245 | the new card's handle is stored exactly when the entry is still the one looked up |
| `ApprovalEffects.SnoozeReposts` | src/otaman_bridge/approval_service.py:170-245 | a snooze from beginning to end: deadline extended, new card's handle stored, phase and answer of the hook as before |
| `ApprovalEffects.HookEnters` | src/otaman_bridge/approval_service.py:118-126 | a new hook has its whole timeout, no answer, and the table entry of its id |
| `ApprovalEffects.CardIsSent` | src/otaman_bridge/approval_service.py:128-135 | a sent card lets the hook wait and stores its handle |
| `ApprovalEffects.CardFails` | src/otaman_bridge/approval_service.py:136-147 | a card that cannot be sent returns `ask` and frees the id |
| `ApprovalEffects.PollEffect` | src/otaman_bridge/approval_service.py:64-85 | at or past the deadline the hook times out; before it, it waits five seconds or up to the deadline, whichever is sooner |
| `ApprovalEffects.WakeEffect` | src/otaman_bridge/approval_service.py:64-85 | a waiting hook takes its answer, else looks at the deadline when its chunk is over |
| `ApprovalEffects.LeaveEffect` | src/otaman_bridge/approval_service.py:149-153 | a finished hook returns what it has and frees the id |
| `ApprovalEffects.RepliesAreRouted` | src/otaman_bridge/daemon.py:840-889 | a request for details changes no approval, a snooze goes to the approval even if the id is a bus card, and only other replies to no bus card are answers |
| `ApprovalEffects.TapIsQueued` | src/otaman_bridge/daemon.py:840-889 | approve allows, reject denies, any other action and any unknown id does nothing |
| `ApprovalEffects.HttpReplyReachesTheHook` | src/otaman_bridge/daemon.py:803-820 | a reply with a known id becomes the hook's answer with the decision it names, and the blocked hook takes it; without an id or entry nothing changes |
| `ApprovalService.AnswerOfExactly` | src/otaman_bridge/approval_service.py:51-85 | the answer a waiting hook takes is the last one for it in the first of its five-second turns that has any |
| `ApprovalService.PendingApproval.Wait` | src/otaman_bridge/approval_service.py:63-78 | the polling loop terminates; a timeout comes at or after every deadline asked for, otherwise the answer returned is the last one of the first chunk that brought one |
| `ApprovalService.PendingApproval.ExtendBy` | src/otaman_bridge/approval_service.py:57-61 | the deadline becomes the later of the two |
| `ApprovalService.ApprovalService.Resolve` | src/otaman_bridge/approval_service.py:103-110 | found exactly when pending; the answer is overwritten and the table is untouched |
| `ApprovalService.ApprovalService.CancelAll` | src/otaman_bridge/approval_service.py:112-118 | the table is emptied and each former entry is answered with its own id |
| `ApprovalService.ApprovalService.HandleApproval` | src/otaman_bridge/approval_service.py:120-168 | on every way out the id is removed and the response carries it; it is the answer given, or a timeout not before its time, or `ask` when the card could not be sent |
| `ApprovalService.ApprovalService.HandleSnooze` | src/otaman_bridge/approval_service.py:170-214 | a snooze extends past its own re-post time; an unknown id changes nothing |
| `ApprovalService.ApprovalService.StoreRepost` | src/otaman_bridge/approval_service.py:216-238 | the new handle is stored only if the entry is still the one found |
| `Linger.EachEntryEndsAtMostOnce` | src/otaman_bridge/session_linger.py:70-169 | each started entry is either still held or has ended, never both |
| `Linger.AnEndIsFinal` | src/otaman_bridge/session_linger.py:70-169 | the way an entry ended is never revised |
| `Linger.NoImmortalEntry` | src/otaman_bridge/session_linger.py:70-169 | a held entry's timer is live, and once its time is over it expires that entry with its callback |
| `Linger.CancelSilences` | src/otaman_bridge/session_linger.py:117-126 | after a cancel and until the next start no callback for the key appears that was not already popped |
| `Linger.PoppedCallbackSurvivesCancel` | src/otaman_bridge/session_linger.py:150-169 | a callback popped before the cancel still runs after it |
| `Linger.ATimerFiresOnce` | src/otaman_bridge/session_linger.py:151-165 | over every continuation a timer that has fired takes no further entry |
| `Linger.DueIsLastRenewalPlusDelay` | src/otaman_bridge/session_linger.py:70-115 | an entry's due time is its last start or reset plus the delay, and no other step changes the entry |
| `Linger.OnTimeExpiryIsNotEarly` | src/otaman_bridge/session_linger.py:150-169 | a key in step with its timer is expired by its own timer, at or after its due time |
| `Linger.RenewalIsSafeExactly` | src/otaman_bridge/session_linger.py:70-115 | start or reset keeps a key in step with its timer exactly when no timer of the key has run out |
| `Linger.LateTimerTakesTheRenewedEntry` | src/otaman_bridge/session_linger.py:150-169 | a timer that ran out before the renewal expires the new entry before its due time |
| `Linger.RenewedEntryCanExpireAtOnce` | src/otaman_bridge/session_linger.py:70-169 | for every key and all delays a run from the start in which an entry just started or reset expires before its due time |
| `Linger.ExpiryIsNeverEarly` | src/otaman_bridge/session_linger.py:70-169 | over every run that renews in time, no entry expires before its last renewal plus the delay |
| `Linger.SessionLingerManager.Start` | src/otaman_bridge/session_linger.py:70-99 | start is the machine's step with the agent's own delay |
| `Linger.SessionLingerManager.Reset` | src/otaman_bridge/session_linger.py:101-115 | reset is the machine's step and reports whether there was an entry |
| `Linger.SessionLingerManager.Cancel` | src/otaman_bridge/session_linger.py:117-126 | cancel is the machine's step and reports whether there was an entry |
| `Linger.SessionLingerManager.Fire` | src/otaman_bridge/session_linger.py:150-169 | a firing timer pops whatever entry its key has |
| `Linger.SessionLingerManager.Shutdown` | src/otaman_bridge/session_linger.py:133-142 | every entry is cancelled and its timer stopped, other timers and callbacks stay as they are |
| `Times.CalendarOrderIsTimeOrder` | src/otaman_bridge/session_registry.py:31-36 | comparing calendar fields is comparing instants, leap years included |
| `Times.IsoOrderIsTimeOrder` | src/otaman_bridge/session_registry.py:31-36 | comparing stored timestamps as strings is comparing instants, although the fraction is missing exactly when it is zero |
| `SessionRegistry.CleanupRemovesExactlyTheStale` | src/otaman_bridge/session_registry.py:141-153 | the string comparison removes a row exactly when its last beat is older than the threshold, and changes no other row |
| `SessionRegistry.ApplyKeepsStamps` | src/otaman_bridge/session_registry.py:97-153 | every operation keeps stored heartbeats equal to the instants of the last beats |
| `SessionRegistry.HolderIsNotDisplaced` | src/otaman_bridge/session_registry.py:97-153 | a holder loses its row exactly by its own release or its own silence; a rival claim changes nothing |
| `SessionRegistry.OwnRow` | src/otaman_bridge/session_registry.py:99-139 | what a claim, a heartbeat and a release by the holder and by anyone else do to the row |
| `SessionRegistry.OtherRowsStay` | src/otaman_bridge/session_registry.py:99-139 | none of them touches another pair's row |
| `SessionRegistry.SqliteSessionRegistry.ClaimSession` | src/otaman_bridge/session_registry.py:97-120 | the claim is reported exactly when the session now holds the row |
| `SessionRegistry.SqliteSessionRegistry.ReleaseSession` | src/otaman_bridge/session_registry.py:122-129 | only the named session's own row goes |
| `SessionRegistry.SqliteSessionRegistry.Beat` | src/otaman_bridge/session_registry.py:131-139 | only the holder's heartbeat changes |
| `SessionRegistry.SqliteSessionRegistry.CleanupStale` | src/otaman_bridge/session_registry.py:141-153 | what remains is what beat within the threshold, and the count is what went |
| `Spawn.ClaimSucceedsExactlyWhenFree` | src/otaman_bridge/spawn_decision.py:274-382 | over every interleaving a spawned session wins its claim exactly when the pair has no session, and a holder stays |
| `Spawn.LingerNamesRegisteredExactly` | src/otaman_bridge/spawn_decision.py:274-382 | the linger entry names the registered session exactly when the claim had succeeded |
| `Spawn.ExpiryReleasesOnlyItsOwn` | src/otaman_bridge/session_linger.py:43-45 | an expiry removes a row only if the row holds the expired session |
| `Spawn.SerialisedCallsAreSound` | src/otaman_bridge/spawn_decision.py:274-382 | with calls for a pair serialised every spawned session is claimed, every linger entry names the registered session, and every row will be released by some timer, expiry or call |
| `SpawnRaces.RowLosesItsReleaserExactly` | src/otaman_bridge/spawn_decision.py:340-375 | over every interleaving a row keeps a timer, expiry or call that will release it, except exactly when a refused call starts its linger timer over the row's own |
| `SpawnRaces.StrandedForever` | src/otaman_bridge/spawn_decision.py:274-382 | a row without a releaser stays registered under every continuation |
| `SpawnRaces.RaceStrandsTheWinner` | src/otaman_bridge/spawn_decision.py:274-382 | for every pair and two sessions a run in which the second claim is refused, its linger entry replaces the first, and the registered session is never released |
| `Spawn.WarmSessionIsNotRenewed` | src/otaman_bridge/spawn_decision.py:274-290 | an assignment absorbed by a warm session changes neither the registry nor the timers |
| `Spawn.CheckDecides` | src/otaman_bridge/spawn_decision.py:274-400 | the check ends a call at a warm session, sends a headless one to the runner and an interactive one to a person, and changes nothing else |
| `Spawn.SpawnEnds` | src/otaman_bridge/spawn_decision.py:293-345 | a failed spawn ends the call, one that works goes on to its claim, and neither changes anything else |
| `Spawn.InteractiveCallsNeverSpawn` | src/otaman_bridge/spawn_decision.py:274-400 | over every interleaving an interactive call never reaches the runner, and a headless one is never left to a person |
| `SpawnDecision.HandleBusEvent` | src/otaman_bridge/spawn_decision.py:274-382 | run by itself, the outcome, the registry and the linger manager in each of the four cases |
| `InboxRoundTrip.UnescapeInvertsEscape` | src/otaman_bridge/inbox.py:257-271 | the parser's two-pass unescape inverts the printer's escape on every string |
| `InboxRoundTrip.ValueReturnsExactly` | src/otaman_bridge/inbox.py:257-316 | a printed value parses back exactly when it is quoted, or non-empty and trimmed |
| `InboxRoundTrip.SplitInvertsJoin` | src/otaman_bridge/inbox.py:289-305 | splitting joined lines gives the lines back |
| `InboxRoundTrip.FieldOfEntry` | src/otaman_bridge/inbox.py:304-316 | the dictionary holds, for each key, the value of its last line |
| `InboxRoundTrip.FileIsCutAtItsFences` | src/otaman_bridge/inbox.py:292-302 | a printed file is cut at its own closing fence, whatever the body holds |
| `InboxRoundTrip.ReadHeadersAreBreakFree` | src/otaman_bridge/inbox.py:292-335 | from no file does the parser return a header value with a line break |
| `InboxRoundTrip.RoundTripExactly` | src/otaman_bridge/inbox.py:254-335 | every header value comes back, and the body as stored, exactly when no value has a line break and each is quoted or non-empty and trimmed |
| `InboxRoundTrip.BodyReturnsExactly` | src/otaman_bridge/inbox.py:273-302 | a body comes back with one newline added exactly when it is non-empty, has no trailing space, no leading newline and no carriage return |
| `InboxEffects.QuotedExactly` | src/otaman_bridge/inbox.py:257-271 | a value is quoted exactly when it has one of sixteen characters or is one of six words in any case |
| `InboxEffects.FieldsExactly` | src/otaman_bridge/inbox.py:318-335 | a message is read exactly when five fields are given, each field with its value, priority `normal` and type `chat` when they are not |
| `InboxEffects.MissingExactly` | src/otaman_bridge/inbox.py:318-321 | the first missing field is the one complained about |
| `InboxEffects.FrontmatterExactly` | src/otaman_bridge/inbox.py:292-297 | exactly a file that does not begin with the delimiter is refused for that |
| `InboxEffects.BreaksAreUnified` | src/otaman_bridge/inbox.py:292-294 | reading makes one newline of a `\r\n` and of a lone `\r`, and keeps everything else |
| `InboxFormat.ReadMessage` | src/otaman_bridge/inbox.py:292-335 | the parser with its line loop equals the specification, errors included |
| `InboxMarks.MarkLandsInTheHeader` | src/otaman_bridge/inbox.py:338-357 | in a printed file the replaced line is the frontmatter's, even if the body has lines that look like it |
| `InboxMarks.TouchChangesOnlyReadAt` | src/otaman_bridge/inbox.py:338-357 | setting `read_at` keeps header, body and form and sets that field |
| `InboxStore.CompactStamp` | src/otaman_bridge/inbox.py:96-100 | removing dashes and colons from a stamp leaves its digits in order |
| `InboxStore.EffectiveSubjectIsPlain` | src/otaman_bridge/inbox.py:90-94 | the subject stored is never empty, is trimmed and at most 80 long |
| `InboxStore.DerivedSubjectIsBreakFree` | src/otaman_bridge/inbox.py:242-251 | a subject taken from the body has no line break |
| `InboxStore.SlugIsPlain` | src/otaman_bridge/inbox.py:236-239 | whatever the subject, the slug is not empty, at most 32 long, and of lower-case letters, digits, `_` and `-` |
| `InboxStore.WrittenReadsBackExactly` | src/otaman_bridge/inbox.py:70-146 | what was written is read back exactly when the caller's names and references survive and the subject has no line break |
| `InboxQueries.WriteKeepsForm` | src/otaman_bridge/inbox.py:96-135 | a write whose values have no line break keeps every message in the printer's form under a name that carries its time |
| `InboxQueries.NameOrderIsStampOrder` | src/otaman_bridge/inbox.py:96-109 | the name order of files never contradicts the time order of their messages |
| `InboxQueries.ListingIsTheNewestMatches` | src/otaman_bridge/inbox.py:150-182 | a listing is newest first, shows only matches, and leaves one out only when it is full and shows nothing older |
| `InboxQueries.SortedReverse` | src/otaman_bridge/inbox.py:166-166 | the sorted directory has each name once, in descending order |
| `InboxQueries.MarkingChangesExactlyReadAt` | src/otaman_bridge/inbox.py:184-218 | marking sets `read_at` on the chosen messages, changes no other field or file, and leaves nothing for a second call |
| `InboxEffects.ListedAsAsked` | src/otaman_bridge/inbox.py:150-182 | everything listed is stored, unread if only unread is asked for, from the sender asked for and later than the time asked for |
| `InboxEffects.AsAskedIsListed` | src/otaman_bridge/inbox.py:150-182 | every stored message that is as asked is listed unless the listing is full |
| `InboxEffects.MarkedExactly` | src/otaman_bridge/inbox.py:184-218 | afterwards exactly the target, or every unread message not sent after it, has the new `read_at`; what was read keeps its time |
| `InboxEffects.FirstSuchLineIsSet` | src/otaman_bridge/inbox.py:338-350 | in any file the first line that begins with `read_at:` gets the time, whatever it said, and everything else stays |
| `InboxEffects.NoLineNoMark` | src/otaman_bridge/inbox.py:338-350 | a file without a `read_at` line is left as it is, byte for byte |
| `InboxEffects.AcceptedExactly` | src/otaman_bridge/inbox.py:82-88 | a draft is accepted exactly when it names both users, has a known priority, some text and a recipient that is no path |
| `InboxEffects.RefusedExactly` | src/otaman_bridge/inbox.py:82-88 | which of the refusals a draft meets |
| `InboxEffects.GivenSubject` | src/otaman_bridge/inbox.py:90-94 | a given subject is kept without outer space, cut at eighty, or replaced when blank |
| `InboxEffects.SubjectFromBody` | src/otaman_bridge/inbox.py:242-251 | without a subject the first line that is not blank gives it, without markdown marks |
| `InboxEffects.NoSubject` | src/otaman_bridge/inbox.py:90-94 | without a subject and with nothing but blank lines the subject is `(no subject)` |
| `InboxEffects.SlugJoinsWords` | src/otaman_bridge/inbox.py:236-239 | the slug is the words of the subject joined by single dashes, whatever stands between and around them, cut at thirty-two |
| `InboxEffects.SlugOfNothing` | src/otaman_bridge/inbox.py:236-239 | a subject without letters, digits and `_` gives `msg` |
| `InboxEffects.NameTells` | src/otaman_bridge/inbox.py:96-109 | the file name is the compact time, the first eight characters of the sender, the slug, and a number if it is not the first |
| `InboxEffects.CandidateNamesDiffer` | src/otaman_bridge/inbox.py:104-120 | the names tried one after the other differ |
| `InboxEffects.WrittenFields` | src/otaman_bridge/inbox.py:110-146 | what a write adds reads back unread with each value of the draft, and every other file stays |
| `InboxService.Inbox.WriteMessage` | src/otaman_bridge/inbox.py:70-146 | the file goes under the first free of a hundred names, every other file stays, and a refusal changes nothing |
| `InboxService.Inbox.ListMessages` | src/otaman_bridge/inbox.py:150-182 | the errors, and the first `limit` matches of the sorted directory |
| `InboxService.Inbox.MarkRead` | src/otaman_bridge/inbox.py:184-218 | the errors, and otherwise exactly the chosen messages marked and counted |
| `RefreshTokens.TokensAreSingleUse` | src/otaman_bridge/ce_web_auth.py:132-156 | over every sequence of issues, refreshes, revocations, failed saves and restarts a token is exchanged at most once |
| `RefreshTokens.ChainsKeepTheirUser` | src/otaman_bridge/ce_web_auth.py:132-156 | every accepted token acts for the user whose login started its chain |
| `RefreshTokens.RotationStaysInTheChain` | src/otaman_bridge/ce_web_auth.py:132-156 | a successful refresh consumes the token and its successor belongs to the same login and user |
| `RefreshTokens.DeadStaysDead` | src/otaman_bridge/ce_web_auth.py:87-169 | a token gone from memory and file is never accepted again, whatever follows |
| `RefreshTokens.RevocationIsFinal` | src/otaman_bridge/ce_web_auth.py:158-169 | after a revocation no earlier token of the user is accepted, provided memory held one or the file holds no valid one |
| `RefreshTokens.UnsavedRevocationComesBack` | src/otaman_bridge/ce_web_auth.py:158-169 | otherwise some earlier token is accepted after a restart |
| `RefreshTokens.FailedSaveThenRevokeAgain` | src/otaman_bridge/ce_web_auth.py:158-169 | a failed revocation repeated successfully leaves the file's valid token in place |
| `RefreshTokens.RestartsKeepSync` | src/otaman_bridge/ce_web_auth.py:87-121 | where each failed save is followed by a restart, memory and file agree on unexpired tokens |
| `RefreshTokens.RevocationIsFinalAcrossRestarts` | src/otaman_bridge/ce_web_auth.py:158-169 | in such runs a revocation is final without further conditions |
| `RefreshEffects.TokenLivesItsTerm` | src/otaman_bridge/ce_web_auth.py:123-156 | a token handed out by a login or a refresh is exchanged by any working refresh less than 1209600 seconds later and by none from then on, whatever happens to other tokens and users |
| `RefreshEffects.IssueEffect` | src/otaman_bridge/ce_web_auth.py:123-130 | a login adds its token to the unexpired ones; a failed save leaves only the file as it was |
| `RefreshEffects.UnsavedRefreshConsumes` | src/otaman_bridge/ce_web_auth.py:132-156 | a refresh whose save fails still consumes the token in memory |
| `RefreshEffects.RefusedRefresh` | src/otaman_bridge/ce_web_auth.py:139-148 | a refused refresh drops what has expired, and rewrites the file only for a token that expired meanwhile |
| `RefreshEffects.RefreshWithoutSession` | src/otaman_bridge/ce_web_auth.py:212-221 | an exchange without a session leaves the user no token and other users theirs |
| `RefreshEffects.RevocationEffect` | src/otaman_bridge/ce_web_auth.py:158-169 | a revocation takes exactly the user's tokens, and writes the file only if there were any |
| `RefreshEffects.RestartEffect` | src/otaman_bridge/ce_web_auth.py:87-105 | a restart has the unexpired tokens of the file, or none if it cannot be read |
| `RefreshStore.RefreshTokenStore.DeleteAll` | src/otaman_bridge/ce_web_auth.py:115-121 | exactly the given keys go |
| `RefreshStore.RefreshTokenStore.ConsumeAndRotate` | src/otaman_bridge/ce_web_auth.py:132-156 | the exchange is the machine's transition, and succeeds exactly when the token is there, unexpired and the save works |
| `RefreshStore.RefreshTokenStore.RevokeUser` | src/otaman_bridge/ce_web_auth.py:158-169 | revocation is the machine's step, counts what went and raises exactly when a needed save fails |
| `RefreshStore.RefreshSession` | src/otaman_bridge/ce_web_auth.py:205-221 | the service's refresh is the machine's step, and a returned token is one exchange of the presented one |
| `Fingerprints.FingerprintIdentifiesExactly` | src/otaman_bridge_ee/dcr_shim.py:515-530 | without line breaks two fingerprint inputs are equal exactly when software id and redirects agree up to order |
| `Fingerprints.FingerprintsAgreeExactly` | src/otaman_bridge_ee/dcr_shim.py:515-530 | for all inputs two fingerprint inputs are equal exactly when software id and sorted redirects have the same lines |
| `Fingerprints.FingerprintIsSharedExactly` | src/otaman_bridge_ee/dcr_shim.py:430-530 | an accepted registration shares its fingerprint with a different accepted one exactly when it has two redirects, or a line break in its software id or its one redirect hides a second |
| `Fingerprints.OneRedirectIdentifiesExactly` | src/otaman_bridge_ee/dcr_shim.py:430-530 | without line breaks exactly the accepted registrations with one redirect have a fingerprint of their own |
| `Fingerprints.LineBreakMergesFingerprints` | src/otaman_bridge_ee/dcr_shim.py:430-530 | three different registrations the shim accepts, with local redirects, that have one fingerprint |
| `Fingerprints.LoopbackExactly` | src/otaman_bridge_ee/dcr_shim.py:503-510 | a redirect is let through exactly when it is `http://localhost` or `http://127.0.0.1`, alone or followed by a port or a path |
| `Registration.SameClientExactly` | src/otaman_bridge_ee/dcr_shim.py:826-861 | two callers that succeed for one fingerprint have the same client id exactly when no deletion of the app fell between their answers |
| `Registration.ConcurrentRegistrationsShareOneApp` | src/otaman_bridge_ee/dcr_shim.py:826-861 | without a deletion at most one app is created for a fingerprint and every successful caller gets its id |
| `Registration.RacersShareTheApp` | src/otaman_bridge_ee/dcr_shim.py:826-861 | two callers that found nothing both end with the client of the one app created first |
| `Registration.LookUpEffect` | src/otaman_bridge_ee/dcr_shim.py:843-858 | a look-up that is answered takes the client of the name; without one the caller creates, or the second time fails |
| `Registration.CreateEffect` | src/otaman_bridge_ee/dcr_shim.py:846-861 | a create adds an app only where none has the name, whether or not its answer arrives, and an answered conflict leads to one more look-up |
| `Registration.IdentityProvider.FindOrCreateClient` | src/otaman_bridge_ee/dcr_shim.py:826-861 | one call, with a rival between search and create: no other app changes and a returned id is the registered one |
| `Durations.ParseDuration` | src/otaman_bridge/afk.py:86-118 | the scanning loop returns the meaning of the text, each error in its case |
| `Durations.FormatRemaining` | src/otaman_bridge/afk.py:121-138 | the loop over units prints the mixed-radix parts |
| `Durations.ChunksConcatenate` | src/otaman_bridge/afk.py:86-118 | parsing a concatenation gives the sum, or fails as its second part does |
| `Durations.DurationsAdd` | src/otaman_bridge/afk.py:86-118 | two accepted durations written one after the other mean their sum, or are too long |
| `Durations.NumberWithUnit` | src/otaman_bridge/afk.py:86-118 | what one number with one unit means, with the limits |
| `Durations.NoChunkIsInvalid` | src/otaman_bridge/afk.py:86-118 | a number without a unit, a unit without a number and an unknown unit are refused |
| `Durations.OutcomesExactly` | src/otaman_bridge/afk.py:86-118 | exactly blank text is empty, and only a positive duration below the limit is accepted |
| `Durations.PrintedTextParsesBack` | src/otaman_bridge/afk.py:86-138 | for every positive number of seconds the printed text without spaces parses back to it |
| `Durations.PrintedTextIsAcceptedExactly` | src/otaman_bridge/afk.py:86-138 | with its spaces it is accepted exactly when it has a single part |
| `Durations.CountsAreUnique` | src/otaman_bridge/afk.py:121-138 | the printed counts are the only bounded weeks, days, hours, minutes and seconds that make the number |
| `LinkIndex.RegistryLinkIndex.Rebuild` | src/otaman_bridge/registries/link_index.py:212-236 | after building, the maps answer every query as a scan of the list does |
| `LinkIndex.RegistryLinkIndex.SolutionsForOutcome` | src/otaman_bridge/registries/link_index.py:148-151 | the in-order ids of the entries with the outcome |
| `LinkIndex.RegistryLinkIndex.OutcomeForSolution` | src/otaman_bridge/registries/link_index.py:153-156 | the outcome of the last linked entry with the id |
| `LinkIndex.RegistryLinkIndex.DepsForSolution` | src/otaman_bridge/registries/link_index.py:158-161 | the references of the last entry with the id that has any |
| `LinkIndex.SolutionsForContains` | src/otaman_bridge/registries/link_index.py:212-236 | an id is listed for an outcome exactly when both are non-empty and some entry has both |
| `LinkIndex.OutcomeForIsLast` | src/otaman_bridge/registries/link_index.py:212-236 | the outcome found is that of the last linked entry, and none is found exactly when there is none |
| `LinkIndex.LinksAreInverseExactly` | src/otaman_bridge/registries/link_index.py:148-236 | the two look-ups are inverse to each other exactly when no id is linked to two outcomes |
| `LinkIndex.RefsContain` | src/otaman_bridge/registries/link_index.py:225-234 | exactly the non-empty references of kind `outcome` or `solution` are kept |
| `LinkIndex.RefsKeepOrder` | src/otaman_bridge/registries/link_index.py:225-234 | references keep their order and number |
| `LinkIndex.DepsForIsLast` | src/otaman_bridge/registries/link_index.py:212-236 | an id has the references of its last entry that has some |

## Left out

- HTTP routing, Telegram, the runner, Zitadel's client, endpoint files, command line and installers: sends and server calls succeed or fail as parameters.
- YAML and SQLite internals, file watching, real threads: values, maps and interleaved steps stand for them.
- Password and token verification, the confirmation ledger and the lifecycle registry in `otaman_core`: not part of this model; the ledger is a set of records.
- PM sync: only that a message is or is not given to it.
- Wording of cards, bodies, acks and logs, `_extract_mode`, MCP tool formatting, legacy `.maestro` paths: no claim depends on them.
- `sweep_orphans`, idle detection, stop-notify, pending-login and session stores, auth provider chain: smaller machines of the same kind.
- `SessionRegistry` operations a human or a clean-up may call while spawns run: `Spawn` has claims and expiries only.
- The view action `details`: it sends a message and changes no table.
- Text is compared and lowered for ASCII letters and digits; other letters and digits stay as they are. The inbox printer's reserved words are all ASCII, so nothing is lost there.
- `InboxStore.SlugIsPlain`: letters outside ASCII that lower to ASCII ones become `-` in the model; the claim holds for either.
- `Durations.ParseDuration`: decimal digits outside ASCII, which the regular expression takes too, are invalid in the model.
- `Spawn.ExpiryReleasesOnlyItsOwn`: the repository has no expiry callback; the model's does what the manager's documentation asks for.
- `BusService.BusSurfaceService.ScanOnce`: a stop of the daemon during an await is a step of the machine but not of this method.
- File system errors other than an existing name in `write_message`, names with path separators, and file permissions.
- `strftime` does not pad years before 1000 on every system; four digits are modelled.
- Python's limit on the digits of an integer literal, reached only by durations longer than four thousand digits.
- `InboxQueries.MarkingChangesExactlyReadAt`: for files the printer wrote; in a file edited by hand a second `read_at` line can hide the first.
- `InboxService.Inbox.WriteMessage`: keeps the store's form when no header value has a line break, which the code does not check.
- `ApprovalService.PendingApproval.Wait`: the calls of other threads come as a finite list of turns, after which nothing happens; which of them find the entry is the machine's subject.
- `RefreshStore.RefreshTokenStore.Load`: an unreadable file is one case, whatever is wrong with it.
