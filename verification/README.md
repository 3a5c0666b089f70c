# AutoDeploy: a verified model

This project models the parts of AutoDeploy on which its safety rests and proves what they are
for. `dafny verify dfyconfig.toml` checks everything.

- **Secret redaction** (`Text`, `Matcher`, `Ring`, `Redactor`, `Base64`, `Patterns`). `Text` says
  what redaction means: replace leftmost-longest matches in the whole input. `Patterns` says what is
  matched: a secret, or its base64 with or without padding. `Matcher` builds the Aho-Corasick
  automaton the way the program does, over sorted edge lists. `Redactor.Writer` is the streaming
  writer with its two holdbacks, its candidate ring and its work budget. The end of the chain is
  `Patterns.RedactStream`: for any secrets and any split of the input, a run that ends well has
  written exactly the redaction of the input; a run that fails has written a beginning of it and has a
  reason from a short list; and in no case does what was written contain a secret or its base64.
- **Quota ledger** (`Ledger`, `LedgerSize`, `LedgerText`, `QuotaProtocol`, `QuotaRestart`,
  `QuotaService`). `Ledger` is the ledger as a value with its six edits, `LedgerSize` the length of its
  file and `LedgerText` the file itself. `QuotaProtocol` is the crash-safe protocol: every effect on
  memory, ledger file, directories and limits is one step, a crash may fall between any two, and a
  ledger write has three outcomes. `QuotaRestart` is about what a restart can bring back.
  `QuotaService.Service` is the daemon, operation by operation; every effect it performs is a step of
  the protocol, so the theorems about runs hold for it.
- **Fences and leases** (`Utf8`, `FenceStore`, `FenceProtocol`, `Agent`). The fence directory with its
  manifest, runs of the agent over it with crashes and losses, and the lease loop.
- **Checkout start** (`Checkout`, `CheckoutProtocol`, `CheckoutClose`, `CheckoutServer`). Registry,
  one-use lease and the durable stages of a reservation; any interleaving of start and close
  requests, sweeps, invalidations, expiries and background revocations; what a close achieves; and
  the handlers as they run amid that.
- **Container creation** (`Docker`, `ContainerEnv`). The container's environment in canonical form,
  and any number of concurrent calls against an engine whose only promise is that names are unique.
- **Secret envelopes** (`Envelope`, `Vault`). The binary form and the authenticated data, and
  encryption, decryption and key rotation over an ideal authenticated cipher.
- **Password verifiers** (`Strings`, `Base64`, `Phc`), **route documents** (`Route`) and the
  **deployment lifecycle** (`Deployment`).

What is assumed of the world, and nothing else: an inode number is not reused while the ledger
names it, and opening a workspace fails only when it is absent; random handles are new and not
zero; SHA-256 does not collide; quota limits change only through the service; a sealed ciphertext
is new and opens only under its own key and data; a key ID never changes its key; the file system
makes a rename atomic; other people's containers do not carry the managed label. A redaction
destination is judged by what it took from this writer; a Write after a Close starts a new text.
System calls, the network, clocks and randomness are parameters or unconstrained choices; what an
operation does "without faults" is stated for the calls in which none of its own system calls
failed. Integers are unbounded; the widths the program relies on are written out (32-bit IDs and
length prefixes, the 64-bit work counter).

Where the program and its documentation part ways the model follows the program, and the exact
condition is proved:

- A ledger longer than 1 MiB is refused on restart (`internal/checkoutquota/quota_linux.go:1062`), so
  the daemon accepts its own ledger if and only if it fits (`QuotaProtocol.RestartAcceptsOwnLedger`).
  2660 records always fit and 9300 never do; runs reach that many, and a crash there is final
  (`LedgerSize.FewRecordsFit`, `QuotaProtocol.OversizedLedgerIsReachable`,
  `QuotaProtocol.OversizedCrashIsFinal`).
- `Ack` takes any handle, also that of an offer left by an earlier process. A record that was not
  durably active at a restart stays inactive as long as only offers of the running process are
  acknowledged, which is how the daemon's own connections use it (`QuotaRestart.NoResurrection`). For
  any acknowledgements at all, a revival is possible if and only if a record of an earlier process
  still stands offered or granting under its limits (`QuotaRestart.RevivesExactly`). A start without
  faults leaves none standing, so nothing is ever revived after it (`QuotaService.Service.New`,
  `QuotaRestart.BuriedForGood`); one whose reconciliation failed on an offer can leave it, and then it
  can be revived (`QuotaRestart.StandingRevives`, with a run from the first start on in
  `QuotaRestart.RevivalIsReachable`).
- A new deployment is valid unless it is created in the first microsecond after the zero time: the
  zero test comes before the rounding (`internal/deployment/deployment.go:98-101`;
  `Deployment.NewIsValid`, `Deployment.FirstMicrosecond`).
- A fence ID with a hyphen makes service names ambiguous: the route document determines everything
  but the place where release and fence are separated (`Route.DocumentDecides`,
  `Route.HyphenIsAmbiguous`).
- A close does not always revoke the token. After a reservation was marked closed a working token can
  still reach the agent if and only if a start had already passed the store's last gate
  (`StartCheckout`) and its token is not gone (`CheckoutClose.CloseMissesExactly`); a start that is
  still activating, minting or about to be marked running is refused by the store, which has consumed
  the reservation (`CheckoutClose.WhatTheMarkLeaves`). A close that saw the lease always settles the
  matter; one that did not need not (`CheckoutClose.SeenMeansSettled`,
  `CheckoutClose.CloseMissesAToken`). `CheckoutClose.LiveExactly` is the exact condition for any
  reservation in any state.
- Losing the manifest and every fence file together is not detected, and is the only loss that is
  not (`FenceProtocol.LossIsDetected`); fences then need not increase
  (`FenceProtocol.TotalLossForgets`).

## Model

| member | source | states |
|---|---|---|
| `Matcher.SearchEdges` | internal/crypto/redactor.go:60-67 | binary search returns the boundary between smaller and not smaller bytes |
| `Matcher.FindEdge` | internal/crypto/redactor.go:60-67 | the edge labelled by the byte, or that there is none |
| `Matcher.InsertEdge` | internal/crypto/redactor.go:84-89 | the edges stay sorted and gain exactly the new one |
| `Matcher.Advance` | internal/crypto/redactor.go:47-58 | from the longest suffix of a text that is a trie path to the longest suffix of the text with one byte more |
| `Matcher.AddNode` | internal/crypto/redactor.go:78-90 | a new child keeps the trie a trie with distinct labels |
| `Matcher.ThreadByte` | internal/crypto/redactor.go:76-92 | one byte of a pattern, found or added, or refused only when the node limit is truly exceeded |
| `Matcher.InsertPattern` | internal/crypto/redactor.go:71-97 | the trie spells exactly the prefixes of the patterns so far and marks exactly the patterns |
| `Matcher.BuildTrie` | internal/crypto/redactor.go:69-97 | succeeds if and only if the distinct prefixes fit the node limit |
| `Matcher.FailureOf` | internal/crypto/redactor.go:106-118 | the longest proper suffix of the child's label that is a trie path |
| `Matcher.LinkChild` | internal/crypto/redactor.go:119-127 | failure link, nearest terminal ancestor and longest output of the child are right |
| `Matcher.LinkChildren` | internal/crypto/redactor.go:105-129 | all children of one node are linked and queued, shallower nodes first |
| `Matcher.LinkFailures` | internal/crypto/redactor.go:99-130 | the breadth-first pass links every node of the trie |
| `Matcher.NewMatcher` | internal/crypto/redactor.go:69-132 | the automaton is correct for its patterns, and is built if and only if the prefixes fit the node limit |
| `Text.LeftmostLongest` | internal/crypto/redactor.go:320-358 | the first match, and of those that start there the longest, gives way to the marker, and the rest is redacted for itself |
| `Text.NoPatternNoChange` | internal/crypto/redactor.go:320-358 | a text without patterns is left alone |
| `Redactor.ChainStart` | internal/crypto/redactor.go:271-281 | a chain of output links starts at the longest pattern that ends here |
| `Redactor.ChainStep` | internal/crypto/redactor.go:272-279 | each output link leads to the next shorter pattern that ends here and skips none |
| `Redactor.ScanMeaning` | internal/crypto/redactor.go:364-370 | the state's output is positive if and only if some pattern ends here |
| `Ring.RecordHit` | internal/crypto/redactor.go:295-298 | recording a match keeps the ring equal to "start to longest match seen" on its window |
| `Ring.ClearOne` | internal/crypto/redactor.go:347-353 | clearing a passed slot touches no start still in the window |
| `Ring.WindowMoves` | internal/crypto/redactor.go:354-356 | after a resolved piece the ring agrees with the map on the moved window |
| `Redactor.WriteAll` | internal/crypto/redactor.go:406-421 | all of the data was taken, or a prefix and the destination is at fault |
| `Redactor.FewEndingsFit` | internal/crypto/redactor.go:271-315 | where at most three patterns end at any position, recording costs at most seven units a byte and the budget suffices below the overflow guard |
| `Redactor.ThreePatternsFit` | internal/crypto/redactor.go:190-203 | three patterns never end in more than three ways, so they fit the budget |
| `Redactor.Writer.ConsumeMatchWork` | internal/crypto/redactor.go:301-315 | a unit is granted if and only if the budget for the bytes seen allows it, without wrap-around |
| `Redactor.Writer.RecordMatch` | internal/crypto/redactor.go:283-299 | the match is recorded or the budget is spent; the overflow branch is never taken |
| `Redactor.Writer.RecordState` | internal/crypto/redactor.go:272-280 | one state of the output chain: its match recorded and nothing skipped down to the next, or the budget is spent |
| `Redactor.Writer.RecordSourceMatches` | internal/crypto/redactor.go:271-281 | after the byte the ring holds the longest match at every start of the window, or the budget is spent |
| `Redactor.Writer.ClearCandidates` | internal/crypto/redactor.go:347-353 | exactly the starts inside the replaced piece are forgotten |
| `Redactor.Writer.ResolveOne` | internal/crypto/redactor.go:320-358 | one leftmost-longest piece leaves the window as the reference says |
| `Redactor.Writer.ResolveSource` | internal/crypto/redactor.go:320-358 | resolves as far as no later byte can change the outcome, or everything on the final call |
| `Redactor.Writer.EmitSafe` | internal/crypto/redactor.go:360-387 | what is emitted is free of patterns and the last maxPattern-1 bytes stay back; a detected pattern has not been written |
| `Redactor.Writer.ScanSafe` | internal/crypto/redactor.go:364-370 | stops at the first byte that completes a pattern, and at no other |
| `Redactor.Writer.Flush` | internal/crypto/redactor.go:371-386 | delivers all but the holdback, or everything, or the destination is at fault |
| `Redactor.Writer.ReadByte` | internal/crypto/redactor.go:256-263 | after the byte the window and the ring are those of the longer text, or the budget is spent |
| `Redactor.Writer.AcceptByte` | internal/crypto/redactor.go:255-267 | one more source byte keeps the writer's invariant, or it fails with a cause, what passed the scan being part of the redaction |
| `Redactor.Writer.Accept` | internal/crypto/redactor.go:254-269 | any number of bytes do |
| `Redactor.Writer.Write` | internal/crypto/redactor.go:228-252 | takes all of the input or fails for good; a failed writer takes nothing and writes nothing |
| `Redactor.Writer.Close` | internal/crypto/redactor.go:389-404 | everything since the last Close has been delivered as exactly its redaction, and every pattern that ended in the input and every byte of it was paid for within the budget |
| `Redactor.Writer.FlushAll` | internal/crypto/redactor.go:393-402 | both holdbacks go out and the output is the redaction of the segment, or there is a cause |
| `Redactor.Writer.DeliveredIsPrefix` | internal/crypto/redactor.go:228-269 | at every earlier moment the destination holds a prefix of the result, whatever follows, with both holdbacks below one maximum pattern |
| `Redactor.Writer.OutputIsSafe` | internal/crypto/redactor.go:360-404 | in every state, after any failure or partial write, the destination contains no pattern |
| `Patterns.IndexBytes` | internal/crypto/redactor.go:212-226 | the first occurrence, or -1 when there is none |
| `Patterns.ContainsMarkerConflict` | internal/crypto/redactor.go:208-210 | whether the marker itself contains the pattern |
| `Patterns.MarkerText` | internal/crypto/redactor.go:208-210 | the marker reads [REDACTED] |
| `Patterns.PaddedExactly` | internal/crypto/redactor.go:190-190 | the padded spelling is the only text of whole groups that decodes to the secret once its padding is cut |
| `Patterns.DerivedExactly` | internal/crypto/redactor.go:178-206 | the patterns are exactly the nonempty values and the texts that canonically decode to one, padded or not |
| `Patterns.NothingRevealed` | internal/crypto/redactor.go:178-206 | a text without patterns nowhere contains a value or its base64 |
| `Patterns.RedactionPatterns` | internal/crypto/redactor.go:178-206 | the distinct spellings of all values, refused if and only if a limit is exceeded or one conflicts with the marker |
| `Patterns.NewRedactingWriter` | internal/crypto/redactor.go:157-176 | exactly when a writer can be made, and that it starts valid for the derived patterns |
| `Patterns.RedactStream` | internal/crypto/redactor.go:228-404 | whole runs: the exact output of a good run, a prefix of it from every run, no value and no base64 of one in any output, the reasons a run may fail, the budget every good run kept, and within it exactly when a run succeeds |
| `Patterns.FailureExcused` | internal/crypto/redactor.go:228-404 | every failure comes from the destination, from a pattern in the redaction of the whole input, or from the budget |
| `Patterns.FailureIsPrefix` | internal/crypto/redactor.go:228-404 | what a failed run delivered is a prefix of the redaction of the whole input |
| `Patterns.OneSecretFitsBudget` | internal/crypto/redactor.go:190-203 | one secret has few endings everywhere and never runs out of budget |
| `Patterns.FewEndingsWithinBudget` | internal/crypto/redactor.go:271-315 | with few endings no beginning of the input exceeds the budget |
| `Patterns.RedactWithinBudget` | internal/crypto/redactor.go:228-404 | with one secret, or with few endings, and a destination that does not fail, a run succeeds if and only if the redacted text contains no pattern |
| `Ledger.NamesDistinct` | internal/checkoutquota/quota_linux.go:1289-1291 | distinct project IDs have distinct workspace names |
| `Ledger.PruneTerminal` | internal/checkoutquota/quota_linux.go:859-875 | keeps entries of the last ten minutes, at most 1024, and drops such an entry only for entries at least as recent |
| `Ledger.Oldest` | internal/checkoutquota/quota_linux.go:867-872 | an entry completed no later than any other |
| `Ledger.CheckLedger` | internal/checkoutquota/quota_linux.go:1253-1288 | the daemon's check, with its sets of seen IDs and handles, decides validity |
| `Ledger.CheckTerminals` | internal/checkoutquota/quota_linux.go:1277-1286 | its second half: replay entries match their keys and no active handle |
| `LedgerSize.EncodedLength` | internal/checkoutquota/quota_linux.go:1087-1091 | the length of the marshalled ledger, field by field, with the fractions of completion times |
| `LedgerSize.FractionExact` | internal/checkoutquota/quota_linux.go:85-85 | a printed fraction of a second has exactly the digits it needs and no trailing zero |
| `LedgerSize.TimeBounds` | internal/checkoutquota/quota_linux.go:85-85 | a completion time takes 22 to 32 bytes, 22 exactly for a whole second |
| `LedgerText.LengthIsSize` | internal/checkoutquota/quota_linux.go:67-98 | the file, written out with its maps in any order, is as long as the computed size |
| `LedgerSize.LoadLedger` | internal/checkoutquota/quota_linux.go:1059-1079 | reads back exactly a ledger that fits, is for this mount and identity, and is valid, and what every record and entry then satisfies |
| `LedgerSize.ManyRecordsDoNotFit` | internal/checkoutquota/quota_linux.go:1062-1066 | 9300 records are too many whatever they hold |
| `LedgerSize.FewRecordsFit` | internal/checkoutquota/quota_linux.go:1062-1066 | 2660 records and a full replay window always fit |
| `Ledger.ApplyValid` | internal/checkoutquota/quota_linux.go:1253-1288 | every edit of a valid ledger is valid, and the counter neither falls nor passes 2^32-1 |
| `Ledger.ApplyForward` | internal/checkoutquota/quota_linux.go:552-875 | no edit moves any ID backward in its life |
| `QuotaProtocol.BlocksAreEnough` | internal/checkoutquota/quota.go:74-83 | so many 512-byte blocks hold the bytes asked for, and one less does not |
| `QuotaProtocol.StepInv` | internal/checkoutquota/quota_linux.go:552-875 | every step, crash and restart included, keeps the protocol's invariant |
| `QuotaProtocol.WriteAheadAccess` | internal/checkoutquota/quota_linux.go:633-725 | in every state of every run the checkout identity owns a workspace only while memory and disk both grant it, with its project set and as many blocks and inodes as its record says |
| `QuotaProtocol.RestartAcceptsOwnLedger` | internal/checkoutquota/quota_linux.go:1049-1079 | at any moment of any run the ledger file is accepted if and only if it fits the read limit |
| `QuotaProtocol.ReservationsPileUp` | internal/checkoutquota/quota_linux.go:570-587 | runs reach any number of reserved records |
| `QuotaProtocol.OversizedLedgerIsReachable` | internal/checkoutquota/quota_linux.go:570-587 | hence a ledger the daemon cannot read back |
| `QuotaProtocol.OversizedCrashIsFinal` | internal/checkoutquota/quota_linux.go:1059-1066 | after a crash on such a ledger no run brings the daemon up again |
| `QuotaProtocol.NeverBackward` | internal/checkoutquota/quota_linux.go:1081-1120 | over whole runs, failed writes, crashes and restarts, no ID goes backward and the counter never wraps |
| `QuotaProtocol.IdsNeverReused` | internal/checkoutquota/quota_linux.go:559-577 | IDs taken up later in a run are strictly greater |
| `QuotaRestart.NoResurrection` | internal/checkoutquota/quota_linux.go:1121-1216 | a record not durably active when the daemon restarted is never active again, as long as only own offers are acknowledged |
| `QuotaRestart.StepFrozen` | internal/checkoutquota/quota_linux.go:552-875 | once no record of an earlier process stands under its limits, no step puts one there |
| `QuotaRestart.NoResurrectionAtAll` | internal/checkoutquota/quota_linux.go:503-508 | from then on nothing is revived, whatever is acknowledged and through whatever crashes |
| `QuotaRestart.BuriedForGood` | internal/checkoutquota/quota_linux.go:503-508 | the state `New` reaches without faults is kept by every continuation |
| `QuotaRestart.StandingRevives` | internal/checkoutquota/quota_linux.go:633-688 | a record of an earlier process left standing by reconciliation is made active by an acknowledgement |
| `QuotaRestart.RevivesExactly` | internal/checkoutquota/quota_linux.go:633-688 | with no write pending, some continuation revives a record if and only if one of an earlier process stands offered or granting under its limits |
| `QuotaRestart.OfferIsReachable` | internal/checkoutquota/quota_linux.go:552-629 | from every first state an allocation reaches an offer in order |
| `QuotaRestart.RevivalIsReachable` | internal/checkoutquota/quota_linux.go:1121-1216 | a run from a first state through crash, restart and an unreconciled offer to a revived record |
| `QuotaService.Service.Persist` | internal/checkoutquota/quota_linux.go:1081-1120 | success, failure without effect, or failure after the rename |
| `QuotaService.Service.Save` | internal/checkoutquota/quota_linux.go:574-577 | memory follows the disk on reported success only |
| `QuotaService.Service.Allocate` | internal/checkoutquota/quota_linux.go:552-629 | an offer is a root-only empty workspace with the next ID, under a limit of as many blocks as its bytes need and of its inodes; refused as invalid exactly outside the configured limits; everything else is untouched |
| `QuotaService.Service.FinishOffer` | internal/checkoutquota/quota_linux.go:592-629 | inode, project, limits, then ready and offered, in that order |
| `QuotaService.Service.ApplyLimits` | internal/checkoutquota/quota_linux.go:599-610 | project, blocks and inodes are in force when it succeeds |
| `QuotaService.Service.ActiveAckStatus` | internal/checkoutquota/quota_linux.go:341-352 | success if and only if an active record has the capability; never a transition |
| `QuotaService.Service.Ack` | internal/checkoutquota/quota_linux.go:633-688 | for any handle: an offer becomes a healthy active workspace or no new active record appears; without faults, granted if and only if it can be; after a single fault the offer is as it was or retired |
| `QuotaService.Service.GrantAccess` | internal/checkoutquota/quota_linux.go:664-675 | owner and mode are given only for a granting record that is durable |
| `QuotaService.Service.WithdrawOffer` | internal/checkoutquota/quota_linux.go:689-712 | revoked first, then releasing, then retired; never active |
| `QuotaService.Service.RevokeWorkspace` | internal/checkoutquota/quota_linux.go:713-725 | the workspace is root's with no permission bits |
| `QuotaService.Service.CleanupLocked` | internal/checkoutquota/quota_linux.go:726-753 | a releasing record is retired, or nothing in memory changes; another inode or leftover permissions are denied |
| `QuotaService.Service.HandleAllocateConn` | internal/checkoutquota/quota_linux.go:376-403 | whatever other connections do between the two messages, a workspace becomes active only if the offer was sent and acknowledged; without faults it is otherwise retired at once |
| `QuotaService.Service.Dismantle` | internal/checkoutquota/quota_linux.go:734-753 | project cleared, limits cleared only after usage was seen to be zero, record retired |
| `QuotaService.Service.RemoveRecord` | internal/checkoutquota/quota_linux.go:746-753 | limits cleared, entry removed, record replaced by its replay entry, or nothing in memory changes |
| `QuotaService.Service.CompleteLocked` | internal/checkoutquota/quota_linux.go:848-858 | the record leaves and its replay entry joins a pruned window |
| `QuotaService.Service.Release` | internal/checkoutquota/quota_linux.go:800-845 | exactly who is released, who is told "completed" and who is denied; without faults a match is retired |
| `QuotaService.ReleaseIsRemembered` | internal/checkoutquota/quota_linux.go:821-825 | a completed release can be replayed as long as no entry is as recent |
| `QuotaService.HealthyExactly` | internal/checkoutquota/quota_linux.go:1146-1173 | a record is healthy if and only if its own directory belongs to the checkout identity, mode 0700, in its project and under its limits |
| `QuotaService.Service.ReconcileReserved` | internal/checkoutquota/quota_linux.go:1128-1144 | a reserved record with a directory is untouched, one without is dropped |
| `QuotaService.Service.ReconcileActive` | internal/checkoutquota/quota_linux.go:1146-1173 | a healthy active record is untouched, any other is revoked and set releasing |
| `QuotaService.Service.ReconcileUnfinished` | internal/checkoutquota/quota_linux.go:1175-1213 | an unfinished record is retired, whatever an earlier retirement had reached, except a ready or offered one no longer under its limits, which stays so |
| `QuotaService.Service.Reconcile` | internal/checkoutquota/quota_linux.go:1124-1216 | without faults one pass brings every record to its end and leaves the others alone |
| `QuotaService.Service.New` | internal/checkoutquota/quota_linux.go:447-510 | from a crash in any state: without faults it succeeds if and only if the ledger is accepted, for its own ledger if and only if it fits; then every record is brought to its end, active are exactly those that were active and in use, and nothing else is or can be revived |
| `QuotaService.Service.Resume` | internal/checkoutquota/quota_linux.go:500-509 | the part of it after the ledger was accepted |
| `FenceStore.BuildName` | internal/agent/state/state.go:88-99 | the builder loop computes the encoding |
| `FenceStore.DecodeEncode` | internal/agent/state/state.go:88-99 | the encoding has a left inverse |
| `FenceStore.FilesDistinct` | internal/agent/state/state.go:79-99 | distinct environments never share a file |
| `FenceStore.FileIsNotIndex` | internal/agent/state/state.go:45-49 | no environment's file is the manifest |
| `FenceStore.LoadIsConfirmed` | internal/agent/state/state.go:100-150 | a loaded fence is a valid one of this environment, in its own file and listed in the manifest; a first encounter is one that neither knows |
| `Utf8.EncodedIsValid` | internal/crypto/crypto.go:192-192 | the bytes of any Unicode characters are well-formed |
| `Utf8.ValidIsEncoded` | internal/crypto/crypto.go:192-192 | and whatever is well-formed is the bytes of some characters |
| `FenceStore.Store.WriteFile` | internal/agent/state/state.go:260-293 | the three outcomes of an atomic write |
| `FenceStore.Store.HasAnyFenceFile` | internal/agent/state/state.go:219-230 | whether any fence file exists |
| `FenceStore.Store.LoadIndex` | internal/agent/state/state.go:191-214 | the manifest as trusted, or fail closed |
| `FenceStore.Store.LoadFence` | internal/agent/state/state.go:122-150 | the load, case by case |
| `FenceStore.Store.AddToIndex` | internal/agent/state/state.go:239-258 | the manifest gains the name, or is replaced when it cannot be trusted |
| `FenceStore.Store.Save` | internal/agent/state/state.go:166-182 | nothing, the fence alone, or the fence and the manifest; never the manifest alone |
| `FenceStore.LoadAfterSave` | internal/agent/state/state.go:122-182 | a completed save is what the next load returns, and no other load changes |
| `FenceProtocol.NextAcceptable` | internal/agent/client/run.go:149-160 | after a completed save exactly the greater fences are acceptable, none once reconciliation is required, and every one where nothing was saved |
| `FenceProtocol.StepInv` | internal/agent/state/state.go:122-182 | every step, crash and loss keeps the protocol's invariant |
| `FenceProtocol.FencesIncrease` | internal/agent/client/run.go:149-167 | over every run executed fences strictly increase per environment and none is executed after a mark |
| `FenceProtocol.LossIsDetected` | internal/agent/state/state.go:100-150 | an accepted fence is returned or the load fails, unless manifest and all fence files are gone, and then it is always lost |
| `FenceProtocol.TotalLossForgets` | internal/agent/state/state.go:191-200 | for every environment and any two fences a run that executes the one, loses everything, and executes the other |
| `FenceProtocol.NoFalseAlarm` | internal/agent/state/state.go:100-121 | without crash, failure or loss no load fails |
| `Agent.ReportsOnce` | internal/agent/client/run.go:173-220 | one report at most, none after a refusal, a cancel-ack exactly when cancellation was requested |
| `Agent.ReportsTheOutcome` | internal/agent/client/run.go:207-220 | every report repeats the one outcome the executor returned: success, failure with its class, operation and digest |
| `Agent.ResultIsReported` | internal/agent/client/run.go:173-220 | a result that comes before a refusal or the end of the context is always reported, as a cancellation exactly when one was asked for |
| `Agent.LossIsNotReported` | internal/agent/client/run.go:183-203 | after a refusal or the end of the context the executor is cancelled and nothing is reported; only a refusal marks |
| `Agent.FirstRenewal` | internal/agent/client/run.go:171-181 | the first renewal has sequence number 1 |
| `Agent.LostIsRepeated` | internal/agent/client/run.go:179-197 | the next renewal repeats the number of a lost one and advances after an answered one |
| `Agent.Agent.Begin` | internal/agent/client/run.go:150-164 | the fence is durable before execution starts; without faults it starts if and only if the lease is acceptable, and then exactly greater fences are acceptable |
| `Agent.Agent.Save` | internal/agent/state/state.go:166-182 | a save is a path of the fence protocol |
| `Agent.Agent.MarkReconciliationRequired` | internal/agent/client/run.go:222-235 | what is written is the stored fence with the flag set, the fence itself unchanged; an unreadable one is left alone |
| `Agent.ScriptObeys` | internal/agent/client/run.go:173-204 | for every sequence of signals: renewal n carries one more than the answered renewals, one report at most, no return while executing |
| `Agent.Agent.Withdraw` | internal/agent/client/run.go:183-203 | cancels, marks a refused lease so that no fence is acceptable any more, and still waits for the executor |
| `Agent.Agent.RenewLoop` | internal/agent/client/run.go:173-204 | the loop does exactly what the script of its signals says |
| `Agent.Agent.RunLease` | internal/agent/client/run.go:149-205 | nothing is executed unless the fence was acceptable and saved; the trace is the script and obeys the lease rules; without faults an acceptable lease is executed, and afterwards exactly greater fences are acceptable, or none after a refusal |
| `Agent.AwaitResult` | internal/agent/client/run.go:186-203 | waits for the executor's result and ignores everything else |
| `CheckoutProtocol.StepInv` | internal/agent/http/checkout.go:276-395 | every step of every request keeps the protocol's invariant |
| `CheckoutProtocol.OneActivation` | internal/agent/http/checkout.go:109-119 | in-flight activations plus installed leases never exceed one per reservation |
| `CheckoutProtocol.OneToken` | internal/agent/http/checkout.go:297-334 | at most one token is ever delivered per reservation |
| `CheckoutProtocol.FailureFreesClaim` | internal/agent/http/checkout.go:303-316 | after a failed activation nobody holds the reservation and it can be claimed again unless closed |
| `CheckoutProtocol.NoClaimAfterClose` | internal/agent/http/checkout.go:109-148 | no start is claimed once the reservation was marked closed |
| `CheckoutProtocol.CloseRevokes` | internal/agent/http/checkout.go:352-395 | a finished close that saw the lease has revoked the only token delivered |
| `CheckoutProtocol.OneUsePerLease` | internal/githubapp/checkout.go:221-251 | over every run a lease hands its token out once at most, to an agent or to the local pipe |
| `CheckoutProtocol.StepStore` | internal/store/postgres/github_repository.go:137-212 | every step keeps requests and leases in agreement with the durable stages, and a marked reservation is consumed |
| `CheckoutProtocol.OneLease` | internal/store/postgres/github_repository.go:137-212 | over every run a reservation has one lease at most, however often its start is claimed |
| `CheckoutClose.SettledForGood` | internal/agent/http/checkout.go:276-395 | once a reservation is held by lost starts only and open to no new one, no delivered token ever works |
| `CheckoutClose.WhatTheMarkLeaves` | internal/store/postgres/github_repository.go:137-212 | after the mark a reservation is unsettled if and only if a start is through the store's last gate with its token not gone |
| `CheckoutClose.SeenMeansSettled` | internal/agent/http/checkout.go:380-393 | a finished close that saw the lease has settled its reservation |
| `CheckoutClose.NobodyHoldsNobodyGets` | internal/agent/http/checkout.go:109-148 | a reservation closed while nobody holds it never sees a delivery |
| `CheckoutClose.NotLostDelivers` | internal/agent/http/checkout.go:297-334 | a start the store can still let through, or has, can end with a working token |
| `CheckoutClose.LiveExactly` | internal/agent/http/checkout.go:276-395 | in every state of every run a working token can still turn up if and only if the reservation is not settled |
| `CheckoutClose.CloseMissesExactly` | internal/agent/http/checkout.go:276-395 | after the mark that is so if and only if a start is through the store's last gate with its token not gone |
| `CheckoutClose.CloseMissesAToken` | internal/agent/http/checkout.go:297-395 | a run with a finished close that consumed the reservation without seeing a lease, and a working token delivered all the same |
| `CheckoutServer.Server.Sweep` | internal/agent/http/checkout.go:58-64 | exactly the entries that have not expired stay, as they were |
| `CheckoutServer.Server.HandleBegin` | internal/agent/http/checkout.go:69-74 | a new entry that only its server, attempt and fence can start, reserved in the store and held by nobody |
| `CheckoutServer.Server.ClaimStart` | internal/agent/http/checkout.go:109-119 | claimed if and only if claimable; then the request is the only holder and the reservation was never closed |
| `CheckoutServer.Server.ReleaseStart` | internal/agent/http/checkout.go:123-129 | afterwards nobody holds the reservation, and it is claimable unless closed or gone |
| `CheckoutServer.Server.SetLease` | internal/agent/http/checkout.go:131-137 | a close will find this lease, and no other was in its place |
| `CheckoutServer.Server.DeliverToken` | internal/githubapp/checkout.go:221-232 | delivered if and only if usable, and then the only delivery the reservation ever has |
| `CheckoutServer.Server.Disable` | internal/githubapp/checkout.go:164-181 | after a durable disable no start of the reservation passes a gate, and its lease cannot be used |
| `CheckoutServer.Server.BeginMintAttempt` | internal/store/postgres/github_repository.go:137-160 | passed if and only if the store has the row reserved and agrees; a refusal closes the row as far as the store lets it |
| `CheckoutServer.Server.ActivateLease` | internal/githubapp/checkout.go:282-317 | exactly when a usable lease results; otherwise the row is closed and the minted token revoked, and the errors say what failed and whether revocation is still due |
| `CheckoutServer.Server.StartLease` | internal/githubapp/checkout.go:124-137 | the last gate: passed if and only if the lease is usable and the store has the row active and agrees |
| `CheckoutServer.Server.ServeClaimed` | internal/agent/http/checkout.go:303-334 | from the claim to the only delivery, or back to a reservation nobody holds |
| `CheckoutServer.Server.HandleStart` | internal/agent/http/checkout.go:276-334 | amid any interference: a delivered token is the only one of its reservation, a stranger changes nothing; undisturbed, delivered if and only if the row is reserved and every party agrees |
| `CheckoutServer.Server.CloseSeen` | internal/githubapp/checkout.go:186-203 | succeeds exactly when the store consumed the row and, with a lease in sight, its token is gone; the token is revoked even when the store refuses |
| `CheckoutServer.Server.MarkClosed` | internal/agent/http/checkout.go:142-148 | no start can be claimed any more, and a close that saw the lease, or finds no start through the store's last gate with a live token, leaves the reservation settled |
| `CheckoutServer.Server.HandleClose` | internal/agent/http/checkout.go:352-395 | amid any interference: success closes the reservation for good and a working token can still turn up if and only if a start was through the store's last gate and its token is not gone; a stranger changes nothing |
| `CheckoutServer.Server.CloseOwned` | internal/agent/http/checkout.go:376-395 | the same from the snapshot on |
| `CheckoutServer.Server.BeginThenStart` | internal/agent/http/checkout.go:58-119 | undisturbed and with every party agreeing, a start delivers a working token if and only if it is the owner's and comes within 1800 seconds of the begin |
| `CheckoutServer.Server.BeginThenClose` | internal/agent/http/checkout.go:58-148 | likewise a close succeeds, and then no token can ever work |
| `Docker.LabelsIdentify` | internal/runtime/docker/labels.go:56-117 | a container's labels are selected by its own identity and no other |
| `Docker.SelectedSpells` | internal/runtime/docker/labels.go:56-117 | whoever is selected for an identity carries each of its fields under its own label |
| `Docker.CarriesExactly` | internal/runtime/docker/labels.go:56-117 | and for a valid identity only those are selected |
| `Docker.OpaqueIsContained` | internal/runtime/docker/validate.go:22-42 | an identifier has no character that could end a name, a path, a URL or a rule |
| `Docker.StepInv` | internal/runtime/docker/run.go:281-349 | every step of every call keeps names and labels in agreement |
| `Docker.OneContainer` | internal/runtime/docker/run.go:281-349 | at most one container ever carries an identity's labels |
| `Docker.SameContainer` | internal/runtime/docker/run.go:281-349 | all successful calls for an identity, at any moments, return the same container, with its name and labels |
| `Docker.ConflictIsResolved` | internal/runtime/docker/run.go:319-344 | after a name conflict the holder is adopted if and only if it carries this identity's labels |
| `Docker.ConflictHasHolder` | internal/runtime/docker/run.go:319-332 | the name is still held when the call looks again |
| `Docker.Client.Lookup` | internal/runtime/docker/run.go:249-266 | one match is taken, none lets the call go on; with everything in order it fails only on a foreign name |
| `Docker.Client.CreateContainer` | internal/runtime/docker/run.go:318-345 | created, name taken, or no answer |
| `Docker.Client.Ensure` | internal/runtime/docker/run.go:281-349 | whatever others do meanwhile, the result has the name and, label by label, the identity asked for, and with the engine answering the call fails only when a foreign container holds the name; undisturbed it creates nothing where one exists and otherwise exactly one |
| `Docker.Client.Obtain` | internal/runtime/docker/run.go:285-345 | the container to start: the selected one, a new one, or one found after a name conflict |
| `ContainerEnv.SortByName` | internal/runtime/docker/run.go:180-181 | a sorted permutation |
| `ContainerEnv.BuildEnvEntries` | internal/runtime/docker/run.go:175-195 | accepted if and only if all names are valid and distinct; the entries are the variables in increasing order |
| `ContainerEnv.LessMeans` | internal/runtime/docker/run.go:181-181 | the order is that of a dictionary |
| `ContainerEnv.EveryVariableIsFound` | internal/runtime/docker/run.go:175-195 | a process finds exactly the variables that were bound, with their values |
| `ContainerEnv.OrderIsInvisible` | internal/runtime/docker/run.go:170-174 | the same variables in any order give the same entries |
| `ContainerEnv.WireFormDecides` | internal/runtime/docker/run.go:175-195 | the entries determine the variables |
| `Envelope.MarshalFields` | internal/crypto/crypto.go:236-249 | the loop computes the length-prefixed encoding |
| `Envelope.MarshalInjective` | internal/crypto/crypto.go:175-188 | no two lists of fields share an encoding |
| `Envelope.ParseFields` | internal/crypto/crypto.go:250-267 | the loop computes the recursive parser, truncation, oversize and trailing bytes included |
| `Envelope.ParseMarshal` | internal/crypto/crypto.go:236-267 | parsing inverts marshalling within the field bounds |
| `Envelope.MarshalParse` | internal/crypto/crypto.go:250-267 | what is parsed is exactly what marshalling its fields gives |
| `Envelope.EnvelopeFits` | internal/crypto/crypto.go:269-269 | no valid envelope exceeds the size bound |
| `Envelope.EnvelopeRoundTrip` | internal/crypto/crypto.go:213-234 | a valid envelope is read back as it was |
| `Envelope.AcceptedIsCanonical` | internal/crypto/crypto.go:221-234 | every accepted byte string is the encoding of what was read |
| `Envelope.ValueAADInjective` | internal/crypto/crypto.go:167-169 | distinct scopes have distinct value data |
| `Envelope.WrapAADInjective` | internal/crypto/crypto.go:171-173 | distinct keys or scopes have distinct wrap data |
| `Envelope.AADDisjoint` | internal/crypto/crypto.go:167-173 | value and wrap data never coincide |
| `Envelope.SizeBytes` | internal/crypto/crypto.go:175-188 | a length prefix is four bytes, most significant first |
| `Envelope.ScopeExactly` | internal/crypto/crypto.go:190-197 | exactly which scopes are valid |
| `Envelope.ValueDataReads` | internal/crypto/crypto.go:167-169 | a reader finds each field of the value data at its place |
| `Envelope.WrapDataReads` | internal/crypto/crypto.go:171-173 | and of the wrap data, with the key's identifier before the scope |
| `Envelope.EnvelopeReads` | internal/crypto/crypto.go:213-219 | and of an envelope, of which only valid ones are written |
| `Vault.EncryptProtects` | internal/crypto/crypto.go:56-84 | an encryption hides its plaintext, bound to its scope |
| `Vault.EncryptExactly` | internal/crypto/crypto.go:56-84 | succeeds if and only if input, key, reservation and cipher allow it; without the reservation nothing is touched, after it the reservation is consumed |
| `Vault.UsableAtOnce` | internal/crypto/crypto.go:56-110 | what was encrypted decrypts at once with the same provider |
| `Vault.DecryptExactly` | internal/crypto/crypto.go:88-110 | the plaintext under its own scope with its key at hand, nothing otherwise |
| `Vault.RewrapProtects` | internal/crypto/crypto.go:114-141 | a rewrap works only under the own scope and a different active key, keeps the value and protects the same plaintext |
| `Vault.RewrapExactly` | internal/crypto/crypto.go:114-141 | succeeds if and only if scope, both keys, reservation and cipher allow it; without the reservation nothing is touched, after it the reservation is consumed |
| `Vault.RotationKeepsMeaning` | internal/crypto/crypto.go:56-141 | one encryption and any number of rewraps decrypt to the original under its scope and fail under any other |
| `Vault.WrapsAreReserved` | internal/crypto/crypto.go:65-82 | through any encryptions and rewraps, failures included, every reservation went with a wrapping or was wasted by a failure |
| `Vault.EncryptConsumes` | internal/crypto/crypto.go:65-84 | one wrapping takes one reservation, and a failure after the reservation leaves it consumed |
| `Vault.RewrapConsumes` | internal/crypto/crypto.go:126-141 | so does a rewrap |
| `Vault.Authentic` | internal/crypto/crypto.go:56-141 | after any encryptions and rewraps, whatever envelope decrypts under a scope yields a plaintext once encrypted under that scope |
| `Base64.QuadsRoundTrip` | internal/auth/auth.go:187-196 | unpadded base64 is inverted by its decoder and has the expected length and alphabet |
| `Base64.SameNumber` | internal/auth/auth.go:187-196 | three bytes and their four symbols are the same number |
| `Base64.UpperAlphabet` | internal/auth/auth.go:187-196 | the first 26 symbols are the capital letters |
| `Base64.LowerAlphabet` | internal/auth/auth.go:187-196 | then come the small letters |
| `Base64.DigitAlphabet` | internal/auth/auth.go:187-196 | then the digits, plus and slash |
| `Base64.CanonicalExactly` | internal/auth/auth.go:187-196 | the canonical decoder accepts exactly the encodings of nonempty byte strings |
| `Strings.JoinSplit` | internal/auth/auth.go:150-150 | splitting loses nothing |
| `Strings.SplitJoin` | internal/auth/auth.go:150-150 | splitting undoes joining parts without the separator |
| `Strings.CanonicalDecimal` | internal/auth/auth.go:164-172 | a numeral without leading zero is the only one of its value |
| `Phc.ParseValues` | internal/auth/auth.go:154-174 | the loop parses the three parameters |
| `Phc.ParametersExactly` | internal/auth/auth.go:154-177 | parameters are accepted exactly as printed |
| `Phc.PhcBijection` | internal/auth/auth.go:136-185 | parsing accepts exactly the printed strings of sound verifiers, each with its own verifier |
| `Phc.AcceptedWithinLimits` | internal/auth/auth.go:140-185 | a printed verifier is accepted if and only if its costs and lengths are within the limits |
| `Phc.FormatText` | internal/auth/auth.go:136-138 | the printed verifier, as text |
| `Phc.PrintedOnce` | internal/auth/auth.go:136-138 | no two sound verifiers print alike |
| `Route.QuoteYAMLString` | internal/runtime/traefik/render.go:86-114 | the builder loop quotes ASCII and refuses anything else |
| `Route.UnquoteQuote` | internal/runtime/traefik/render.go:86-114 | reading a quoted string back gives it, and it stays on one line |
| `Route.BuildDocument` | internal/runtime/traefik/render.go:147-181 | the document with latched errors is the document or nothing |
| `Route.ValidRenders` | internal/runtime/traefik/render.go:202-219 | every valid route renders |
| `Route.LineCountIsFixed` | internal/runtime/traefik/render.go:158-175 | all valid routes render to the same number of lines |
| `Route.ReadBack` | internal/runtime/traefik/render.go:147-219 | a reader of the document finds every field under its own key |
| `Route.ServiceDecides` | internal/runtime/traefik/names.go:38-40 | service names tell apart exactly release, hyphen and fence taken together |
| `Route.URLDecides` | internal/runtime/traefik/names.go:81-87 | the backend URL determines scheme, container and port |
| `Route.DocumentDecides` | internal/runtime/traefik/render.go:147-219 | two valid routes have the same document if and only if they agree up to where release and fence are separated |
| `Route.DocumentDetermines` | internal/runtime/traefik/render.go:194-219 | the document determines the route when no fence has a hyphen, and no single field can change unseen |
| `Route.HyphenIsAmbiguous` | internal/runtime/traefik/names.go:38-40 | two different routes with one document |
| `Deployment.Validate` | internal/deployment/deployment.go:207-244 | the replaying loop decides validity |
| `Deployment.RehydrateInPlace` | internal/deployment/deployment.go:116-138 | the restored value, and that the caller's own events are rounded in place |
| `Deployment.NewIsValid` | internal/deployment/deployment.go:94-113 | a new deployment is valid if and only if it is not created in the first microsecond |
| `Deployment.NewExactly` | internal/deployment/deployment.go:94-113 | exactly when a creation succeeds, and what it starts with |
| `Deployment.FirstMicrosecond` | internal/deployment/deployment.go:98-101 | a creation whose result its own validator rejects |
| `Deployment.TransitionKeeps` | internal/deployment/deployment.go:174-201 | validity is kept, the history only grows, a refusal changes nothing |
| `Deployment.LegalMoves` | internal/deployment/deployment.go:283-304 | the legal moves in terms of the path: one step on, cancellation, failure, supersession and rollback each from where they may come |
| `Deployment.TransitionExactly` | internal/deployment/deployment.go:174-201 | exactly which requests are accepted, what they record and at what time, and which are refused why |
| `Deployment.BrokenIsRefused` | internal/deployment/deployment.go:174-177 | a broken deployment refuses every request and has no snapshot |
| `Deployment.ReachableIsValid` | internal/deployment/deployment.go:174-244 | any requests in any order leave it valid |
| `Deployment.SnapshotRoundTrip` | internal/deployment/deployment.go:116-172 | a snapshot restores exactly the deployment |
| `Deployment.RehydrateExactly` | internal/deployment/deployment.go:116-138 | only snapshots of the current version are restored, and nothing but the rounding of their times changes |
| `Deployment.ReachableRoundTrip` | internal/deployment/deployment.go:94-201 | so does every deployment reachable from a creation |
| `Deployment.RestoredRoundTrip` | internal/deployment/deployment.go:116-201 | so does everything reachable from a restored snapshot |
| `Deployment.EventOrder` | internal/deployment/deployment.go:223-238 | an event's place is its status's place on the path |
| `Deployment.RevisionFollowsStatus` | internal/deployment/deployment.go:274-352 | on the path the revision is the order plus one, off the path a status is final, and there are at most nine revisions |

## Left out

- Web pages, HTTP handlers beyond their order of effects, templates, header and body checks: branch-level claims only.
- Repositories over Postgres, except the stages of a checkout reservation: the control plane's own claim, renewal and activation rules are not part of this model.
- Sockets, ioctl, quotactl and descriptor passing: only their effect on owner, mode, project, limits and presence is modelled; a JSON file is taken as the value it encodes, except that the ledger's text is written out for its length.
- The socket of an allocate connection: whether the offer was sent and properly acknowledged are parameters of `HandleAllocateConn`.
- QuotaService.Service.Release: the path prefix check of the descriptor is a system call that may fail, and nothing more.
- Removal of workspace contents as a directory walk with depth, entry and time limits: it is one effect that removes some or all entries.
- File name length: an environment ID whose encoding exceeds the file system's limit cannot be stored; the model has no such limit.
- Heartbeats, claim polling and intervals of the agent: timing only.
- Authorization before a checkout request and the other conditions of the store's updates (owner, binding, expiry): both may refuse at will; only the stages of a reservation are relied on.
- Container resource limits and network checks: whether they pass is a parameter of `Docker.Client.Ensure`.
- Hostname grammar: `Route` uses its character set and length only, so its theorems hold for more hostnames than are accepted.
- AES-GCM, SHA-256, Argon2 and random numbers: ideal or parameters.
- Ephemeral volumes, built images and environment infrastructure labels, route file writing, the Traefik observer, buildx and Git: easy members or process plumbing.
