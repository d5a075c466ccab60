# InkMail, modelled and proved in Dafny

InkMail is a store-and-forward mail network. Peers send each other sealed messages; relays called
Daddies hold opaque envelopes for mailboxes whose owners are away. This project models the parts of
it where something can go wrong in a way no single function shows, and proves what they promise:

* the hold store of a Daddy (`HoldTables`, `HoldQuotas`, `HoldStore`, `Listings`, `Registry`, `Sessions`,
  `Fetching`): quotas, the at-most-once rule, delivery listings, mailbox ownership and routes, what one
  session may do, and how polling drains a mailbox;
* the delivery protocol between any number of nodes (`Messages`, `Delivery`, `DeliveryRuns`,
  `DeliverySteps`, `DeliveryProgress`): a transition system in which everything ever sent may be lost,
  repeated or reordered, local faults strike at will, users compose and delete and every node runs the
  same code, with proofs over all its runs, and of what gets a message delivered and confirmed;
* the outbox of a node and its submission to every relay (`Outbox`, `RelayNetwork`, `OutboxSync`), and
  forwarding from relay to relay (`Ghosts`);
* admission control (`TokenBuckets`, `RateLimiter`, `HandshakeLimiter`, `Slots`);
* the wire (`Frames`, `Channels`, `Transcripts`, `Handshakes`, `Padding`) and relay selection (`Relays`).

`Basics.dfy` holds option types, byte strings, tokens, timelines, sums and listings by age; `Resource.dfy` holds
the limits.
Objects whose methods update their fields are classes here, loops are loops, and each method is proved
against a function of its inputs or of the old state; what the program promises is then proved of those
functions and of runs. `dafny verify dfyconfig.toml` checks everything.

## Assumptions

* A SHA-256 digest stands for what was hashed: digests do not collide on the values used, so comparing
  digests is comparing what they were taken of (mailbox and payload in replay records, user keys).
* The AEAD opens what it sealed under the same nonce, its seal adds a tag, and nothing sealed under one
  nonce opens under another (`Frames.Sound`, `Frames.BindsNonce`; stated over 12-byte nonces).
* X25519 agreement is symmetric and may fail; HKDF output collides only for equal secret, transcript and label;
  signatures are unforgeable, so a message or receipt comes from the node it names.
* JSON encodes what it decodes; the encoded size of a stored envelope is the size of its payload.
* Each operation reads the clock once, and clocks never run backwards. Each node's own limits stay
  fixed after startup, and the initial tables, legacy rows included, are within them.
* A node's identity, mailbox and relay list do not change during a run of `Delivery`, nor a node's
  configuration during one forward in `Ghosts`; in `OutboxSync` the configuration may change at every
  reading. The store behind a relay address stays the same.
* Outer envelope IDs are fresh, so one ID never names two envelopes, and a message ID is the digest of
  its message. What handlers pass on to a store is a valid envelope in the form it decodes from.
* Strings are sequences of ASCII characters: `strings.TrimSpace` and `strings.EqualFold` act on those.
* Token buckets are over the reals.

Dials, losses, local faults and whatever other parties do in between are nondeterministic choices, or
arbitrary parameters such as the fate of each dial, so every contract holds for all of them.

## Where the code does not keep what one might expect

* A failure recorded after the window is over clears a block that has not run out
  (`HandshakeLimiter.LateFailureClearsBlock`); `HandshakeLimiter.FailureKeepsBlock` says exactly when a
  failure keeps a block. Handshakes overlap, and each one beside another costs two more attempts; an
  eviction or a success forgets what was counted (`HandshakeLimiter.AttemptsAreThrottled`). Without
  these the bound is met (`HandshakeLimiter.OverlapMeetsBound`).
* A payload of more than `maxFrameSize` - 20 bytes but at most `maxFrameSize` is refused only after the
  counter moved, so the reader refuses the next message; a larger one is turned away before sealing and
  does no harm. `Channels.GapEndsConversation` says what is read of any sequence of payloads, and
  `Channels.NextFrameOpens` exactly when the next message opens.
* A poll is cut short when an accepted envelope is no longer held by the time it is acknowledged, so 544
  polls need not empty a mailbox (`Listings.CutShortRoundsMeetBound`); `Listings.MailboxDrains` and
  `Fetching.DrainMailbox` say how many do.
* An empty mailbox payload is padded but not unpadded (`Padding.UnpadUndoesPad`).
* Without the 64-byte bound on namespaces the session transcript would not determine the two hellos
  (`Transcripts.LongNamespacesCollide` gives the two readings).
* A receive path that fails after the message row was committed answers "rejected", so a rejected
  acknowledgement does not mean that the message was not received: `Messages.CommittedYetRejected` says
  exactly when, and `DeliveryRuns.RejectedThoughReceived` gives the run.
* In `StoreMessage` only the status delivered is absorbing; `Messages.StatusMovesBack` says exactly when a
  status moves back, and `Messages.PendingMovesBack` gives the upsert. A direction leaves queued once and
  never returns to it.
* A user's deletion forgets that a message was received: a repeated envelope makes its row anew.
  `DeliveryRuns.RepeatChangesNoRow` says exactly when a repeat changes nothing.

## Model

| member | source | states |
|---|---|---|
| `Delivery.ReceiveIsPeersReceive` | internal/network/messaging.go:322-380 | The receive step of the protocol commits the rows, counts as received and answers exactly as the receive path of a peer does, for every envelope, fault and prior table. |
| `Delivery.ComposeKeepsInv` | cmd/inkmail/main.go:672-682 | Composing keeps every invariant of the network; that it stores the message as queued before any network activity is `DeliverySteps.ComposeWrites`. |
| `Delivery.EraseKeepsInv` | internal/database/database.go:945-970 | A user's deletion of any row of any node keeps every invariant. |
| `Delivery.WrapKeepsInv` | internal/network/daddy.go:1025-1039 | Wrapping a message again under a fresh outer ID keeps every invariant, however many wraps there are already. |
| `Delivery.SendKeepsInv` | internal/network/daddy.go:778-806 | Putting an envelope on the wire, as a message to anybody, an offer to a mailbox owner or its author's hold request, keeps every invariant. |
| `Delivery.NoteDeliveredKeepsInv` | internal/network/retry.go:37-47 | Promoting a row to sent and delivered on the recipient's own answer keeps every invariant; delivered stays true of the recipient. |
| `Delivery.NoteHeldKeepsInv` | internal/network/retry.go:37-47 | Promoting a row to sent and pending on a relay's answer keeps every invariant: some store has taken the message on. |
| `Delivery.RegisterKeepsInv` | internal/database/mailbox_privacy.go:350-404 | A first claim of a node's own mailbox, or a claim that meets an owner, keeps every invariant, so an owner is the node whose mailbox it is. |
| `Delivery.DeleteKeepsInv` | internal/network/daddy.go:448-492 | Deleting a held envelope on its mailbox owner's positive answer, fetched or forwarded, loses nothing. |
| `Delivery.ExpireKeepsInv` | internal/database/mailbox_privacy.go:275-297 | Dropping expired rows and records keeps every invariant. |
| `Delivery.TickKeepsInv` | internal/network/daddy.go:1053-1079 | The passing of time at a node keeps every invariant. |
| `Delivery.DropKeepsInv` | internal/network/opaque_mailbox.go:46-60 | Dropping a receipt from an outbox when every relay of the node has answered held keeps every invariant. |
| `Delivery.HoldKeepsInv` | internal/network/daddy.go:299-360 | A hold request, whatever the store decides, keeps every invariant: the answer is true and no row that is still live is displaced. |
| `Delivery.HoldLosesNothing` | internal/database/mailbox_privacy.go:141-206 | Admission with its purge of expired rows leaves every recorded envelope held, expired or accepted. |
| `Delivery.ReceiveKeepsInv` | internal/network/messaging.go:322-380 | Receiving any envelope with any fault, answer included, keeps every invariant. |
| `DeliveryRuns.StepKeepsInv` | internal/network/messaging.go:131-189 | Each of the thirteen kinds of steps keeps all eleven invariants of the network. |
| `DeliverySteps.ComposeWrites` | cmd/inkmail/main.go:665-674 | Right after composing, its sender has a row for the message; if it had none, that row is of this message, queued in direction and status. |
| `DeliverySteps.ComposedStays` | cmd/inkmail/main.go:665-674 | At every later point of the run the sender has a row with that message unless its user deleted it since. |
| `DeliverySteps.ComposedWaits` | internal/network/retry.go:10-50 | A message composed for the first time is waiting, for every retry to find, at every later point until a promotion, a receipt or its own reception settles it or its user deletes it. |
| `DeliverySteps.OthersLeaveRow` | internal/database/database.go:666-756 | A row changes only by composing, settling or deleting that very message at that very node. |
| `DeliverySteps.PromotionsWrite` | internal/network/retry.go:37-50 | A waiting row leaves the queue pending on a relay's answer and delivered on the recipient's. |
| `DeliverySteps.HoldWrites` | internal/network/daddy.go:335-346 | An admitted hold request leaves the envelope's own row for 30 days under the submitter's key, answered with success, and touches no other store. |
| `DeliverySteps.ExpireTakes` | internal/database/mailbox_privacy.go:275-297 | A cleanup is always possible and takes exactly what has expired, held rows and records, at that store only. |
| `DeliverySteps.DropTakes` | internal/network/opaque_mailbox.go:46-60 | A receipt may leave its outbox if and only if each of a nonempty list of relays has answered held, and then only it goes. |
| `DeliverySteps.EraseTakes` | internal/database/database.go:945-970 | A user may delete any row it has; that row goes and nothing else changes. |
| `DeliverySteps.OffersReachOwners` | internal/network/daddy.go:386-442 | Over every run, whatever is offered is offered to the node whose mailbox it is for, and only a message's sender or a receipt's maker asks a store to hold it. |
| `DeliverySteps.StoresStayWithinLimits` | internal/database/mailbox_privacy.go:154-196 | Over every run every store is within its own configured limits, figure by figure. |
| `DeliveryRuns.RunsKeepInv` | internal/network/messaging.go:90-189 | The invariants hold in every system of every run from the empty one, under any interleaving. |
| `DeliveryRuns.DeliveredMeansReceived` | internal/network/retry.go:37-50 | In every reachable system a row with status delivered is of a message that an earlier step of its recipient committed, and the recipient still has that very message, delivered, unless its user deleted it since. |
| `DeliveryRuns.DeliveredIsForever` | internal/database/database.go:719-728 | Between any two points of a run, a row that no user deletes stays, its mail never changes, and delivered is never undone. |
| `DeliveryRuns.RowsLast` | internal/database/database.go:719-728 | Unless its own deletion comes between, a row only moves forward over any stretch of a run. |
| `DeliveryRuns.CommittedStays` | internal/network/messaging.go:275-314 | From the step that commits a letter on, its recipient has it, delivered, until its user deletes it. |
| `DeliveryRuns.ReceptionsAreCommits` | internal/network/messaging.go:275-314 | "Has received" in these theorems means that some earlier receive at that node committed the letter. |
| `DeliveryRuns.AcceptancesAreAnswers` | internal/network/messaging.go:207-249 | "Has accepted" means that some earlier receive at that node answered that envelope with success. |
| `DeliveryRuns.RecordsAreAdmissions` | internal/database/mailbox_privacy.go:116-210 | "Has recorded" means that some earlier hold request was decided as stored, under the expiry remembered. |
| `DeliveryRuns.RepeatChangesNoRow` | internal/database/database.go:719-728 | Receiving a message again, under however many fresh outer envelopes, changes no row of any other node, and none of the recipient's if and only if the recipient still has the message (delivered and out of the queue, for mail to itself). |
| `DeliveryRuns.RejectedThoughReceived` | internal/network/messaging.go:364-380 | For every message there is a run in which its recipient has received it and its delivery was answered with a rejection only. |
| `DeliveryRuns.HeldIsNeverLost` | internal/network/daddy.go:448-492 | An envelope a store admitted is, at every later time before its expiry, still held with mailbox and payload intact, or was accepted by the owner of its mailbox; if it is a letter, that owner has received its message, and has it still unless its user deleted it since (`DeliveryRuns.CommittedStays`). |
| `DeliveryRuns.HoldAnswersAreRecords` | internal/network/daddy.go:338-351 | Held or already stored is answered only by a store that has recorded the envelope. |
| `DeliveryRuns.SentIsNeverLost` | internal/network/retry.go:37-50 | A message that left its sender's queue has reached its recipient, or some store still holds an envelope carrying it, or that envelope's time has run out there. |
| `DeliveryRuns.ReceiptsAreKept` | internal/network/opaque_mailbox.go:34-63 | Every receipt ever made is still in its maker's outbox or was recorded by every one of a nonempty list of the maker's relays. |
| `DeliveryRuns.RunsAdvance` | internal/network/messaging.go:90-189 | Over any stretch of a run histories grow, envelopes stay fixed, and clocks and recorded expiries rise. |
| `DeliveryRuns.RunsKeepTimely` | internal/network/daddy.go:335-336 | No recorded expiry is ever more than the retention time ahead of its store's clock. |
| `DeliveryRuns.RunsKeepStores` | internal/database/mailbox_privacy.go:116-210 | Over every run every store keeps all its quotas, under limits and legacy totals of its own, and a replay record for each live row. |
| `DeliveryProgress.DirectSendDelivers` | internal/network/daddy.go:1040-1044 | From any system, one direct send without losses ends with the sender's row delivered. |
| `DeliveryProgress.FetchDelivers` | internal/network/daddy.go:838-924 | From any system that keeps the invariants, registering and fetching once gets a live held letter to its owner, queues a receipt, and empties the row from the store. |
| `DeliveryProgress.ReceiptGetsThrough` | internal/network/messaging.go:336-362 | A receipt that reaches the message's sender marks that sender's row delivered and is accepted. |
| `DeliveryProgress.HoldIsRecorded` | internal/network/daddy.go:299-360 | A hold request that a store admits ends with the live envelope in that store and the author told so. |
| `DeliveryProgress.LetterArrives` | internal/network/daddy.go:838-924 | Wrapped, held, promoted and fetched, a message is received; the sender's row is sent, and the recipient owes a receipt to the sender's mailbox. |
| `DeliveryProgress.ReceiptArrives` | internal/network/messaging.go:336-362 | A receipt admitted by a store and fetched by the sender turns the sender's sent row to delivered. |
| `DeliveryProgress.RelayedMailIsConfirmed` | internal/network/daddy.go:1002-1051 | The whole way by relay: from any reachable system, steps that are all enabled lead from handing a message to a store that admits it to its reception and, by way of a store that admits the receipt in the one system this leads to, to a delivered row at the sender. |
| `DeliveryProgress.LeadsToOne` | internal/network/messaging.go:90-189 | Given steps lead from a system to one system at most. |
| `Messages.Peer.StoreMessage` | internal/database/database.go:666-756 | The upsert moves only a queued direction and an undelivered status; rows only advance. |
| `Messages.Peer.MarkMessageDeliveredFromReceipt` | internal/database/mailbox_privacy.go:504-545 | Matches exactly this node's own outgoing mail to the receipt's author and marks only that row. |
| `Messages.Peer.ReceiveMailboxEnvelope` | internal/network/messaging.go:322-414 | What is stored, what is answered and when a receipt is queued, for letters and receipts to this mailbox up to case, with faults before and after the commit. |
| `Messages.CommittedYetRejected` | internal/network/messaging.go:364-380 | A letter is committed and yet answered with a rejection if and only if it reached its recipient and the path failed after the commit. |
| `Messages.StatusMovesBack` | internal/database/database.go:719-728 | The upsert moves a known row's status back if and only if it was pending and is stored as queued. |
| `Messages.Peer.DeleteMessage` | internal/database/database.go:945-970 | Removes exactly that row, and reports whether there was one. |
| `Messages.Peer.ListQueuedMessages` | internal/database/database.go:878-912 | Rows with direction queued that are not delivered, oldest first, none left out older, up to a limit that is 100 when out of range, and all of them when there are fewer. |
| `Messages.Peer.RetryQueuedMessages` | internal/network/retry.go:10-54 | While others change rows at will: the oldest waiting rows are tried; of those nobody else touched, exactly the ones relayed or delivered leave the queue, with the matching status, and the rest is unchanged; a promoted row is out of the queue and delivered if its attempt was; the count returned is that of the promotions. |
| `HoldTables.InsertFindsKeysFree` | internal/database/mailbox_privacy.go:144-206 | When an admission goes through, its ID is free in the held and replay tables, so neither insert meets its primary key. |
| `HoldTables.AdmissionKeepsQuotas` | internal/database/mailbox_privacy.go:154-196 | An admission, whatever it decides, leaves per-user, per-mailbox and global counts and bytes and both replay counts within limits simultaneously, legacy totals included. |
| `HoldTables.AdmissionKeepsGood` | internal/database/mailbox_privacy.go:116-210 | An admission keeps quotas, payload sizes and the replay record of every live row. |
| `HoldTables.DeletionKeepsGood` | internal/database/mailbox_privacy.go:252-268 | So does a deletion. |
| `HoldTables.ExpiryKeepsGood` | internal/database/mailbox_privacy.go:275-297 | So does a cleanup. |
| `HoldTables.RunsKeepQuotas` | internal/database/mailbox_privacy.go:116-297 | Every quota and every live row's replay record hold at every point of every run of admissions, deletions and cleanups. |
| `HoldQuotas.RunsStayWithinLimits` | internal/database/mailbox_privacy.go:154-196 | At every point of every run: the rows of each user, of each mailbox and of the whole store with the legacy rows are within the configured messages and bytes for each, and so are the replay records of each user and all of them. |
| `HoldQuotas.QuotasAreLimits` | internal/database/mailbox_privacy.go:154-196 | The quotas that every transaction keeps are exactly these figures. |
| `HoldQuotas.StoredExactly` | internal/database/mailbox_privacy.go:116-206 | A request is stored if and only if its tokens, size, expiry and user are acceptable, no live record has its ID, and one more row of its size fits every one of these limits by what has not expired. |
| `HoldQuotas.ReplayAnswersExactly` | internal/database/mailbox_privacy.go:147-153 | Already stored and conflict are answered exactly for an acceptable request whose ID has a live record, by whether mailbox and payload are the same. |
| `HoldQuotas.StoredLeaves` | internal/database/mailbox_privacy.go:197-206 | A stored request leaves its row and its record, and of everything else exactly what has not expired. |
| `HoldQuotas.RunsKeepRecords` | internal/database/mailbox_privacy.go:141-206 | At every point of every run each row that is due has the record of its own mailbox, payload and expiry. |
| `HoldTables.RecordsLast` | internal/database/mailbox_privacy.go:141-206 | A replay record outlives every event before its expiry, the deletion of its envelope included. |
| `HoldTables.RecordDecides` | internal/database/mailbox_privacy.go:147-153 | A live record decides every well-formed submission of its ID: already stored for the same mailbox and payload, conflict otherwise. |
| `HoldTables.AdmittedAtMostOnce` | internal/database/mailbox_privacy.go:141-206 | Over every run, after an ID was stored, each later well-formed submission before the expiry is answered already stored or conflict, even after delivery and deletion. |
| `HoldTables.HeldUntilDeletedOrExpired` | internal/database/mailbox_privacy.go:116-297 | A held row is unchanged at every later point unless it was deleted by its own ID and mailbox or its time has come. |
| `HoldStore.Usage` | internal/database/mailbox_privacy.go:154-196 | The counting loop returns the number of rows and the sum of their payload sizes. |
| `HoldStore.Store.StoreForUser` | internal/database/mailbox_privacy.go:116-210 | The transaction answers as the decision rule says (`HoldQuotas.StoredExactly`), commits both rows exactly when it stores, leaves both tables as they were for any other answer, and keeps the store's invariant. |
| `HoldStore.Store.Delete` | internal/database/mailbox_privacy.go:252-268 | Removes exactly the row of that ID and mailbox and reports whether there was one. |
| `HoldStore.Store.ExpireHeld` | internal/database/mailbox_privacy.go:275-297 | Drops exactly the rows and records whose time has come and returns how many held rows that was. |
| `Ages.OldestFirst` | internal/database/mailbox_privacy.go:220-226 | Distinct rows in order of age such that no row left out is older, as many as the limit allows. |
| `HoldStore.Store.ListHeld` | internal/database/mailbox_privacy.go:212-248 | Lists only rows held for the mailbox that have not expired, some if there are any, oldest first and none left out older, within 256 rows and 3 MiB; a row is left out only for the number of rows or because the next one would pass 3 MiB. |
| `HoldStore.Store.Backfill` | internal/database/mailbox_privacy.go:299-348 | Runs once, keeps existing records, and gives every live row its record exactly when no existing record disagrees with its row. |
| `Listings.CutIsListing` | internal/database/mailbox_privacy.go:212-248 | Cutting an oldest-first prefix where the byte limit stops it yields a listing that stopped only for a limit. |
| `Listings.ListingShowsOldest` | internal/database/mailbox_privacy.go:212-248 | What a listing shows, said of the whole table: only rows that are due, the oldest of them, and as many as rows and bytes allow. |
| `Listings.DeliveryFits` | internal/network/daddy.go:386-442 | Any listing's delivery text fits a frame of 4 MiB with its seal, and the fetch with an acknowledgement for each envelope fits the session's exchange cap and every permitted burst. |
| `Listings.RoundMakesProgress` | internal/network/daddy.go:886-921 | A round whose first acknowledgement reached the store strictly lowers the number of live envelopes, even if cut short later; a complete one takes a MiB of potential off the backlog unless it empties it. |
| `Listings.DrainCountsDown` | internal/network/daddy.go:886-921 | After rounds of which n were not lost and c complete, nothing is left, or at least n envelopes and c MiB of potential are gone. |
| `Listings.MailboxDrains` | internal/network/daddy.go:886-921 | No row of the mailbox is due once as many rounds as it had due rows were not lost, however many were cut short; nor, within its quotas, after the complete rounds its limits imply, at most 544 under any valid configuration. |
| `Listings.CutShortRoundsMeetBound` | internal/network/daddy.go:478-480 | The bound for rounds cut short is met: for every n there are n rounds, none lost, after which a mailbox of n + 1 live envelopes still holds one; so no fixed number such as 544 is enough for them. |
| `Registry.MailboxRegistry.SetOwnedMailboxRoute` | internal/database/mailbox_privacy.go:350-404 | Answers by the ownership and quota rule; grants owner and route together, and otherwise changes nothing, a first claim that fails the route quota included. |
| `Registry.RegisteredExactly` | internal/database/mailbox_privacy.go:350-404 | A claim is registered if and only if it is well-formed and live, its key owns the mailbox or the mailbox is free with room for one more owner, and its key's other active routes leave room for one more. |
| `Registry.RegistrationWrites` | internal/database/mailbox_privacy.go:362-398 | A registered claim leaves its key as owner of its mailbox with exactly its route, and nothing else changed. |
| `Registry.OwnersMayRenew` | internal/network/daddy.go:190-205 | An owner within its limits may always renew or move an active route, for a day at most. |
| `Registry.MailboxRegistry.HandleRegisterRoute` | internal/network/daddy.go:153-224 | Registers with the lifetime cut to a day and keeps the registry within its limits. |
| `Registry.MailboxRegistry.DeleteExpiredRoutes` | internal/database/mailbox_privacy.go:490-500 | Drops exactly the routes that are over, no owner. |
| `Registry.MailboxRegistry.MailboxOwnedBy` | internal/database/mailbox_privacy.go:406-420 | Errors exactly on a malformed mailbox or key, and otherwise says whether that key is the owner. |
| `Registry.GrantAddsOneRoute` | internal/database/mailbox_privacy.go:379-398 | A granted registration leaves its owner with its other active routes and exactly this one. |
| `Registry.GrantKeepsGood` | internal/database/mailbox_privacy.go:350-404 | A registration, granted or refused, keeps the owner count, every owner's active routes and the lifetimes within limits. |
| `Registry.RunsKeepRouteQuotas` | internal/database/mailbox_privacy.go:350-404 | Those bounds hold at every point of every run of registrations and sweeps. |
| `Registry.OwnershipIsForever` | internal/database/mailbox_privacy.go:362-378 | A mailbox once owned has the same owner at every later point of every run. |
| `Sessions.DeletionsAtMostOffers` | internal/network/daddy.go:435-480 | In any log whose acknowledgements match pending offers, deletions plus what is still pending are at most the offers. |
| `Sessions.Session.AuthorizeMailboxID` | internal/network/protocol.go:209-224 | Succeeds exactly for a valid mailbox on a free session or the one it is bound to up to case; the first one binds it. |
| `Sessions.Session.RecordFetchedMessage` | internal/network/protocol.go:226-231 | Adds one offer to what the session has pending. |
| `Sessions.Session.ConsumeFetchedMessage` | internal/network/protocol.go:233-239 | Succeeds exactly when the mailbox is the one pending for that ID, and then forgets it. |
| `Sessions.Session.AuthorizeMailboxOwner` | internal/network/daddy.go:132-147 | Succeeds exactly for the registered owner of the mailbox under a stable identity on a session that may name it; even a refusal binds a free session. |
| `Sessions.Session.HandleFetchMessages` | internal/network/daddy.go:386-442 | The owner is offered exactly the envelopes of a listing that decode to this mailbox, each remembered as pending; nobody else is offered anything. |
| `Sessions.Session.HandleDeliveryAck` | internal/network/daddy.go:448-492 | The first failing check decides the answer; an honoured acknowledgement consumes one offer of this session, and only a delivered one deletes, only that envelope. |
| `Sessions.Session.HandleRegisterRoute` | internal/network/daddy.go:153-224 | Registers for the authenticated peer's own key exactly when session and registry both allow it; a refusal leaves registry and log unchanged. |
| `Sessions.Session.HandleHoldMessage` | internal/network/daddy.go:299-360 | A well-formed envelope of an identified peer is put to the store under the peer's own key and the retention time, and the store's decision is the outcome; anything else leaves the store alone. |
| `Sessions.Session.KeepForwarded` | internal/network/ghost.go:212-255 | A forwarded envelope comes to the store exactly when the request is admissible and every hop failed, and is then decided like any other. |
| `Sessions.Session.Dispatch` | internal/network/messaging.go:131-189 | What each request does, by the state it meets: a fetch appends the offers of a listing for an owner and nothing for anybody else; a row is removed if and only if the owner acknowledges a pending offer as delivered while it is held; a registration is in the registry if and only if it was allowed; the store otherwise changes only by an admission for the peer; and exactly the malformed, the unmatched acknowledgement and the unsupported end the session. |
| `Sessions.AnswersAreAcks` | internal/network/daddy.go:448-492 | The first failing check of an acknowledgement decides, and it succeeds exactly when it is honoured and, if delivered, finds the row. |
| `Sessions.Session.Serve` | internal/network/messaging.go:90-129 | Over any sequence of requests of any kinds on one session, with time passing and other parties at the store and the registry in between: every change of the store is accounted for, those of this session are admissions for its peer and removals of single rows, the removals are exactly the deletions of its log in order, these are at most its offers, and all privileged operations target one mailbox up to case. In a session nobody disturbs, an owner that fetches and acknowledges as delivered all it was offered gets every request answered, and exactly the oldest of what was due has gone. |
| `Sessions.OthersAct` | internal/network/daddy.go:1053-1079 | Other parties' admissions, deletions, cleanups, registrations and sweeps over any time keep the store and the registry within their limits, bring only rows they may submit, and leave every mailbox its owner. |
| `Fetching.Acknowledge` | internal/network/daddy.go:448-492 | For the owner's session, the acknowledgement of an offered envelope is honoured unless the envelope was accepted and is no longer held, and removes exactly that row when it was accepted. |
| `Fetching.FetchHeldMessages` | internal/network/daddy.go:838-924 | With other parties admitting, deleting and expiring rows and time passing before every acknowledgement, and a connection that may break within any exchange: for some reported <= removed <= received <= reported + 1 over the listing, the poll itself removed exactly the accepted among the first `removed`, reports those among the first `reported` and has taken in those among the first `received`; rows others left alone are gone exactly if the poll removed them; a poll is cut short only by an envelope that others touched and that is no longer held. What is listed is the oldest of all that is due in the mailbox. |
| `Fetching.UntouchedRows` | internal/network/daddy.go:448-492 | Whatever else others do, a row they leave alone is gone if and only if one of the poll's acknowledgements removed it, and is otherwise unchanged. |
| `Fetching.OthersOnlyTakeAway` | internal/database/mailbox_privacy.go:252-297 | When others only remove rows, what is left is what the acknowledgements leave, less exactly what others removed. |
| `Fetching.RemovedStayAway` | internal/database/mailbox_privacy.go:252-268 | As long as nothing new comes for the mailbox, what a poll removed stays away and the other rows of the mailbox only become fewer. |
| `Fetching.DrainRoundByPolling` | internal/network/daddy.go:838-924 | A poll of an owner that accepts everything, with others at the store during and after it, is a round of draining as long as nothing new comes for the mailbox: lost only if the connection breaks before the first acknowledgement arrives, and complete if all arrive in time. |
| `Fetching.DrainMailbox` | internal/network/daddy.go:838-924 | An owner that accepts everything, polling with a new session each time, with connections that break and others at the store all the time, ends with every held row of its mailbox expired once as many polls as it had due rows were not lost, or 544 were complete, as long as nothing new comes for it; every removal of a poll is of a single row, and the polls report all of them but at most one each. |
| `Outbox.UpsertedBytes` | internal/database/mailbox_privacy.go:55-71 | How the upsert moves count and byte total for known and new IDs. |
| `Outbox.LocalOutbox.QueueOpaqueOutbox` | internal/database/mailbox_privacy.go:37-80 | Refuses exactly what is malformed or would leave the outbox over its count or byte limit; otherwise upserts, keeping a known ID's mailbox; always within limits. |
| `Outbox.LocalOutbox.ListOpaqueOutbox` | internal/database/mailbox_privacy.go:82-106 | The oldest rows in order of their time, none left out older, as many as the effective limit allows. |
| `Outbox.LocalOutbox.RemoveOpaqueOutbox` | internal/database/mailbox_privacy.go:108-114 | Removes one row and stays within limits. |
| `RelayNetwork.HoldingAnswerHasRecord` | internal/database/mailbox_privacy.go:147-206 | Stored and already stored both mean that the store has the record of exactly what was submitted. |
| `RelayNetwork.LiveRecordsStay` | internal/database/mailbox_privacy.go:141-206 | No admission touches a live record or admits its ID again. |
| `RelayNetwork.Network.Submit` | internal/database/mailbox_privacy.go:116-210 | Any submission at any relay keeps that no ID is admitted again there before its first admission expired. |
| `RelayNetwork.Network.Meanwhile` | internal/network/daddy.go:1053-1079 | So does any number of other parties' submissions, deletions and cleanups at any relays over any time. |
| `RelayNetwork.Network.HoldAt` | internal/network/daddy.go:335-346 | Succeeds exactly when the store does not refuse, and then the record of this envelope is there; a refusal changes nothing. |
| `RelayNetwork.Network.SendHoldMessage` | internal/network/daddy.go:778-836 | Success is reported only when that relay has the record of this very envelope, whatever was lost on the way; and failure only for a lost request or answer, an unknown relay or a store that refuses the envelope. |
| `OutboxSync.DialListIsConfiguration` | internal/network/relays.go:218-256 | For every shuffle the dial list has exactly the configured addresses, or the built-in one when there are none. |
| `OutboxSync.SomeRelay` | internal/network/relays.go:252-254 | Every configuration, an empty one included, has a relay, so reaching all relays is never reaching none. |
| `OutboxSync.DialList` | internal/network/relays.go:218-256 | The list to dial is never empty and is the configuration. |
| `OutboxSync.SubmitToAll` | internal/network/opaque_mailbox.go:47-55 | Every relay of the configuration is dialled, failures or not; true means that every one of these dials succeeded, and then all relays have recorded the envelope. |
| `OutboxSync.SyncRow` | internal/network/opaque_mailbox.go:41-60 | A listed row that decodes is offered to every relay of the configuration as it is at that moment, is done if and only if all of these dials succeeded, and then goes; of the rows others leave alone nothing else goes with it. |
| `OutboxSync.SyncOpaqueMailboxOutbox` | internal/network/opaque_mailbox.go:34-63 | With others queueing and taking out rows all the time: a row is done only after every relay of some configuration read during the pass recorded its envelope; of the rows others leave alone exactly those done go, the rest is unchanged; the pass is clean if and only if all it listed is done. A listed row that decodes stays undone only if a dial of this pass failed. |
| `OutboxSync.SyncRepeatedly` | internal/network/opaque_mailbox.go:34-63 | Any number of passes, with interference at the outbox and at the relays and a configuration that may change at every reading: whatever was in the outbox, or is queued meanwhile, is in it still or has reached every relay of a configuration read meanwhile, and no relay admits an envelope a second time before its first admission expired there. Each pass took place and is accounted for. |
| `OutboxSync.OthersUseOutbox` | internal/network/opaque_mailbox.go:13-63 | Receive paths that queue and other passes that submit and take out drop nothing either: what they remove has reached every relay. |
| `OutboxSync.QueueAndSendOpaqueEnvelope` | internal/network/opaque_mailbox.go:13-30 | Queued exactly when valid and within the quotas, and then followed by a pass over the outbox; from then on it is in the outbox still or every relay of the configuration as it was read has recorded it; a refusal changes nothing. |
| `OutboxSync.HoldViaRelays` | internal/network/failover.go:13-30 | Nonblank addresses are dialled in order up to the first dial that succeeds and no further; failure means all were dialled and none succeeded; success means that the last one dialled has recorded the envelope. |
| `OutboxSync.FetchViaRelays` | internal/network/failover.go:34-63 | The total is that of the successful fetches, and an error surfaces exactly when some fetch failed and the successful ones delivered nothing. |
| `Ghosts.GhostNetwork.HandleGhostForward` | internal/network/ghost.go:130-210 | Terminates on any topology; success means that the envelope rests at this node or at one a hop dialled for this request led to, with its mailbox owner or in that node's store; it is rejected only when inadmissible, refused by its owner, or newly refused by this node's own store; at most six nested handlers pass the hop check; every rest is of this envelope and on this path, and is one success reported or one answer lost. |
| `Ghosts.GhostNetwork.ForwardGhostEnvelope` | internal/network/ghost.go:212-255 | The mailbox's route is dialled first, then every configured relay, each with one hop fewer, and the node's own store comes last; success names a node on the path of this request where the envelope rests, and failure means that all were dialled and the own store refused. |
| `Ghosts.GhostNetwork.SendGhostForward` | internal/network/ghost.go:257-304 | Dials the address first; success means that the envelope rests at a node on the path from here; failure without a loss on the way means that the node there rejected the request; a lost answer is the only way a rest goes unreported. |
| `Ghosts.GhostNetwork.KeepHere` | internal/network/ghost.go:244-255 | The last resort: callable only when every configured relay has been dialled with this request; succeeds exactly when the envelope comes to rest in the node's own store. |
| `TokenBuckets.TokensAreLeastSlack` | internal/network/listener.go:285-311 | The tokens found by a request are the minimum over all earlier requests j of capacity + rate * (t_k - t_j) less the admissions since j. |
| `TokenBuckets.LazyMeetsWindows` | internal/network/listener.go:273-311 | For every nondecreasing history the lazily refilled bucket admits exactly what the rule over all windows admits. |
| `RateLimiter.Limiter.Allow` | internal/network/listener.go:269-311 | One call refills, caps and spends one identity's bucket, admits exactly when it holds a token, and makes room by forgetting a least recently seen identity only when full. |
| `RateLimiter.Limiter.EvictOldest` | internal/network/listener.go:313-323 | Removes exactly one identity, of minimal last use, in whatever order the map is walked. |
| `RateLimiter.BurstAtOnce` | internal/network/listener.go:273-311 | Of any number of requests at one instant a new identity gets exactly its configured burst, four times that for a source address. |
| `RateLimiter.MinuteRefills` | internal/network/listener.go:273-311 | Left alone for a minute an identity regains its configured requests a minute, four times that for a source address, up to its burst. |
| `RateLimiter.KeysKeepApart` | internal/network/listener.go:273-276 | Two identities share a bucket only if they are the same or both unknown. |
| `RateLimiter.TrackedStayBounded` | internal/network/listener.go:288-298 | Over every run the limiter tracks at most 4096 identities. |
| `RateLimiter.UnevictedIsLazy` | internal/network/listener.go:273-311 | An identity that was never evicted is held to exactly its own history, whatever the others do. |
| `RateLimiter.UnevictedMeetsWindows` | internal/network/listener.go:273-311 | Its answers over every run are those of the window rule. |
| `RateLimiter.RunsKeepAllowance` | internal/network/listener.go:273-323 | Over every run, admissions plus what the bucket could admit at once stay within (1 + evictions) * capacity + rate * time. |
| `RateLimiter.AdmissionsWithinAllowance` | internal/network/listener.go:273-323 | So one identity is admitted at most (1 + its evictions) * capacity + rate * (t1 - t0) times from any state. |
| `HandshakeLimiter.Limiter.Allow` | internal/network/listener.go:213-231 | Refuses exactly during a block, touches only that source, and forgets a state whose window and block are over. |
| `HandshakeLimiter.Limiter.Failed` | internal/network/listener.go:233-249 | Counts a failure for that source only, and evicts a source of minimal last use exactly when a new one meets a full map. |
| `HandshakeLimiter.Limiter.Succeeded` | internal/network/listener.go:251-255 | Forgets that source and no other. |
| `HandshakeLimiter.Limiter.EvictOldest` | internal/network/listener.go:257-267 | Removes exactly one source, of minimal last use. |
| `HandshakeLimiter.FailureKeepsBlock` | internal/network/listener.go:233-249 | A failure during a block keeps the block if and only if the window is not over or one failure is enough to block. |
| `HandshakeLimiter.RefusedExactly` | internal/network/listener.go:213-249 | After any failures within one window a source is refused exactly when they are at least as many as are configured and the cooldown since the last of them is not over. |
| `HandshakeLimiter.LateFailureClearsBlock` | internal/network/listener.go:237-239 | With the default limits a source blocked until 119 is let in at 60 by one more failure. |
| `HandshakeLimiter.AttemptsAreThrottled` | internal/network/messaging.go:25-41 | From any state and under any interleaving of asking, failing, succeeding and evicting, with at most `cap` handshakes in flight, a source or identity is granted at most 2N - 1 + 2(cap - 1) attempts in a span shorter than window and cooldown, those in flight at the start included, plus those that succeed or are dropped for lack of capacity, plus N + cap - 1 each time a success or an eviction forgets its state; refused attempts may count as failures, too. |
| `HandshakeLimiter.SequentialAttemptsAreThrottled` | internal/network/listener.go:213-249 | One handshake at a time, all failing and none evicted, the bound is 2N - 1. |
| `HandshakeLimiter.OverlapMeetsBound` | internal/network/listener.go:233-249 | With two failures a window and two handshakes in flight, an interleaving is granted five, which is the bound. |
| `Slots.CountedSlots.Acquire` | internal/network/listener.go:325-335 | Granted exactly below both caps, counted by what is outstanding; a refusal changes nothing. |
| `Slots.CountedSlots.Release` | internal/network/listener.go:361-370 | Gives back one slot of that key; global count, sum of the keys' counts and outstanding acquires stay equal, and no zero entry stays. |
| `Slots.Replay` | internal/network/listener.go:153-179 | Under every interleaving of matched acquires and releases the counters are those of the slots in use, and nothing is left when all are back. |
| `Padding.TargetIsLeast` | internal/message/mailboxenvelope.go:241-247 | The padded size is the least multiple of 64 KiB that fits payload and trailer, and is within 4 MiB exactly when they are. |
| `Padding.PadMailboxPayload` | internal/message/mailboxenvelope.go:241-253 | Refuses exactly what does not fit; otherwise payload, any filler, and the length at the end. |
| `Padding.UnpadUndoesPad` | internal/message/mailboxenvelope.go:255-264 | Unpadding gives back exactly the payload whatever the filler, unless the payload was empty. |
| `Frames.ParseUndoesFrame` | internal/network/frame.go:24-108 | A frame is read back exactly, up to exactly its end, if and only if it is within the limits. |
| `Frames.FrameLayout` | internal/network/frame.go:24-50 | A frame is the four letters INKM, the length with its most significant byte first, and the payload. |
| `Frames.NonceLayout` | internal/network/frame.go:113-122 | A nonce is four zero bytes and the counter with its most significant byte first. |
| `Frames.NoncesDiffer` | internal/network/frame.go:113-122 | Different 64-bit counters give different nonces, as section 2.8 of RFC 8439 requires. |
| `Frames.OpenUndoesSeal` | internal/network/frame.go:124-213 | A payload of at most 4 MiB - 20 bytes is opened to itself under the same counter, in a frame within the limit. |
| `Frames.OtherCounterIsRefused` | internal/network/frame.go:183-208 | A frame sealed for another counter is refused. |
| `Channels.WriteAll` | internal/network/frame.go:52-64 | All of the data is on the stream however many writes it takes, or some prefix and the connection has failed. |
| `Channels.ReadFull` | internal/network/frame.go:72-108 | Exactly n bytes however they arrive, or nothing when the stream ends first. |
| `Channels.WriteFrame` | internal/network/frame.go:24-50 | An oversized payload leaves the stream untouched; otherwise the whole frame is written unless a write fails. |
| `Channels.ReadFrameLimit` | internal/network/frame.go:72-108 | Over any splitting of the bytes, the answer and the rest of the stream are those of parsing the stream. |
| `Channels.Channel.WriteEncrypted` | internal/network/frame.go:124-160 | The counter moves on every attempt until it is exhausted; the sealed frame is on the stream unless the payload does not fit or a write fails. |
| `Channels.Channel.ReadEncrypted` | internal/network/frame.go:162-213 | Opens the next frame under the receive counter, which moves exactly when it opens or is not authentic. |
| `Channels.Channel.NonceNeverRepeats` | internal/network/frame.go:113-160 | No two seals of one channel ever shared a nonce, failed writes included. |
| `Channels.SendMessage` | internal/network/frame.go:215-234 | Above 4 MiB neither counter nor stream moves; otherwise the counter moves unless it is exhausted, and the sealed frame is on the stream unless the payload does not fit, the counter is exhausted or a write fails. |
| `Channels.SendAll` | internal/network/frame.go:215-234 | What is sent before the first failure is the sealed frames in order, and a failure has one of three causes; a payload above the frame limit is turned away before the counter moves. |
| `Channels.ReceiveAll` | internal/network/frame.go:236-259 | The reader recovers exactly the payloads, in order, and its counter stays in step. |
| `Channels.Converse` | internal/network/frame.go:124-234 | Reader and sender agree on the whole sequence and end in step if and only if every payload fits, no write failed and the counter did not run out. |
| `Channels.SendEach` | internal/network/frame.go:215-234 | For every sequence handed over, refused payloads included, the stream is the frames of those that fit, each under the counter it meets. |
| `Channels.GapEndsConversation` | internal/network/frame.go:124-259 | For every sequence of payloads, a reader in step gets exactly those that fit before the first one whose seal does not, and refuses the first fitting one after it. |
| `Channels.NextFrameOpens` | internal/network/frame.go:138-234 | For any first payload handed over in step: the next that fits opens under the reader's counter if and only if the first fitted or was more than 4 MiB. |
| `Transcripts.DecimalDetermined` | internal/network/handshake.go:44-57 | A decimal number followed by a non-digit is read in one way only. |
| `Transcripts.NamespaceNotShorter` | internal/identity/identity.go:310-341 | With namespaces of at most 64 bytes, separators inside a namespace cannot make two hellos read alike at different namespace lengths. |
| `Transcripts.TranscriptDetermined` | internal/network/handshake.go:44-57 | A transcript, with anything after it that does not start with a digit, determines its hello and what follows. |
| `Transcripts.VersionDetermined` | internal/network/handshake.go:44-57 | A transcript starts with its own label, and two hellos that differ in the version alone have different transcripts. |
| `Transcripts.TranscriptBegins` | internal/network/handshake.go:44-57 | The text of a hello of version 4 starts with label, version, whether it is anonymous, and its namespace. |
| `Transcripts.SessionTranscriptDetermined` | internal/network/handshake.go:250-282 | Initiator transcript followed by responder transcript is injective on pairs of well-formed hellos. |
| `Transcripts.LongNamespacesCollide` | internal/network/handshake.go:44-57 | Without the namespace bound two different pairs of hellos have the same session transcript. |
| `Handshakes.Session.InstallSessionKeys` | internal/network/handshake.go:234-306 | Both directional keys come from one secret and one transcript order at either end, with labels swapped, and both counters start at zero; a failed agreement changes nothing. |
| `Handshakes.Session.FinishHandshake` | internal/network/handshake.go:94-348 | Succeeds if and only if the hello has version 4, a valid namespace and three 32-byte keys, is signed by its own key over its transcript, is within 15 minutes of the clock on either side, and the key agreement succeeds; the first failing check gives the error; a failure leaves the session as it was, and a success installs keys and takes the peer's identity from the hello. |
| `Handshakes.ShapesChecked` | internal/identity/identity.go:310-341 | The shape and namespace checks let through exactly the hellos of version 4 with a namespace of 1 to 64 printable characters without "::" and keys that decode to 32 bytes. |
| `Handshakes.HonestEndsAgree` | internal/network/handshake.go:206-306 | Ends that exchanged their hellos unchanged agree on both directional keys. |
| `Handshakes.EqualKeysBindHellos` | internal/network/handshake.go:250-282 | Ends that share a key saw the same two hellos in the same roles and use it for the same direction. |
| `Relays.OrderRelaysOrders` | internal/network/relays.go:154-166 | The result is in order of priority, then name, then address, compared as bytes. |
| `Relays.StringLessIsLexicographic` | internal/network/relays.go:154-166 | Strings are ordered by their first differing byte, a prefix before what it begins. |
| `Relays.ShuffleBand` | internal/network/relays.go:175-184 | The band is what its draws make of it, each exchanging the start with the place drawn; a permutation that keeps priorities in place and touches nothing outside. |
| `Relays.AnyMayLead` | internal/network/relays.go:175-184 | Any relay of a band may come first: for each there are draws that put it there. |
| `Relays.SelectRelays` | internal/network/relays.go:170-185 | Every maximal band of equal priority of the sorted relays is shuffled once by draws of its own; the result is a permutation with priorities nondecreasing. |
| `Relays.FirstOccurrencesKeepOrder` | internal/network/relays.go:234-249 | Leaving out repetitions keeps every value once, in the order of its first occurrence. |
| `Relays.DaddyAddresses` | internal/network/relays.go:218-256 | The nonblank addresses in dial order, then the legacy one, each once; never empty. |
| `ByteStrings.BigEndianRoundTrip` | internal/network/frame.go:36-45 | A length or counter in big-endian form is read back as itself. |
| `Tokens.TokensDecode` | internal/database/mailbox_privacy.go:547-553 | A token is exactly what decodes from hexadecimal to 32 bytes. |
| `Tokens.TrimTakesSpace` | internal/message/mailboxenvelope.go:60-66 | Trimming takes away space at both ends and nothing else. |
| `Tokens.EqualFoldsLetters` | internal/network/protocol.go:209-224 | Two mailbox IDs are equal up to case if and only if they are letter for letter the same or the two cases of one letter. |

## Left out

- SQLite itself: transactions are atomic methods on maps; WAL checkpoints, page erasure and SQL text are not modelled.
- Sockets, deadlines, dial timeouts, environment variables, file reads and daemon start-up: dials and sends succeed or fail at will.
- The insides of Ed25519, X25519, ChaCha20-Poly1305, HKDF, SHA-256 and JSON: functions with the assumptions above.
- The command line, aliases, folders, printing, metrics, the Python tools and deployment.
- Peer contact and route tables of `internal/database/database.go`: simple lookups, and `StoreRoute` skips its caps for a row that exists, so those caps are no invariant.
- `SetMailboxRoute`: an upsert without ownership or quota checks that the Daddy's handlers never call; runs of `Registry` do not contain it.
- Parsing of relay files, where a bare `host:port` line is taken for a key and a value, and the distribution of the shuffle, which swaps with the start of its band: every draw gives a permutation, but not every permutation can be drawn.
- The counter of concurrent background forwards: a forward is a direct send to the mailbox owner followed by a deletion, which runs of `Delivery` contain.
- Ghost forwarding in runs of `Delivery`: no node originates such a request, so it is treated on its own in `Ghosts`, over relays whose stores anybody may use in between.
- What relay probes and route lookups answer, and persistent connections: `Sessions` serves both kinds as requests that change nothing.
- The order of rows stored at the same second: ties are broken in any way.
- Rounding in the token buckets, which are over the reals here.
- Envelope sealing and opening beyond padding: in `Messages` an envelope is opened to its content or refused.
- Ghosts.GhostNetwork.HandleGhostForward: the mailbox owner's receive path is one arbitrary answer, because `Messages` treats what it does.
