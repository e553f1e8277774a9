# A verified model of the DMQ node core

This project models, in Dafny 4.11, the state-bearing core of a CIP-0137 Decentralized
Message Queue node written in Go, and proves what that core guarantees over whole runs:

* a **topic** (`Messages`, `Topics`, `TopicRuntimes`, `Fanout`): a bounded FIFO that is
  pruned in place, a time-windowed duplicate index, and subscriber channels;
* the **message-submission flow** of one connection (`Announcements`, `Pulling`,
  `SubmissionFlows`, `Delivery`): the serving side, the pulling side, and the two composed;
* **ledger peers and peer selection** (`Ordering`, `LedgerPeers`, `StakeScaling`,
  `PeerStore`);
* **KES time arithmetic** (`KesTime`), **KES signers** (`KesSigners`) and signing while
  providers are reloaded (`Reloading`). `Arithmetic` holds shared facts about products and
  quotients.

`dafny verify dfyconfig.toml` checks everything.

## How to read it

Objects that the program updates in place are classes here (`TopicRuntime`,
`SubmissionFlow`, `PeerSelector`, `KESSigner`, `FileSigner`): their methods follow the loops
of the program. Submissions, reads, pruning, selection, the connection handlers and
`KESSigner` are proved equal to transition functions, and the theorems about runs are lemmas
about those functions, over every sequence of events. Whatever interleaves with other
goroutines (subscriptions, reloads, the two ends of a connection) is a state machine whose
steps are the atomic sections of the program. The topic object and the `Fanout` machine meet
in the backlogs of the registered subscribers: `SubmitSigned`, `Subscribe`, `Unsubscribe` and
`CloseTopic` change them as `Fanout.StepOnRegistered` says the steps `Accept`, `Register`,
`Detach` and `Shut` do, an `Accept` happening exactly when `Topics.Submit` accepts. What the
machine remembers beyond that (logs, losses, flags) has no counterpart in the object.

The strongest results are

* `Topics.TopicRefinesLedger`: the bounded queue with its pruned index accepts and rejects
  exactly as a specification that remembers nothing but the log of acceptances;
* `Topics.UniqueIDsExactlyWhen`: the configurations under which a queue never holds one ID
  twice, characterised in both directions. The defaults are not among them;
* `Announcements.AnnouncedOnceInLogOrder` and `Announcements.AnnouncedOnceExactlyWhen`: no ID
  is announced twice although the record of announcements is pruned all the time, and the
  configurations for which this holds, in both directions;
* `Delivery.DeliveryExactlyWhen`: a puller ends up with exactly the messages it lacked, each
  accepted once, in queue order, after exactly ceil(n/count) rounds, and every queued ID in
  its duplicate index, on every schedule, if and only if that index outlasts the run (below);
* `Fanout.ChannelsSafe`: no channel is closed twice or sent to after closing, in any
  interleaving, and every acceptance in a subscriber's window is accounted for;
* `LedgerPeers.GreedyIsOptimal` and `StakeScaling.SelectedTrueShare`: the greedy choice of
  big pools is the smallest possible, and what it guarantees about the unrounded stakes;
* `KesTime.PeriodReached`: instants and KES periods form a Galois connection for every
  period, representable or not;
* `Reloading.FromSingleProvider`: a signed message never mixes two providers, is signed at the
  period the clock gave for its certificate, and verifies if and only if the key of its one
  provider is genuine.

### When delivery holds

Delivery is false of the program without a condition on the puller's duplicate window. An ID
the puller already knows is skipped when it is announced; if its entry in `seen` is older than
`DuplicateTTL`, the next acceptance prunes it, and the server never announces it again on that
connection. `Delivery.DefaultsLoseAnID` is such a run with the default configuration. The
exact condition for a run between `from` and `until` is `Delivery.Remembers`:

* if anything is missing, every queued ID already in the puller's `seen` is still within the
  window at `until`; and
* if two or more messages are missing, the window covers `from` to `until`.

A caller can check it before connecting. It holds for default-configured pullers whenever the
run and the age of what they already know stay within ten minutes, and always when the window
outlives the TTL (`Delivery.OutlivingWindowRemembers`). The other hypotheses are those of the
setting: unique live IDs at the server, one TTL policy, nothing queued expires before `until`,
room at an open puller, and, if the puller authenticates, messages its authenticator accepts.

### What is taken as given

* The TTL validator of the protocol library accepts a message at `now` iff it has not
  expired and `expiresAt <= now + MaxTTL`. Times are whole seconds; see "Left out". Whether the second
  `expiresAt` itself still counts is a parameter (`graceAtExpiry`); all results hold for
  both readings.
* A message ID is a collision-free digest of the payload without its ID.
* KES is symbolic: an update succeeds iff `Period + 1 < 2^Depth`, a key signs at its own
  period, and a signature determines root key, period and signed bytes.
* The protocol library answers each request in kind, one at a time, with no more IDs than
  requested.
* The clock does not go back between locked sections of a topic (`Topics.WellTimed`). The
  program reads the clock of a submission before taking the lock, so this is a hypothesis
  and not a fact; `Topics.ClockSetBackLosesMessage` shows what happens without it.

### Where code and documentation differ

* ARCHITECTURE.md describes a request loop driven by `RequestInterval`; the code sends each
  request in reaction to the previous reply. The model follows the code.
* The expiry reported with a credential status is documented as the end of validity. When
  the period after the last cannot be represented, the code reports a time in the past;
  `KesTime.ExpiryInFutureExactlyWhen` says exactly when.

## Model

| member | source | states |
|---|---|---|
| `Messages.Normalize` | topic.go:314-332 | an accepted message carries the ID computed from its payload, a message that already does is unchanged, and the ID never changes |
| `Messages.IDIdentifiesPayload` | topic.go:314-332 | two messages share an ID iff their payloads agree in every field but the ID |
| `Messages.AliveAtAbsorbs` | topic.go:265-274 | pruning earlier and then later equals pruning once later, provided nothing alive later was dropped earlier |
| `Topics.AdmissibleExactlyWhen` | topic.go:92-106 | a message passes the checks before the lock exactly with a body of at most 2000 bytes, no or the right ID, a live and not too distant expiry, and authentication where required |
| `Topics.ReasonExactlyWhen` | topic.go:92-106 | each rejection reason is given exactly when its check is the first to fail: size, ID, expiry, too distant expiry, authentication |
| `Topics.RunKeepsInv` | topic.go:88-152 | after every run with a non-decreasing clock: queue bound, queue and log indistinguishable by any later TTL filter, `seen` holds the latest acceptance of each ID and forgets it only outside the duplicate window |
| `Topics.TopicRefinesLedger` | topic.go:119-146 | every run accepts the same messages at the same times as the log-only specification, and the next submission gets the same verdict |
| `Topics.QueueRefinesLog` | topic.go:154-160 | after a read at `now` the queue is the whole acceptance history filtered by TTL at `now`, in order, and within MaxMessages |
| `Topics.DuplicateIffRecentlyAccepted` | topic.go:124-131 | an otherwise valid submission to an open topic is rejected as duplicate iff its ID was accepted within the window; acceptances of one ID are further apart than the window |
| `Topics.QueueFullNeverBlocksRetry` | topic.go:132-137 | after a queue-full rejection a later retry is never a duplicate, whatever happened in between short of accepting that ID |
| `Topics.RunKeepsDistinct` | topic.go:253-274 | with a duplicate window that outlives the TTL, every reachable queue has distinct IDs |
| `Topics.ResubmitDuplicates` | topic.go:124-138 | otherwise, and with room for two messages, an explicit two-step run puts one ID into the queue twice |
| `Topics.UniqueIDsExactlyWhen` | types.go:295-313 | distinct IDs in every reachable queue iff the window outlives the TTL or the queue holds one message |
| `Topics.DefaultsAdmitOneIDTwice` | types.go:302-310 | with 10 minutes of window and 30 minutes of TTL some run queues one ID twice |
| `Topics.ClockSetBackLosesMessage` | topic.go:265-274 | one read with an earlier clock drops a message that is alive again afterwards |
| `TopicRuntimes.TopicRuntime.constructor` | topic.go:49-57 | a new topic is open and empty, with a cleared backing array of MaxMessages slots |
| `TopicRuntimes.TopicRuntime.PruneQueueLocked` | topic.go:265-274 | in-place compaction implements the TTL filter on the backing array and clears the vacated tail |
| `TopicRuntimes.TopicRuntime.Compact` | topic.go:266-271 | the survivors slide to the front in order, the rest of the array is untouched |
| `TopicRuntimes.TopicRuntime.PruneSeenLocked` | topic.go:253-263 | deletion during iteration leaves exactly the entries within the window, in any iteration order |
| `TopicRuntimes.TopicRuntime.Broadcast` | topic.go:139-145 | every registered subscriber is offered the message once, in any iteration order, and only open channels are sent to |
| `TopicRuntimes.TopicRuntime.SubmitSigned` | topic.go:88-152 | new topic state and outcome are those of the submission transition; the registered backlogs are fanned out to iff it was accepted |
| `TopicRuntimes.TopicRuntime.MessageIDs` | topic.go:154-179 | the IDs of the live queue in order, cut to a positive maximum |
| `TopicRuntimes.TopicRuntime.MessagesByIDs` | topic.go:188-208 | exactly the live queued messages with a wanted ID, in queue order |
| `TopicRuntimes.TopicRuntime.Subscribe` | topic.go:210-227 | a fresh ID and channel, registered iff the topic is open and closed otherwise |
| `TopicRuntimes.TopicRuntime.Unsubscribe` | topic.go:243-251 | removes and closes that channel only; unknown IDs change nothing |
| `TopicRuntimes.TopicRuntime.CloseTopic` | topic.go:229-241 | closes every open channel once and empties the map; closing again changes nothing |
| `Fanout.ChannelsSafe` | topic.go:210-312 | over every interleaving nothing panics, the map holds exactly the registered open channels, and every acceptance in a subscriber's window was sent in order or lost on a full buffer; no subscription is closed successfully twice |
| `Fanout.CloseDetaches` | topic.go:301-312 | once a Close won the flag, in every interleaving that contains its unsubscribing step the channel ends up closed and out of the map |
| `Fanout.FirstCloseSucceeds` | topic.go:301-312 | Close reports success exactly to the first caller of a registered subscription that was not closed on arrival |
| `Fanout.StepOnTopic` | topic.go:210-241 | the topic is closed exactly from its shutdown on, with all registered channels; the log grows by what an open topic accepts; subscribing to a closed topic gives a closed channel; closed backlogs can be drained |
| `Fanout.NothingAfterClose` | topic.go:119-123 | after the topic closed nothing is accepted and every registered subscriber's stream is settled and closed |
| `Fanout.StepOnRegistered` | topic.go:139-145 | every step changes the registered backlogs as the corresponding method of the topic object does, and no other step touches them |
| `Announcements.FreshIsNextSlice` | protocol.go:160-183 | if the announced IDs are the first c queued ones, the reply is the next slice and the remembered set the longer prefix |
| `Announcements.ServerRunKeepsInv` | protocol.go:160-183 | along every run: announcements sit at increasing log positions, live messages below the frontier are remembered, and only those IDs are |
| `Announcements.ConnectionIsRun` | protocol.go:160-183 | a served connection is a run of the topic in which every served request is a read |
| `Announcements.AnnouncedOnceInLogOrder` | protocol.go:160-183 | over a whole connection no ID is announced twice and the announcements are a subsequence of the acceptance log in order |
| `Announcements.AnnouncedIsLivePrefix` | protocol.go:160-183 | after every served request `announced` is the ID set of a prefix of the live queue, at most MaxMessages large, and the reply fills the requested count if it can |
| `Announcements.AnnouncedOnceByConfiguration` | protocol.go:160-183 | the same from the configuration and the clock alone |
| `Announcements.AnnouncedOnceExactlyWhen` | protocol.go:160-183 | no connection to any reachable topic ever announces one ID twice iff the window outlives the TTL or the queue holds one message; the defaults are not among these |
| `Pulling.AcknowledgementsConserved` | protocol.go:244-281 | against every lawful peer: one request in flight, nothing outstanding during an ID request, each ID request acknowledges exactly the batch before it and asks for the configured count or 64, received = acknowledged + outstanding |
| `Pulling.LawfulExtends` | protocol.go:244-281 | lawful peers are exactly those that answer the request in flight in kind and within the count |
| `SubmissionFlows.SubmissionFlow.AskForIDs` | protocol.go:147-157 | acknowledges all that is outstanding, resets it, and requests the configured count or 64 |
| `SubmissionFlows.SubmissionFlow.NewIDs` | protocol.go:160-183 | the three loops compute the fresh IDs and the pruned record of announcements |
| `SubmissionFlows.SubmissionFlow.ForgetDead` | protocol.go:174-178 | deletion during iteration keeps exactly the live IDs |
| `SubmissionFlows.SubmissionFlow.OnReplyMessageIDs` | protocol.go:244-267 | overwrites the counter, then requests exactly the unseen IDs in order, or more IDs if there are none |
| `SubmissionFlows.SubmissionFlow.OnReplyMessages` | protocol.go:268-281 | submits every received message in order whatever becomes of each, then asks for more IDs |
| `SubmissionFlows.SubmitAllIsRun` | protocol.go:269-273 | a reply is one submission event per message, none left out, on top of any history of the topic |
| `SubmissionFlows.ArrivalIsTaken` | protocol.go:269-273 | a message of a reply that passes the checks, is unknown and finds room is queued and known afterwards, whatever becomes of the others |
| `Delivery.StepsSubmitAll` | protocol.go:269-273 | the steps of the composed connection submit a reply as the handler does |
| `Delivery.ConnectionReacts` | protocol.go:244-281 | the puller of the composed connection sends, acknowledges and counts as the puller of the acknowledgement results does |
| `Delivery.StepFits` | protocol.go:229-281 | under the exact condition on the puller's window: every step of the composed connection keeps the progress invariant and moves to the next packet, or the request is held |
| `Delivery.RunRank` | protocol.go:188-211 | under the same condition the work left (unannounced IDs first) goes down with every step until it is zero |
| `Delivery.DeliveredInOrder` | protocol.go:229-281 | under the same condition, at every moment the puller has accepted an initial part of what it lacked, in queue order, in at most ceil(n/count) rounds |
| `Delivery.DeliveryCompletes` | protocol.go:229-281 | under the same condition, after n(n+4) steps: all IDs announced in exactly ceil(n/count) rounds, all of them in the puller's `seen`, and its log extended by exactly the missing messages, each once |
| `Delivery.DeliveryExactlyWhen` | protocol.go:229-281 | every long enough schedule delivers if and only if no known queued ID leaves the puller's window before the end (when anything is missing) and the window covers the run (when two messages are missing) |
| `Delivery.DeliveryBetweenReachableNodes` | protocol.go:229-281 | the same equivalence between any two reachable nodes, for unique, unexpiring, authentic queued messages that fit into the open puller |
| `Delivery.OutlivingWindowRemembers` | topic.go:253-263 | a window that outlives the TTL meets the condition for every run |
| `Delivery.StaleIsLost` | protocol.go:252-257 | an announced ID whose entry in `seen` is outside the window is skipped, then pruned by the next acceptance, and is lost |
| `Delivery.LostForGood` | protocol.go:160-183 | a lost ID never reaches the puller over that connection, in any continuation with any clock |
| `Delivery.DefaultsLoseAnID` | types.go:302-310 | with the default configuration a puller forgets for good an ID it had accepted 601 seconds before |
| `Delivery.DefaultsBoundary` | types.go:302-310 | at 600 seconds it is not lost, at 601 it is; the default TTL admits 1800 seconds and not 1801 |
| `LedgerPeers.TextInjective` | discovery.go:407-412 | pools with and without IDs never share a key |
| `LedgerPeers.KeyIsPool` | discovery.go:407-412 | two entries of a snapshot have one key iff they are the same entry or share a non-empty pool ID |
| `LedgerPeers.TieOrder` | discovery.go:370-377 | at equal stake pools without ID come first, by the text of their index, then the others by ID |
| `LedgerPeers.AddressIdentifies` | discovery.go:676-685 | the address is the host, in brackets if it contains a colon, with the port in decimal; with a port no two host and port pairs share an address |
| `LedgerPeers.RelayPeersShape` | discovery.go:305-344 | exactly which hosts a relay yields and in which order, on which port, with its pool's ID and stake: one name for an SRV relay (by kind, by name, or a bare hostname without port), every host otherwise |
| `LedgerPeers.PoolsAreMaxima` | discovery.go:346-366 | the pool table has one row per pool and each row is the maximum of that pool's stakes |
| `LedgerPeers.TableOfSnapshot` | discovery.go:346-366 | over snapshot entries, exactly: one row per pool ID with stake, holding the largest stake of the entries with that ID, one row per entry with stake and no ID, and no other |
| `LedgerPeers.PoolMaxima` | discovery.go:346-366 | the loop over map, order and wrapping total computes that table and its sum modulo 2^64 |
| `LedgerPeers.GreedyPrefix` | discovery.go:379-389 | the accumulating loop selects the greedy prefix, including wrap-around |
| `LedgerPeers.SelectedExactly` | discovery.go:367-389 | for every table, wrap-around included: the first non-empty prefix in descending order whose wrapped sum reaches the wrapped total less a tenth, or everything |
| `LedgerPeers.TopIsHeaviest` | discovery.go:370-377 | exchange argument: no choice of pools outweighs as many top ones |
| `LedgerPeers.GreedyIsOptimal` | discovery.go:346-389 | if the total fits in uint64 the selected pools hold at least 9/10 of it, and no choice of fewer pools, in any order, does |
| `LedgerPeers.SelectsNothingExactlyWhen` | discovery.go:349-369 | no pool is selected iff the total of the maxima is a multiple of 2^64, whatever the stakes |
| `LedgerPeers.BigLedgerPeers` | discovery.go:346-405 | the relay peers of all entries whose pool was selected, marked big-ledger |
| `LedgerPeers.BigExactly` | discovery.go:391-405 | a peer is in Big iff it is a relay peer of an entry, with or without stake of its own, whose pool was selected |
| `LedgerPeers.AllPeersConcat` | discovery.go:289-294 | the relay peers of a snapshot are those of its parts in order, nothing added or dropped |
| `LedgerPeers.BuildLedgerPeerPools` | discovery.go:288-303 | both peer lists of a snapshot |
| `LedgerPeers.BigContainedInAll` | discovery.go:288-303 | All is a sorted permutation of every relay peer; Big with its source reset is exactly the selected entries' relay peers and part of All |
| `StakeScaling.ScaleMonotone` | discovery.go:602-613 | scaling preserves the order of rational stakes, saturation included |
| `StakeScaling.ScaleIsClose` | discovery.go:602-613 | a scaled stake is below the exact one by less than one unit |
| `StakeScaling.ScaleSaturates` | discovery.go:602-613 | no or a non-positive stake scales to 0, a stake of one or more to 2^64-1 |
| `StakeScaling.CommonDenominator` | discovery.go:602-613 | any rational stakes have a common denominator, so the results below cover all of them |
| `StakeScaling.ScaledTotal` | discovery.go:579-613 | the scaled total follows the true total from below by at most one unit per pool |
| `StakeScaling.SelectedTrueShare` | discovery.go:579-613 | for stakes summing to at most 1 the scaled total fits in uint64, and the selected pools' true stake is at least 9/10 of the true total minus 9n/(10(2^64-1)), stated over a common denominator |
| `PeerStore.KeyInjective` | discovery.go:799-800 | for slash-free sources the key determines source and address |
| `PeerStore.AddAllIsLastWins` | discovery.go:791-802 | adding peers is last-wins per key and touches no other key |
| `PeerStore.AddressedExactly` | discovery.go:791-802 | only a peer without address and host is skipped, and only a missing address is filled in |
| `PeerStore.RefreshIsPerSource` | discovery.go:776-789 | refreshed sources become exactly the last-wins image of the new peers, every other source is untouched, every entry sits under its own key |
| `PeerStore.DiscoveryIsPerSource` | discovery.go:432-437 | the same for a ledger discovery of any snapshot |
| `PeerStore.DiscoveryStoresBoth` | discovery.go:432-437 | every relay of every entry is stored as a ledger peer, and those of selected pools as big-ledger peers too |
| `PeerStore.SlashInSourceCollides` | discovery.go:799-800 | with a slash in a source, a refresh of another source can overwrite it |
| `PeerStore.ListingUnique` | discovery.go:872-879 | there is only one strictly sorted list of the stored peers |
| `PeerStore.OrderOfListing` | discovery.go:872-879 | strictly sorted means by source and then by address, lexicographically |
| `PeerStore.PeerSelector.AddPeers` | discovery.go:770-802 | the store becomes the last-wins merge and stays well kept |
| `PeerStore.PeerSelector.SetPeersForSources` | discovery.go:776-789 | deletion during iteration followed by the merge is the refresh |
| `PeerStore.PeerSelector.Peers` | discovery.go:805-814 | the strictly sorted listing of the store, in any iteration order |
| `PeerStore.PeerSelector.Select` | discovery.go:818-834 | the loop with class counters returns exactly the peers the rank rule chooses; no more than n, no more than each quota allows of its sources, and without n every quota filled from the front of the listing |
| `PeerStore.ChosenWithinQuotas` | discovery.go:836-870 | a positive quota bounds the selected peers with source "ledger", "big-ledger", "peer-sharing", and of the four topology and static sources together |
| `PeerStore.ChosenFillsQuotas` | discovery.go:836-870 | without an overall limit, exactly: each source group yields its first peers up to the quota, and all of them without a quota or for an unknown source; peers of an unknown source called "topology" count for the topology quota |
| `PeerStore.SourceNamedTopologyUsesQuota` | discovery.go:846-860 | an input where that matters: such a peer leaves no place for a topology peer |
| `PeerStore.CountDecides` | discovery.go:823-826 | the running counter decides eligibility like the number of earlier peers of the class |
| `PeerStore.SelectionIsPrefix` | discovery.go:818-834 | Select(n) is a prefix of Select(m) for 0 < n <= m and of the unlimited selection |
| `KesTime.PeriodReached` | cardano.go:159-233 | for every k the period at t is at least k iff k began before the network or its start is representable and not after t; saturation and overflow included |
| `KesTime.PeriodStartExactly` | cardano.go:215-233 | the start of a period in closed form, and exactly when it is given up |
| `KesTime.NoPeriodExactlyWhen` | cardano.go:159-213 | which error is returned, exactly when |
| `KesTime.KESGaloisConnection` | cardano.go:159-233 | for representable k: period(t) >= k iff t >= start(k) |
| `KesTime.PeriodOfStart` | cardano.go:215-233 | the period at the start of k is k |
| `KesTime.CertificateWindow` | kes_payload.go:694-730 | a relative period is accepted at t iff start(cert) <= t < start(cert + max) |
| `KesTime.StatusAgreesWithSigners` | kes_payload.go:431-451 | the status computation accepts and fails exactly like the signers, with the same errors, the effective maximum, and 1 <= remaining <= max |
| `KesTime.ExpiryIsFirstRefusal` | kes_payload.go:443-451 | where it is representable, the reported expiry is the first instant at which the signers refuse |
| `KesTime.ExpiryInFutureExactlyWhen` | kes_payload.go:443-451 | the reported expiry is after now iff the period after the last is representable |
| `KesTime.ExpiryCanBeReportedPast` | kes_payload.go:443-451 | parameters for which a valid certificate is reported as expired |
| `KesTime.EffectiveMax` | kes_payload.go:717-730 | the configured maximum exactly when it lies between 1 and 64, otherwise the 64 evolutions of the key |
| `KesSigners.KESSigner.AdvanceTo` | kes_payload.go:519-531 | whatever key is held: the loop is the iterated update, and going back is refused; a sound key arrives at any later period below 64, and beyond that stops at 63 with an error |
| `KesSigners.KESSigner.Sign` | kes_payload.go:501-517 | whatever key is held: key and answer are those of the signing transition, and the signature verifies under the certificate iff the key is genuine for it |
| `KesSigners.VerifiesExactlyWhenGenuine` | kes_payload.go:501-517 | for any key material: signing keeps the root and the drift of the key, and an issued signature verifies iff the key has the certificate's root and was updated as often as its period says |
| `KesSigners.SignAtSound` | kes_payload.go:501-531 | iterating updates on a sound key has a closed form: refused past validity or backward with the key unchanged, otherwise the fresh key updated `period` times and a signature at that period |
| `KesSigners.KeyTracksSuccesses` | kes_payload.go:501-531 | after any run of calls the key is the initial one updated as often as the largest period signed so far |
| `KesSigners.ForwardOnly` | kes_payload.go:501-531 | in any run a call succeeds iff its period is valid and at least every earlier successful one; failed calls leave the key unchanged |
| `KesSigners.FileSigner.EvolveToRelativePeriod` | signer.go:264-278 | copy, then commit: succeeds iff forward and below 64, and changes nothing otherwise |
| `KesSigners.FileSigner.Sign` | signer.go:130-171 | exactly when it succeeds and with which error otherwise; the period comes from the payload, then the function, then the default; what it returns passes verification after any history, carries its ID and certificate; failures leave the key unchanged |
| `KesSigners.SigningBytesCoverPayload` | signer.go:282-293 | what is signed determines the payload up to its ID |
| `KesSigners.VerificationBinds` | signer.go:228-241 | a signature that verifies on one message verifies on another iff payload up to the ID, verification key and certificate period are the same |
| `KesSigners.SoundSignatureVerifies` | signer.go:228-241 | a key that was updated as often as its period says produces verifiable signatures |
| `Reloading.RunKeepsInv` | reloading.go:199-227 | every interleaving, with any factory, keeps each call bound to one provider, whose evolving key keeps its root and whether it is genuine |
| `Reloading.RunIsTraced` | reloading.go:199-227 | over every interleaving the newest provider made is the active one, and every call can be traced to its request, to the turn at which it took the newest provider, and to the later turn whose clock gave its period |
| `Reloading.OthersMoveTheKey` | kes_payload.go:492-517 | a signature someone else gets from a provider evolves that provider's key and touches nothing else |
| `Reloading.RunKeepsSound` | kes_payload.go:519-531 | if the factory checks what it makes, every provider's key is its fresh key updated as often as its period says, whatever interleaves |
| `Reloading.FromSingleProvider` | kes_payload.go:782-835 | with any factory: a returned message has the requested body and expiry, certificate, stamped period and signature of the one provider that was newest when the call took it; the signed period is the one the clock gave for its certificate at a later turn of the call; and it verifies iff the key that provider was made with is genuine |
| `Reloading.UninterruptedExactlyWhen` | kes_payload.go:782-835 | a call that nothing interrupts succeeds iff a provider is active, the payload has an expiry, the certificate is in its window, and the key is not past the period |
| `Reloading.SignedBySingleProvider` | kes_payload.go:782-835 | with a factory that checks what it makes, it verifies |

## Left out

- Sockets, muxer, handshake, listener and dial loops of network.go: input and output; only the first request of a pull is modelled, as the start of a run.
- `submissionFlows.forConnection`: one flow per connection is taken for granted; dropping entries when a connection stops is not modelled.
- The hold interval of `replyIDs`: a held request is a step that changes nothing; waiting times and cancellation are not modelled. That a non-blocking request may get an empty reply is not part of the composed run, because the puller never sends one.
- Failures of the CBOR encoder and of sending requests, which the program reports to a hook.
- Hooks, logging, error texts, defensive copies, and the fields of an envelope other than its message.
- `Manager`, `TopicNode`, configuration defaults other than the queue and TTL ones: thin wrappers. MaxMessages > 0 is a precondition of the topic results.
- Wrap-around of the 64-bit subscription counter.
- Topology settings carried by a peer (valency, advertise, trustable), IP address formatting, provider adapters and relay conversion of discovery.go: copied without decisions.
- Epoch arithmetic, network presets and genesis loading of cardano.go: easy members only.
- The external signer process, key and certificate files, and the cold-key signature check.
- `ReloadingSigner` over file signers: the same swap as the modelled provider swap, with one delegated call.
- LedgerPeers.GreedyIsOptimal: claims nothing about totals beyond uint64; there the selection follows the wrapped sums (LedgerPeers.SelectedExactly), down to nothing at all exactly for multiples of 2^64 (LedgerPeers.SelectsNothingExactlyWhen).
- Topics.UniqueIDsExactlyWhen: exact for a clock of whole seconds. The program's clock is finer: with `MaxTTL = DuplicateTTL + 1s` and no grace a resubmission within that last second queues an ID twice. The same holds for Announcements.AnnouncedOnceExactlyWhen.
- TopicRuntimes.TopicRuntime.constructor: does not seed the topic's peer selector from the configured peers; PeerStore models the selector on its own.
- TopicRuntimes.TopicRuntime.MessageIDs: omits the encoded size reported with each ID, because no encoder is modelled.
- Delivery.DeliveryBetweenReachableNodes: one connection and no other traffic; other submissions to the puller during the run could prune its index or fill its queue.
- Fanout.ChannelsSafe: a channel without buffer is treated as always full; the default buffer is 16.
