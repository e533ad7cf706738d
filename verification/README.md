# NullNode: a verified model

NullNode is a store-and-forward messenger. Clients encrypt with a double ratchet
that mixes a fresh ML-KEM secret into its steps, hand the result to a relay that
keeps it in memory and in a database until it is fetched, and find each other
through a DHT. This project models the parts in which several pieces of state
have to agree over a whole run, and proves that they do.

Code that changes an object is modelled by a class with the same fields, and every
method is proved equal to a function of the old state. The main theorems are about
those functions, over every run: any sequence of operations, in any order. What a function
takes from its input, and when it refuses, is stated beside it without the function.

| Part | Modules | What is proved over every run |
|---|---|---|
| Sessions | `Ratchet`, `FirstMessage`, `TwoParty` | two sessions on one secret stay in step in both directions, under every interleaving |
| Relay path of the client | `Padding`, `Client`, `Delivery`, `DeliveryRuns`, `CrossedPosts` | the stored sessions stay in step under refused and unanswered sends, repeated fetches and foreign entries, and exactly which moves end that for good |
| Relay | `Mailboxes`, `MailboxRuns`, `ReplayLog`, `RelayState`, `RelayRuns`, `RelayMemory`, `RelayRequests` | retention and fairness of a mailbox; the relay is a pending set, and without a database its mailboxes; exactly the genuine new requests are stored; replay protection and exactly when it holds |
| Clients over the relay | `EndToEnd`, `MemoryOnly` | every message is delivered in order through a relay with a database; without one, exactly when the first fetch reads everything and when nothing |
| DHT core | `RateLimiter`, `CertCache`, `DhtStore`, `DhtNode` | each trimmed structure answers as the full history does, or exactly as far as what an eviction left of it |
| Byte algorithms | `Braid`, `Pow`, `Stun`, `Pir` | reassembly, bit counting as a numeric threshold, a parser that inverts the encoding, masked lookup |

`Wrappers`, `Sets`, `Powers`, `Sequences`, `Sorting` and `Bytes` hold shared definitions and
facts.

## Where the code does not keep what it seems to promise

Each bullet is a theorem below, with the exact condition under which the promise
holds.

- A first message has no trailer, but the receiver reads its last two bytes as one.
  It is read back if and only if it has 30 bytes or more and those bytes do not spell
  a length that fits in the body (`Ratchet.FirstFrameExact`;
  `FirstMessage.FirstMessageCanBeRefused` is a concrete instance).
- A move of either client keeps the stored sessions in step if and only if it is none
  of three kinds (`DeliveryRuns.MoveExact`), and a run does if and only if it has no
  move of these kinds (`DeliveryRuns.EveryRunCommits`); nothing later mends it.
  - A second opening message. Either client opens a session when it holds none, so if
    both write before either reads, each holds a session on a secret of its own
    (`DeliveryRuns.FirstPostExact`, `DeliveryRuns.SecondOpeningRefuses`;
    `CrossedPosts.BothWriteFirst` is a concrete instance).
  - A fetch in which an entry that is not one of the peer's unread messages is accepted
    into the peer's session (`DeliveryRuns.FetchExact`). Such an entry can come from the
    peer: the relay stores a message before it answers (relay/src/main.rs:1100-1101), and
    a sender whose connection is lost in between reports a failure and keeps its old
    session (client/src/main.rs:1632-1642). The recipient reads the message all the same,
    and the agreement is over (`DeliveryRuns.StrayInTurn`,
    `DeliveryRuns.LostAnswerEndsAgreement`). It can also come from elsewhere, because the
    relay does not tie the name of a sender to the key that signed the request
    (relay/src/main.rs:627-665).
  - A purge or an acknowledgement that drops an unread message. A fetch removes nothing,
    so every read hands out the whole mailbox again, and the purge that follows it drops
    the whole mailbox, with what has been accepted since (`DeliveryRuns.PurgeExact`). As
    the client writes the request, without `msg_type`, `msg_id` and `payload`
    (client/src/main.rs:1470-1478), the relay cannot parse it (relay/src/main.rs:54-60,
    981-987) and nothing is purged; what is modelled is the purge the relay's handler
    performs.
- Without a database, a recipient's first fetch reads all messages of a sender if and
  only if the sender's opening message is still in the mailbox and not a week old, and
  otherwise it reads none of them (`MemoryOnly.FirstFetchExact`). In a mailbox that has
  not been full, which holds of one with a single sender, that is if and only if the
  sender has stored at most ten messages and the first less than a week ago
  (`MemoryOnly.OpeningWaitsExact`, `MemoryOnly.AloneHasRoom`).
- The padding header keeps only the low byte of the padding length, although its
  comment says up to 65535 must fit. A message comes back unchanged exactly when
  its padding is at most 255 bytes long, so always up to 511 bytes and never at 512
  (`Padding.RoundTripExact`, `Padding.ShortMessagesSurvive`).
- A request dated in a later second than the one it is accepted in can be accepted
  twice, although its timestamp is still fresh when it comes back; otherwise it
  never is, within 500 further grants to its sender (`ReplayLog.ReplayProtectionExact`).
  500 is the most: after 501 further grants, all in one moment, it can be accepted again
  at once (`ReplayLog.FiveHundredIsTight`).
- The rate limiter makes room for a new key by evicting another one, which the map's
  iteration happens to yield first and not the oldest, as the comment has it. A key is
  refused if and only if max of its granted calls since its last eviction lie in the
  window, so an eviction lifts the limit (`RateLimiter.EveryAnswerIsExact`,
  `RateLimiter.EvictionLiftsLimit`); under every configuration some run takes a key over
  it (`RateLimiter.LimitIsExceeded`), and every eviction in an interval is worth at most
  max calls more (`RateLimiter.EveryRunHoldsLimit`).
- A chunked key exchange is complete when it holds as many different numbers as it has
  chunks, and a chunk's number is compared with that chunk's own total alone
  (protocol/src/braid.rs:62-67, 89-92). The numbers that completed it are all of its own if and
  only if none of them is past its last (`Braid.CompletionExact`). For every key of two
  chunks or more, one with the key's hash and such a number, arriving after all chunks
  but the last, completes the handshake, and the last block is reconstructed as zeros
  (`Braid.EarlyCompletion`).
- Sequence numbers in the DHT do not protect across a sweep: a lower one is accepted if
  and only if a sweep has come after the row expired (`DhtStore.SweepForgetsSequence`).
- The PIR registry answers with the raw bin. Processing such an answer with the
  mask of the token reads every bin a registry can hold correctly if and only if the
  mask is all zero; what the comment asks of the caller, applying the mask first, makes
  the lookup correct (`Pir.RawAnswerExact`, `Pir.MaskedLookup`).

One comment gives the length of an ML-KEM-1024 ciphertext as 1504 bytes
(crypto/src/kyber.rs:39); the code's own check says 1568 (crypto/src/kyber.rs:462),
which is what the model uses.

## What is assumed

- The key derivation, the KEM, the AEAD, the text codecs, Argon2id, SHA-2 and upper
  casing are parameters. `Ratchet.Primitives.Sound` and `HonestPair` list everything
  assumed of the session's: the AEAD opens what it sealed, and whatever it opens is 16
  bytes longer than the plaintext; decapsulation inverts encapsulation for an honest
  pair; secrets have 32 bytes; the codecs are inverse pairs. `FirstMessage.ExampleIsSound`
  shows that these hold together. Encryption is taken not to fail.
- What a key does with frames that were not sealed under it is left open. Runs are
  divided by whether a session accepts such a frame, not by an assumption that it does
  not. Only `DeliveryRuns.SecondOpeningRefuses` asks, of the one frame it is about, that a
  session on a different secret refuses it (`Delivery.KeysSeparated`).
- Clocks and random draws are parameters. A request reads the clock once. Times that
  are floating-point numbers in the source are reals.
- Every operation is one atomic step, and database statements succeed, except where
  a theorem speaks of a failed query.
- What a hash map or a database leaves open (which key comes first, the order of rows
  with equal sequence numbers, which of two equally old entries goes) is a parameter
  constrained only to be one of the possible choices.

## Model

| member | source | states |
|---|---|---|
| `Ratchet.DoubleRatchetSession.Create` | crypto/src/lib.rs:135-173 | a session is created exactly from secrets of 32 bytes or more, with the two chain keys assigned by role |
| `Ratchet.DoubleRatchetSession.EncryptFirst` | crypto/src/lib.rs:186-204 | the frame is nonce and ciphertext under the key derived from the send chain; the send chain takes one step, the counter goes up by one, nothing else changes |
| `Ratchet.DoubleRatchetSession.EncryptMessage` | crypto/src/lib.rs:206-236 | the frame also carries the KEM ciphertext and its two-byte length, and the KEM secret is mixed into the send chain's step |
| `Ratchet.DoubleRatchetSession.DecryptMessage` | crypto/src/lib.rs:238-286 | answer and new state are those of the frame specification: refusals before the AEAD leave the state alone, refusals by it advance the receive chain but not the counter |
| `Ratchet.DoubleRatchetSession.SimpleDecrypt` | crypto/src/lib.rs:288-298 | one step of the receive chain on success and on refusal alike; the counter only on success |
| `Ratchet.ChainStep` | crypto/src/lib.rs:175-183 | a step splits the 64 derived bytes into a message key of 32 and the next chain key |
| `Ratchet.OpensTagged` | crypto/src/lib.rs:238-285 | for every frame that ends in the length of what precedes it: too short, a KEM ciphertext of the wrong size, or opened under the chain key with the decapsulated secret behind it, where the chain moves on refusal too and the counter only on success |
| `Ratchet.OpensUntagged` | crypto/src/lib.rs:238-298 | every other frame is opened under the chain key alone, likewise |
| `Ratchet.OppositeRoles` | crypto/src/lib.rs:154-158 | two sessions on one secret with opposite roles have each other's chain keys, which together are all of the derived output |
| `Ratchet.MixedFrameOpens` | crypto/src/lib.rs:206-286 | every frame with a KEM ciphertext is read back by a receiver holding the sender's chain key, who then holds the sender's next chain key |
| `Ratchet.FirstFrameOpens` | crypto/src/lib.rs:186-204 | a first frame that takes the simple path is read back likewise |
| `Ratchet.FirstFrameExact` | crypto/src/lib.rs:246-285 | for every first frame: the plaintext is read back if and only if the frame has at least 30 bytes and its last two do not spell a length that fits; otherwise, unless they spell 1568, it is refused without moving the chain |
| `Ratchet.RejectionAdvancesChain` | crypto/src/lib.rs:268-274 | a refusal by the AEAD leaves the in-memory receive chain at the second half of the bytes derived from the chain key and a secret that is decapsulated from the frame or empty |
| `FirstMessage.ExampleIsSound` | crypto/src/lib.rs:175-298 | the assumptions on the primitives are consistent: a concrete choice satisfies them |
| `FirstMessage.FirstMessageCanBeRefused` | crypto/src/lib.rs:253-260 | with sound primitives and equal chain keys, a first message can be refused as a malformed KEM frame |
| `TwoParty.InStepExtend` | crypto/src/lib.rs:186-298 | appending a frame that opens under the target chain key extends the fold of the receiver's chain over the frames in flight |
| `TwoParty.SendKeepsLane` | crypto/src/lib.rs:186-236 | a send keeps a direction in step and adds to what is in flight |
| `TwoParty.ReceiveKeepsLane` | crypto/src/lib.rs:238-298 | delivering the oldest frame yields its plaintext and keeps the direction in step |
| `TwoParty.EveryRunAgrees` | crypto/src/lib.rs:135-298 | in every interleaving of sends and deliveries in both directions, the receiver's chain folded over the frames in flight is the sender's chain, every such frame opens to its plaintext, what was read is a prefix of what was sent, and the counters count |
| `TwoParty.DrainedRunDeliversAll` | crypto/src/lib.rs:135-298 | when nothing is in flight, both parties have read exactly what was sent and hold the same two chain keys |
| `Padding.PadMessageBucket` | client/src/main.rs:2373-2412 | the result is the hex form of header, message and filler |
| `Padding.PaddedFillsLeastBucket` | client/src/main.rs:2380-2400 | the decoded form has exactly the length of the least power of two, at least 256, that holds the message and its header |
| `Padding.UnpadStartsWithMessage` | client/src/main.rs:2416-2427 | unpadding always yields the message, followed by as many whole 256-byte blocks of filler as the header could not count |
| `Padding.RoundTripExact` | client/src/main.rs:2373-2427 | the round trip is exact if and only if the padding is at most 255 bytes long |
| `Padding.ShortMessagesSurvive` | client/src/main.rs:2373-2427 | up to 512 bytes, the messages that survive are those of at most 511 |
| `Client.MessageStore.SendViaRelay` | client/src/main.rs:1518-1632 | an existing session sends a mixed frame, a missing one is created by a KEM exchange and sends a first frame with the ciphertext beside it; the session is saved if and only if the relay answered ok |
| `Client.MessageStore.RelayDecryptMessage` | client/src/main.rs:1803-1880 | which error comes first, which session is used or created, and that the session table changes only after decryption and unpadding both succeeded |
| `Client.RefusalExact` | client/src/main.rs:1803-1863 | which refusal an entry with a named sender meets before its frame is opened, if and only if; a refused entry leaves the session table alone, an accepted one all of it but the sender's session |
| `Client.AcceptedExact` | client/src/main.rs:1836-1880 | past those refusals, in the stored session or the one the KEM ciphertext creates, the frame alone decides: its text is unpadded and read, and exactly the advanced session is saved if both succeed |
| `Client.NamedByFingerprint` | client/src/main.rs:1803-1830 | an entry that gives only a fingerprint is treated as one that gives the name it hashes to; one that gives neither is refused |
| `Bytes.HexDecodeExact` | client/src/main.rs:1846-1847 | decoding accepts exactly the encodings, in either case of digits |
| `Client.MessageStore.RelayFetch` | client/src/main.rs:1416-1447 | entries are worked through in order, failed ones are dropped, and sessions carry over from one to the next |
| `Delivery.PostKeepsLane` | client/src/main.rs:1545-1627 | a send the relay accepted keeps stored sender and receiver sessions in step over the unread messages |
| `Delivery.LaneAdvances` | client/src/main.rs:1865-1877 | the oldest unread entry opens to its padded text and the direction stays in step |
| `Delivery.FetchGenuine` | client/src/main.rs:1803-1880 | working through the oldest unread entry reads its message and saves exactly the advanced session |
| `Delivery.EveryFetchReadsAll` | client/src/main.rs:1416-1447 | a fetch of the whole mailbox, read entries and foreign ones included, reads every unread message, keeps the sessions in step, and leaves every entry in the mailbox |
| `Delivery.FetchIsClientFetch` | client/src/main.rs:1416-1447 | that fetch has the session table and the texts of the client's loop over the entries handed out |
| `Delivery.LaterPostCommits` | client/src/main.rs:1520-1557 | a party that holds the session may always write |
| `Delivery.FirstPostCommits` | client/src/main.rs:1528-1552 | the first message of all keeps the sessions in step although the peer's does not exist yet, whichever party sends it |
| `Delivery.MoveCommits` | client/src/main.rs:1518-1880 | every move that is not a damaging one keeps the sessions in step, sends that the relay stored without the sender learning of it included |
| `DeliveryRuns.SecondOpeningRefuses` | client/src/main.rs:1528-1543 | a second opening message leaves its sender with a session that refuses the peer's oldest message when it is handed out, and is not changed by that |
| `DeliveryRuns.MoveFindsNothing` | relay/src/main.rs:774-816 | no move finds a lost message again, and a purge or an acknowledgement loses the unread messages it drops |
| `DeliveryRuns.MoveStrangers` | client/src/main.rs:1803-1880 | a session counts one more accepted entry than messages read for every fetch that accepts something else than the peer's unread messages, and no move takes that back |
| `DeliveryRuns.MoveStaysBroken` | client/src/main.rs:1518-1880 | once a message is lost, something else is accepted into a session, or both parties opened one, no move of either party changes that |
| `DeliveryRuns.MoveExact` | client/src/main.rs:1518-1880 | a move keeps the agreement if and only if it is not a second opening message, a fetch that accepts anything but unread messages into the peer's session, or a dropping of unread messages |
| `DeliveryRuns.FetchExact` | client/src/main.rs:1416-1447 | a fetch keeps the agreement if and only if nothing else it hands out is accepted into the peer's session when its turn comes |
| `DeliveryRuns.PurgeExact` | relay/src/main.rs:800-816 | a purge keeps the agreement if and only if it drops no unread message |
| `DeliveryRuns.FirstPostExact` | client/src/main.rs:1518-1543 | once the peer has written, a message the relay answered ok keeps the agreement if and only if its sender already holds the session |
| `DeliveryRuns.StrayInTurn` | client/src/main.rs:1600-1642 | a message that the relay stored without the sender learning of it leaves the agreement as it is, and is accepted under the sender's name, word for word up to 511 bytes, once the recipient has read those before it |
| `DeliveryRuns.LostAnswerEndsAgreement` | relay/src/main.rs:1095-1102 | the fetch that hands out such a message after the unread ones ends the agreement |
| `DeliveryRuns.EveryRunCommits` | client/src/main.rs:1518-1880 | in every run of sends that are answered ok, refused, or stored without an answer, whoever writes first, of fetches of the whole mailbox, purges, acknowledgements and any entries stored by others, both stored sessions are in step over the unread messages if and only if no unread one was ever dropped, the parties never both wrote first, and nothing else was ever accepted into a session |
| `DeliveryRuns.EveryRunReadsInOrder` | client/src/main.rs:1518-1880 | in every run without such damage both recipients read the peer's messages in order, none skipped or repeated, word for word up to 511 bytes, and all that is outstanding is unread in the mailbox |
| `CrossedPosts.BothWriteFirst` | client/src/main.rs:1518-1543 | a concrete choice of sound primitives under which both parties, whatever they write first, end up refusing each other's message for good |
| `Mailboxes.Mailbox.Store` | relay/src/main.rs:247-262 | the oldest entry of a sender at its cap, or else the oldest of all in a full mailbox, makes room for the new one |
| `MailboxRuns.EvictionKeepsRecent` | relay/src/main.rs:247-262 | making room leaves every sender a suffix of its entries, the storing sender at most nine, and a free place |
| `MailboxRuns.EveryRunRetainsRecent` | relay/src/main.rs:247-278 | over every run of stores, acknowledgements and clean-ups, the mailbox stays within its size and holds of each sender exactly the most recent k of what it stored and was not acknowledged, k at most 10, in order |
| `MailboxRuns.KeepsLastTen` | relay/src/main.rs:247-262 | as long as the mailbox does not fill up and nothing expires, exactly the last min(10, n) of the n entries of every sender are kept |
| `MailboxRuns.KeepsAllWithRoom` | relay/src/main.rs:247-278 | over every run of stores and clean-ups in which the mailbox does not fill up, a sender with at most ten entries, none of them expired, keeps all of them |
| `MailboxRuns.EveryRunIsFair` | relay/src/main.rs:247-262 | in every run of stores by the senders in K, the others lose only their oldest entries, at most 10 for every sender in K minus what K held at the start |
| `MailboxRuns.LosslessExactly` | relay/src/main.rs:247-262 | a run of stores loses nothing if and only if everything together is within both limits |
| `ReplayLog.EveryRunIsFaithful` | relay/src/main.rs:601-623 | in every run with a non-decreasing clock, a sender's log is a suffix of all its granted nonces, of at most 1000, and lacks only nonces that are over 300 seconds old or more than 500 grants back |
| `ReplayLog.RecentNonceIsRefused` | relay/src/main.rs:605-623 | a granted nonce is refused again within 300 seconds after at most 500 later grants |
| `ReplayLog.ReplayIsRefused` | relay/src/main.rs:1088-1098 | a store request not dated in a later second than its acceptance is never accepted again, after at most 500 further grants to its sender |
| `ReplayLog.AheadOfClockIsReplayable` | relay/src/main.rs:675-691 | a request dated in a later second is accepted again after one further grant 301 seconds later |
| `ReplayLog.ReplayProtectionExact` | relay/src/main.rs:601-691 | so replay protection of an accepted request is complete if and only if its timestamp is not in a later second than its acceptance |
| `ReplayLog.FiveHundredIsTight` | relay/src/main.rs:601-623 | over all runs, requests not dated ahead are protected for n further grants to their sender if and only if n is at most 500 |
| `RelayState.RelayState.StoreMessage` | relay/src/main.rs:693-735 | the entry goes into the recipient's mailbox, created if missing, and as an undelivered row into the database |
| `RelayState.RelayState.FetchMessages` | relay/src/main.rs:737-772 | the database's answer unless it failed or is empty, and then the live entries in memory |
| `RelayState.RelayState.AckMessage` | relay/src/main.rs:774-794 | the sequence number is gone from the recipient's memory and its undelivered rows are marked; other recipients keep everything |
| `RelayState.RelayState.PurgeAllMessages` | relay/src/main.rs:800-816 | the recipient's mailbox and rows are gone, and nobody else's |
| `RelayState.RelayState.ExpireMailboxes` | relay/src/main.rs:825-827 | every mailbox keeps exactly its live entries |
| `RelayState.RelayState.CleanupExpired` | relay/src/main.rs:818-840 | memory keeps the live entries of non-empty mailboxes; of the rows only delivered ones past the time to live go |
| `RelayState.RelayState.CheckAndRecordNonceStr` | relay/src/main.rs:601-623 | true exactly for a nonce the log does not mention, which is then recorded after trimming by age and by count |
| `RelayState.RelayState.HandleRelayStore` | relay/src/main.rs:1080-1102 | a message is stored exactly when there is a signature, it verifies or hides its sender as anonymous, the timestamp is within 300 seconds either way, and the sender's log lacks the nonce; otherwise the first of these that fails is the error and nothing changes |
| `RelayRuns.StepRefinesPending` | relay/src/main.rs:693-840 | each operation keeps the undelivered rows equal to the pending messages and memory within them |
| `RelayRuns.EveryRunRefinesPending` | relay/src/main.rs:693-840 | over every run of stores, acknowledgements, purges, clean-ups and restarts for any number of recipients, the undelivered rows are exactly the pending messages in storage order, and memory is a sub-multiset of them |
| `RelayRuns.EveryFetchIsPending` | relay/src/main.rs:737-772 | a fetch hands out exactly the stored, not acknowledged, not purged messages, each as often as it was stored, by non-decreasing sequence number; the fallback to memory neither revives nor loses anything |
| `RelayRuns.FailedQueryIsSafe` | relay/src/main.rs:737-772 | when the query fails, what is handed out is still pending |
| `RelayRuns.CleanupDropsOldDelivered` | relay/src/main.rs:832-838 | a clean-up deletes exactly the rows delivered and stored over a week ago |
| `RelayRuns.PurgeDropsRecipient` | relay/src/main.rs:805-815 | a purge deletes every row of the recipient and no other |
| `RelayRuns.AckMarks` | relay/src/main.rs:780-793 | an acknowledgement marks exactly the recipient's rows with the number and changes nothing else |
| `RelayMemory.EveryRunIsMailbox` | relay/src/main.rs:693-840 | over every run of stores, acknowledgements, purges, clean-ups and restarts, with a database or without, what memory holds for a recipient is the bounded mailbox of its own stores and acknowledgements since its last purge and the last restart |
| `RelayMemory.EveryFallbackIsMailbox` | relay/src/main.rs:737-772 | without a database, or when the query failed or found nothing, a fetch answers exactly the unexpired entries of that mailbox |
| `RelayMemory.LiveForAWeek` | relay/src/main.rs:264-274 | an entry is unexpired for 604800 seconds from its storage; by the wrapping subtraction so is one dated almost 2^64 seconds ahead |
| `RelayRequests.AcceptanceExact` | relay/src/main.rs:601-691 | a store request is accepted if and only if it has a signature, this verifies or the sender is hidden and anonymous, its timestamp is within 300 seconds either way, and its nonce is new to the sender's log |
| `RelayRequests.EveryRunStoresGenuine` | relay/src/main.rs:1080-1102 | over every run of requests and restarts, the relay is what storing exactly the accepted requests, with their own fields and the second of their arrival, makes of it |
| `RelayRequests.EveryFetchIsGenuine` | relay/src/main.rs:737-772 | with a database, a fetch hands out exactly what accepted requests stored and nobody acknowledged or purged |
| `RelayRequests.EveryEntryIsGenuine` | relay/src/main.rs:630-691 | whatever memory or the database ever holds for a recipient was asked for by a request that passed the signature and timestamp checks |
| `EndToEnd.SortedGenuines` | relay/src/main.rs:742-747 | a stable sort by sequence number leaves the client's messages, which all have number 1, in storage order among whatever else is there |
| `EndToEnd.ReadIsRelayFetch` | relay/src/main.rs:737-772 | what a read works through is exactly what the relay's fetch returns, fallback included, and what it leaves is exactly what the client's loop leaves |
| `EndToEnd.EveryRunCoupled` | relay/src/main.rs:693-840 | in every run the undelivered rows of both clients are their letterboxes, memory holds no more, and the stored sessions are in step |
| `EndToEnd.AcknowledgeExact` | relay/src/main.rs:774-794 | an acknowledgement keeps the unread messages if it is for another sequence number than the one all clients use, and drops every one of them otherwise |
| `EndToEnd.EveryRunDelivers` | client/src/main.rs:1518-1880 | two clients over a relay with a database, in any run without a damaging move of writes answered, refused or unanswered, stores by others, reads, purges, acknowledgements, clean-ups and restarts, read each other's messages in order, and whatever they have not read is undelivered in the database, oldest first |
| `MemoryOnly.AloneHasRoom` | relay/src/main.rs:247-262 | a mailbox that only one sender writes to never fills up |
| `MemoryOnly.OpeningWaitsExact` | relay/src/main.rs:247-274 | in every run in which the mailbox does not fill up, a sender's opening message is handed out from memory if and only if the sender has stored at most ten messages and the first less than a week ago |
| `MemoryOnly.NothingWithoutOpening` | client/src/main.rs:1844-1863 | without the opening message no session with its sender is created and nothing of the sender's is read, whatever else is handed out |
| `MemoryOnly.FirstFetchExact` | relay/src/main.rs:693-772 | over every run of a relay without a database, with each message stored at its own time and others storing between them, the first fetch from the relay reads all of the sender's messages in order if the opening one is handed out, and none of them otherwise |
| `RateLimiter.RateLimiter.Allow` | dht-core/src/ratelimit.rs:53-77 | the answer and the buckets after it, with the eviction and trimming that precede the decision |
| `RateLimiter.RateLimiter.Prune` | dht-core/src/ratelimit.rs:80-99 | every bucket is trimmed to the window and the empty ones are gone |
| `RateLimiter.PruneKeepsLive` | dht-core/src/ratelimit.rs:80-99 | a prune keeps exactly the keys with a time in the window, and of them exactly those times |
| `RateLimiter.StepIsLimiter` | dht-core/src/ratelimit.rs:53-99 | the steps of a run are the limiter's operations, and exactly its granted calls are appended to the history of their key |
| `RateLimiter.EveryAnswerIsExact` | dht-core/src/ratelimit.rs:53-99 | over every run with a non-decreasing clock and prunes at any moment, a key is allowed if and only if fewer than max of its granted calls since its last eviction lie in the window; so it is never refused when the full history allows it, and a key not evicted within the last window is answered as the full history answers |
| `RateLimiter.EveryRunHoldsLimit` | dht-core/src/ratelimit.rs:53-77 | every closed interval of the window's length holds at most max granted calls of a key, and max more for every eviction of its bucket inside |
| `RateLimiter.EvictionLiftsLimit` | dht-core/src/ratelimit.rs:58-76 | after every run with a full map, a refused key whose bucket is the one evicted for a new key is allowed at the same moment, over what the full history allows |
| `RateLimiter.LimitIsExceeded` | dht-core/src/ratelimit.rs:58-76 | under every configuration with a positive limit there is a run after which an interval of the window's length holds max + 1 granted calls of a key |
| `RateLimiter.BucketCountBounded` | dht-core/src/ratelimit.rs:58-66 | no step takes the number of buckets over its limit |
| `CertCache.CertStore.CacheCert` | dht-core/src/crypto_helpers.rs:47-62 | the certificate is cached under the upper-cased fingerprint, and an over-full cache gives up a least recently accessed key |
| `CertCache.CertStore.GetCachedCert` | dht-core/src/crypto_helpers.rs:67-89 | a hit is answered and its access time renewed; a miss changes nothing |
| `CertCache.CertStore.LeastRecent` | dht-core/src/crypto_helpers.rs:58-58 | a key with the least access time |
| `CertCache.MoveToEndMatches` | dht-core/src/crypto_helpers.rs:47-89 | accessing or inserting a key is moving it to the recent end of the recency list |
| `CertCache.EveryRunAgrees` | dht-core/src/crypto_helpers.rs:47-89 | with strictly increasing access times, every run gives the answers of a recency list of folded fingerprints with capacity 1000, never holds more, and never gives up the certificate just inserted |
| `DhtStore.DhtStore.Put` | dht-core/src/sqlite_store.rs:175-251 | stored exactly when the value fits, the nonce is new for the key and the sequence number is above the row's; then row and nonce are both written, otherwise neither |
| `DhtStore.DhtStore.Get` | dht-core/src/sqlite_store.rs:144-167 | the row if it has not expired |
| `DhtStore.DhtStore.DeleteExpired` | dht-core/src/sqlite_store.rs:254-261 | exactly the expired rows go, and how many they were; the nonce log stays |
| `DhtStore.EveryRunRefinesHistory` | dht-core/src/sqlite_store.rs:144-310 | over every run, the tables are those of a specification that knows accepted puts, noted nonces and deletions alone: no nonce of a key is accepted twice, accepted sequence numbers strictly increase between deletions of the row, and the row is the latest accepted put |
| `DhtStore.EveryPutIsExact` | dht-core/src/sqlite_store.rs:175-251 | after every run, a put is accepted if and only if its value has at most 4096 characters, its nonce was neither accepted nor noted for the key, and the key has no row or the sequence number exceeds the latest accepted one; a get then answers with all its fields until its time to live is over |
| `DhtStore.EveryGetIsLatest` | dht-core/src/sqlite_store.rs:144-167 | a get answers with the latest accepted put exactly while it has not expired, whatever was swept in between |
| `DhtStore.SweepIsInvisible` | dht-core/src/sqlite_store.rs:254-261 | no present or later get can tell that a sweep took place |
| `DhtStore.AcceptedNonceIsSpent` | dht-core/src/sqlite_store.rs:191-198 | the nonce of an accepted put stays in the log in every continuation of the run |
| `DhtStore.SweepForgetsSequence` | dht-core/src/sqlite_store.rs:203-261 | after any run and an accepted put, in any continuation with no further accepted put of the key, one with a sequence number no higher and a new nonce is accepted if and only if a sweep has come after the row expired |
| `DhtNode.DhtNodeRuntime.HandlePut` | dht-core/src/dht_node.rs:371-519 | a put takes effect exactly when all six checks hold, key, value, time to live and number of keys are within their limits, the nonce is neither cached nor logged, and the sequence number is above the row's; otherwise the first that fails is the error and nothing changes |
| `DhtNode.TakesEffectExact` | dht-core/src/dht_node.rs:371-519 | what such a put writes: the row for at most a day, the logged nonce, and the cached one |
| `DhtNode.EveryPutIsChecked` | dht-core/src/dht_node.rs:371-519 | after every run, a put changes the tables if and only if these conditions hold, whatever the cache has forgotten |
| `DhtNode.EveryRowIsChecked` | dht-core/src/dht_node.rs:440-508 | in every run, every row comes from an address record or from a put whose six checks all held |
| `DhtNode.RememberedExact` | dht-core/src/dht_node.rs:501-504 | remembering a nonce caches it and nothing else |
| `DhtNode.DhtNodeRuntime.TrimNonces` | dht-core/src/dht_node.rs:171-189 | sets of up to 64 nonces stay as they are, larger ones keep their 64 largest, empty ones go |
| `DhtNode.KeepLargest` | dht-core/src/dht_node.rs:177-184 | a subset of the wanted size whose members all exceed the ones left out |
| `DhtNode.EveryRunIgnoresCache` | dht-core/src/dht_node.rs:438-503 | over every run of puts, address records, trims, sweeps and restarts, the nonce cache stays within the persistent log and the tables are those of a node without a cache |
| `Braid.BraidHandshake.AddChunk` | protocol/src/braid.rs:60-95 | which chunks are refused and why, that the first in-range chunk fixes the total and the hash, and when the handshake becomes complete |
| `Braid.BraidHandshake.ReconstructEncKey` | protocol/src/braid.rs:99-109 | the buffer is what writing the received payloads into zeros, in order, gives |
| `Braid.CopyIn` | protocol/src/braid.rs:102-106 | a payload that fits is copied to its place and the rest of the buffer is unchanged; one that does not fit is skipped |
| `Braid.RejectedChangesNothing` | protocol/src/braid.rs:60-87 | in every reachable handshake, a refused chunk changes nothing |
| `Braid.AllHeldIffBelow` | protocol/src/braid.rs:89-92 | the pigeonhole step: as many chunks with distinct numbers as the total are all of them if and only if no number is past the last |
| `Braid.EveryRunCounts` | protocol/src/braid.rs:60-95 | over every run of any chunks, the held numbers are distinct and in range of their own totals, the hashes are equal, the first in-range chunk has fixed the total, and completion counts chunks alone |
| `Braid.CompletionExact` | protocol/src/braid.rs:60-95 | over every run of any chunks, all numbers held means complete; the chunks that completed a handshake are all of its numbers if and only if each number is below its total |
| `Braid.EveryRunCollects` | protocol/src/braid.rs:60-95 | for the chunks of a key in any order and with repeats, mixed after the first with chunks of other keys and with strays, which carry the key's hash and a number past its last, the handshake has collected exactly the numbers that arrived under the hash, each once |
| `Braid.CompleteIffAllArrived` | protocol/src/braid.rs:89-94 | in these runs, complete is true if and only if as many different numbers arrived as the key has chunks; at that moment all its chunks have arrived if and only if there was no stray; and without strays complete is true exactly when all have |
| `Braid.EveryRunRebuilds` | protocol/src/braid.rs:99-109 | at every point, strays or not, the reconstruction is the key on the blocks that arrived and zero elsewhere, and the whole key once all have, so once complete if there was no stray |
| `Braid.EarlyCompletion` | protocol/src/braid.rs:60-109 | for every key of two chunks or more, after all of its chunks but the last any stray is accepted and completes the handshake, the last number is missing, and its block is reconstructed as zeros |
| `Braid.SplitIsOwn` | protocol/src/braid.rs:121-140 | splitting yields a chunk of the key for every number, in order |
| `Braid.SplitJoins` | protocol/src/braid.rs:121-140 | the payloads of the chunks, 64 bytes each but the last, join to the key, and every chunk carries its hash, its first 32 bytes and the total |
| `Stun.ParseResponse` | p2p/src/nat.rs:143-194 | the loop computes the specification of the scan, in bounds, for every datagram |
| `Stun.DecodeAddress` | p2p/src/nat.rs:163-184 | port and address are the attribute's bytes XORed with the magic cookie |
| `Stun.DecodedInvertsEncoding` | p2p/src/nat.rs:163-184 | decoding inverts the encoding of section 15.2 of RFC 5389 for every address and port |
| `Stun.FirstMatchMeaning` | p2p/src/nat.rs:154-192 | the answer comes from the first attribute boundary that qualifies, and there is none only if no boundary does |
| `Stun.ScanSkipsOthers` | p2p/src/nat.rs:189-191 | the scan steps over any encoded attributes that are not IPv4 mapped addresses, whatever their lengths |
| `Stun.AddressQualifies` | p2p/src/nat.rs:159-185 | an encoded mapped address qualifies and decodes to the address it carries |
| `Stun.ParsingInvertsEncoding` | p2p/src/nat.rs:147-194 | a success response encoded as in sections 6, 15 and 15.2 of RFC 5389, with any other attributes before and anything after, is parsed to exactly the address encoded |
| `Stun.ParsingExact` | p2p/src/nat.rs:143-194 | for every datagram: refused if it is shorter than 20 bytes, no success response, or without an attribute boundary that carries an IPv4 address, cut off or not; otherwise decoded from the first that does |
| `Pow.LeadingZerosOfByte` | protocol/src/pow.rs:22-26 | shifting until the high bit is set counts the leading zeros of the byte |
| `Pow.LeadingZeroBits` | protocol/src/pow.rs:16-31 | the loop counts the zero bits before the first one bit |
| `Pow.ThresholdExact` | protocol/src/pow.rs:16-31 | at least d leading zero bits if and only if the big-endian value is below 2 to the power 8n - d |
| `Pow.PowCheck` | protocol/src/pow.rs:65-103 | the check of one nonce, with its two errors |
| `Pow.AcceptanceIsThreshold` | protocol/src/pow.rs:65-103 | below difficulty 8 the check is refused; from there a nonce is valid exactly when the hash of data, colon and decimal nonce, as a 256-bit number, is below 2 to the power 256 - difficulty |
| `Pow.DecimalSpells` | protocol/src/pow.rs:89-92 | the hashed nonce is its decimal notation: digits that spell the number, without a leading zero |
| `Pow.PowSolve` | protocol/src/pow.rs:113-152 | the least nonce below the bound that the check accepts, none if and only if it refuses them all, an error only where the check reports one first |
| `Pow.WorkIsInjective` | protocol/src/pow.rs:89-92 | the hashed string determines data and nonce |
| `Pow.SaltIsInjective` | protocol/src/pow.rs:51-55 | the salt determines the node's secret |
| `Pir.NewEntry` | crypto/src/pir.rs:83-92 | an entry has exactly 224 bytes and starts with its hash |
| `Pir.QueryContact` | crypto/src/pir.rs:146-169 | one token for each candidate bin, in order, each with its own mask |
| `Pir.PrepareRegistration` | crypto/src/pir.rs:201-211 | the bin is the first candidate, so it is among the bins queried |
| `Pir.ProcessResponse` | crypto/src/pir.rs:173-197 | the first full slot of the masked data that starts with the target hash |
| `Pir.XorApply` | crypto/src/pir.rs:315-322 | byte by byte, up to the shorter length |
| `Pir.PirRegistry.AddEntry` | crypto/src/pir.rs:247-265 | the entry goes into the first all-zero slot of the bin, created if missing; the addition fails if there is none |
| `Pir.EveryRunFillsInOrder` | crypto/src/pir.rs:247-265 | after any run of additions of non-zero entries, the occupied slots of each bin are a prefix that holds the first 18 of its entries in order |
| `Pir.AdditionFailsIffFull` | crypto/src/pir.rs:253-264 | an addition fails if and only if 18 entries are present |
| `Pir.ContentsGrow` | crypto/src/pir.rs:253-258 | later additions never move or remove an entry |
| `Pir.MaskedLookup` | crypto/src/pir.rs:173-197 | when the responder applies the mask, the answer is the first entry added with the wanted non-zero hash, and none if there is none |
| `Pir.RegisteredContactIsFound` | crypto/src/pir.rs:146-211 | a contact whose bin had room when it was registered is found through the token for that bin, whatever is added before and after |
| `Pir.RawAnswerExact` | crypto/src/pir.rs:173-285 | the raw answer is read back correctly for every bin that a registry can come to hold, and every target, if and only if the mask is all zero |

## Left out

- DeliveryRuns.EveryRunCommits: an answer to a fetch has the unread messages oldest first, an explicit refusal by the relay means that it stored nothing, and the very first opening message has a readable frame; that an unreadable one ends the agreement before it began is `Ratchet.FirstFrameExact`.
- EndToEnd.EveryRunDelivers: the client stores every message with sequence number 1, so it rests on the database returning rows with equal numbers in storage order, which its query does not ask for; damaging moves are excluded, which is exactly what `DeliveryRuns.EveryRunCommits` requires.
- MemoryOnly.FirstFetchExact: speaks of a first fetch, after runs without acknowledgements, and takes what others stored not to be accepted into the sender's session; for a recipient who already holds the session, that frames after a missing one are refused would be an assumption on the AEAD.
- Client.MessageStore.SendViaRelay: messages over 65535 bytes are excluded, for which the source's bucket arithmetic underflows; the signature on the request, the hash of the ciphertext and the wait for the answer are not modelled.
- Client.MessageStore.RelayDecryptMessage: JSON text is a parsed value, and the lossy conversion of the message to text is a parameter that inverts encoding on valid text.
- Mailboxes.Mailbox.Store: a size limit of 0, for which the source removes from an empty vector, is excluded; the relay's own limit is 1000.
- RelayState.RelayState.StoreMessage: memory is written before the database, so after a failed insert memory would hold an entry the database lacks; inserts are taken to succeed. The encrypted copy of the sender's identity in each row is not modelled.
- RelayState.RelayState.HandleRelayStore: the GPG verification is a parameter; the requests to fetch, acknowledge and purge have further checks that are not modelled, and reach the replay log as separate events.
- RateLimiter.EveryRunHoldsLimit: says what evictions are worth at most; which key is evicted is the hash map's choice.
- CertCache.EveryRunAgrees: needs strictly increasing access times; with equal ones the victim is the hash map's choice.
- DhtStore.EveryRunRefinesHistory: each put is atomic, although the source checks before its transaction; `prune_old_nonces`, which only tests call, would break it. `delete_expired` has no caller outside the tests either, but is covered, because nothing here depends on when it runs. Values are measured in characters.
- DhtNode.DhtNodeRuntime.HandlePut: the answers of proof of work, signature and format checks are parameters; database errors and the test against MAX_TTL, which the cap before it makes unreachable, are left out.
- DhtNode.EveryRunIgnoresCache: address records reach the store as puts of arbitrary content; the checks in front of them are left out.
- Braid.EveryRunCollects: a chunk with the right hash and a number of the key, but a forged payload or total, is not covered, nor a chunk of another key that arrives first and thereby fixes the handshake to that key; from the hash alone the source cannot tell them apart. `Braid.CompletionExact` covers them.
- Stun.ParseResponse: the address is four bytes and not its decimal text; like the source, it checks neither the magic cookie nor the transaction id. Sending the request and the limit of 512 bytes are left out.
- Pow.PowSolve: nonces are unbounded; parameter errors of the hash cannot occur with the constants used.
- Pir.QueryContact: drawing the masks and the ephemeral key are left out.
- Ratchet.DoubleRatchetSession.EncryptMessage: the 64-bit counters are unbounded; wiping of keys and the unused map of skipped keys are left out.
- The direct peer-to-peer path and the live handshake: there the two sides share no secret, so there is no agreement to prove.
- Federation forwarding, gossip, onion routing, peer authentication, NAT hole punching and the unused integer variant of the replay check.
- The bound on the total number of DHT keys: expired rows and address records bypass the count, so no clean bound holds.
- WebSocket, TLS, SOCKS5, DNS, command line and process handling: input and output only.
