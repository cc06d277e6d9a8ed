# Relay mailbox store, modelled in Dafny

The relay server keeps, for every recipient public key, an append-only
sequence of opaque ciphertext messages. `POST /messages` builds a `Message`
from the sender key, recipient key and ciphertext of the request plus a
timestamp read from the server clock. It then pushes that message at the end of the
recipient's mailbox, creating the mailbox when it is missing.
`GET /messages/{recipient}` answers with the recipient's whole mailbox, or an
empty list when the recipient has none; the handler never answers with an error.

The model has three modules:

- `Mailbox` (`mailbox.dfy`): the data (`Message`, `StoreMessageRequest`,
  `AppState` as a `map<PubKey, seq<Message>>`), the two handlers as pure
  functions `StoreMessage` and `GetMessages`, the store invariant `Valid`
  (every message is filed under its own recipient, and no mailbox is empty),
  and the one-step properties: append at the end, creation of a missing
  mailbox, and isolation between recipients.
- `History` (`history.dfy`): an independent reference description. The whole
  store is the replay of the log of stored messages, and a mailbox is that log
  filtered to one recipient. The lemmas prove that the map-based store computes
  exactly this filter, has a mailbox for exactly the recipients named in the
  log, and keeps its invariant. They also prove that mailboxes are in timestamp
  order whenever the clock readings never went backwards.
- `Server` (`server.dfy`): the two routes as one request/response state
  machine (`Handle`). A fetch leaves the store unchanged, and no handler answers
  with an error status. `Serve` runs a whole sequence of requests in lock order
  and proves that every fetch answers with exactly the earlier stores to that
  recipient, in store order.

The mutex around the map makes every handler one atomic step, so each handler
is a single state transition. A run of the server is a sequence of requests in
the order they acquired the lock. The server clock (`Utc::now()`) is a `now`
parameter. Only the store handler reads it; `get_messages` never does, so in a
run the clock slot of a fetch request is never used.

Two facts about the code shape the contracts:

- The code checks no field of a store request, so `StoreMessage` accepts any
  strings, empty keys and empty ciphertext included. A message stored with an
  empty `to_pubkey` is kept, but no `GET /messages/{recipient}` path can name
  the empty recipient, so `FetchReq("")` has no HTTP counterpart.
- `Utc::now()` is the wall clock and can go backwards, while a mailbox keeps
  insertion order. So `History.MailboxChronological` proves timestamp order
  only for non-decreasing clock readings, and `History.WallClockCanReorder`
  shows that any step back of the clock between two stores to one recipient
  leaves that mailbox out of timestamp order.

## Model

| member | source | states |
|---|---|---|
| Mailbox.Empty | src/main.rs:67-69 | the store the server starts with answers every fetch with the empty sequence |
| Mailbox.NewMessage | src/main.rs:36-41 | the built message carries exactly the request's sender, recipient and ciphertext (dropping the timestamp gives back the request) and its timestamp is the server clock reading |
| Mailbox.GetMessages | src/main.rs:52-63 | a known recipient gets its whole mailbox unchanged; an unknown recipient gets the empty sequence rather than an error |
| Mailbox.StoreMessage | src/main.rs:30-49 | the key set grows by exactly the recipient; the recipient's mailbox becomes its previous contents (empty if absent) with the new message appended; every other mailbox is unchanged |
| Mailbox.EmptyValid | src/main.rs:67-69 | the start state satisfies the store invariant |
| Mailbox.StorePreservesValid | src/main.rs:36-46 | a store keeps the invariant that every message sits under its own recipient key and that no mailbox is empty |
| Mailbox.StoreThenFetch | src/main.rs:43-46 | after a store, a fetch of the recipient returns one more message than before, its prefix is the old mailbox, and its last element is the new message |
| Mailbox.StoreCreatesMailbox | src/main.rs:44-46 | a store to a recipient with no mailbox yields a mailbox holding exactly that one message |
| Mailbox.StoreIsolation | src/main.rs:43-46 | a store never changes what a fetch of any other recipient returns |
| Mailbox.FetchOnlyOwnMessages | src/main.rs:38-46 | in any valid state, every message a fetch for r returns is addressed to r, so no message is delivered to another recipient |
| History.ReplayFetch | src/main.rs:30-63 | fetching r from the state reached by any sequence of stores returns exactly the stored messages addressed to r, in the order they were stored |
| History.ReplayKeys | src/main.rs:43-45 | after any sequence of stores, a mailbox exists for exactly the recipients that were sent something |
| History.ReplayValid | src/main.rs:36-46 | every state reachable by stores satisfies the store invariant |
| History.MailboxChronological | src/main.rs:40-46 | if clock readings never decrease across stores, every mailbox is ordered by timestamp |
| History.WallClockCanReorder | src/main.rs:40-46 | for any log of stores, if an earlier store to r carries a later timestamp than a later store to r, the fetched mailbox of r is not in timestamp order: order is insertion order, not clock order |
| Server.Handle | src/main.rs:30-63 | both routes answer 200; a store's new state is the store handler's result and its body is the fixed acknowledgement; a fetch leaves the state unchanged and its body is the recipient's mailbox (empty when unknown) |
| Server.HandleNeverFails | src/main.rs:30-63 | both handlers always answer with status 200, whatever the state and request |
| Server.FetchIsReadOnly | src/main.rs:56-62 | a fetch leaves the store exactly as it was and answers with the recipient's mailbox |
| Server.FetchUnknownIsEmpty | src/main.rs:60-61 | a fetch for a recipient without a mailbox answers 200 with an empty list |
| Server.StoredMessageFields | src/main.rs:36-46 | the message a store appends has the request's three fields verbatim and the server's clock reading as its timestamp |
| Server.ThreeStoresThenFetch | src/main.rs:43-59 | storing m1, m2, m3 to one recipient and then fetching returns the old mailbox followed by [m1, m2, m3] |
| Server.Serve | src/main.rs:30-63 | over any run of requests in lock order from the empty start, every store is acknowledged, every fetch returns exactly the messages the earlier stores addressed to that recipient in store order |

## Left out

- HTTP routing, the actix server, binding to the port and `main` (src/main.rs:65-82): transport plumbing. Only the empty start state of `main` is modelled, as `Mailbox.Empty`. Requests the router refuses before a handler runs (an empty or undecodable `{recipient}` path segment, a malformed JSON body) are not modelled; `Server.Handle` covers only requests that reach a handler.
- JSON (de)serialisation and the `HttpResponse` builders: library calls. A response is modelled as a status code and a body, and the body is either the acknowledgement text or the list of messages.
- The `Mutex` and `lock().unwrap()`: each handler is one atomic step. A poisoned lock would panic, and that is not modelled.
- `Utc::now()`: the clock is a parameter. `DateTime<Utc>` is modelled as an integer instant, and its resolution and range are not modelled.
- The key-exchange handshake lifecycle (init, pair, complete), its store and the expiry sweeper: src/main.rs contains no handshake or expiry code, so they are outside this model.
- Memory limits: mailboxes grow without bound in the code, and the model's sequences are unbounded as well.
