/**
  The mailbox store of the relay server: a map from a recipient's public key to
  the append-only sequence of ciphertext messages queued for that recipient.

  The server keeps this map behind one mutex, so every handler runs as a single
  atomic step; here each handler is a pure function from the old state to the
  new one. The server clock is not read inside the model: the caller passes the
  instant it read as `now`.
 */
module Mailbox {

  /** Public keys travel as opaque text and are never decoded. */
  type PubKey = string

  /** A UTC instant, as read from the server clock (any integer scale). */
  type Timestamp = int

  /** A stored message. `timestamp` is assigned by the server, never by the caller. */
  datatype Message = Message(
    fromPubkey: PubKey,
    toPubkey: PubKey,
    ciphertext: string,
    timestamp: Timestamp)

  /** The body of a store request: the message without its timestamp. */
  datatype StoreMessageRequest = StoreMessageRequest(
    fromPubkey: PubKey,
    toPubkey: PubKey,
    ciphertext: string)

  /** The whole server state: one mailbox per recipient key. */
  datatype AppState = AppState(messages: map<PubKey, seq<Message>>)

  /** The state the server starts with: no mailbox at all. */
  function Empty(): (s: AppState)
    ensures s.messages.Keys == {}
    ensures forall r :: GetMessages(s, r) == []
  {
    AppState(map[])
  }

  /** The request a message was built from: the message with its timestamp dropped. */
  function RequestOf(m: Message): StoreMessageRequest
  {
    StoreMessageRequest(m.fromPubkey, m.toPubkey, m.ciphertext)
  }

  /** The message the store handler builds from a request and the clock reading. */
  function NewMessage(req: StoreMessageRequest, now: Timestamp): (m: Message)
    ensures RequestOf(m) == req
    ensures m.timestamp == now
  {
    Message(req.fromPubkey, req.toPubkey, req.ciphertext, now)
  }

  /**
    The mailbox of `recipient`: its whole sequence when it has one, and the
    empty sequence otherwise. An unknown recipient is not an error.
   */
  function GetMessages(s: AppState, recipient: PubKey): (box: seq<Message>)
    ensures recipient in s.messages ==> box == s.messages[recipient]
    ensures recipient !in s.messages ==> box == []
  {
    if recipient in s.messages then s.messages[recipient] else []
  }

  /**
    The store handler: build the message and push it at the end of the
    mailbox of the request's recipient, creating that mailbox when missing.
   */
  function StoreMessage(s: AppState, req: StoreMessageRequest, now: Timestamp): (s': AppState)
    ensures s'.messages.Keys == s.messages.Keys + {req.toPubkey}
    ensures s'.messages[req.toPubkey] == GetMessages(s, req.toPubkey) + [NewMessage(req, now)]
    ensures forall r :: r in s.messages && r != req.toPubkey ==> s'.messages[r] == s.messages[r]
  {
    var box := GetMessages(s, req.toPubkey);
    AppState(s.messages[req.toPubkey := box + [NewMessage(req, now)]])
  }

  /** Every message sits in the mailbox of its own recipient. */
  ghost predicate WellFiled(s: AppState)
  {
    forall r, i :: r in s.messages && 0 <= i < |s.messages[r]| ==> s.messages[r][i].toPubkey == r
  }

  /** A mailbox exists only once something was pushed into it. */
  ghost predicate NoEmptyMailbox(s: AppState)
  {
    forall r :: r in s.messages ==> s.messages[r] != []
  }

  /** The invariant every reachable state keeps. */
  ghost predicate Valid(s: AppState)
  {
    WellFiled(s) && NoEmptyMailbox(s)
  }

  /** The initial state is valid. */
  lemma EmptyValid()
    ensures Valid(Empty())
  {
  }

  /** A store keeps the invariant. */
  lemma StorePreservesValid(s: AppState, req: StoreMessageRequest, now: Timestamp)
    requires Valid(s)
    ensures Valid(StoreMessage(s, req, now))
  {
    var s' := StoreMessage(s, req, now);
    forall r, i | r in s'.messages && 0 <= i < |s'.messages[r]|
      ensures s'.messages[r][i].toPubkey == r
    {
      if r != req.toPubkey {
        assert s'.messages[r][i] == s.messages[r][i];
      }
    }
  }

  /** After a store, fetching the recipient yields its old mailbox plus the new message at the end. */
  lemma StoreThenFetch(s: AppState, req: StoreMessageRequest, now: Timestamp)
    ensures var box := GetMessages(StoreMessage(s, req, now), req.toPubkey);
      && |box| == |GetMessages(s, req.toPubkey)| + 1
      && box[..|box| - 1] == GetMessages(s, req.toPubkey)
      && box[|box| - 1] == Message(req.fromPubkey, req.toPubkey, req.ciphertext, now)
  {
    var box := GetMessages(StoreMessage(s, req, now), req.toPubkey);
    assert box == GetMessages(s, req.toPubkey) + [NewMessage(req, now)];
  }

  /** A store to a recipient with no mailbox creates one holding exactly the new message. */
  lemma StoreCreatesMailbox(s: AppState, req: StoreMessageRequest, now: Timestamp)
    requires req.toPubkey !in s.messages
    ensures GetMessages(StoreMessage(s, req, now), req.toPubkey)
         == [Message(req.fromPubkey, req.toPubkey, req.ciphertext, now)]
  {
  }

  /** A store never changes what any other recipient fetches. */
  lemma StoreIsolation(s: AppState, req: StoreMessageRequest, now: Timestamp, other: PubKey)
    requires other != req.toPubkey
    ensures GetMessages(StoreMessage(s, req, now), other) == GetMessages(s, other)
  {
  }

  /** In a valid state a fetch for `r` only ever returns messages addressed to `r`. */
  lemma FetchOnlyOwnMessages(s: AppState, r: PubKey, m: Message)
    requires Valid(s)
    requires m in GetMessages(s, r)
    ensures m.toPubkey == r
  {
    var i :| 0 <= i < |s.messages[r]| && s.messages[r][i] == m;
  }
}
