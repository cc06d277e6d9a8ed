/**
  The two request handlers of the relay, seen as one state machine.

  `POST /messages` stores a message and `GET /messages/{recipient}` reads a
  mailbox. The mutex around the store serialises handlers, so a run of the
  server is a sequence of requests in the order they took the lock. A run
  carries one clock slot per request, but only store requests read the clock;
  the slot of a fetch is never used.
 */
module Server {
  import opened Mailbox
  import opened History

  /** The HTTP status every handler answers with. */
  const StatusOk: int := 200

  /** The acknowledgement body of a store. */
  const StoredNote: string := "Message stored successfully"

  datatype Request =
    | StoreReq(body: StoreMessageRequest)
    | FetchReq(recipient: PubKey)

  datatype Body =
    | Note(text: string)
    | MessageList(messages: seq<Message>)

  datatype Response = Response(status: int, body: Body)

  /** The outcome of one handler call: the state after it and the response sent back. */
  datatype Step = Step(state: AppState, response: Response)

  /**
    One handler call: the new state and the response sent back. Both routes
    answer 200; a store files the message and acknowledges it, a fetch leaves
    the state alone and answers with the recipient's mailbox. Only a store
    uses the clock reading `now`.
   */
  function Handle(s: AppState, req: Request, now: Timestamp): (r: Step)
    ensures r.response.status == StatusOk
    ensures req.StoreReq? ==> r.state == StoreMessage(s, req.body, now) && r.response.body == Note(StoredNote)
    ensures req.FetchReq? ==> r.state == s && r.response.body == MessageList(GetMessages(s, req.recipient))
  {
    match req
    case StoreReq(body) => Step(StoreMessage(s, body, now), Response(StatusOk, Note(StoredNote)))
    case FetchReq(r) => Step(s, Response(StatusOk, MessageList(GetMessages(s, r))))
  }

  /** The messages the store requests of a run created, in the order they were stored. */
  function StoredLog(reqs: seq<Request>, clock: seq<Timestamp>): (log: seq<Message>)
    requires |clock| == |reqs|
    decreases |reqs|
  {
    if reqs == [] then []
    else
      var n := |reqs| - 1;
      var earlier := StoredLog(reqs[..n], clock[..n]);
      match reqs[n]
      case StoreReq(body) => earlier + [NewMessage(body, clock[n])]
      case FetchReq(_) => earlier
  }

  /** Neither handler ever answers with an error status. */
  lemma HandleNeverFails(s: AppState, req: Request, now: Timestamp)
    ensures Handle(s, req, now).response.status == StatusOk
  {
  }

  /** A fetch leaves the store exactly as it was and returns the recipient's mailbox. */
  lemma FetchIsReadOnly(s: AppState, r: PubKey, now: Timestamp)
    ensures Handle(s, FetchReq(r), now).state == s
    ensures Handle(s, FetchReq(r), now).response.body.messages == GetMessages(s, r)
  {
  }

  /** A fetch for a recipient that never received anything answers with an empty list. */
  lemma FetchUnknownIsEmpty(s: AppState, r: PubKey, now: Timestamp)
    requires r !in s.messages
    ensures Handle(s, FetchReq(r), now).response == Response(StatusOk, MessageList([]))
  {
  }

  /**
    The message a store creates carries the request's three fields verbatim and
    the server's clock reading as its timestamp: nothing in the request can set it.
   */
  lemma StoredMessageFields(s: AppState, body: StoreMessageRequest, now: Timestamp)
    ensures var box := GetMessages(Handle(s, StoreReq(body), now).state, body.toPubkey);
      && box != []
      && box[|box| - 1].fromPubkey == body.fromPubkey
      && box[|box| - 1].toPubkey == body.toPubkey
      && box[|box| - 1].ciphertext == body.ciphertext
      && box[|box| - 1].timestamp == now
  {
    StoreThenFetch(s, body, now);
  }

  /** Storing m1, m2, m3 to one recipient and then fetching yields [m1, m2, m3] after what was there. */
  lemma ThreeStoresThenFetch(s: AppState, r: PubKey, a: StoreMessageRequest, b: StoreMessageRequest,
                             c: StoreMessageRequest, t1: Timestamp, t2: Timestamp, t3: Timestamp)
    requires a.toPubkey == r && b.toPubkey == r && c.toPubkey == r
    ensures var s3 := StoreMessage(StoreMessage(StoreMessage(s, a, t1), b, t2), c, t3);
      Handle(s3, FetchReq(r), t3).response.body.messages
        == GetMessages(s, r) + [NewMessage(a, t1), NewMessage(b, t2), NewMessage(c, t3)]
  {
  }

  /** The prefix of a run one request longer extends the stored log by that request's message, if any. */
  lemma StoredLogStep(reqs: seq<Request>, clock: seq<Timestamp>, i: nat)
    requires |clock| == |reqs|
    requires i < |reqs|
    ensures StoredLog(reqs[..i + 1], clock[..i + 1])
         == StoredLog(reqs[..i], clock[..i])
            + (if reqs[i].StoreReq? then [NewMessage(reqs[i].body, clock[i])] else [])
  {
    assert reqs[..i + 1][..i] == reqs[..i];
    assert clock[..i + 1][..i] == clock[..i];
  }

  /**
    The answer the server owes request `k` of a run: a store is acknowledged,
    and a fetch gets the messages addressed to its recipient among those the
    requests before it stored.
   */
  function Owed(reqs: seq<Request>, clock: seq<Timestamp>, k: nat): Response
    requires |clock| == |reqs|
    requires k < |reqs|
  {
    match reqs[k]
    case StoreReq(_) => Response(StatusOk, Note(StoredNote))
    case FetchReq(r) => Response(StatusOk, MessageList(Addressed(StoredLog(reqs[..k], clock[..k]), r)))
  }

  /** Handling request `i` from the replay of the earlier stores gives the owed answer and the next replay. */
  lemma HandleStep(reqs: seq<Request>, clock: seq<Timestamp>, i: nat)
    requires |clock| == |reqs|
    requires i < |reqs|
    ensures var out := Handle(Replay(StoredLog(reqs[..i], clock[..i])), reqs[i], clock[i]);
      && out.state == Replay(StoredLog(reqs[..i + 1], clock[..i + 1]))
      && out.response == Owed(reqs, clock, i)
  {
    var log := StoredLog(reqs[..i], clock[..i]);
    StoredLogStep(reqs, clock, i);
    if reqs[i].FetchReq? {
      ReplayFetch(log, reqs[i].recipient);
      assert log + [] == log;
    } else {
      var m := NewMessage(reqs[i].body, clock[i]);
      assert (log + [m])[..|log|] == log;
    }
  }

  /**
    Runs the server from its empty start state over a sequence of requests
    handled in lock order, `clock[i]` being the reading taken by request `i`
    when it is a store (a fetch ignores its slot).
    Every store is acknowledged, and every fetch answers with exactly the
    messages stored to its recipient by the earlier requests, in the order
    they were stored.
   */
  method Serve(reqs: seq<Request>, clock: seq<Timestamp>) returns (responses: seq<Response>)
    requires |clock| == |reqs|
    ensures |responses| == |reqs|
    ensures forall i :: 0 <= i < |reqs| ==> responses[i] == Owed(reqs, clock, i)
  {
    var state := Empty();
    responses := [];
    var n := 0;
    while n < |reqs|
      invariant 0 <= n <= |reqs|
      invariant |responses| == n
      invariant state == Replay(StoredLog(reqs[..n], clock[..n]))
      invariant forall k :: 0 <= k < n ==> responses[k] == Owed(reqs, clock, k)
    {
      HandleStep(reqs, clock, n);
      var step := Handle(state, reqs[n], clock[n]);
      state := step.state;
      responses := responses + [step.response];
      n := n + 1;
    }
    assert reqs[..n] == reqs && clock[..n] == clock;
  }
}
