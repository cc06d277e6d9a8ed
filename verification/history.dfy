/**
  A reference description of the mailbox store that does not mention the map:
  the log of every message ever stored, in the order the stores happened.
  A recipient's mailbox is then just the log filtered to that recipient, and
  the lemmas below show the map-based store computes exactly that.
 */
module History {
  import opened Mailbox

  /** The state reached from the empty store by storing the messages of `log` in order. */
  function Replay(log: seq<Message>): (s: AppState)
    decreases |log|
  {
    if log == [] then Empty()
    else
      var last := log[|log| - 1];
      StoreMessage(Replay(log[..|log| - 1]), RequestOf(last), last.timestamp)
  }

  /** The messages of `log` addressed to `r`, in log order. */
  function Addressed(log: seq<Message>, r: PubKey): seq<Message>
    decreases |log|
  {
    if log == [] then []
    else
      var last := log[|log| - 1];
      var earlier := Addressed(log[..|log| - 1], r);
      if last.toPubkey == r then earlier + [last] else earlier
  }

  /** The set of recipients named anywhere in `log`. */
  function Recipients(log: seq<Message>): set<PubKey>
  {
    set i | 0 <= i < |log| :: log[i].toPubkey
  }

  /** Messages whose timestamps never decrease along the sequence. */
  ghost predicate Chronological(ms: seq<Message>)
  {
    forall i, j :: 0 <= i < j < |ms| ==> ms[i].timestamp <= ms[j].timestamp
  }

  /** Exactly the messages of the log that are addressed to `r` make up `Addressed(log, r)`. */
  lemma {:induction false} AddressedMembers(log: seq<Message>, r: PubKey, m: Message)
    ensures m in Addressed(log, r) <==> m in log && m.toPubkey == r
    decreases |log|
  {
    if log != [] {
      var prefix := log[..|log| - 1];
      AddressedMembers(prefix, r, m);
      assert log == prefix + [log[|log| - 1]];
    }
  }

  /** Fetching from the replayed store yields the log filtered to that recipient. */
  lemma {:induction false} ReplayFetch(log: seq<Message>, r: PubKey)
    ensures GetMessages(Replay(log), r) == Addressed(log, r)
    decreases |log|
  {
    if log != [] {
      var prefix := log[..|log| - 1];
      var last := log[|log| - 1];
      ReplayFetch(prefix, r);
      assert NewMessage(RequestOf(last), last.timestamp) == last;
      if last.toPubkey != r {
        StoreIsolation(Replay(prefix), RequestOf(last), last.timestamp, r);
      }
    }
  }

  /** A replayed store has a mailbox for exactly the recipients named in the log. */
  lemma {:induction false} ReplayKeys(log: seq<Message>)
    ensures Replay(log).messages.Keys == Recipients(log)
    decreases |log|
  {
    if log != [] {
      var prefix := log[..|log| - 1];
      ReplayKeys(prefix);
      assert Recipients(log) == Recipients(prefix) + {log[|log| - 1].toPubkey} by {
        forall x | x in Recipients(log) ensures x in Recipients(prefix) + {log[|log| - 1].toPubkey} {
          var i :| 0 <= i < |log| && log[i].toPubkey == x;
          if i < |log| - 1 {
            assert prefix[i] == log[i];
          }
        }
        forall x | x in Recipients(prefix) ensures x in Recipients(log) {
          var i :| 0 <= i < |prefix| && prefix[i].toPubkey == x;
          assert log[i] == prefix[i];
        }
      }
    }
  }

  /** Every state reachable by stores satisfies the store invariant. */
  lemma {:induction false} ReplayValid(log: seq<Message>)
    ensures Valid(Replay(log))
    decreases |log|
  {
    if log == [] {
      EmptyValid();
    } else {
      var prefix := log[..|log| - 1];
      var last := log[|log| - 1];
      ReplayValid(prefix);
      StorePreservesValid(Replay(prefix), RequestOf(last), last.timestamp);
    }
  }

  /** Filtering a chronological log keeps it chronological. */
  lemma {:induction false} AddressedChronological(log: seq<Message>, r: PubKey)
    requires Chronological(log)
    ensures Chronological(Addressed(log, r))
    decreases |log|
  {
    if log != [] {
      var prefix := log[..|log| - 1];
      var last := log[|log| - 1];
      assert Chronological(prefix);
      AddressedChronological(prefix, r);
      var earlier := Addressed(prefix, r);
      if last.toPubkey == r {
        var box := earlier + [last];
        forall i, j | 0 <= i < j < |box| ensures box[i].timestamp <= box[j].timestamp {
          if j == |box| - 1 {
            AddressedMembers(prefix, r, box[i]);
            var k :| 0 <= k < |prefix| && prefix[k] == box[i];
            assert log[k] == box[i];
          }
        }
      }
    }
  }

  /**
    When the clock readings of successive stores never go backwards, every
    mailbox is ordered by timestamp as well as by insertion.
   */
  lemma MailboxChronological(log: seq<Message>, r: PubKey)
    requires Chronological(log)
    ensures Chronological(GetMessages(Replay(log), r))
  {
    ReplayFetch(log, r);
    AddressedChronological(log, r);
  }

  /** Filtering a prefix of the log gives a prefix of the filtered log. */
  lemma {:induction false} AddressedPrefix(log: seq<Message>, r: PubKey, k: nat)
    requires k <= |log|
    ensures Addressed(log[..k], r) <= Addressed(log, r)
    decreases |log|
  {
    if k < |log| {
      var prefix := log[..|log| - 1];
      AddressedPrefix(prefix, r, k);
      assert prefix[..k] == log[..k];
    } else {
      assert log[..k] == log;
    }
  }

  /**
    A message of the log addressed to `r` sits in the filtered log right after
    the messages to `r` that came before it.
   */
  lemma AddressedPosition(log: seq<Message>, r: PubKey, i: nat) returns (p: nat)
    requires i < |log| && log[i].toPubkey == r
    ensures p == |Addressed(log[..i], r)|
    ensures p < |Addressed(log[..i + 1], r)| <= |Addressed(log, r)|
    ensures Addressed(log, r)[p] == log[i]
  {
    p := |Addressed(log[..i], r)|;
    assert log[..i + 1][..i] == log[..i];
    assert Addressed(log[..i + 1], r) == Addressed(log[..i], r) + [log[i]];
    AddressedPrefix(log, r, i + 1);
  }

  /**
    Without that hypothesis the order fails: whenever the clock stepped back
    between two stores to the same recipient, that recipient's mailbox keeps
    insertion order and so is out of timestamp order.
   */
  lemma WallClockCanReorder(log: seq<Message>, r: PubKey, i: nat, j: nat)
    requires i < j < |log|
    requires log[i].toPubkey == r && log[j].toPubkey == r
    requires log[i].timestamp > log[j].timestamp
    ensures !Chronological(GetMessages(Replay(log), r))
  {
    ReplayFetch(log, r);
    var p := AddressedPosition(log, r, i);
    var q := AddressedPosition(log, r, j);
    assert log[..j][..i + 1] == log[..i + 1];
    AddressedPrefix(log[..j], r, i + 1);
    assert p < q;
  }
}
