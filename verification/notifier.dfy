/** Signatures that arrive from peers, and the waiters they are handed to. */
module Notifiers {
  import opened Types

  type Batch = seq<ECSignature>

  type Verifier = (string, Bytes, ECSignature) -> bool

  /** `Crash` is an index past the end of the message list, which ends the process. `Blocked` is a
      send to a full channel, which would never return while the lock is held. */
  datatype Outcome = NotFinished | Rejected | Crash | Blocked | Finished

  predicate Verifies(verify: Verifier, key: string, msg: Bytes, sig: ECSignature) {
    sig.signature.Some? && verify(key, msg, sig)
  }

  /** The signatures of a batch from index `i` on, checked one by one. */
  function CheckFrom(verify: Verifier, key: string, messages: seq<Bytes>, data: Batch, i: nat): Outcome
    requires i <= |data|
    decreases |data| - i
  {
    if i == |data| then Finished
    else if i >= |messages| then Crash
    else if Verifies(verify, key, messages[i], data[i]) then CheckFrom(verify, key, messages, data, i + 1)
    else Rejected
  }

  function Check(verify: Verifier, key: string, messages: seq<Bytes>, data: Batch): Outcome {
    if data == [] then NotFinished else CheckFrom(verify, key, messages, data, 0)
  }

  ghost predicate VerifiedUpTo(verify: Verifier, key: string, messages: seq<Bytes>, data: Batch, n: nat) {
    && n <= |data| && n <= |messages|
    && forall i :: 0 <= i < n ==> data[i].signature.Some? && verify(key, messages[i], data[i])
  }

  /** A batch that a waiter may get: every signature is valid for the message at its own index. */
  ghost predicate Deliverable(verify: Verifier, key: string, messages: seq<Bytes>, data: Batch) {
    data != [] && VerifiedUpTo(verify, key, messages, data, |data|)
  }

  lemma {:induction false} CheckFromIs(verify: Verifier, key: string, messages: seq<Bytes>, data: Batch, i: nat)
    requires VerifiedUpTo(verify, key, messages, data, i)
    ensures CheckFrom(verify, key, messages, data, i) == Finished <==> VerifiedUpTo(verify, key, messages, data, |data|)
    ensures CheckFrom(verify, key, messages, data, i) == Crash <==>
      |data| > |messages| && VerifiedUpTo(verify, key, messages, data, |messages|)
    decreases |data| - i
  {
    if i < |data| && i < |messages| && Verifies(verify, key, messages[i], data[i]) {
      CheckFromIs(verify, key, messages, data, i + 1);
    } else if i == |data| {
    } else if i >= |messages| {
      assert i == |messages|;
    } else {
      assert !Verifies(verify, key, messages[i], data[i]);
    }
  }

  /** A batch passes exactly if it is deliverable, which a proper prefix of the signatures can be;
      it brings the process down exactly if it is too long and starts with valid signatures for
      all messages. */
  lemma CheckIs(verify: Verifier, key: string, messages: seq<Bytes>, data: Batch)
    ensures Check(verify, key, messages, data) == Finished <==> Deliverable(verify, key, messages, data)
    ensures Check(verify, key, messages, data) == Crash <==>
      |data| > |messages| && VerifiedUpTo(verify, key, messages, data, |messages|)
    ensures Check(verify, key, messages, data) == NotFinished <==> data == []
    ensures Check(verify, key, messages, data) != Blocked
  {
    CheckFromIs(verify, key, messages, data, 0);
    CheckNeverWaits(verify, key, messages, data, 0);
  }

  lemma {:induction false} CheckNeverWaits(verify: Verifier, key: string, messages: seq<Bytes>, data: Batch, i: nat)
    requires i <= |data|
    ensures CheckFrom(verify, key, messages, data, i) !in {NotFinished, Blocked}
    decreases |data| - i
  {
    if i < |data| && i < |messages| {
      CheckNeverWaits(verify, key, messages, data, i + 1);
    }
  }

  /** A batch is a full answer if it has a signature for every message; nothing checks that. */
  lemma PrefixesAreDelivered(verify: Verifier, key: string, messages: seq<Bytes>, data: Batch, n: nat)
    requires Deliverable(verify, key, messages, data) && 0 < n <= |data|
    ensures Check(verify, key, messages, data[..n]) == Finished
  {
    CheckIs(verify, key, messages, data[..n]);
  }

  // ------------------------------------------------------------ decoding

  datatype KeysignSignature = KeysignSignature(ID: string, success: bool, signatures: seq<Bytes>)

  /** The batch in a message: empty unless the keysign succeeded, nothing if a part is broken. */
  ghost predicate Decoded(decode: Bytes -> Option<ECSignature>, msg: KeysignSignature, batch: Option<Batch>) {
    var parts := if msg.success then msg.signatures else [];
    match batch
    case None => exists i :: 0 <= i < |parts| && decode(parts[i]).None?
    case Some(b) => |b| == |parts| && forall i :: 0 <= i < |parts| ==> decode(parts[i]) == Some(b[i])
  }

  method Decode(decode: Bytes -> Option<ECSignature>, msg: KeysignSignature) returns (batch: Option<Batch>)
    ensures Decoded(decode, msg, batch)
  {
    var signatures: Batch := [];
    if |msg.signatures| > 0 && msg.success {
      for i := 0 to |msg.signatures|
        invariant |signatures| == i
        invariant forall j :: 0 <= j < i ==> decode(msg.signatures[j]) == Some(signatures[j])
      {
        var signature := decode(msg.signatures[i]);
        if signature.None? {
          return None;
        }
        signatures := signatures + [signature.value];
      }
    }
    return Some(signatures);
  }

  // ------------------------------------------------------------ one waiter

  class Notifier {
    const messageID: string
    const messages: seq<Bytes>
    const poolPubKey: string
    const verify: Verifier
    /** The response channel, with one slot. */
    var resp: seq<Batch>
    /** Every batch that was ever put in the channel. */
    ghost var sent: seq<Batch>

    ghost predicate Valid()
      reads this
    {
      && |sent| <= 1 && (resp == sent || resp == [])
      && forall b :: b in sent ==> Deliverable(verify, poolPubKey, messages, b)
    }

    constructor (messageID: string, messages: seq<Bytes>, poolPubKey: string, verify: Verifier)
      ensures this.messageID == messageID && this.messages == messages
      ensures this.poolPubKey == poolPubKey && this.verify == verify
      ensures Valid() && resp == [] && sent == []
    {
      this.messageID, this.messages, this.poolPubKey, this.verify := messageID, messages, poolPubKey, verify;
      resp, sent := [], [];
    }

    method ProcessSignature(data: Batch) returns (outcome: Outcome)
      modifies this
      ensures var checked := Check(verify, poolPubKey, messages, data);
        outcome == if checked == Finished && old(resp) != [] then Blocked else checked
      ensures resp == if outcome == Finished then [data] else old(resp)
      ensures sent == if outcome == Finished then old(sent) + [data] else old(sent)
    {
      if |data| != 0 {
        for i := 0 to |data|
          invariant Check(verify, poolPubKey, messages, data) == CheckFrom(verify, poolPubKey, messages, data, i)
          invariant resp == old(resp) && sent == old(sent)
        {
          if i >= |messages| {
            return Crash;
          }
          if data[i].signature.None? || !verify(poolPubKey, messages[i], data[i]) {
            return Rejected;
          }
        }
        if |resp| != 0 {
          return Blocked;
        }
        resp, sent := [data], sent + [data];
        return Finished;
      }
      return NotFinished;
    }

    method TakeResponse() returns (d: Batch)
      requires Valid() && resp != []
      modifies this`resp
      ensures Valid() && resp == []
      ensures sent == [d] && Deliverable(verify, poolPubKey, messages, d)
    {
      d := resp[0];
      resp := resp[1..];
      assert d in sent;
    }
  }

  // ------------------------------------------------------------ all waiters of a node

  /** What a notifier is created for must not be empty. */
  predicate CanCreate(messageID: string, messages: seq<Bytes>, poolPubKey: string) {
    messageID != "" && messages != [] && poolPubKey != ""
  }

  class SignatureNotifier {
    const verify: Verifier
    const decode: Bytes -> Option<ECSignature>
    var notifiers: map<string, Notifier>
    ghost var created: set<Notifier>

    /** A notifier that is registered has nothing in its channel yet, so the send under the lock
        goes through; no notifier ever gets a second batch. */
    ghost predicate Valid()
      reads this, created
    {
      && (forall id :: id in notifiers ==>
          notifiers[id] in created && notifiers[id].messageID == id && notifiers[id].sent == [])
      && forall n :: n in created ==> n.Valid()
    }

    constructor (verify: Verifier, decode: Bytes -> Option<ECSignature>)
      ensures Valid() && notifiers == map[] && created == {}
    {
      this.verify, this.decode, notifiers, created := verify, decode, map[], {};
    }

    /** The start of a wait: a new notifier takes the place of any older one for the message id. */
    method Register(messageID: string, messages: seq<Bytes>, poolPubKey: string) returns (n: Option<Notifier>)
      requires Valid()
      modifies this
      ensures Valid()
      ensures n.Some? <==> CanCreate(messageID, messages, poolPubKey)
      ensures n.None? ==> notifiers == old(notifiers) && created == old(created)
      ensures n.Some? ==>
        && fresh(n.value) && n.value.messageID == messageID && n.value.messages == messages
        && n.value.poolPubKey == poolPubKey && n.value.verify == verify
        && notifiers == old(notifiers)[messageID := n.value] && created == old(created) + {n.value}
    {
      if |messageID| == 0 || |messages| == 0 || |poolPubKey| == 0 {
        return None;
      }
      var notifier := new Notifier(messageID, messages, poolPubKey, verify);
      AddToNotifiers(notifier);
      return Some(notifier);
    }

    method AddToNotifiers(n: Notifier)
      requires Valid() && n.Valid() && n.sent == []
      modifies this
      ensures Valid()
      ensures notifiers == old(notifiers)[n.messageID := n] && created == old(created) + {n}
    {
      notifiers := notifiers[n.messageID := n];
      created := created + {n};
    }

    /** The end of a wait. Whatever is registered under the message id goes, even the notifier of
        a later wait. */
    method RemoveNotifier(n: Notifier)
      requires Valid()
      modifies this`notifiers
      ensures Valid()
      ensures notifiers == old(notifiers) - {n.messageID}
    {
      notifiers := notifiers - {n.messageID};
    }

    /** One message of a peer. The batch reaches the registered notifier exactly if it passes the
        check, and that ends the registration; nobody else is affected. */
    method HandleStream(msg: KeysignSignature) returns (outcome: Outcome, ghost batch: Option<Batch>)
      requires Valid()
      modifies this`notifiers, notifiers.Values
      ensures Valid()
      ensures Decoded(decode, msg, batch)
      ensures outcome == (if batch.None? || msg.ID !in old(notifiers) then NotFinished
                          else var n := old(notifiers)[msg.ID]; Check(n.verify, n.poolPubKey, n.messages, batch.value))
      ensures outcome != Blocked
      ensures outcome == Finished ==>
        notifiers == old(notifiers) - {msg.ID} && old(notifiers[msg.ID]).resp == [batch.value]
      ensures outcome != Finished ==> notifiers == old(notifiers)
      ensures forall n :: n in created && (outcome == Finished ==> n != old(notifiers)[msg.ID]) ==>
        n.resp == old(n.resp) && n.sent == old(n.sent)
    {
      var signatures := Decode(decode, msg);
      batch := signatures;
      if signatures.None? {
        return NotFinished, batch;
      }
      if msg.ID !in notifiers {
        return NotFinished, batch;
      }
      var n := notifiers[msg.ID];
      CheckIs(n.verify, n.poolPubKey, n.messages, signatures.value);
      assert n in notifiers.Values;
      outcome := n.ProcessSignature(signatures.value);
      if outcome == Finished {
        notifiers := notifiers - {msg.ID};
      }
    }
  }

  // ------------------------------------------------------------ several waits for one message id

  /** What happens to the entry of one message id: a wait begins or ends, a batch passes the check of
      the registered notifier, or a batch does not pass. */
  datatype WaitEvent = Begins(wait: nat) | Ends(wait: nat) | Passed | Refused

  /** The wait whose notifier is registered. */
  function RegisteredAfter(events: seq<WaitEvent>): Option<nat> {
    if events == [] then None
    else
      match events[|events| - 1]
      case Begins(w) => Some(w)
      case Ends(_) => None
      case Passed => None
      case Refused => RegisteredAfter(events[..|events| - 1])
  }

  /** The wait began at this event, and since then only batches that do not pass have come. */
  ghost predicate BeganLast(events: seq<WaitEvent>, w: nat, i: nat)
    requires i < |events|
  {
    events[i] == Begins(w) && forall j :: i < j < |events| ==> events[j].Refused?
  }

  /** A notifier is registered from the begin of its wait to the next event other than a batch that
      does not pass: a batch that passes, the end of any wait, or the begin of the next one. */
  lemma {:induction false} RegisteredIff(events: seq<WaitEvent>, w: nat)
    ensures RegisteredAfter(events) == Some(w) <==> exists i :: 0 <= i < |events| && BeganLast(events, w, i)
  {
    if events != [] {
      var n := |events| - 1;
      if events[n].Refused? {
        RegisteredIff(events[..n], w);
        if i :| 0 <= i < n && BeganLast(events[..n], w, i) {
          assert forall j :: i < j < n ==> events[..n][j].Refused?;
          assert BeganLast(events, w, i);
        }
        if i :| 0 <= i < |events| && BeganLast(events, w, i) {
          assert BeganLast(events[..n], w, i);
        }
      } else if events[n] == Begins(w) {
        assert BeganLast(events, w, n);
      }
    }
  }

  ghost predicate Undisturbed(events: seq<WaitEvent>, w: nat, i: nat) {
    forall j :: i < j < |events| ==> !(events[j].Begins? || events[j].Ends?) || events[j].wait == w
  }

  /** A wait that has neither ended nor got its batch is still registered exactly if since its begin no
      other wait for the same message id has begun or ended. */
  lemma {:induction false} StaysRegisteredIff(events: seq<WaitEvent>, w: nat, i: nat)
    requires i < |events| && events[i] == Begins(w)
    requires forall j :: i < j < |events| ==> events[j] != Begins(w) && events[j] != Ends(w) && !events[j].Passed?
    ensures RegisteredAfter(events) == Some(w) <==> Undisturbed(events, w, i)
    decreases |events|
  {
    var n := |events| - 1;
    if i < n {
      if events[n].Refused? {
        StaysRegisteredIff(events[..n], w, i);
      } else {
        assert events[n].wait != w;
      }
    }
  }
}
