/** Missing copies are asked for, answered and taken, and what a node sends and notes over a run. */
module Exchanges {
  import opened Types
  import opened Votes
  import opened Protocol
  import opened Runs
  import opened Agreement
  import opened Steps

  lemma StepOf(env: Env, members: set<PeerId>, node: Node, input: Input, lib: nat -> bool,
               next: Node) returns (r: Result)
    requires Next(env, node, input, lib, next) && ItemsOk(env, members, node)
    ensures r.node == next && Means(env, node, input, lib, r)
  {
    var c := ChoiceOf(env, node, input, lib, next);
    StepMeans(env, members, node, input, lib, c);
    r := ProcessOneMessage(env, node, input, c);
  }

  lemma RunStepOf(env: Env, members: set<PeerId>, tr: Trace, i: nat) returns (r: Result)
    requires IsRun(env, tr) && RunFrom(env, members, tr) && i < |tr.inputs|
    ensures r.node == tr.nodes[i + 1] && Means(env, tr.nodes[i], tr.inputs[i], tr.libs[i], r)
  {
    AcceptanceAlways(env, members, tr, i);
    r := StepOf(env, members, tr.nodes[i], tr.inputs[i], tr.libs[i], tr.nodes[i + 1]);
  }

  // ------------------------------------------------------------ a missing copy is asked for

  predicate Brings(env: Env, msg: WireMessage, key: Key) {
    msg.isBroadcast && msg.from in env.parties && env.verify(msg.from, msg.message, msg.sig) && CacheKey(msg) == key
  }

  /** The input brings a valid broadcast for the key, or a confirmation of a peer that is not on its list. */
  predicate Concerns(env: Env, node: Node, input: Input, key: Key) {
    match input
    case TssShare(_, msg) => Brings(env, msg, key)
    case Forward(hash, _, _, body) => hash in node.requested && body.Some? && Brings(env, body.value, key)
    case VerMsg(peer, _, k, _) => k == key && peer !in ListAt(node, key)
    case _ => false
  }

  function KindOf(input: Input): MessageType {
    match input
    case TssShare(msgType, _) => msgType
    case VerMsg(_, msgType, _, _) => msgType
    case Forward(_, _, reqType, _) => reqType
    case _ => Unknown
  }

  lemma EnoughHasWinner(list: Ballots, h: Hash, t: int) returns (g: Hash)
    requires h in list.Values && Count(list, h) >= t - 1
    ensures Winner(list, g, t)
  {
    g := ModeExists(list);
    assert Count(list, h) <= Count(list, g);
  }

  /** The last request asks exactly the voters of the hash for it. */
  ghost predicate LastAsks(next: Node, key: Key, list: Ballots, h: Hash, msgType: MessageType) {
    forall reqType :: AskedAs(msgType, reqType) ==>
      next.outbox != [] && next.outbox[|next.outbox| - 1] == ShareRequest(reqType, key, h, WhoVoted(list, h))
  }

  lemma AskedOf(node: Node, next: Node, key: Key, list: Ballots, t: int, msgType: MessageType) returns (h: Hash)
    requires Asks(node, next, key, list, t, msgType)
    ensures Winner(list, h, t) && h in next.requested && LastAsks(next, key, list, h, msgType)
  {
    h :| Winner(list, h, t) && next.requested == node.requested + {h}
      && RequestSent(node, next, key, h, WhoVoted(list, h), msgType);
  }

  /** After every step that concerns a key and leaves it without a copy, while some hash has enough
      votes, the node has noted a most frequent hash of the list and asked exactly its voters for it. */
  lemma MissingIsRequested(env: Env, members: set<PeerId>, node: Node, input: Input, lib: nat -> bool, next: Node,
                           key: Key,
                           enough: Hash) returns (h: Hash)
    requires Next(env, node, input, lib, next) && ItemsOk(env, members, node) && Concerns(env, node, input, key)
    requires key in next.unconfirmed && CopyAt(next, key).None?
    requires enough in ListAt(next, key).Values && Count(ListAt(next, key), enough) >= Threshold(|env.parties|) - 1
    ensures IsMode(ListAt(next, key), h) && Count(ListAt(next, key), h) >= Threshold(|env.parties|) - 1
    ensures h in next.requested && LastAsks(next, key, ListAt(next, key), h, KindOf(input))
  {
    var r := StepOf(env, members, node, input, lib, next);
    var list, t := ListAt(next, key), Threshold(|env.parties|);
    var g := EnoughHasWinner(list, enough, t);
    match input
    case VerMsg(peer, msgType, _, hash) => h := VoteAsks(env, node, peer, msgType, key, hash, lib, r, g);
    case TssShare(msgType, msg) => h := BroadcastAsks(env, node, msg, msgType, false, lib, r);
    case Forward(hash, _, reqType, body) =>
      h := BroadcastAsks(env, node.(requested := node.requested - {hash}), body.value, reqType, true, lib, r);
  }

  lemma BroadcastAsks(env: Env, node: Node, msg: WireMessage, msgType: MessageType, forward: bool, lib: nat -> bool,
                      r: Result) returns (h: Hash)
    requires msg.from in env.parties && BroadcastMeans(env, node, msg, msgType, forward, lib, r)
    requires CacheKey(msg) in r.node.unconfirmed && CopyAt(r.node, CacheKey(msg)).None?
    ensures var list := ListAt(r.node, CacheKey(msg));
      && Winner(list, h, Threshold(|env.parties|)) && h in r.node.requested
      && LastAsks(r.node, CacheKey(msg), list, h, msgType)
  {
    var key := CacheKey(msg);
    var copy := if CopyAt(node, key).Some? then CopyAt(node, key).value else msg;
    var list := ListAt(node, key)[env.localPeer := env.hash(msg.message)];
    var told :| Told(env, node, told, msg, msgType, forward) && Settles(env, told, key, copy, list, msgType, lib, r);
    h := SettledAsks(env, told, key, copy, list, msgType, lib, r);
  }

  lemma SettledAsks(env: Env, node: Node, key: Key, copy: WireMessage, list: Ballots, msgType: MessageType,
                    lib: nat -> bool, r: Result) returns (h: Hash)
    requires Settles(env, node, key, copy, list, msgType, lib, r)
    requires key in r.node.unconfirmed && CopyAt(r.node, key).None?
    ensures ListAt(r.node, key) == list && Winner(list, h, Threshold(|env.parties|)) && h in r.node.requested
    ensures LastAsks(r.node, key, list, h, msgType)
  {
    assert Drops(env, node, key, list, Threshold(|env.parties|), msgType, r);
    h := AskedOf(node, r.node, key, list, Threshold(|env.parties|), msgType);
  }

  lemma VoteAsks(env: Env, node: Node, peer: PeerId, msgType: MessageType, key: Key, hash: Hash, lib: nat -> bool,
                 r: Result, g: Hash) returns (h: Hash)
    requires VoteMeans(env, node, peer, msgType, key, hash, lib, r) && peer !in ListAt(node, key)
    requires key in r.node.unconfirmed && CopyAt(r.node, key).None?
    requires Winner(ListAt(r.node, key), g, Threshold(|env.parties|))
    ensures var list := ListAt(r.node, key);
      Winner(list, h, Threshold(|env.parties|)) && h in r.node.requested && LastAsks(r.node, key, list, h, msgType)
  {
    var list, t := ListAt(node, key)[peer := hash], Threshold(|env.parties|);
    match CopyAt(node, key)
    case None =>
      assert ListAt(r.node, key) == list;
      h := AskedOf(node, r.node, key, list, t, msgType);
    case Some(copy) => h := SettledAsks(env, node, key, copy, list, msgType, lib, r);
  }

  // ------------------------------------------------------------ the answer is taken

  /** What a node makes of an answer it asked for when it has no copy: the copy is kept or confirmed,
      unless another hash is as frequent as its own. */
  lemma AnswerIsTaken(env: Env, members: set<PeerId>, node: Node, h: Hash, k: Key, reqType: MessageType,
                      copy: WireMessage,
                      lib: nat -> bool, next: Node, key: Key)
    requires Next(env, node, Forward(h, k, reqType, Some(copy)), lib, next) && ItemsOk(env, members, node)
    requires h in node.requested && Brings(env, copy, key) && CopyAt(node, key).None?
    ensures var list := ListAt(node, key)[env.localPeer := env.hash(copy.message)];
      || CopyAt(next, key) == Some(copy)
      || next.log == node.log + [Acceptance(key, copy, list)]
      || exists g :: g != env.hash(copy.message) && Winner(list, g, Threshold(|env.parties|))
  {
    var r := StepOf(env, members, node, Forward(h, k, reqType, Some(copy)), lib, next);
    var list := ListAt(node, key)[env.localPeer := env.hash(copy.message)];
    var told := AnswerSettles(env, node, h, k, reqType, copy, lib, r, key);
    SettledCopy(env, told, key, copy, list, reqType, lib, r);
  }

  lemma AnswerSettles(env: Env, node: Node, h: Hash, k: Key, reqType: MessageType, copy: WireMessage,
                      lib: nat -> bool, r: Result, key: Key) returns (used: Node)
    requires Means(env, node, Forward(h, k, reqType, Some(copy)), lib, r)
    requires h in node.requested && Brings(env, copy, key) && CopyAt(node, key).None?
    ensures used == node.(requested := node.requested - {h})
    ensures Settles(env, used, key, copy, ListAt(node, key)[env.localPeer := env.hash(copy.message)], reqType, lib, r)
  {
    used := node.(requested := node.requested - {h});
    assert BroadcastMeans(env, used, copy, reqType, true, lib, r);
    var told :| Told(env, used, told, copy, reqType, true)
      && Settles(env, told, key, copy, ListAt(node, key)[env.localPeer := env.hash(copy.message)], reqType, lib, r);
  }

  lemma SettledCopy(env: Env, node: Node, key: Key, copy: WireMessage, list: Ballots, msgType: MessageType,
                    lib: nat -> bool, r: Result)
    requires Settles(env, node, key, copy, list, msgType, lib, r)
    ensures
      || CopyAt(r.node, key) == Some(copy)
      || r.node.log == node.log + [Acceptance(key, copy, list)]
      || exists g :: g != env.hash(copy.message) && Winner(list, g, Threshold(|env.parties|))
  {
  }

  /** One hash is the only most frequent one, with enough votes. */
  ghost predicate OnlyWinner(list: Ballots, h: Hash, t: int) {
    Winner(list, h, t) && forall g :: IsMode(list, g) ==> g == h
  }

  lemma OwnVoteKeepsWinner(list: Ballots, h: Hash, t: int, local: PeerId)
    requires OnlyWinner(list, h, t)
    ensures OnlyWinner(list[local := h], h, t) && |list[local := h]| >= |list|
  {
    var more := list[local := h];
    assert more.Keys == list.Keys + {local};
    SubsetSize(list.Keys, more.Keys);
    SubsetSize(Voters(list, h), Voters(more, h));
    assert forall p :: p in Voters(list, h) ==> p in Voters(more, h);
    forall g | g != h ensures Count(more, g) < Count(more, h) {
      assert Voters(more, g) <= Voters(list, g);
      SubsetSize(Voters(more, g), Voters(list, g));
      if Count(list, g) >= Count(list, h) {
        StillMode(list, g, h);
      }
    }
    assert Voters(more, h) != {} by {
      assert local in Voters(more, h);
    }
  }

  lemma StillMode(list: Ballots, g: Hash, h: Hash)
    requires IsMode(list, h) && Count(list, g) >= Count(list, h)
    ensures IsMode(list, g)
  {
    assert |Voters(list, g)| > 0;
  }

  /** If the list is long enough without the sender, and the hash of the answer is its only most
      frequent one, the answer is confirmed, stored and handed on. */
  lemma AnswerConfirms(env: Env, members: set<PeerId>, node: Node, h: Hash, k: Key, reqType: MessageType,
                       copy: WireMessage,
                       lib: nat -> bool, next: Node, key: Key)
    requires Next(env, node, Forward(h, k, reqType, Some(copy)), lib, next) && ItemsOk(env, members, node)
    requires h in node.requested && Brings(env, copy, key) && CopyAt(node, key).None? && env.hash(copy.message) == h
    requires OnlyWinner(ListAt(node, key), h, Threshold(|env.parties|))
    requires |ListAt(node, key)| >= Threshold(|env.parties|)
    requires env.parties[copy.from] !in ListAt(node, key) && env.parties[copy.from] != env.localPeer
    ensures next.log == node.log + [Acceptance(key, copy, ListAt(node, key)[env.localPeer := h])]
    ensures next.stored == node.stored[key := copy]
    ensures Sound(env, copy) ==> key !in next.unconfirmed
    ensures Applies(env, node, next, copy, lib)
  {
    var list := ListAt(node, key)[env.localPeer := h];
    OwnVoteKeepsWinner(ListAt(node, key), h, Threshold(|env.parties|), env.localPeer);
    var r := StepOf(env, members, node, Forward(h, k, reqType, Some(copy)), lib, next);
    var used := AnswerSettles(env, node, h, k, reqType, copy, lib, r, key);
    assert Winner(list, h, Threshold(|env.parties|));
  }

  // ------------------------------------------------------------ from the request to the answer

  ghost predicate Unchanged(a: Node, b: Node, key: Key) {
    CopyAt(b, key) == CopyAt(a, key) && ListAt(b, key) == ListAt(a, key)
  }

  lemma SettlesElsewhere(env: Env, node: Node, key: Key, copy: WireMessage, list: Ballots, msgType: MessageType,
                         lib: nat -> bool, r: Result, other: Key)
    requires Settles(env, node, key, copy, list, msgType, lib, r) && other != key
    ensures Unchanged(node, r.node, other) && node.requested <= r.node.requested
  {
    assert Rest(node, r.node, key);
    if Asks(node, r.node, key, list, Threshold(|env.parties|), msgType) {
      var h := AskedSet(node, r.node, key, list, Threshold(|env.parties|), msgType);
    }
  }

  lemma AskedSet(node: Node, next: Node, key: Key, list: Ballots, t: int, msgType: MessageType) returns (h: Hash)
    requires Asks(node, next, key, list, t, msgType)
    ensures next.requested == node.requested + {h}
  {
    h :| Winner(list, h, t) && next.requested == node.requested + {h}
      && RequestSent(node, next, key, h, WhoVoted(list, h), msgType);
  }

  lemma SettlesKeepsRequests(env: Env, node: Node, key: Key, copy: WireMessage, list: Ballots, msgType: MessageType,
                             lib: nat -> bool, r: Result)
    requires Settles(env, node, key, copy, list, msgType, lib, r)
    ensures node.requested <= r.node.requested
  {
    if Asks(node, r.node, key, list, Threshold(|env.parties|), msgType) {
      var h := AskedSet(node, r.node, key, list, Threshold(|env.parties|), msgType);
    }
  }

  lemma VoteKeeps(env: Env, node: Node, peer: PeerId, msgType: MessageType, k: Key, hash: Hash, lib: nat -> bool,
                  r: Result,
                  key: Key)
    requires VoteMeans(env, node, peer, msgType, k, hash, lib, r)
    ensures node.requested <= r.node.requested
    ensures k != key || peer in ListAt(node, k) ==> Unchanged(node, r.node, key)
  {
    if peer !in ListAt(node, k) {
      var list := ListAt(node, k)[peer := hash];
      match CopyAt(node, k) {
        case None =>
          if Asks(node, r.node, k, list, Threshold(|env.parties|), msgType) {
            var h := AskedSet(node, r.node, k, list, Threshold(|env.parties|), msgType);
          }
        case Some(copy) =>
          SettlesKeepsRequests(env, node, k, copy, list, msgType, lib, r);
          if k != key {
            SettlesElsewhere(env, node, k, copy, list, msgType, lib, r, key);
          }
      }
    }
  }

  lemma ShareKeeps(env: Env, node: Node, msg: WireMessage, msgType: MessageType, forward: bool, lib: nat -> bool,
                   r: Result, key: Key)
    requires ShareMeans(env, node, msg, msgType, forward, lib, r)
    ensures node.requested <= r.node.requested
    ensures !Brings(env, msg, key) ==> Unchanged(node, r.node, key)
  {
    if msg.from in env.parties && env.verify(msg.from, msg.message, msg.sig) && msg.isBroadcast {
      var k := CacheKey(msg);
      var copy := if CopyAt(node, k).Some? then CopyAt(node, k).value else msg;
      var list := ListAt(node, k)[env.localPeer := env.hash(msg.message)];
      var told :| Told(env, node, told, msg, msgType, forward) && Settles(env, told, k, copy, list, msgType, lib, r);
      SettlesKeepsRequests(env, told, k, copy, list, msgType, lib, r);
      if k != key {
        SettlesElsewhere(env, told, k, copy, list, msgType, lib, r, key);
      }
    }
  }

  /** A step that does not concern the key leaves its copy and its list alone, and no step forgets a
      requested hash but by taking the answer to it. */
  lemma StepLeaves(env: Env, node: Node, input: Input, lib: nat -> bool, r: Result, key: Key, h: Hash)
    requires Means(env, node, input, lib, r)
    ensures !Concerns(env, node, input, key) ==> Unchanged(node, r.node, key)
    ensures h in node.requested && !(input.Forward? && input.hash == h) ==> h in r.node.requested
  {
    match input
    case TssShare(msgType, msg) => ShareKeeps(env, node, msg, msgType, false, lib, r, key);
    case VerMsg(peer, msgType, k, hash) => VoteKeeps(env, node, peer, msgType, k, hash, lib, r, key);
    case Forward(hash, _, reqType, body) =>
      if hash in node.requested && body.Some? {
        ShareKeeps(env, node.(requested := node.requested - {hash}), body.value, reqType, true, lib, r, key);
      }
    case _ =>
  }

  /** Between the two steps nothing concerns the key and no answer to the hash comes. */
  ghost predicate Quiet(env: Env, tr: Trace, i: nat, j: nat, key: Key, h: Hash)
    requires i <= j <= |tr.inputs| && |tr.nodes| == |tr.inputs| + 1
  {
    forall l :: i <= l < j ==> Passes(env, tr.nodes[l], tr.inputs[l], key, h)
  }

  predicate Passes(env: Env, node: Node, input: Input, key: Key, h: Hash) {
    !Concerns(env, node, input, key) && !(input.Forward? && input.hash == h)
  }

  lemma PassingLeaves(env: Env, members: set<PeerId>, tr: Trace, i: nat, key: Key, h: Hash)
    requires IsRun(env, tr) && RunFrom(env, members, tr) && i < |tr.inputs|
    requires Passes(env, tr.nodes[i], tr.inputs[i], key, h) && h in tr.nodes[i].requested
    ensures Unchanged(tr.nodes[i], tr.nodes[i + 1], key) && h in tr.nodes[i + 1].requested
  {
    var r := RunStepOf(env, members, tr, i);
    StepLeaves(env, tr.nodes[i], tr.inputs[i], tr.libs[i], r, key, h);
  }

  lemma {:induction false} QuietKeeps(env: Env, members: set<PeerId>, tr: Trace, i: nat, j: nat, key: Key, h: Hash)
    requires IsRun(env, tr) && RunFrom(env, members, tr) && i <= j <= |tr.inputs| && Quiet(env, tr, i, j, key, h)
    requires h in tr.nodes[i].requested
    ensures Unchanged(tr.nodes[i], tr.nodes[j], key) && h in tr.nodes[j].requested
  {
    if i < j {
      QuietKeeps(env, members, tr, i, j - 1, key, h);
      PassingLeaves(env, members, tr, j - 1, key, h);
    }
  }

  /** A node without a valid copy, as after a vote for a message it never got or after its minority
      copy was dropped, recovers: at step i the only most frequent hash is requested, and when the
      answer comes at step j the copy is confirmed on the list of step i and its own vote. */
  lemma MissingCopyIsRecovered(env: Env, members: set<PeerId>, tr: Trace, i: nat, j: nat, key: Key, h: Hash,
                               copy: WireMessage)
    requires IsRun(env, tr) && RunFrom(env, members, tr) && i < j < |tr.inputs|
    requires Concerns(env, tr.nodes[i], tr.inputs[i], key)
    requires key in tr.nodes[i + 1].unconfirmed && CopyAt(tr.nodes[i + 1], key).None?
    requires OnlyWinner(ListAt(tr.nodes[i + 1], key), h, Threshold(|env.parties|))
    requires |ListAt(tr.nodes[i + 1], key)| >= Threshold(|env.parties|)
    requires Quiet(env, tr, i + 1, j, key, h)
    requires tr.inputs[j].Forward? && tr.inputs[j].hash == h && tr.inputs[j].body == Some(copy)
    requires Brings(env, copy, key) && env.hash(copy.message) == h
    requires env.parties[copy.from] !in ListAt(tr.nodes[i + 1], key) && env.parties[copy.from] != env.localPeer
    ensures LastAsks(tr.nodes[i + 1], key, ListAt(tr.nodes[i + 1], key), h, KindOf(tr.inputs[i]))
    ensures tr.nodes[j + 1].log
      == tr.nodes[j].log + [Acceptance(key, copy, ListAt(tr.nodes[i + 1], key)[env.localPeer := h])]
    ensures tr.nodes[j + 1].stored == tr.nodes[j].stored[key := copy]
  {
    RequestedAt(env, members, tr, i, key, h);
    QuietKeeps(env, members, tr, i + 1, j, key, h);
    AnsweredAt(env, members, tr, j, key, h, copy);
  }

  lemma RequestedAt(env: Env, members: set<PeerId>, tr: Trace, i: nat, key: Key, h: Hash)
    requires IsRun(env, tr) && RunFrom(env, members, tr) && i < |tr.inputs|
    requires Concerns(env, tr.nodes[i], tr.inputs[i], key)
    requires key in tr.nodes[i + 1].unconfirmed && CopyAt(tr.nodes[i + 1], key).None?
    requires OnlyWinner(ListAt(tr.nodes[i + 1], key), h, Threshold(|env.parties|))
    ensures h in tr.nodes[i + 1].requested
    ensures LastAsks(tr.nodes[i + 1], key, ListAt(tr.nodes[i + 1], key), h, KindOf(tr.inputs[i]))
  {
    AcceptanceAlways(env, members, tr, i);
    WinnerIsVotedFor(ListAt(tr.nodes[i + 1], key), h, Threshold(|env.parties|));
    var g := MissingIsRequested(env, members, tr.nodes[i], tr.inputs[i], tr.libs[i], tr.nodes[i + 1], key, h);
  }

  lemma AnsweredAt(env: Env, members: set<PeerId>, tr: Trace, j: nat, key: Key, h: Hash, copy: WireMessage)
    requires IsRun(env, tr) && RunFrom(env, members, tr) && j < |tr.inputs|
    requires tr.inputs[j].Forward? && tr.inputs[j].hash == h && tr.inputs[j].body == Some(copy)
    requires h in tr.nodes[j].requested && Brings(env, copy, key) && env.hash(copy.message) == h
    requires CopyAt(tr.nodes[j], key).None? && OnlyWinner(ListAt(tr.nodes[j], key), h, Threshold(|env.parties|))
    requires |ListAt(tr.nodes[j], key)| >= Threshold(|env.parties|)
    requires env.parties[copy.from] !in ListAt(tr.nodes[j], key) && env.parties[copy.from] != env.localPeer
    ensures tr.nodes[j + 1].log
      == tr.nodes[j].log + [Acceptance(key, copy, ListAt(tr.nodes[j], key)[env.localPeer := h])]
    ensures tr.nodes[j + 1].stored == tr.nodes[j].stored[key := copy]
  {
    AcceptanceAlways(env, members, tr, j);
    AnswerConfirms(env, members, tr.nodes[j], h, tr.inputs[j].key, tr.inputs[j].reqType, copy, tr.libs[j],
                   tr.nodes[j + 1], key);
  }

  lemma WinnerIsVotedFor(list: Ballots, h: Hash, t: int)
    requires Winner(list, h, t)
    ensures h in list.Values
  {
    var p :| p in Voters(list, h);
    assert list[p] == h;
  }

  // ------------------------------------------------------------ everything a node sends

  /** Some earlier input is the reason for this outbound message. */
  ghost predicate Justified(env: Env, tr: Trace, i: nat, out: Outbound)
    requires i <= |tr.inputs| && |tr.nodes| == |tr.inputs| + 1
  {
    exists k :: 0 <= k < i && Causes(env, tr.nodes[k], tr.inputs[k], tr.nodes[k + 1], out)
  }

  /** An answer goes to the peer that asked, and carries a message that was confirmed under the key; a
      hash is that of a valid broadcast that came, and goes to all other peers but its sender; a
      request is for a winner of a list without a copy, and goes to exactly its voters. */
  ghost predicate Causes(env: Env, node: Node, input: Input, next: Node, out: Outbound) {
    match out
    case ShareReply(reqType, key, hash, msg, peer) =>
      input == Query(peer, hash, key, reqType) && exists e :: e in node.log && e.key == key && e.msg == msg
    case VerHash(verType, key, hash, peers) =>
      && input.TssShare? && Brings(env, input.msg, key) && hash == env.hash(input.msg.message)
      && ConfirmedAs(input.msgType, verType)
      && peers == set p | p in env.parties.Values && p != env.localPeer && p != env.parties[input.msg.from]
    case ShareRequest(reqType, key, h, peers) =>
      && Concerns(env, node, input, key) && CopyAt(next, key).None? && h in next.requested
      && Winner(ListAt(next, key), h, Threshold(|env.parties|)) && peers == WhoVoted(ListAt(next, key), h)
      && AskedAs(KindOf(input), reqType)
  }

  lemma SettlesSends(env: Env, node: Node, input: Input, told: Node, key: Key, copy: WireMessage, list: Ballots,
                     msgType: MessageType, lib: nat -> bool, r: Result, out: Outbound)
    requires Settles(env, told, key, copy, list, msgType, lib, r)
    requires Concerns(env, node, input, key) && KindOf(input) == msgType
    requires out in r.node.outbox && out !in told.outbox
    ensures Causes(env, node, input, r.node, out)
  {
    assert Drops(env, told, key, list, Threshold(|env.parties|), msgType, r);
    AskedSends(env, node, input, told, key, list, msgType, r.node, out);
  }

  lemma AskedSends(env: Env, node: Node, input: Input, told: Node, key: Key, list: Ballots, msgType: MessageType,
                   next: Node, out: Outbound)
    requires Asks(told, next, key, list, Threshold(|env.parties|), msgType)
    requires Concerns(env, node, input, key) && KindOf(input) == msgType
    requires CopyAt(next, key).None? && ListAt(next, key) == list
    requires out in next.outbox && out !in told.outbox
    ensures Causes(env, node, input, next, out)
  {
    var h :| Winner(list, h, Threshold(|env.parties|)) && next.requested == told.requested + {h}
      && RequestSent(told, next, key, h, WhoVoted(list, h), msgType);
  }

  lemma ShareSends(env: Env, node: Node, input: Input, used: Node, msg: WireMessage, msgType: MessageType,
                   forward: bool,
                   lib: nat -> bool, r: Result, out: Outbound)
    requires ShareMeans(env, used, msg, msgType, forward, lib, r) && used.outbox == node.outbox
    requires forall key :: Brings(env, msg, key) ==> Concerns(env, node, input, key)
    requires KindOf(input) == msgType && (!forward ==> input == TssShare(msgType, msg))
    requires out in r.node.outbox && out !in node.outbox
    ensures Causes(env, node, input, r.node, out)
  {
    var key := CacheKey(msg);
    var copy := if CopyAt(used, key).Some? then CopyAt(used, key).value else msg;
    var list := ListAt(used, key)[env.localPeer := env.hash(msg.message)];
    var told :| Told(env, used, told, msg, msgType, forward) && Settles(env, told, key, copy, list, msgType, lib, r);
    if out !in told.outbox {
      SettlesSends(env, node, input, told, key, copy, list, msgType, lib, r, out);
    }
  }

  lemma StepSends(env: Env, node: Node, input: Input, lib: nat -> bool, r: Result, out: Outbound)
    requires Means(env, node, input, lib, r) && StoredOk(node)
    requires out in r.node.outbox && out !in node.outbox
    ensures Causes(env, node, input, r.node, out)
  {
    match input
    case TssShare(msgType, msg) => ShareSends(env, node, input, node, msg, msgType, false, lib, r, out);
    case VerMsg(peer, msgType, key, hash) => VoteSends(env, node, peer, msgType, key, hash, lib, r, out);
    case Forward(hash, _, reqType, body) =>
      ShareSends(env, node, input, node.(requested := node.requested - {hash}), body.value, reqType, true, lib, r, out);
    case Query(peer, hash, key, reqType) => AnswerIsLogged(node, key);
    case _ =>
  }

  lemma VoteSends(env: Env, node: Node, peer: PeerId, msgType: MessageType, key: Key, hash: Hash, lib: nat -> bool,
                  r: Result, out: Outbound)
    requires VoteMeans(env, node, peer, msgType, key, hash, lib, r)
    requires out in r.node.outbox && out !in node.outbox
    ensures Causes(env, node, VerMsg(peer, msgType, key, hash), r.node, out)
  {
    var input := VerMsg(peer, msgType, key, hash);
    var list := ListAt(node, key)[peer := hash];
    match CopyAt(node, key)
    case None => AskedSends(env, node, input, node, key, list, msgType, r.node, out);
    case Some(copy) => SettlesSends(env, node, input, node, key, copy, list, msgType, lib, r, out);
  }

  lemma AnswerIsLogged(node: Node, key: Key)
    requires StoredOk(node)
    ensures key in node.stored ==> exists e :: e in node.log && e.key == key && e.msg == node.stored[key]
  {
    if key in node.stored {
      var i :| 0 <= i < |node.log| && node.log[i].key == key && node.log[i].msg == node.stored[key];
      assert node.log[i] in node.log;
    }
  }

  /** In every run each message sent has its reason. */
  lemma {:induction false} OutboxIsJustified(env: Env, members: set<PeerId>, tr: Trace, i: nat, out: Outbound)
    requires IsRun(env, tr) && RunFrom(env, members, tr) && i <= |tr.inputs| && out in tr.nodes[i].outbox
    ensures Justified(env, tr, i, out)
  {
    if i > 0 {
      if out in tr.nodes[i - 1].outbox {
        OutboxIsJustified(env, members, tr, i - 1, out);
      } else {
        NewIsCaused(env, members, tr, i - 1, out);
      }
    }
  }

  lemma NewIsCaused(env: Env, members: set<PeerId>, tr: Trace, k: nat, out: Outbound)
    requires IsRun(env, tr) && RunFrom(env, members, tr) && k < |tr.inputs|
    requires out in tr.nodes[k + 1].outbox && out !in tr.nodes[k].outbox
    ensures Causes(env, tr.nodes[k], tr.inputs[k], tr.nodes[k + 1], out)
  {
    AcceptanceAlways(env, members, tr, k);
    var r := RunStepOf(env, members, tr, k);
    StepSends(env, tr.nodes[k], tr.inputs[k], tr.libs[k], r, out);
  }

  /** And each reason sends: a peer that asks for a confirmed message gets it, and everybody else hears
      of a valid broadcast that comes. */
  lemma QueriesAreAnswered(env: Env, members: set<PeerId>, tr: Trace, k: nat)
    requires IsRun(env, tr) && RunFrom(env, members, tr) && k < |tr.inputs|
    ensures tr.inputs[k].Query? && tr.inputs[k].key in tr.nodes[k].stored ==>
      var Query(peer, hash, key, reqType) := tr.inputs[k];
      tr.nodes[k + 1].outbox == tr.nodes[k].outbox + [ShareReply(reqType, key, hash, tr.nodes[k].stored[key], peer)]
  {
    var r := RunStepOf(env, members, tr, k);
  }

  lemma BroadcastsAreTold(env: Env, members: set<PeerId>, tr: Trace, k: nat, key: Key)
    requires IsRun(env, tr) && RunFrom(env, members, tr) && k < |tr.inputs|
    requires tr.inputs[k].TssShare? && Brings(env, tr.inputs[k].msg, key)
    ensures var msg := tr.inputs[k].msg;
      var others := set p | p in env.parties.Values && p != env.localPeer && p != env.parties[msg.from];
      others != {} ==> exists verType ::
        ConfirmedAs(tr.inputs[k].msgType, verType)
        && VerHash(verType, key, env.hash(msg.message), others) in tr.nodes[k + 1].outbox
  {
    var r := RunStepOf(env, members, tr, k);
    var TssShare(msgType, msg) := tr.inputs[k];
    TellsIn(env, tr.nodes[k], msg, msgType, tr.libs[k], r);
  }

  lemma TellsIn(env: Env, node: Node, msg: WireMessage, msgType: MessageType, lib: nat -> bool, r: Result)
    requires msg.from in env.parties && BroadcastMeans(env, node, msg, msgType, false, lib, r)
    ensures var others := set p | p in env.parties.Values && p != env.localPeer && p != env.parties[msg.from];
      others != {} ==> exists verType ::
        ConfirmedAs(msgType, verType) && VerHash(verType, CacheKey(msg), env.hash(msg.message), others) in r.node.outbox
  {
    var key := CacheKey(msg);
    var copy := if CopyAt(node, key).Some? then CopyAt(node, key).value else msg;
    var list := ListAt(node, key)[env.localPeer := env.hash(msg.message)];
    var told :| Told(env, node, told, msg, msgType, false) && Settles(env, told, key, copy, list, msgType, lib, r);
    SettlesKeepsOutbox(env, told, key, copy, list, msgType, lib, r);
  }

  lemma SettlesKeepsOutbox(env: Env, node: Node, key: Key, copy: WireMessage, list: Ballots, msgType: MessageType,
                           lib: nat -> bool, r: Result)
    requires Settles(env, node, key, copy, list, msgType, lib, r)
    ensures forall out :: out in node.outbox ==> out in r.node.outbox
  {
    if Asks(node, r.node, key, list, Threshold(|env.parties|), msgType) {
      var h :| Winner(list, h, Threshold(|env.parties|)) && r.node.requested == node.requested + {h}
        && RequestSent(node, r.node, key, h, WhoVoted(list, h), msgType);
    }
  }
}
