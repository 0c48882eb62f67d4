/** What a node has recorded after a run: who reported the end of the task, whose unicast shares came
    last, and who is blamed for a broadcast. */
module Records {
  import opened Types
  import opened Votes
  import opened Protocol
  import opened Runs
  import opened Agreement
  import opened Steps
  import opened Exchanges

  /** The parts of a node that only unicast shares, reports and checks of broadcasts change. */
  ghost predicate SameRecords(a: Node, b: Node) {
    b.finished == a.finished && b.closes == a.closes && b.lastUnicast == a.lastUnicast
  }

  lemma SettlesKeepsRecords(env: Env, node: Node, key: Key, copy: WireMessage, list: Ballots, msgType: MessageType,
                            lib: nat -> bool, r: Result)
    requires Settles(env, node, key, copy, list, msgType, lib, r)
    ensures SameRecords(node, r.node)
  {
  }

  lemma BroadcastKeepsRecords(env: Env, node: Node, msg: WireMessage, msgType: MessageType, forward: bool,
                              lib: nat -> bool, r: Result)
    requires msg.from in env.parties && BroadcastMeans(env, node, msg, msgType, forward, lib, r)
    ensures SameRecords(node, r.node)
  {
    var key := CacheKey(msg);
    var copy := if CopyAt(node, key).Some? then CopyAt(node, key).value else msg;
    var list := ListAt(node, key)[env.localPeer := env.hash(msg.message)];
    var told :| Told(env, node, told, msg, msgType, forward) && Settles(env, told, key, copy, list, msgType, lib, r);
    SettlesKeepsRecords(env, told, key, copy, list, msgType, lib, r);
  }

  lemma VoteKeepsRecords(env: Env, node: Node, peer: PeerId, msgType: MessageType, key: Key, hash: Hash,
                         lib: nat -> bool, r: Result)
    requires VoteMeans(env, node, peer, msgType, key, hash, lib, r)
    ensures SameRecords(node, r.node)
  {
    if peer !in ListAt(node, key) && CopyAt(node, key).Some? {
      SettlesKeepsRecords(env, node, key, CopyAt(node, key).value, ListAt(node, key)[peer := hash], msgType, lib, r);
    }
  }

  /** Round and peer of the verified unicast share that an input hands to the local parties. */
  function UnicastOf(env: Env, node: Node, input: Input): Option<(string, PeerId)> {
    match input
    case TssShare(_, msg) => UnicastIn(env, msg)
    case Forward(hash, _, _, body) =>
      if hash in node.requested && body.Some? then UnicastIn(env, body.value) else None
    case _ => None
  }

  function UnicastIn(env: Env, msg: WireMessage): Option<(string, PeerId)> {
    if IsUnicast(env, msg) then Some((msg.roundInfo, env.parties[msg.from])) else None
  }

  predicate IsUnicast(env: Env, msg: WireMessage) {
    !msg.isBroadcast && msg.from in env.parties && env.verify(msg.from, msg.message, msg.sig)
  }

  ghost predicate Reports(input: Input, p: PeerId) {
    input == TaskDone(p, true)
  }

  ghost function NotedAt(node: Node, round: string): seq<PeerId> {
    if round in node.lastUnicast then node.lastUnicast[round] else []
  }

  function NotedBy(share: Option<(string, PeerId)>, round: string): seq<PeerId> {
    if share.Some? && share.value.0 == round then [share.value.1] else []
  }

  lemma ShareRecords(env: Env, node: Node, msg: WireMessage, msgType: MessageType, forward: bool, lib: nat -> bool,
                     r: Result, round: string)
    requires ShareMeans(env, node, msg, msgType, forward, lib, r)
    ensures r.node.finished == node.finished
    ensures NotedAt(r.node, round)
      == NotedAt(node, round) + NotedBy(UnicastIn(env, msg), round)
  {
    if msg.from in env.parties && env.verify(msg.from, msg.message, msg.sig) && msg.isBroadcast {
      BroadcastKeepsRecords(env, node, msg, msgType, forward, lib, r);
    }
  }

  /** One step adds the sender of a unicast share to the list of its round. */
  lemma StepNotes(env: Env, node: Node, input: Input, lib: nat -> bool, r: Result, round: string)
    requires Means(env, node, input, lib, r)
    ensures NotedAt(r.node, round) == NotedAt(node, round) + NotedBy(UnicastOf(env, node, input), round)
  {
    match input
    case TssShare(msgType, msg) => ShareRecords(env, node, msg, msgType, false, lib, r, round);
    case VerMsg(peer, msgType, key, hash) => VoteKeepsRecords(env, node, peer, msgType, key, hash, lib, r);
    case Forward(hash, _, reqType, body) =>
      if hash in node.requested && body.Some? {
        var used := node.(requested := node.requested - {hash});
        assert NotedAt(used, round) == NotedAt(node, round);
        ShareRecords(env, used, body.value, reqType, true, lib, r, round);
      }
    case _ =>
  }

  lemma StepFinishes(env: Env, node: Node, input: Input, lib: nat -> bool, r: Result, p: PeerId)
    requires Means(env, node, input, lib, r)
    ensures p in r.node.finished <==> p in node.finished || Reports(input, p)
  {
    match input
    case TssShare(msgType, msg) => ShareRecords(env, node, msg, msgType, false, lib, r, "");
    case VerMsg(peer, msgType, key, hash) => VoteKeepsRecords(env, node, peer, msgType, key, hash, lib, r);
    case Forward(hash, _, reqType, body) =>
      if hash in node.requested && body.Some? {
        ShareRecords(env, node.(requested := node.requested - {hash}), body.value, reqType, true, lib, r, "");
      }
    case _ =>
  }

  lemma RunNotes(env: Env, members: set<PeerId>, tr: Trace, i: nat, round: string)
    requires IsRun(env, tr) && RunFrom(env, members, tr) && i < |tr.inputs|
    ensures NotedAt(tr.nodes[i + 1], round)
      == NotedAt(tr.nodes[i], round) + NotedBy(UnicastOf(env, tr.nodes[i], tr.inputs[i]), round)
  {
    var r := RunStepOf(env, members, tr, i);
    StepNotes(env, tr.nodes[i], tr.inputs[i], tr.libs[i], r, round);
  }

  lemma RunFinishes(env: Env, members: set<PeerId>, tr: Trace, i: nat, p: PeerId)
    requires IsRun(env, tr) && RunFrom(env, members, tr) && i < |tr.inputs|
    ensures p in tr.nodes[i + 1].finished <==> p in tr.nodes[i].finished || Reports(tr.inputs[i], p)
  {
    var r := RunStepOf(env, members, tr, i);
    StepFinishes(env, tr.nodes[i], tr.inputs[i], tr.libs[i], r, p);
  }

  ghost predicate HasReported(tr: Trace, i: nat, p: PeerId)
    requires i <= |tr.inputs|
  {
    exists k :: 0 <= k < i && Reports(tr.inputs[k], p)
  }

  lemma ReportedLater(tr: Trace, i: nat, p: PeerId)
    requires i < |tr.inputs|
    ensures HasReported(tr, i + 1, p) <==> HasReported(tr, i, p) || Reports(tr.inputs[i], p)
  {
    if Reports(tr.inputs[i], p) {
      assert 0 <= i < i + 1;
    }
    if HasReported(tr, i, p) {
      var k :| 0 <= k < i && Reports(tr.inputs[k], p);
      assert k < i + 1;
    }
  }

  /** After any run the finished peers are exactly those that reported. */
  lemma {:induction false} FinishedHaveReported(env: Env, members: set<PeerId>, tr: Trace, i: nat, p: PeerId)
    requires IsRun(env, tr) && RunFrom(env, members, tr) && i <= |tr.inputs|
    ensures p in tr.nodes[i].finished <==> HasReported(tr, i, p)
  {
    if i > 0 {
      FinishedHaveReported(env, members, tr, i - 1, p);
      RunFinishes(env, members, tr, i - 1, p);
      ReportedLater(tr, i - 1, p);
    }
  }

  /** So the channel has been closed exactly if as many peers reported as there are other parties. */
  lemma ClosedWhenAllReported(env: Env, members: set<PeerId>, tr: Trace, i: nat, reported: set<PeerId>)
    requires IsRun(env, tr) && RunFrom(env, members, tr) && i <= |tr.inputs|
    requires forall p :: p in reported <==> HasReported(tr, i, p)
    ensures tr.nodes[i].closes == if |reported| >= |env.parties| - 1 >= 1 then 1 else 0
  {
    TaskDoneClosedAtMostOnce(env, tr, i);
    forall p ensures p in tr.nodes[i].finished <==> p in reported {
      FinishedHaveReported(env, members, tr, i, p);
    }
    assert tr.nodes[i].finished == reported;
  }

  /** Peers of the verified unicast shares of a round, input by input. */
  ghost function UnicastSenders(env: Env, tr: Trace, round: string): (s: seq<seq<PeerId>>)
    requires |tr.nodes| == |tr.inputs| + 1
    ensures |s| == |tr.inputs|
    ensures forall k :: 0 <= k < |s| ==> s[k] == NotedBy(UnicastOf(env, tr.nodes[k], tr.inputs[k]), round)
  {
    seq(|tr.inputs|, k requires 0 <= k < |tr.inputs| => NotedBy(UnicastOf(env, tr.nodes[k], tr.inputs[k]), round))
  }

  ghost function Notes(nodes: seq<Node>, round: string): (s: seq<seq<PeerId>>)
    ensures |s| == |nodes| && forall k :: 0 <= k < |s| ==> s[k] == NotedAt(nodes[k], round)
  {
    seq(|nodes|, k requires 0 <= k < |nodes| => NotedAt(nodes[k], round))
  }

  lemma {:induction false} Telescopes(notes: seq<seq<PeerId>>, gains: seq<seq<PeerId>>, i: nat)
    requires |notes| == |gains| + 1 && i <= |gains| && notes[0] == []
    requires forall k :: 0 <= k < |gains| ==> notes[k + 1] == notes[k] + gains[k]
    ensures notes[i] == Flatten(gains[..i])
  {
    if i > 0 {
      Telescopes(notes, gains, i - 1);
      FlattenAppend(gains[..i - 1], gains[i - 1]);
      assert gains[..i] == gains[..i - 1] + [gains[i - 1]];
    }
  }

  /** After any run the noted peers of a round are the senders of its unicast shares, in order. */
  lemma UnicastSendersAreNoted(env: Env, members: set<PeerId>, tr: Trace, round: string, i: nat)
    requires IsRun(env, tr) && RunFrom(env, members, tr) && i <= |tr.inputs|
    ensures NotedAt(tr.nodes[i], round) == Flatten(UnicastSenders(env, tr, round)[..i])
  {
    var notes, gains := Notes(tr.nodes, round), UnicastSenders(env, tr, round);
    forall k | 0 <= k < |gains| ensures notes[k + 1] == notes[k] + gains[k] {
      RunNotes(env, members, tr, k, round);
    }
    Telescopes(notes, gains, i);
  }

  // ------------------------------------------------------------ blame for a broadcast

  /** The check of a copy of this party was long enough, and its sender had voted for it or no hash
      had enough votes. */
  ghost predicate Suspect(env: Env, next: Node, key: Key, p: PartyId) {
    && CopyAt(next, key).Some? && CopyAt(next, key).value.from == p && p in env.parties
    && exists list: Ballots ::
         && |list| >= Threshold(|env.parties|) && ListAt(next, key) == list - {env.parties[p]}
         && (env.parties[p] in list || forall h :: !Winner(list, h, Threshold(|env.parties|)))
  }

  /** The step blames the sender of the copy it checked, or nobody. */
  ghost predicate BlamesRightly(env: Env, node: Node, input: Input, next: Node) {
    || next.blamed == node.blamed
    || exists key, p ::
         Concerns(env, node, input, key) && Suspect(env, next, key, p) && next.blamed == node.blamed + [p]
  }

  lemma SettlesBlames(env: Env, node: Node, input: Input, told: Node, key: Key, copy: WireMessage, list: Ballots,
                      msgType: MessageType, lib: nat -> bool, r: Result)
    requires Settles(env, told, key, copy, list, msgType, lib, r) && told.blamed == node.blamed
    requires Concerns(env, node, input, key)
    ensures BlamesRightly(env, node, input, r.node)
  {
    if r.node.blamed != node.blamed {
      var owner := env.parties[copy.from];
      if owner !in list {
        assert list - {owner} == list;
      }
      assert ListAt(r.node, key) == list - {owner};
      assert Suspect(env, r.node, key, copy.from);
    }
  }

  lemma ShareBlames(env: Env, node: Node, input: Input, used: Node, msg: WireMessage, msgType: MessageType,
                    forward: bool,
                    lib: nat -> bool, r: Result)
    requires ShareMeans(env, used, msg, msgType, forward, lib, r) && used.blamed == node.blamed
    requires forall key :: Brings(env, msg, key) ==> Concerns(env, node, input, key)
    ensures BlamesRightly(env, node, input, r.node)
  {
    if msg.from in env.parties && env.verify(msg.from, msg.message, msg.sig) && msg.isBroadcast {
      var key := CacheKey(msg);
      var copy := if CopyAt(used, key).Some? then CopyAt(used, key).value else msg;
      var list := ListAt(used, key)[env.localPeer := env.hash(msg.message)];
      var told :| Told(env, used, told, msg, msgType, forward) && Settles(env, told, key, copy, list, msgType, lib, r);
      assert Brings(env, msg, key);
      SettlesBlames(env, node, input, told, key, copy, list, msgType, lib, r);
    }
  }

  lemma VoteBlames(env: Env, node: Node, peer: PeerId, msgType: MessageType, key: Key, hash: Hash, lib: nat -> bool,
                   r: Result)
    requires VoteMeans(env, node, peer, msgType, key, hash, lib, r)
    ensures BlamesRightly(env, node, VerMsg(peer, msgType, key, hash), r.node)
  {
    if peer !in ListAt(node, key) && CopyAt(node, key).Some? {
      SettlesBlames(env, node, VerMsg(peer, msgType, key, hash), node, key, CopyAt(node, key).value,
                    ListAt(node, key)[peer := hash], msgType, lib, r);
    }
  }

  lemma StepBlames(env: Env, node: Node, input: Input, lib: nat -> bool, r: Result)
    requires Means(env, node, input, lib, r)
    ensures BlamesRightly(env, node, input, r.node)
  {
    match input
    case TssShare(msgType, msg) => ShareBlames(env, node, input, node, msg, msgType, false, lib, r);
    case VerMsg(peer, msgType, key, hash) => VoteBlames(env, node, peer, msgType, key, hash, lib, r);
    case Forward(hash, _, reqType, body) =>
      if hash in node.requested && body.Some? {
        ShareBlames(env, node, input, node.(requested := node.requested - {hash}), body.value, reqType, true, lib, r);
      }
    case _ =>
  }

  /** In every run whoever is blamed for a broadcast had voted for its own message, or was the sender
      of a copy that was checked when no hash had enough votes; a minority copy blames nobody. */
  lemma {:induction false} BlamedWereSuspect(env: Env, members: set<PeerId>, tr: Trace, i: nat, p: PartyId)
    requires IsRun(env, tr) && RunFrom(env, members, tr) && i <= |tr.inputs| && p in tr.nodes[i].blamed
    ensures exists k, key ::
      0 <= k < i && Concerns(env, tr.nodes[k], tr.inputs[k], key)
      && Suspect(env, tr.nodes[k + 1], key, p)
  {
    if i > 0 {
      if p in tr.nodes[i - 1].blamed {
        BlamedWereSuspect(env, members, tr, i - 1, p);
      } else {
        NewlyBlamed(env, members, tr, i - 1, p);
      }
    }
  }

  lemma NewlyBlamed(env: Env, members: set<PeerId>, tr: Trace, k: nat, p: PartyId)
    requires IsRun(env, tr) && RunFrom(env, members, tr) && k < |tr.inputs|
    requires p in tr.nodes[k + 1].blamed && p !in tr.nodes[k].blamed
    ensures exists key :: Concerns(env, tr.nodes[k], tr.inputs[k], key) && Suspect(env, tr.nodes[k + 1], key, p)
  {
    var r := RunStepOf(env, members, tr, k);
    StepBlames(env, tr.nodes[k], tr.inputs[k], tr.libs[k], r);
  }
}
