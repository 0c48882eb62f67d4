/** When a broadcast is applied: what has to arrive at a node if all peers confirm the copy it gets. */
module Progress {
  import opened Types
  import opened Votes
  import opened Protocol
  import opened Runs
  import opened Agreement
  import D = Disagreement
  import P = Provenance

  // ------------------------------------------------------------ what arrived

  /** Whether the message came, who confirmed it, and whether its first copy is still the last thing
      that came (repeated confirmations aside). */
  datatype Arrivals = Arrivals(delivered: bool, voters: set<PeerId>, last: bool)

  /** This input hands the message to the node, directly or as an answer to a request. */
  predicate Delivers(node: Node, input: Input, msg: WireMessage) {
    match input
    case TssShare(_, m) => m == msg
    case Forward(hash, _, _, body) => hash in node.requested && body == Some(msg)
    case _ => false
  }

  function Arrive(a: Arrivals, node: Node, input: Input, msg: WireMessage): Arrivals {
    if Delivers(node, input, msg) then a.(delivered := true, last := !a.delivered)
    else if input.VerMsg? && input.key == CacheKey(msg) && input.peer !in a.voters then
      a.(voters := a.voters + {input.peer}, last := false)
    else a
  }

  /** What the first `i` inputs of the run brought of the message. */
  function ArrivedBy(tr: Trace, msg: WireMessage, i: nat): Arrivals
    requires i <= |tr.inputs| && i <= |tr.nodes|
  {
    if i == 0 then Arrivals(false, {}, false)
    else Arrive(ArrivedBy(tr, msg, i - 1), tr.nodes[i - 1], tr.inputs[i - 1], msg)
  }

  /** Another wire message that would be cached where this one is. */
  predicate Rivals(env: Env, m: WireMessage, msg: WireMessage) {
    m != msg && m.isBroadcast && ShareIsValid(env, m) && CacheKey(m) == CacheKey(msg)
  }

  /** The input is no rival of the message and no confirmation of another hash for it; the node does
      not confirm to itself. Anything may come about other messages. */
  predicate Harmless(env: Env, msg: WireMessage, input: Input) {
    match input
    case TssShare(_, m) => !Rivals(env, m, msg)
    case Forward(_, _, _, body) => body.Some? ==> !Rivals(env, body.value, msg)
    case VerMsg(p, _, key, hash) => key == CacheKey(msg) ==> hash == env.hash(msg.message) && p != env.localPeer
    case _ => true
  }

  ghost predicate HarmlessRun(env: Env, msg: WireMessage, tr: Trace) {
    forall i :: 0 <= i < |tr.inputs| ==> Harmless(env, msg, tr.inputs[i])
  }

  /** A valid broadcast of another party. */
  predicate FromAnother(env: Env, msg: WireMessage) {
    msg.isBroadcast && ShareIsValid(env, msg) && env.parties[msg.from] != env.localPeer
  }

  ghost predicate IsLogged(node: Node, msg: WireMessage) {
    exists i :: 0 <= i < |node.log| && node.log[i].msg == msg
  }

  predicate Due(env: Env, msg: WireMessage, a: Arrivals)
    requires msg.from in env.parties
  {
    Reached(a, env.parties[msg.from], env.localPeer, Quorum(env))
  }

  // ------------------------------------------------------------ the confirm list while the message waits

  /** The list names everybody who confirmed and this node, the sender perhaps removed; it is short,
      or the sender was removed when the first copy came and nothing came since. */
  predicate Waiting(a: Arrivals, listed: set<PeerId>, owner: PeerId, local: PeerId, t: int) {
    || (listed == a.voters + {local} && |listed| < t)
    || (owner in a.voters && listed == a.voters - {owner} + {local} && (|listed| < t || a.last))
  }

  predicate Passes(listed: set<PeerId>, owner: PeerId, t: int) {
    |listed| >= t && owner !in listed
  }

  /** The list after a check that does not pass. */
  function Checked(listed: set<PeerId>, owner: PeerId, t: int): set<PeerId> {
    if |listed| >= t then listed - {owner} else listed
  }

  /** Enough peers confirmed, this node included and the sender not; and if the sender confirmed its
      own message, something came after the first copy that makes the node check again. */
  predicate Reached(a: Arrivals, owner: PeerId, local: PeerId, t: int) {
    a.delivered && |a.voters - {owner} + {local}| >= t && (owner in a.voters ==> !a.last)
  }

  /** The check of this list passes exactly if the message is due; otherwise the message waits on. */
  ghost predicate CheckRight(a: Arrivals, listed: set<PeerId>, owner: PeerId, local: PeerId, t: int) {
    && (Passes(listed, owner, t) <==> Reached(a, owner, local, t))
    && (!Passes(listed, owner, t) ==> Waiting(a, Checked(listed, owner, t), owner, local, t))
  }

  lemma NotYetReached(a: Arrivals, listed: set<PeerId>, owner: PeerId, local: PeerId, t: int)
    requires Waiting(a, listed, owner, local, t)
    ensures !Reached(a, owner, local, t)
  {
    SubsetSize(a.voters - {owner} + {local}, a.voters + {local});
  }

  lemma FirstCopy(a: Arrivals, owner: PeerId, local: PeerId, t: int)
    requires owner != local && a.delivered && a.last
    ensures CheckRight(a, a.voters + {local}, owner, local, t)
  {
    var listed := a.voters + {local};
    SubsetSize(listed - {owner}, listed);
    assert a.voters - {owner} + {local} == listed - {owner};
    if owner !in a.voters {
      assert listed - {owner} == listed;
    }
  }

  lemma NextCopy(a: Arrivals, listed: set<PeerId>, owner: PeerId, local: PeerId, t: int)
    requires owner != local && a.delivered && Waiting(a, listed, owner, local, t)
    ensures CheckRight(a.(last := false), listed, owner, local, t)
  {
    SubsetSize(a.voters - {owner} + {local}, a.voters + {local});
  }

  lemma NextVote(a: Arrivals, listed: set<PeerId>, p: PeerId, owner: PeerId, local: PeerId, t: int)
    requires owner != local && a.delivered && Waiting(a, listed, owner, local, t) && p !in a.voters && p != local
    ensures CheckRight(a.(voters := a.voters + {p}, last := false), listed + {p}, owner, local, t)
  {
    var after := a.(voters := a.voters + {p}, last := false);
    if listed == a.voters + {local} && |listed| < t {
      VoteOnFullList(after, p, owner, local, t);
      assert listed + {p} == after.voters + {local};
    } else {
      assert listed + {p} == after.voters - {owner} + {local};
      VoteWithoutOwner(after, owner, local, t);
    }
  }

  lemma VoteWithoutOwner(a: Arrivals, owner: PeerId, local: PeerId, t: int)
    requires owner != local && a.delivered && !a.last && owner in a.voters
    ensures CheckRight(a, a.voters - {owner} + {local}, owner, local, t)
  {
  }

  lemma VoteOnFullList(a: Arrivals, p: PeerId, owner: PeerId, local: PeerId, t: int)
    requires owner != local && a.delivered && !a.last && p in a.voters && |a.voters + {local}| <= t
    ensures CheckRight(a, a.voters + {local}, owner, local, t)
  {
    var listed := a.voters + {local};
    assert a.voters - {owner} + {local} == listed - {owner};
    if owner in a.voters {
      assert |listed - {owner}| == |listed| - 1;
    } else {
      assert listed - {owner} == listed;
    }
  }

  /** The sender confirms again after its vote was removed. */
  lemma OwnerAgain(a: Arrivals, listed: set<PeerId>, owner: PeerId, local: PeerId, t: int)
    requires owner != local && Waiting(a, listed, owner, local, t) && owner in a.voters && owner !in listed
    ensures CheckRight(a, listed + {owner}, owner, local, t)
  {
    NotYetReached(a, listed, owner, local, t);
    assert listed + {owner} == a.voters + {local};
    assert listed + {owner} - {owner} == listed;
  }

  // ------------------------------------------------------------ the check on such a list

  function VotesFor(peers: set<PeerId>, h: Hash): Ballots {
    map p | p in peers :: h
  }

  function ItemFor(env: Env, msg: WireMessage, listed: set<PeerId>): Item {
    Item(Some(msg), env.hash(msg.message), VotesFor(listed, env.hash(msg.message)))
  }

  lemma OnlyMode(peers: set<PeerId>, h: Hash, pick: Hash)
    requires IsMode(VotesFor(peers, h), pick)
    ensures pick == h && Count(VotesFor(peers, h), h) == |peers| == |VotesFor(peers, h)|
  {
    assert Voters(VotesFor(peers, h), h) == peers;
    assert VotesFor(peers, h).Keys == peers;
  }

  lemma CheckOf(env: Env, msg: WireMessage, listed: set<PeerId>, pick: Hash)
    requires msg.from in env.parties && IsMode(VotesFor(listed, env.hash(msg.message)), pick)
    ensures var (owner, t) := (env.parties[msg.from], Quorum(env));
      var (after, verdict) := HashCheck(ItemFor(env, msg, listed), owner, t, pick);
      && (verdict == Passed <==> Passes(listed, owner, t))
      && (verdict != Passed ==> verdict.NotEnoughPeer? || verdict.HashFromOwner?)
      && (verdict != Passed ==> after == ItemFor(env, msg, Checked(listed, owner, t)))
  {
    var h := env.hash(msg.message);
    OnlyMode(listed, h, pick);
    var owner := env.parties[msg.from];
    assert VotesFor(listed, h).Keys == listed;
    assert VotesFor(listed, h) - {owner} == VotesFor(listed - {owner}, h);
    if owner !in listed {
      assert listed - {owner} == listed;
    }
  }

  ghost predicate Holds(node: Node, key: Key, item: Item) {
    key in node.unconfirmed && node.unconfirmed[key] == item
  }

  /** Applying the message with this list logs it exactly if the list passes. */
  lemma ApplyListed(env: Env, node: Node, msg: WireMessage, listed: set<PeerId>, msgType: MessageType, lib: nat -> bool,
                    c: Choices)
    requires FromAnother(env, msg) && listed != {}
    requires Holds(node, CacheKey(msg), ItemFor(env, msg, listed)) && ChoicesFit(env, node, CacheKey(msg), lib, c)
    ensures var (owner, t) := (env.parties[msg.from], Quorum(env));
      var next := ApplyShare(env, node, CacheKey(msg), msgType, c).node;
      && (Passes(listed, owner, t) ==>
            next.log == node.log + [Acceptance(CacheKey(msg), msg, VotesFor(listed, env.hash(msg.message)))])
      && (!Passes(listed, owner, t) ==>
            next.log == node.log && Holds(next, CacheKey(msg), ItemFor(env, msg, Checked(listed, owner, t))))
  {
    var key, h := CacheKey(msg), env.hash(msg.message);
    var p :| p in listed;
    assert p in VotesFor(listed, h);
    CheckOf(env, msg, listed, c.first);
    var (after, verdict) := HashCheck(ItemFor(env, msg, listed), env.parties[msg.from], Quorum(env), c.first);
    P.ConcludeLogs(env, PutItem(node, key, after), key, msg, msgType, verdict, c);
  }

  // ------------------------------------------------------------ the state of the message at a node

  ghost predicate HasNoCopy(env: Env, node: Node, msg: WireMessage, voters: set<PeerId>) {
    var (key, h) := (CacheKey(msg), env.hash(msg.message));
    if voters == {} then key !in node.unconfirmed
    else
      && key in node.unconfirmed && node.unconfirmed[key].msg.None?
      && node.unconfirmed[key].confirmed == VotesFor(voters, h)
  }

  ghost predicate HoldsCopy(env: Env, node: Node, msg: WireMessage, a: Arrivals)
    requires msg.from in env.parties
  {
    exists listed ::
      && Waiting(a, listed, env.parties[msg.from], env.localPeer, Quorum(env))
      && Holds(node, CacheKey(msg), ItemFor(env, msg, listed))
  }

  /** The message is logged exactly if it is due; until then the confirm list is as it should be. */
  ghost predicate OnTrack(env: Env, node: Node, msg: WireMessage, a: Arrivals)
    requires msg.from in env.parties
  {
    && env.localPeer !in a.voters
    && (IsLogged(node, msg) <==> Due(env, msg, a))
    && (!IsLogged(node, msg) ==> if a.delivered then HoldsCopy(env, node, msg, a)
                             else HasNoCopy(env, node, msg, a.voters))
  }

  lemma LogKeeps(node: Node, next: Node, msg: WireMessage, e: Acceptance)
    requires IsLogged(node, msg) || e.msg == msg
    requires next.log == node.log + [e]
    ensures IsLogged(next, msg)
  {
    if e.msg == msg {
      assert next.log[|node.log|].msg == msg;
    } else {
      var i :| 0 <= i < |node.log| && node.log[i].msg == msg;
      assert next.log[i].msg == msg;
    }
  }

  /** After the check of a list that is right for what arrived, the message is on track. */
  lemma CheckedOnTrack(env: Env, node: Node, msg: WireMessage, a: Arrivals, listed: set<PeerId>, msgType: MessageType,
                       lib: nat -> bool, c: Choices)
    requires FromAnother(env, msg) && listed != {} && a.delivered && env.localPeer !in a.voters
    requires Holds(node, CacheKey(msg), ItemFor(env, msg, listed)) && ChoicesFit(env, node, CacheKey(msg), lib, c)
    requires !IsLogged(node, msg) && CheckRight(a, listed, env.parties[msg.from], env.localPeer, Quorum(env))
    ensures OnTrack(env, ApplyShare(env, node, CacheKey(msg), msgType, c).node, msg, a)
  {
    var next := ApplyShare(env, node, CacheKey(msg), msgType, c).node;
    ApplyListed(env, node, msg, listed, msgType, lib, c);
    if Passes(listed, env.parties[msg.from], Quorum(env)) {
      LogKeeps(node, next, msg, Acceptance(CacheKey(msg), msg, VotesFor(listed, env.hash(msg.message))));
    } else {
      SameLog(node, next, msg);
      assert HoldsCopy(env, next, msg, a);
    }
  }

  lemma SameLog(node: Node, next: Node, msg: WireMessage)
    requires next.log == node.log
    ensures IsLogged(next, msg) <==> IsLogged(node, msg)
  {
  }

  // ------------------------------------------------------------ deliveries

  lemma DeliveredItem(env: Env, node: Node, msg: WireMessage, voters: set<PeerId>)
    requires HasNoCopy(env, node, msg, voters)
    ensures SharedItem(env, node, msg) == ItemFor(env, msg, voters + {env.localPeer})
  {
    var h := env.hash(msg.message);
    assert VotesFor(voters, h)[env.localPeer := h] == VotesFor(voters + {env.localPeer}, h);
    if voters == {} {
      assert VotesFor(voters, h) == map[];
    }
  }

  lemma RedeliveredItem(env: Env, node: Node, msg: WireMessage, listed: set<PeerId>)
    requires Holds(node, CacheKey(msg), ItemFor(env, msg, listed)) && env.localPeer in listed
    ensures SharedItem(env, node, msg) == ItemFor(env, msg, listed)
  {
    var h := env.hash(msg.message);
    assert VotesFor(listed, h)[env.localPeer := h] == VotesFor(listed, h);
  }

  lemma DeliveryOnTrack(env: Env, node: Node, msg: WireMessage, a: Arrivals, msgType: MessageType, forward: bool,
                        lib: nat -> bool, c: Choices)
    requires FromAnother(env, msg) && MessagesKnown(env, node) && OnTrack(env, node, msg, a) && !IsLogged(node, msg)
    requires ShareFits(env, node, msg, msgType, forward, lib, c)
    ensures OnTrack(env, ProcessTSSMsg(env, node, msg, msgType, forward, c).node, msg,
                    a.(delivered := true, last := !a.delivered))
  {
    var (owner, t) := (env.parties[msg.from], Quorum(env));
    var now := a.(delivered := true, last := !a.delivered);
    var after := AfterShare(env, node, msg, msgType, forward);
    P.AfterShareKeepsLog(env, node, msg, msgType, forward);
    SameLog(node, after, msg);
    var listed := a.voters + {env.localPeer};
    if a.delivered {
      listed :| Waiting(a, listed, owner, env.localPeer, t) && Holds(node, CacheKey(msg), ItemFor(env, msg, listed));
      RedeliveredItem(env, node, msg, listed);
      NextCopy(a, listed, owner, env.localPeer, t);
    } else {
      DeliveredItem(env, node, msg, a.voters);
      FirstCopy(now, owner, env.localPeer, t);
    }
    CheckedOnTrack(env, after, msg, now, listed, msgType, lib, c);
  }

  // ------------------------------------------------------------ confirmations

  lemma VotedItem(env: Env, node: Node, msg: WireMessage, listed: set<PeerId>, p: PeerId)
    requires Holds(node, CacheKey(msg), ItemFor(env, msg, listed))
    ensures AfterVote(node, CacheKey(msg), p, env.hash(msg.message)).unconfirmed[CacheKey(msg)]
      == ItemFor(env, msg, listed + {p})
  {
    var h := env.hash(msg.message);
    assert VotesFor(listed, h)[p := h] == VotesFor(listed + {p}, h);
  }

  lemma EarlyVote(env: Env, node: Node, msg: WireMessage, a: Arrivals, p: PeerId, msgType: MessageType, c: Choices)
    requires MessagesKnown(env, node) && msg.from in env.parties && OnTrack(env, node, msg, a) && !a.delivered
    requires !AlreadyVoted(node, CacheKey(msg), p) && p != env.localPeer
    ensures p !in a.voters
    ensures OnTrack(env, ProcessVerMsg(env, node, p, CacheKey(msg), env.hash(msg.message), msgType, c).node, msg,
                    a.(voters := a.voters + {p}, last := false))
  {
    var key, h := CacheKey(msg), env.hash(msg.message);
    var voted := AfterVote(node, key, p, h);
    assert VotesFor(a.voters, h)[p := h] == VotesFor(a.voters + {p}, h);
    if a.voters == {} {
      assert VotesFor(a.voters, h) == map[];
    }
    RequestKeepsRest(voted, Quorum(env), key, msgType, c.second);
    SameLog(node, RequestShare(voted, Quorum(env), key, msgType, c.second), msg);
  }

  lemma LateVote(env: Env, node: Node, msg: WireMessage, a: Arrivals, p: PeerId, msgType: MessageType,
                 lib: nat -> bool, c: Choices)
    requires FromAnother(env, msg) && MessagesKnown(env, node) && OnTrack(env, node, msg, a)
    requires a.delivered && !IsLogged(node, msg)
    requires !AlreadyVoted(node, CacheKey(msg), p) && p != env.localPeer
    requires ChoicesFit(env, AfterVote(node, CacheKey(msg), p, env.hash(msg.message)), CacheKey(msg), lib, c)
    ensures OnTrack(env, ProcessVerMsg(env, node, p, CacheKey(msg), env.hash(msg.message), msgType, c).node, msg,
                    if p in a.voters then a else a.(voters := a.voters + {p}, last := false))
  {
    var (owner, t) := (env.parties[msg.from], Quorum(env));
    var voted := AfterVote(node, CacheKey(msg), p, env.hash(msg.message));
    var listed :| Waiting(a, listed, owner, env.localPeer, t) && Holds(node, CacheKey(msg), ItemFor(env, msg, listed));
    assert p !in listed by {
      assert p in VotesFor(listed, env.hash(msg.message)) <==> p in listed;
    }
    VotedItem(env, node, msg, listed, p);
    SameLog(node, voted, msg);
    if p in a.voters {
      OwnerAgain(a, listed, owner, env.localPeer, t);
      CheckedOnTrack(env, voted, msg, a, listed + {p}, msgType, lib, c);
    } else {
      NextVote(a, listed, p, owner, env.localPeer, t);
      CheckedOnTrack(env, voted, msg, a.(voters := a.voters + {p}, last := false), listed + {p}, msgType, lib, c);
    }
  }

  // ------------------------------------------------------------ inputs about other messages

  /** The input neither brings the message nor a confirmation that the node has not recorded. */
  ghost predicate Aside(env: Env, node: Node, msg: WireMessage, input: Input) {
    && !Delivers(node, input, msg)
    && (input.VerMsg? ==> input.key != CacheKey(msg) || AlreadyVoted(node, input.key, input.peer))
  }

  ghost predicate SameAt(a: Node, b: Node, key: Key) {
    if key in a.unconfirmed then key in b.unconfirmed && b.unconfirmed[key] == a.unconfirmed[key]
    else key !in b.unconfirmed
  }

  lemma ApplyElsewhere(env: Env, node: Node, k: Key, msgType: MessageType, c: Choices, key: Key)
    requires k in node.unconfirmed && node.unconfirmed[k].msg.Some? && k != key
    requires node.unconfirmed[k].msg.value.from in env.parties
    ensures SameAt(node, ApplyShare(env, node, k, msgType, c).node, key)
  {
    var msg := node.unconfirmed[k].msg.value;
    var (after, verdict) := HashCheck(node.unconfirmed[k], env.parties[msg.from], Quorum(env), c.first);
    ConcludeTouchesItsKey(env, PutItem(node, k, after), k, msg, msgType, verdict, c);
  }

  lemma ShareElsewhere(env: Env, node: Node, m: WireMessage, msgType: MessageType, forward: bool, c: Choices, key: Key)
    requires MessagesKnown(env, node)
    requires m.isBroadcast && ShareIsValid(env, m) ==> CacheKey(m) != key
    ensures SameAt(node, ProcessTSSMsg(env, node, m, msgType, forward, c).node, key)
  {
    if m.isBroadcast && ShareIsValid(env, m) {
      var after := AfterShare(env, node, m, msgType, forward);
      assert SameAt(node, after, key);
      ApplyElsewhere(env, after, CacheKey(m), msgType, c, key);
    }
  }

  lemma VoteElsewhere(env: Env, node: Node, p: PeerId, k: Key, h: Hash, msgType: MessageType, c: Choices, key: Key)
    requires MessagesKnown(env, node) && k != key
    ensures SameAt(node, ProcessVerMsg(env, node, p, k, h, msgType, c).node, key)
  {
    var voted := AfterVote(node, k, p, h);
    assert SameAt(node, voted, key);
    if voted.unconfirmed[k].msg.Some? {
      ApplyElsewhere(env, voted, k, msgType, c, key);
    } else {
      RequestKeepsRest(voted, Quorum(env), k, msgType, c.second);
    }
  }

  lemma AsideKeepsItem(env: Env, node: Node, msg: WireMessage, input: Input, c: Choices)
    requires MessagesKnown(env, node) && Harmless(env, msg, input) && Aside(env, node, msg, input)
    ensures SameAt(node, ProcessOneMessage(env, node, input, c).node, CacheKey(msg))
  {
    match input
    case TssShare(msgType, m) => ShareElsewhere(env, node, m, msgType, false, c, CacheKey(msg));
    case VerMsg(p, msgType, k, h) =>
      if !AlreadyVoted(node, k, p) {
        VoteElsewhere(env, node, p, k, h, msgType, c, CacheKey(msg));
      }
    case Forward(hash, _, reqType, body) =>
      if hash in node.requested && body.Some? {
        ShareElsewhere(env, node.(requested := node.requested - {hash}), body.value, reqType, true, c, CacheKey(msg));
      }
    case _ =>
  }

  /** A message handed on is logged as itself, so another message is not logged. */
  lemma StepLogsOnly(env: Env, node: Node, input: Input, c: Choices, msg: WireMessage)
    requires MessagesKnown(env, node)
    ensures var next := ProcessOneMessage(env, node, input, c).node;
      && (IsLogged(node, msg) ==> IsLogged(next, msg))
      && (IsLogged(next, msg) && !IsLogged(node, msg) ==>
            ShareOf(env, node, input) == Some(msg) && next.log != node.log)
  {
    P.StepIsLogged(env, node, input, c);
    var next := ProcessOneMessage(env, node, input, c).node;
    if next.log == node.log {
      SameLog(node, next, msg);
    } else {
      assert next.log == node.log + [next.log[|node.log|]];
      LogGains(node, next, msg);
    }
  }

  lemma LogGains(node: Node, next: Node, msg: WireMessage)
    requires |next.log| == |node.log| + 1 && next.log[..|node.log|] == node.log
    ensures IsLogged(next, msg) <==> IsLogged(node, msg) || next.log[|node.log|].msg == msg
  {
    var e := next.log[|node.log|];
    assert next.log == node.log + [e];
    if IsLogged(node, msg) || e.msg == msg {
      LogKeeps(node, next, msg, e);
    }
  }

  lemma AsideLogsNothing(env: Env, members: set<PeerId>, node: Node, msg: WireMessage, input: Input, c: Choices)
    requires AcceptanceInv(env, members, node) && msg.isBroadcast
    requires MessagesKnown(env, node) && Harmless(env, msg, input) && Aside(env, node, msg, input)
    ensures IsLogged(ProcessOneMessage(env, node, input, c).node, msg) <==> IsLogged(node, msg)
  {
    var next := ProcessOneMessage(env, node, input, c).node;
    StepLogsOnly(env, node, input, c, msg);
    if IsLogged(next, msg) && !IsLogged(node, msg) {
      NotHanded(env, members, node, msg, input, c);
    }
  }

  lemma NotHanded(env: Env, members: set<PeerId>, node: Node, msg: WireMessage, input: Input, c: Choices)
    requires AcceptanceInv(env, members, node) && msg.isBroadcast
    requires MessagesKnown(env, node) && Harmless(env, msg, input) && Aside(env, node, msg, input)
    requires ShareOf(env, node, input) == Some(msg)
    ensures ProcessOneMessage(env, node, input, c).node.log == node.log
  {
    match input
    case TssShare(_, m) => HandedUnderItsKey(env, members, node, m);
    case VerMsg(_, _, k, _) => assert ItemOk(env, k, node.unconfirmed[k]);
    case Forward(_, _, _, body) => HandedUnderItsKey(env, members, node, body.value);
  }

  lemma HandedUnderItsKey(env: Env, members: set<PeerId>, node: Node, m: WireMessage)
    requires AcceptanceInv(env, members, node) && m.isBroadcast
    ensures CacheKey(CachedOr(node, CacheKey(m), m).value) == CacheKey(m)
  {
    if CacheKey(m) in node.unconfirmed {
      assert ItemOk(env, CacheKey(m), node.unconfirmed[CacheKey(m)]);
    }
  }

  // ------------------------------------------------------------ whole runs

  lemma DueStays(env: Env, node: Node, msg: WireMessage, a: Arrivals, input: Input)
    requires FromAnother(env, msg) && Due(env, msg, a) && Harmless(env, msg, input) && env.localPeer !in a.voters
    ensures Due(env, msg, Arrive(a, node, input, msg)) && env.localPeer !in Arrive(a, node, input, msg).voters
  {
    var owner := env.parties[msg.from];
    SubsetSize(a.voters - {owner} + {env.localPeer}, Arrive(a, node, input, msg).voters - {owner} + {env.localPeer});
  }

  lemma SameTrack(env: Env, node: Node, next: Node, msg: WireMessage, a: Arrivals)
    requires msg.from in env.parties && OnTrack(env, node, msg, a)
    requires SameAt(node, next, CacheKey(msg)) && (IsLogged(next, msg) <==> IsLogged(node, msg))
    ensures OnTrack(env, next, msg, a)
  {
    if !IsLogged(node, msg) && a.delivered {
      var listed :| Waiting(a, listed, env.parties[msg.from], env.localPeer, Quorum(env))
        && Holds(node, CacheKey(msg), ItemFor(env, msg, listed));
      assert Holds(next, CacheKey(msg), ItemFor(env, msg, listed));
    }
  }

  /** A recorded confirmation is one that arrived, or that of the node itself. */
  lemma RecordedArrived(env: Env, node: Node, msg: WireMessage, a: Arrivals, p: PeerId)
    requires msg.from in env.parties && OnTrack(env, node, msg, a) && !IsLogged(node, msg) && p != env.localPeer
    requires AlreadyVoted(node, CacheKey(msg), p)
    ensures p in a.voters
  {
    var h := env.hash(msg.message);
    if a.delivered {
      var listed :| Waiting(a, listed, env.parties[msg.from], env.localPeer, Quorum(env))
        && Holds(node, CacheKey(msg), ItemFor(env, msg, listed));
      assert p in VotesFor(listed, h) ==> p in listed;
    } else {
      assert p in VotesFor(a.voters, h) ==> p in a.voters;
    }
  }

  lemma StepOnTrack(env: Env, members: set<PeerId>, node: Node, msg: WireMessage, a: Arrivals, input: Input,
                    lib: nat -> bool, c: Choices)
    requires FromAnother(env, msg) && AcceptanceInv(env, members, node) && MessagesKnown(env, node)
    requires InputFits(env, node, input, lib, c) && Harmless(env, msg, input) && OnTrack(env, node, msg, a)
    ensures OnTrack(env, ProcessOneMessage(env, node, input, c).node, msg, Arrive(a, node, input, msg))
  {
    var next := ProcessOneMessage(env, node, input, c).node;
    if IsLogged(node, msg) {
      StepLogsOnly(env, node, input, c, msg);
      DueStays(env, node, msg, a, input);
    } else if Aside(env, node, msg, input) {
      if input.VerMsg? && input.key == CacheKey(msg) {
        RecordedArrived(env, node, msg, a, input.peer);
      }
      AsideKeepsItem(env, node, msg, input, c);
      AsideLogsNothing(env, members, node, msg, input, c);
      SameTrack(env, node, next, msg, a);
    } else {
      EventOnTrack(env, node, msg, a, input, lib, c);
    }
  }

  lemma EventOnTrack(env: Env, node: Node, msg: WireMessage, a: Arrivals, input: Input, lib: nat -> bool, c: Choices)
    requires FromAnother(env, msg) && MessagesKnown(env, node) && !IsLogged(node, msg) && !Aside(env, node, msg, input)
    requires InputFits(env, node, input, lib, c) && Harmless(env, msg, input) && OnTrack(env, node, msg, a)
    ensures OnTrack(env, ProcessOneMessage(env, node, input, c).node, msg, Arrive(a, node, input, msg))
  {
    match input
    case TssShare(msgType, m) => DeliveryOnTrack(env, node, msg, a, msgType, false, lib, c);
    case VerMsg(p, msgType, _, _) =>
      if a.delivered {
        LateVote(env, node, msg, a, p, msgType, lib, c);
      } else {
        EarlyVote(env, node, msg, a, p, msgType, c);
      }
    case Forward(hash, _, reqType, body) =>
      var taken := node.(requested := node.requested - {hash});
      SameLog(node, taken, msg);
      SameTrack(env, node, taken, msg, a);
      DeliveryOnTrack(env, taken, msg, a, reqType, true, lib, c);
  }

  lemma AlwaysOnTrack(env: Env, members: set<PeerId>, tr: Trace, msg: WireMessage, i: nat)
    requires IsRun(env, tr) && RunFrom(env, members, tr) && i <= |tr.inputs|
    requires FromAnother(env, msg) && HarmlessRun(env, msg, tr)
    ensures OnTrackAt(env, tr, msg, i)
  {
    FreshOnTrack(env, msg);
    forall j | 0 <= j < |tr.inputs| ensures StaysOnTrack(env, tr, msg, j) {
      InputOnTrack(env, members, tr, msg, j);
    }
    OnTrackByInduction(env, tr, msg, i);
  }

  lemma {:induction false} OnTrackByInduction(env: Env, tr: Trace, msg: WireMessage, i: nat)
    requires |tr.nodes| == |tr.inputs| + 1 && i <= |tr.inputs| && msg.from in env.parties
    requires OnTrackAt(env, tr, msg, 0) && forall j :: 0 <= j < |tr.inputs| ==> StaysOnTrack(env, tr, msg, j)
    ensures OnTrackAt(env, tr, msg, i)
  {
    if i > 0 {
      OnTrackByInduction(env, tr, msg, i - 1);
      assert StaysOnTrack(env, tr, msg, i - 1);
    }
  }

  lemma FreshOnTrack(env: Env, msg: WireMessage)
    requires msg.from in env.parties
    ensures OnTrack(env, FRESH, msg, Arrivals(false, {}, false))
  {
  }

  ghost predicate OnTrackAt(env: Env, tr: Trace, msg: WireMessage, i: nat)
    requires i <= |tr.inputs| && |tr.nodes| == |tr.inputs| + 1 && msg.from in env.parties
  {
    OnTrack(env, tr.nodes[i], msg, ArrivedBy(tr, msg, i))
  }

  ghost predicate StaysOnTrack(env: Env, tr: Trace, msg: WireMessage, i: nat)
    requires i < |tr.inputs| && |tr.nodes| == |tr.inputs| + 1 && msg.from in env.parties
  {
    OnTrackAt(env, tr, msg, i) ==> OnTrackAt(env, tr, msg, i + 1)
  }

  lemma InputOnTrack(env: Env, members: set<PeerId>, tr: Trace, msg: WireMessage, i: nat)
    requires IsRun(env, tr) && RunFrom(env, members, tr) && HarmlessRun(env, msg, tr) && i < |tr.inputs|
    requires FromAnother(env, msg)
    ensures StaysOnTrack(env, tr, msg, i)
  {
    if OnTrackAt(env, tr, msg, i) {
      var node, a := tr.nodes[i], ArrivedBy(tr, msg, i);
      P.RunStep(env, tr, i);
      AcceptanceAlways(env, members, tr, i);
      NextOnTrack(env, members, node, msg, a, tr.inputs[i], tr.libs[i], tr.nodes[i + 1]);
      assert ArrivedBy(tr, msg, i + 1) == Arrive(a, node, tr.inputs[i], msg);
    }
  }

  lemma NextOnTrack(env: Env, members: set<PeerId>, node: Node, msg: WireMessage, a: Arrivals, input: Input,
                    lib: nat -> bool, next: Node)
    requires FromAnother(env, msg) && AcceptanceInv(env, members, node) && Next(env, node, input, lib, next)
    requires Harmless(env, msg, input) && OnTrack(env, node, msg, a)
    ensures OnTrack(env, next, msg, Arrive(a, node, input, msg))
  {
    var c := ChoiceOf(env, node, input, lib, next);
    StepOnTrack(env, members, node, msg, a, input, lib, c);
  }

  /** In every run in which nobody contradicts the message it is logged, and so handed to the local
      parties, exactly when it is due: it was delivered, enough peers confirmed it, and it is not
      the case that the sender confirmed its own message and the first copy came last. */
  lemma LoggedIffDue(env: Env, members: set<PeerId>, tr: Trace, msg: WireMessage)
    requires IsRun(env, tr) && RunFrom(env, members, tr)
    requires FromAnother(env, msg) && HarmlessRun(env, msg, tr)
    ensures var (a, owner) := (ArrivedBy(tr, msg, |tr.inputs|), env.parties[msg.from]);
      IsLogged(Last(tr), msg) <==>
        && a.delivered && |a.voters - {owner} + {env.localPeer}| >= Quorum(env)
        && !(owner in a.voters && a.last)
  {
    AlwaysOnTrack(env, members, tr, msg, |tr.inputs|);
  }

  /** The message and a confirmation of every other peer but the sender are enough in any order, as
      long as the sender does not confirm its own message. */
  lemma EveryOrderApplies(env: Env, members: set<PeerId>, tr: Trace, msg: WireMessage)
    requires IsRun(env, tr) && RunFrom(env, members, tr) && PartiesOk(env)
    requires FromAnother(env, msg) && HarmlessRun(env, msg, tr) && env.localPeer in env.parties.Values
    requires var a := ArrivedBy(tr, msg, |tr.inputs|);
      && a.delivered && env.parties[msg.from] !in a.voters
      && env.parties.Values - {env.parties[msg.from], env.localPeer} <= a.voters
    ensures IsLogged(Last(tr), msg)
  {
    LoggedIffDue(env, members, tr, msg);
    var a, owner := ArrivedBy(tr, msg, |tr.inputs|), env.parties[msg.from];
    PeersAreAsManyAsParties(env.parties);
    assert owner in env.parties.Values;
    SubsetSize(env.parties.Values - {owner}, a.voters - {owner} + {env.localPeer});
  }

  // ------------------------------------------------------------ the exception occurs

  lemma {:induction false} ArrivedBefore(tr: Trace, msg: WireMessage, input: Input, lib: nat -> bool, next: Node,
                                         i: nat)
    requires |tr.nodes| == |tr.inputs| + 1 && i <= |tr.inputs|
    ensures ArrivedBy(D.Append(tr, input, lib, next), msg, i) == ArrivedBy(tr, msg, i)
  {
    if i > 0 {
      ArrivedBefore(tr, msg, input, lib, next, i - 1);
    }
  }

  /** The run with one more harmless input. */
  lemma Extend(env: Env, msg: WireMessage, tr: Trace, input: Input, lib: nat -> bool,
               next: Node) returns (longer: Trace)
    requires IsRun(env, tr) && RunFrom(env, env.parties.Values, tr) && HarmlessRun(env, msg, tr)
    requires Next(env, Last(tr), input, lib, next) && InputFrom(env.parties.Values, input) && Harmless(env, msg, input)
    ensures IsRun(env, longer) && RunFrom(env, env.parties.Values, longer) && HarmlessRun(env, msg, longer)
    ensures Last(longer) == next
    ensures ArrivedBy(longer, msg, |longer.inputs|) == Arrive(ArrivedBy(tr, msg, |tr.inputs|), Last(tr), input, msg)
  {
    longer := D.Append(tr, input, lib, next);
    D.AppendIsRun(env, env.parties.Values, tr, input, lib, next);
    ArrivedAfter(tr, msg, input, lib, next);
    assert longer.inputs == tr.inputs + [input];
  }

  lemma ArrivedAfter(tr: Trace, msg: WireMessage, input: Input, lib: nat -> bool, next: Node)
    requires |tr.nodes| == |tr.inputs| + 1
    ensures ArrivedBy(D.Append(tr, input, lib, next), msg, |tr.inputs| + 1)
      == Arrive(ArrivedBy(tr, msg, |tr.inputs|), Last(tr), input, msg)
  {
    ArrivedBefore(tr, msg, input, lib, next, |tr.inputs|);
  }

  /** The confirmations of these peers arrive before the message does. */
  lemma {:induction false} ConfirmFirst(env: Env, msg: WireMessage, todo: set<PeerId>) returns (tr: Trace)
    requires todo <= env.parties.Values - {env.localPeer} && env.localPeer in env.parties.Values
    ensures IsRun(env, tr) && RunFrom(env, env.parties.Values, tr) && HarmlessRun(env, msg, tr)
    ensures ArrivedBy(tr, msg, |tr.inputs|) == Arrivals(false, todo, false)
    ensures D.Collected(CacheKey(msg), VotesFor(env.parties.Values, env.hash(msg.message)), todo, Last(tr))
    decreases todo
  {
    if todo == {} {
      tr := Trace([FRESH], [], []);
    } else {
      var p :| p in todo;
      var before := ConfirmFirst(env, msg, todo - {p});
      var ballots := VotesFor(env.parties.Values, env.hash(msg.message));
      var input, next := D.RecordVote(env, CacheKey(msg), ballots, todo - {p}, p, Last(before));
      tr := Extend(env, msg, before, input, (i: nat) => true, next);
      assert todo - {p} + {p} == todo;
    }
  }

  /** With any instance and message: all others confirm it, its sender too, and then it arrives. It
      is held back although everybody confirmed it. */
  lemma LastCopyIsHeldBack(env: Env, msg: WireMessage) returns (tr: Trace)
    requires FromAnother(env, msg) && env.localPeer in env.parties.Values
    ensures IsRun(env, tr) && RunFrom(env, env.parties.Values, tr) && HarmlessRun(env, msg, tr)
    ensures ArrivedBy(tr, msg, |tr.inputs|) == Arrivals(true, env.parties.Values - {env.localPeer}, true)
    ensures !IsLogged(Last(tr), msg)
  {
    var before := ConfirmFirst(env, msg, env.parties.Values - {env.localPeer});
    var next := Deliver(env, env.parties.Values, before, msg);
    tr := Extend(env, msg, before, TssShare(TSSKeySignMsg, msg), (i: nat) => true, next);
    assert env.parties[msg.from] in env.parties.Values;
    LoggedIffDue(env, env.parties.Values, tr, msg);
  }

  /** The message can arrive after any harmless run that did not bring it. */
  lemma Deliver(env: Env, members: set<PeerId>, tr: Trace, msg: WireMessage) returns (next: Node)
    requires IsRun(env, tr) && RunFrom(env, members, tr) && HarmlessRun(env, msg, tr) && FromAnother(env, msg)
    requires MessagesKnown(env, Last(tr)) && !ArrivedBy(tr, msg, |tr.inputs|).delivered
    ensures Next(env, Last(tr), TssShare(TSSKeySignMsg, msg), (i: nat) => true, next)
  {
    var lib := (i: nat) => true;
    AlwaysOnTrack(env, members, tr, msg, |tr.inputs|);
    var a := ArrivedBy(tr, msg, |tr.inputs|);
    DeliveredItem(env, Last(tr), msg, a.voters);
    var after := AfterShare(env, Last(tr), msg, TSSKeySignMsg, false);
    var ballots := after.unconfirmed[CacheKey(msg)].confirmed;
    assert env.localPeer in ballots;
    var h := ModeExists(ballots);
    var pool := D.SomePool(env, after, msg, lib);
    var c := Choices(h, h, pool);
    assert ChoicesFit(env, after, CacheKey(msg), lib, c);
    D.ShareSteps(env, Last(tr), msg, lib, c);
    next := ApplyShare(env, after, CacheKey(msg), TSSKeySignMsg, c).node;
  }
}
