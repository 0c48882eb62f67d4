/** The broadcast confirmation protocol of one node, on values.

    A broadcast share is cached under the key of its sender and round. Peers tell each other the
    hash of the copy they got; a share is applied once enough of them confirm its hash. What the
    code leaves open (which of several equally frequent hashes a map iteration meets first, how
    the workers interleave) is resolved by a `Choices` record. */
module Protocol {
  import opened Types
  import opened Votes
  import W = Workers

  type Key = string

  datatype MessageType = TSSKeyGenMsg | TSSKeySignMsg | TSSKeyGenVerMsg | TSSKeySignVerMsg
                       | TSSControlMsg | TSSTaskDone | Unknown

  datatype WireMessage = WireMessage(from: PartyId, isBroadcast: bool, roundInfo: string, message: Bytes, sig: Bytes)

  datatype BulkEntry = BulkEntry(wired: Bytes, msgIdentifier: string, isBroadcast: bool)

  /** The parties of one keygen or keysign instance, and the foreign code it calls. */
  datatype Env = Env(
    parties: map<PartyId, PeerId>,
    localPeer: PeerId,
    identifiers: set<string>,
    hash: Bytes -> Hash,
    verify: (PartyId, Bytes, Bytes) -> bool,
    parse: Bytes -> Option<seq<BulkEntry>>,
    round: (Bytes, PartyId, bool) -> Option<(nat, string)>)

  datatype Item = Item(msg: Option<WireMessage>, hash: Hash, confirmed: Ballots)

  datatype Outbound =
    | VerHash(msgType: MessageType, key: Key, hash: Hash, peers: set<PeerId>)
    | ShareRequest(msgType: MessageType, key: Key, hash: Hash, peers: set<PeerId>)
    | ShareReply(msgType: MessageType, key: Key, hash: Hash, msg: WireMessage, peer: PeerId)

  /** One broadcast share that passed the hash check, with the confirm list it passed with. */
  datatype Acceptance = Acceptance(key: Key, msg: WireMessage, ballots: Ballots)

  datatype Node = Node(
    unconfirmed: map<Key, Item>,
    stored: map<Key, WireMessage>,
    requested: set<Hash>,
    accepted: W.AcceptedShares,
    applied: multiset<W.Share>,
    lastUnicast: map<string, seq<PeerId>>,
    blamed: seq<PartyId>,
    finished: set<PeerId>,
    closes: nat,
    outbox: seq<Outbound>,
    log: seq<Acceptance>)

  const FRESH := Node(map[], map[], {}, map[], multiset{}, map[], [], {}, 0, [], [])

  datatype Result = Result(node: Node, ok: bool)

  datatype Choices = Choices(first: Hash, second: Hash, pool: W.Pool)

  function CacheKey(msg: WireMessage): Key {
    msg.from + "-" + msg.roundInfo
  }

  function Quorum(env: Env): int {
    Threshold(|env.parties|)
  }

  // ------------------------------------------------------------ applying a share to the local parties

  function Resolve(env: Env, from: PartyId, entries: seq<BulkEntry>): (rounds: seq<Option<W.RoundInfo>>)
    ensures |rounds| == |entries|
  {
    seq(|entries|, i requires 0 <= i < |entries| =>
      var e := entries[i];
      if e.msgIdentifier !in env.identifiers then None
      else
        match env.round(e.wired, from, e.isBroadcast)
        case None => None
        case Some(r) => Some(W.RoundInfo(r.0, r.1, e.msgIdentifier)))
  }

  function BulkOf(env: Env, from: PartyId, entries: seq<BulkEntry>, lib: nat -> bool): W.Bulk {
    W.Bulk(from, Resolve(env, from, entries), lib)
  }

  function NoteUnicast(env: Env, node: Node, msg: WireMessage): Node
    requires msg.from in env.parties
  {
    if msg.isBroadcast then node
    else
      var peers := if msg.roundInfo in node.lastUnicast then node.lastUnicast[msg.roundInfo] else [];
      node.(lastUnicast := node.lastUnicast[msg.roundInfo := peers + [env.parties[msg.from]]])
  }

  function UpdateLocal(env: Env, node: Node, msg: WireMessage, c: Choices): Result
    requires msg.from in env.parties
  {
    var noted := NoteUnicast(env, node, msg);
    if env.parse(msg.message).None? then Result(noted, false)
    else Result(noted.(accepted := c.pool.accepted, applied := c.pool.applied), !c.pool.failed)
  }

  ghost predicate PoolFits(env: Env, node: Node, msg: WireMessage, lib: nat -> bool, c: Choices) {
    match env.parse(msg.message)
    case None => true
    case Some(entries) => W.Outcome(BulkOf(env, msg.from, entries, lib), node.accepted, node.applied, c.pool)
  }

  // ------------------------------------------------------------ the hash check

  datatype Verdict = Passed | NotEnoughPeer | HashFromOwner | HashCheckError | HashInconsistency | NotMajority

  /** The most frequent hash met first, if it is frequent enough. */
  function MsgHash(ballots: Ballots, t: int, pick: Hash): (Verdict, Hash) {
    if ballots == map[] then (HashCheckError, "")
    else if Count(ballots, pick) < t - 1 then (HashInconsistency, "")
    else (Passed, pick)
  }

  function HashCheck(item: Item, owner: PeerId, t: int, pick: Hash): (Item, Verdict) {
    if |item.confirmed| < t then (item, NotEnoughPeer)
    else if owner in item.confirmed then (item.(confirmed := item.confirmed - {owner}), HashFromOwner)
    else
      var (v, hash) := MsgHash(item.confirmed, t, pick);
      if v != Passed then (item, v)
      else if item.hash == hash then (item, Passed) else (item, NotMajority)
  }

  function RequestTypeOf(msgType: MessageType): Option<MessageType> {
    match msgType
    case TSSKeyGenVerMsg => Some(TSSKeyGenMsg)
    case TSSKeySignVerMsg => Some(TSSKeySignMsg)
    case TSSKeyGenMsg => Some(TSSKeyGenMsg)
    case TSSKeySignMsg => Some(TSSKeySignMsg)
    case _ => None
  }

  function Asked(outbox: seq<Outbound>, key: Key, hash: Hash, msgType: MessageType, peers: set<PeerId>): seq<Outbound> {
    match RequestTypeOf(msgType)
    case None => outbox
    case Some(reqType) => outbox + [ShareRequest(reqType, key, hash, peers)]
  }

  function RequestShare(node: Node, t: int, key: Key, msgType: MessageType, pick: Hash): Node
    requires key in node.unconfirmed
  {
    var ballots := node.unconfirmed[key].confirmed;
    var (v, hash) := MsgHash(ballots, t, pick);
    if v != Passed then node
    else
      var noted := node.(requested := node.requested + {hash});
      noted.(outbox := Asked(node.outbox, key, hash, msgType, Voters(ballots, hash)))
  }

  function PutItem(node: Node, key: Key, item: Item): Node {
    node.(unconfirmed := node.unconfirmed[key := item])
  }

  /** The message is kept for peers that ask for it; `log` records on which votes it was confirmed. */
  function Confirm(node: Node, key: Key, msg: WireMessage): Node
    requires key in node.unconfirmed
  {
    node.(stored := node.stored[key := msg],
          log := node.log + [Acceptance(key, msg, node.unconfirmed[key].confirmed)])
  }

  function RemoveKey(node: Node, key: Key): Node {
    node.(unconfirmed := node.unconfirmed - {key})
  }

  /** What follows the hash check, by verdict; `node` has the checked item. */
  function Conclude(env: Env, node: Node, key: Key, msg: WireMessage, msgType: MessageType, verdict: Verdict,
                    c: Choices): Result
    requires key in node.unconfirmed && msg.from in env.parties
  {
    match verdict
    case NotEnoughPeer => Result(node, true)
    case NotMajority =>
      var dropped := PutItem(node, key, node.unconfirmed[key].(msg := None));
      Result(RequestShare(dropped, Quorum(env), key, msgType, c.second), true)
    case Passed =>
      var r := UpdateLocal(env, Confirm(node, key, msg), msg, c);
      if r.ok then Result(RemoveKey(r.node, key), true) else r
    case _ => Result(node.(blamed := node.blamed + [msg.from]), false)
  }

  function ApplyShare(env: Env, node: Node, key: Key, msgType: MessageType, c: Choices): Result
    requires key in node.unconfirmed && node.unconfirmed[key].msg.Some?
    requires node.unconfirmed[key].msg.value.from in env.parties
  {
    var msg := node.unconfirmed[key].msg.value;
    var (after, verdict) := HashCheck(node.unconfirmed[key], env.parties[msg.from], Quorum(env), c.first);
    Conclude(env, PutItem(node, key, after), key, msg, msgType, verdict, c)
  }

  /** The choices are ones the code can make with this confirm list and these accepted shares. */
  ghost predicate ChoicesFit(env: Env, node: Node, key: Key, lib: nat -> bool, c: Choices)
    requires key in node.unconfirmed
  {
    var item := node.unconfirmed[key];
    && (item.confirmed != map[] ==> IsMode(item.confirmed, c.first) && IsMode(item.confirmed, c.second))
    && (item.msg.Some? ==> PoolFits(env, node, item.msg.value, lib, c))
  }

  // ------------------------------------------------------------ the handlers

  function ItemOr(node: Node, key: Key, fallback: Item): Item {
    if key in node.unconfirmed then node.unconfirmed[key] else fallback
  }

  /** A confirmation is dropped when this peer is already on the confirm list. */
  predicate AlreadyVoted(node: Node, key: Key, peer: PeerId) {
    key in node.unconfirmed && peer in node.unconfirmed[key].confirmed
  }

  function AfterVote(node: Node, key: Key, peer: PeerId, hash: Hash): Node {
    var item := ItemOr(node, key, Item(None, hash, map[]));
    PutItem(node, key, item.(confirmed := item.confirmed[peer := hash]))
  }

  function ApplyOrRequest(env: Env, node: Node, key: Key, msgType: MessageType, c: Choices): Result
    requires MessagesKnown(env, node) && key in node.unconfirmed
  {
    if node.unconfirmed[key].msg.None? then Result(RequestShare(node, Quorum(env), key, msgType, c.second), true)
    else ApplyShare(env, node, key, msgType, c)
  }

  function ProcessVerMsg(env: Env, node: Node, peer: PeerId, key: Key, hash: Hash, msgType: MessageType,
                         c: Choices): Result
    requires MessagesKnown(env, node)
  {
    ApplyOrRequest(env, AfterVote(node, key, peer, hash), key, msgType, c)
  }

  function VerTypeOf(msgType: MessageType): MessageType {
    match msgType
    case TSSKeyGenMsg => TSSKeyGenVerMsg
    case TSSKeySignMsg => TSSKeySignVerMsg
    case _ => Unknown
  }

  /** Tell everyone but the sender which copy of its message we hold. */
  function TellPeers(env: Env, node: Node, msg: WireMessage, msgType: MessageType): Node
    requires msg.from in env.parties
  {
    var peers := env.parties.Values - {env.localPeer} - {env.parties[msg.from]};
    if peers == {} then node
    else node.(outbox := node.outbox + [VerHash(VerTypeOf(msgType), CacheKey(msg), env.hash(msg.message), peers)])
  }

  /** The cached item keeps the message it has; this node votes for the hash of the new copy. */
  function SharedItem(env: Env, node: Node, msg: WireMessage): Item {
    var hash := env.hash(msg.message);
    var item := ItemOr(node, CacheKey(msg), Item(Some(msg), hash, map[]));
    var filled := if item.msg.None? then item.(msg := Some(msg), hash := hash) else item;
    filled.(confirmed := filled.confirmed[env.localPeer := hash])
  }

  function AfterShare(env: Env, node: Node, msg: WireMessage, msgType: MessageType, forward: bool): Node
    requires msg.from in env.parties
  {
    var told := if forward then node else TellPeers(env, node, msg, msgType);
    PutItem(told, CacheKey(msg), SharedItem(env, node, msg))
  }

  predicate ShareIsValid(env: Env, msg: WireMessage) {
    msg.from in env.parties && env.verify(msg.from, msg.message, msg.sig)
  }

  function ProcessTSSMsg(env: Env, node: Node, msg: WireMessage, msgType: MessageType, forward: bool,
                         c: Choices): Result
    requires MessagesKnown(env, node)
  {
    if !ShareIsValid(env, msg) then Result(node, false)
    else if !msg.isBroadcast then UpdateLocal(env, node, msg, c)
    else ApplyShare(env, AfterShare(env, node, msg, msgType, forward), CacheKey(msg), msgType, c)
  }

  /** Needed to look up the owner of a cached message; kept by every step. */
  ghost predicate MessagesKnown(env: Env, node: Node) {
    forall key :: key in node.unconfirmed && node.unconfirmed[key].msg.Some? ==>
      node.unconfirmed[key].msg.value.from in env.parties
  }

  function ProcessTaskDone(env: Env, node: Node, peer: PeerId): Result {
    if peer in node.finished then Result(node, false)
    else
      var finished := node.finished + {peer};
      Result(node.(finished := finished,
                   closes := node.closes + if |finished| == |env.parties| - 1 then 1 else 0), true)
  }

  function ProcessQuery(node: Node, peer: PeerId, key: Key, hash: Hash, reqType: MessageType): Node {
    if key !in node.stored then node
    else node.(outbox := node.outbox + [ShareReply(reqType, key, hash, node.stored[key], peer)])
  }

  datatype Input =
    | Undecodable
    | TssShare(msgType: MessageType, msg: WireMessage)
    | VerMsg(peer: PeerId, msgType: MessageType, key: Key, hash: Hash)
    | TaskDone(peer: PeerId, done: bool)
    | Query(peer: PeerId, hash: Hash, key: Key, reqType: MessageType)
    | Forward(hash: Hash, key: Key, reqType: MessageType, body: Option<WireMessage>)

  /** One inbound message, already unwrapped. */
  function ProcessOneMessage(env: Env, node: Node, input: Input, c: Choices): Result
    requires MessagesKnown(env, node)
  {
    match input
    case Undecodable => Result(node, false)
    case TssShare(msgType, msg) => ProcessTSSMsg(env, node, msg, msgType, false, c)
    case VerMsg(peer, msgType, key, hash) =>
      if AlreadyVoted(node, key, peer) then Result(node, true)
      else ProcessVerMsg(env, node, peer, key, hash, msgType, c)
    case TaskDone(peer, done) => if done then ProcessTaskDone(env, node, peer) else Result(node, true)
    case Query(peer, hash, key, reqType) => Result(ProcessQuery(node, peer, key, hash, reqType), true)
    case Forward(hash, key, reqType, msg) =>
      if hash !in node.requested then Result(node, true)
      else
        var taken := node.(requested := node.requested - {hash});
        if msg.None? then Result(taken, false) else ProcessTSSMsg(env, taken, msg.value, reqType, true, c)
  }

  ghost predicate ShareFits(env: Env, node: Node, msg: WireMessage, msgType: MessageType, forward: bool,
                            lib: nat -> bool, c: Choices) {
    ShareIsValid(env, msg) ==>
      if !msg.isBroadcast then PoolFits(env, node, msg, lib, c)
      else ChoicesFit(env, AfterShare(env, node, msg, msgType, forward), CacheKey(msg), lib, c)
  }

  ghost predicate InputFits(env: Env, node: Node, input: Input, lib: nat -> bool, c: Choices) {
    match input
    case TssShare(msgType, msg) => ShareFits(env, node, msg, msgType, false, lib, c)
    case VerMsg(peer, _, key, hash) =>
      AlreadyVoted(node, key, peer) || ChoicesFit(env, AfterVote(node, key, peer, hash), key, lib, c)
    case Forward(hash, _, reqType, msg) =>
      hash !in node.requested || msg.None?
        || ShareFits(env, node.(requested := node.requested - {hash}), msg.value, reqType, true, lib, c)
    case _ => true
  }

  /** One step of the node: some allowed choice leads from `node` to `next`. */
  ghost predicate Next(env: Env, node: Node, input: Input, lib: nat -> bool, next: Node) {
    && MessagesKnown(env, node)
    && exists c :: InputFits(env, node, input, lib, c) && next == ProcessOneMessage(env, node, input, c).node
  }

  /** Steps that follow the hash check touch at most the checked key, and keep who sent its message. */
  lemma ConcludeTouchesItsKey(env: Env, node: Node, key: Key, msg: WireMessage, msgType: MessageType,
                              verdict: Verdict, c: Choices)
    requires key in node.unconfirmed && msg.from in env.parties
    ensures var next := Conclude(env, node, key, msg, msgType, verdict, c).node;
      || next.unconfirmed == node.unconfirmed
      || next.unconfirmed == node.unconfirmed - {key}
      || next.unconfirmed == node.unconfirmed[key := node.unconfirmed[key].(msg := None)]
  {
    if verdict == NotMajority {
      var dropped := PutItem(node, key, node.unconfirmed[key].(msg := None));
      RequestKeepsRest(dropped, Quorum(env), key, msgType, c.second);
    }
  }

  lemma RequestKeepsRest(node: Node, t: int, key: Key, msgType: MessageType, pick: Hash)
    requires key in node.unconfirmed
    ensures var next := RequestShare(node, t, key, msgType, pick);
      next == node.(requested := next.requested, outbox := next.outbox)
  {
  }

  /** Only a passed check reaches the local parties. */
  lemma ConcludeKeepsRest(env: Env, node: Node, key: Key, msg: WireMessage, msgType: MessageType, verdict: Verdict,
                          c: Choices)
    requires key in node.unconfirmed && msg.from in env.parties
    ensures var next := Conclude(env, node, key, msg, msgType, verdict, c).node;
      && next.finished == node.finished && next.closes == node.closes
      && (verdict != Passed ==> next.accepted == node.accepted && next.applied == node.applied)
  {
    if verdict == NotMajority {
      var dropped := PutItem(node, key, node.unconfirmed[key].(msg := None));
      RequestKeepsRest(dropped, Quorum(env), key, msgType, c.second);
    }
  }

  lemma ApplyKeepsKnown(env: Env, node: Node, key: Key, msgType: MessageType, c: Choices)
    requires MessagesKnown(env, node)
    requires key in node.unconfirmed && node.unconfirmed[key].msg.Some?
    ensures MessagesKnown(env, ApplyShare(env, node, key, msgType, c).node)
  {
    var msg := node.unconfirmed[key].msg.value;
    var (after, verdict) := HashCheck(node.unconfirmed[key], env.parties[msg.from], Quorum(env), c.first);
    ConcludeTouchesItsKey(env, PutItem(node, key, after), key, msg, msgType, verdict, c);
  }

  lemma VoteKeepsKnown(env: Env, node: Node, key: Key, peer: PeerId, hash: Hash)
    requires MessagesKnown(env, node)
    ensures MessagesKnown(env, AfterVote(node, key, peer, hash))
  {
  }

  lemma ShareKeepsKnown(env: Env, node: Node, msg: WireMessage, msgType: MessageType, forward: bool)
    requires MessagesKnown(env, node) && msg.from in env.parties
    ensures MessagesKnown(env, AfterShare(env, node, msg, msgType, forward))
  {
  }
}
