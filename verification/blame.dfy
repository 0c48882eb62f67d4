/** Who is blamed when an instance times out, in terms of the shares that never arrived. */
module BlamePolicy {
  import opened Types
  import opened Protocol
  import W = Workers

  const TSSKEYGENROUNDS := 4
  const TSSKEYSIGNROUNDS := 8

  function PeerOr(peers: map<PartyId, PeerId>, id: PartyId): PeerId {
    if id in peers then peers[id] else ""
  }

  /** Parties other than the local one whose peer is not listed. */
  function NotIn(peers: map<PartyId, PeerId>, local: PartyId, listed: seq<PeerId>): set<PartyId> {
    set id | id in peers && id != local && peers[id] !in listed
  }

  // ------------------------------------------------------------ missing shares

  /** Accepted lists of one message, indexed by round. */
  type ShareTable = seq<seq<PartyId>>

  /** `t` holds the accepted lists of message `id`. */
  ghost predicate TableFits(accepted: W.AcceptedShares, rounds: nat, id: string, t: ShareTable) {
    && |t| == rounds
    && (forall r :: r in accepted && r.msgIdentifier == id ==> r.index < rounds && t[r.index] == accepted[r])
    && (forall i :: 0 <= i < rounds && t[i] != [] ==>
        exists r :: r in accepted && r.msgIdentifier == id && r.index == i)
  }

  /** A round name goes with one round index, and indices are in range, as the decoder of round
      messages makes them. */
  ghost predicate RoundsNamed(accepted: W.AcceptedShares, rounds: nat) {
    && (forall r :: r in accepted ==> r.index < rounds)
    && (forall r, s ::
          r in accepted && s in accepted && r.index == s.index && r.msgIdentifier == s.msgIdentifier ==> r == s)
  }

  function MessageIds(accepted: W.AcceptedShares): set<string> {
    set r | r in accepted :: r.msgIdentifier
  }

  /** The first round whose list does not have one entry per other party; |t| if there is none. */
  function FirstShort(t: ShareTable, n: nat): (i: nat)
    ensures i <= |t|
    ensures forall j :: 0 <= j < i ==> |t[j]| + 1 == n
    ensures i < |t| ==> |t[i]| + 1 != n
  {
    if t == [] || |t[0]| + 1 != n then 0 else 1 + FirstShort(t[1..], n)
  }

  function PeersOf(peers: map<PartyId, PeerId>, ids: seq<PartyId>): (r: seq<PeerId>)
    ensures |r| == |ids|
    ensures forall i :: 0 <= i < |ids| ==> r[i] == PeerOr(peers, ids[i])
  {
    seq(|ids|, i requires 0 <= i < |ids| => PeerOr(peers, ids[i]))
  }

  /** Peers that are cleared by message table `t`: senders of the first short round and ourselves. */
  function Cleared(peers: map<PartyId, PeerId>, local: PartyId, t: ShareTable): seq<PeerId> {
    var i := FirstShort(t, |peers|);
    if i == |t| then [] else PeersOf(peers, t[i] + [local])
  }

  predicate ShortIsUnicast(rounds: nat, i: nat) {
    (rounds == TSSKEYGENROUNDS && i == 1) || (rounds == TSSKEYSIGNROUNDS && i < 5)
  }

  predicate TableIsUnicast(peers: map<PartyId, PeerId>, rounds: nat, t: ShareTable) {
    var i := FirstShort(t, |peers|);
    i < |t| && ShortIsUnicast(rounds, i)
  }

  /** Parties that delivered their share of round `i` for message `id`. */
  function Delivered(accepted: W.AcceptedShares, id: string, i: int): set<PartyId> {
    set r, p | r in accepted && r.msgIdentifier == id && r.index == i && p in accepted[r] :: p
  }

  ghost predicate Injective(peers: map<PartyId, PeerId>) {
    forall a, b :: a in peers && b in peers && peers[a] == peers[b] ==> a == b
  }

  /** Accepted lists name other parties, each at most once. */
  ghost predicate ListsOk(accepted: W.AcceptedShares, others: set<PartyId>) {
    forall r :: r in accepted ==> NoDuplicates(accepted[r]) && SetOf(accepted[r]) <= others
  }

  /** The count in the code sees exactly whether every other party delivered. */
  lemma CountSeesMissing(peers: map<PartyId, PeerId>, local: PartyId, list: seq<PartyId>)
    requires local in peers && NoDuplicates(list) && SetOf(list) <= peers.Keys - {local}
    ensures |list| + 1 == |peers| <==> SetOf(list) == peers.Keys - {local}
  {
    SetSize(list);
    assert |peers.Keys - {local}| == |peers| - 1;
    if |list| + 1 == |peers| {
      SameSize(SetOf(list), peers.Keys - {local});
    }
  }

  lemma TableIsDelivered(accepted: W.AcceptedShares, rounds: nat, id: string, t: ShareTable, i: nat)
    requires TableFits(accepted, rounds, id, t) && i < rounds
    ensures Delivered(accepted, id, i) == SetOf(t[i])
  {
    forall p | p in SetOf(t[i]) ensures p in Delivered(accepted, id, i) {
      var r :| r in accepted && r.msgIdentifier == id && r.index == i;
      assert p in accepted[r];
    }
  }

  ghost predicate AllDelivered(accepted: W.AcceptedShares, others: set<PartyId>, id: string, i: int) {
    Delivered(accepted, id, i) == others
  }

  ghost predicate IsFirstIncomplete(accepted: W.AcceptedShares, others: set<PartyId>, id: string, rounds: nat, i: nat) {
    && i < rounds && !AllDelivered(accepted, others, id, i)
    && forall j :: 0 <= j < i ==> AllDelivered(accepted, others, id, j)
  }

  /** The counts of the code ask for exactly one absent party in each round. */
  ghost predicate OneAbsent(accepted: W.AcceptedShares, parties: set<PartyId>, id: string, i: int) {
    IsSingle(parties - Delivered(accepted, id, i))
  }

  ghost predicate IsSingle(s: set<PartyId>) {
    exists p :: p in s && s == {p}
  }

  lemma SingleIff(s: set<PartyId>)
    ensures IsSingle(s) <==> |s| == 1
  {
    if |s| == 1 {
      var p :| p in s;
      SameSize({p}, s);
    }
  }

  ghost predicate IsFirstShort(accepted: W.AcceptedShares, parties: set<PartyId>, id: string, rounds: nat, i: nat) {
    i < rounds && !OneAbsent(accepted, parties, id, i) && forall j :: 0 <= j < i ==> OneAbsent(accepted, parties, id, j)
  }

  lemma CountSeesAbsent(parties: set<PartyId>, list: seq<PartyId>)
    requires NoDuplicates(list) && SetOf(list) <= parties
    ensures |list| + 1 == |parties| <==> IsSingle(parties - SetOf(list))
  {
    SetSize(list);
    SingleIff(parties - SetOf(list));
    assert |parties - SetOf(list)| == |parties| - |SetOf(list)|;
  }

  /** With a share of our own on the list, as after a replay of our broadcast, the count is satisfied
      exactly if one other party is missing, and not if nobody is. */
  lemma OwnShareMisleads(peers: map<PartyId, PeerId>, local: PartyId, list: seq<PartyId>)
    requires local in list && NoDuplicates(list) && SetOf(list) <= peers.Keys
    ensures |list| + 1 == |peers| <==> IsSingle(peers.Keys - {local} - SetOf(list))
    ensures peers.Keys - {local} <= SetOf(list) ==> |list| + 1 != |peers|
  {
    CountSeesAbsent(peers.Keys, list);
    assert peers.Keys - {local} - SetOf(list) == peers.Keys - SetOf(list);
    if peers.Keys - {local} <= SetOf(list) {
      assert peers.Keys - SetOf(list) == {};
    }
  }

  lemma CountInTable(parties: set<PartyId>, accepted: W.AcceptedShares, rounds: nat, id: string, t: ShareTable, i: nat)
    requires TableFits(accepted, rounds, id, t) && ListsOk(accepted, parties) && i < rounds
    ensures |t[i]| + 1 == |parties| <==> OneAbsent(accepted, parties, id, i)
    ensures SetOf(t[i]) == Delivered(accepted, id, i) && SetOf(t[i]) <= parties
  {
    TableIsDelivered(accepted, rounds, id, t, i);
    ListOk(accepted, rounds, id, t, i, parties);
    CountSeesAbsent(parties, t[i]);
  }

  lemma BlamedAt(peers: map<PartyId, PeerId>, local: PartyId, accepted: W.AcceptedShares, rounds: nat, id: string,
                 t: ShareTable, i: nat)
    requires local in peers && Injective(peers) && i <= rounds
    requires TableFits(accepted, rounds, id, t) && ListsOk(accepted, peers.Keys)
    requires forall j :: 0 <= j < i ==> OneAbsent(accepted, peers.Keys, id, j)
    requires i < rounds ==> !OneAbsent(accepted, peers.Keys, id, i)
    ensures FirstShort(t, |peers|) == i
    ensures NotIn(peers, local, Cleared(peers, local, t))
      == peers.Keys - {local} - if i < rounds then Delivered(accepted, id, i) else {}
  {
    forall j | 0 <= j < i ensures |t[j]| + 1 == |peers| {
      CountInTable(peers.Keys, accepted, rounds, id, t, j);
    }
    if i < rounds {
      CountInTable(peers.Keys, accepted, rounds, id, t, i);
      FirstShortIs(t, |peers|, i);
      ClearedAreListed(peers, local, t[i]);
    } else {
      NoneShort(t, |peers|);
    }
  }

  lemma {:induction false} NoneShort(t: ShareTable, n: nat)
    requires forall j :: 0 <= j < |t| ==> |t[j]| + 1 == n
    ensures FirstShort(t, n) == |t|
  {
    if t != [] {
      NoneShort(t[1..], n);
    }
  }

  /** The blamed parties are the others that did not deliver in the first round in which not exactly
      one party is absent. When there is no such round the code clears nobody and blames all others. */
  lemma MissingShareBlameByCount(peers: map<PartyId, PeerId>, local: PartyId, accepted: W.AcceptedShares,
                                 rounds: nat, id: string, t: ShareTable)
    requires local in peers && Injective(peers)
    requires TableFits(accepted, rounds, id, t) && ListsOk(accepted, peers.Keys)
    ensures var blamed := NotIn(peers, local, Cleared(peers, local, t));
      && (forall i: nat :: IsFirstShort(accepted, peers.Keys, id, rounds, i) ==>
            blamed == peers.Keys - {local} - Delivered(accepted, id, i) && FirstShort(t, |peers|) == i)
      && ((forall j :: 0 <= j < rounds ==> OneAbsent(accepted, peers.Keys, id, j)) ==> blamed == peers.Keys - {local})
  {
    forall i: nat | IsFirstShort(accepted, peers.Keys, id, rounds, i)
      ensures NotIn(peers, local, Cleared(peers, local, t)) == peers.Keys - {local} - Delivered(accepted, id, i)
      ensures FirstShort(t, |peers|) == i
    {
      BlamedAt(peers, local, accepted, rounds, id, t, i);
    }
    if forall j :: 0 <= j < rounds ==> OneAbsent(accepted, peers.Keys, id, j) {
      BlamedAt(peers, local, accepted, rounds, id, t, rounds);
    }
  }

  /** If no list names this node, the count sees which rounds are complete. */
  lemma AbsentIsIncomplete(accepted: W.AcceptedShares, parties: set<PartyId>, local: PartyId, id: string, i: int)
    requires local in parties && Delivered(accepted, id, i) <= parties - {local}
    ensures OneAbsent(accepted, parties, id, i) <==> AllDelivered(accepted, parties - {local}, id, i)
  {
    var delivered := Delivered(accepted, id, i);
    if OneAbsent(accepted, parties, id, i) {
      assert local in parties - delivered;
      assert parties - delivered == {local};
      assert delivered == parties - {local};
    }
    if delivered == parties - {local} {
      assert local in parties - delivered && parties - delivered == {local};
    }
  }

  lemma DeliveredAreListed(accepted: W.AcceptedShares, listed: set<PartyId>, id: string)
    requires ListsOk(accepted, listed)
    ensures forall i :: Delivered(accepted, id, i) <= listed
  {
    forall i, p | p in Delivered(accepted, id, i) ensures p in listed {
      var r :| r in accepted && r.msgIdentifier == id && r.index == i && p in accepted[r];
      assert p in SetOf(accepted[r]);
    }
  }

  lemma FirstShortIsIncomplete(accepted: W.AcceptedShares, parties: set<PartyId>, local: PartyId, id: string,
                               rounds: nat)
    requires local in parties && ListsOk(accepted, parties - {local})
    ensures forall i: nat ::
      IsFirstShort(accepted, parties, id, rounds, i) <==> IsFirstIncomplete(accepted, parties - {local}, id, rounds, i)
    ensures forall j :: OneAbsent(accepted, parties, id, j) <==> AllDelivered(accepted, parties - {local}, id, j)
  {
    DeliveredAreListed(accepted, parties - {local}, id);
    forall j ensures OneAbsent(accepted, parties, id, j) <==> AllDelivered(accepted, parties - {local}, id, j) {
      AbsentIsIncomplete(accepted, parties, local, id, j);
    }
  }

  /** If no list names this node, the blamed parties are those that did not deliver in the first
      incomplete round, and all others if every round is complete. */
  lemma MissingShareBlameIsExact(peers: map<PartyId, PeerId>, local: PartyId, accepted: W.AcceptedShares,
                                 rounds: nat, id: string, t: ShareTable)
    requires local in peers && Injective(peers)
    requires TableFits(accepted, rounds, id, t) && ListsOk(accepted, peers.Keys - {local})
    ensures var blamed := NotIn(peers, local, Cleared(peers, local, t));
      var others := peers.Keys - {local};
      && (forall i: nat ::
            IsFirstIncomplete(accepted, others, id, rounds, i)
            ==> blamed == others - Delivered(accepted, id, i) && blamed != {} && FirstShort(t, |peers|) == i)
      && ((forall j :: 0 <= j < rounds ==> AllDelivered(accepted, others, id, j)) ==> blamed == others)
  {
    MissingShareBlameByCount(peers, local, accepted, rounds, id, t);
    FirstShortIsIncomplete(accepted, peers.Keys, local, id, rounds);
    DeliveredAreListed(accepted, peers.Keys - {local}, id);
  }

  lemma FirstShortIs(t: ShareTable, n: nat, i: nat)
    requires i < |t| && |t[i]| + 1 != n && forall j :: 0 <= j < i ==> |t[j]| + 1 == n
    ensures FirstShort(t, n) == i
  {
    if i > 0 {
      FirstShortIs(t[1..], n, i - 1);
    }
  }

  lemma ListOk(accepted: W.AcceptedShares, rounds: nat, id: string, t: ShareTable, i: nat, others: set<PartyId>)
    requires TableFits(accepted, rounds, id, t) && ListsOk(accepted, others) && i < rounds
    ensures NoDuplicates(t[i]) && SetOf(t[i]) <= others
  {
    if t[i] != [] {
      var r :| r in accepted && r.msgIdentifier == id && r.index == i;
      assert t[i] == accepted[r];
    }
  }

  lemma ClearedAreListed(peers: map<PartyId, PeerId>, local: PartyId, list: seq<PartyId>)
    requires local in peers && Injective(peers) && SetOf(list) <= peers.Keys
    ensures NotIn(peers, local, PeersOf(peers, list + [local])) == peers.Keys - {local} - SetOf(list)
  {
    var listed := PeersOf(peers, list + [local]);
    forall id | id in peers && id != local ensures peers[id] in listed <==> id in list {
      if id in list {
        var i :| 0 <= i < |list| && list[i] == id;
        assert listed[i] == peers[id];
      }
      if peers[id] in listed {
        var i :| 0 <= i < |listed| && listed[i] == peers[id];
        assert (list + [local])[i] in SetOf(list) + {local};
        assert (list + [local])[i] == id;
      }
    }
  }

  // ------------------------------------------------------------ broadcast timeouts

  /** Stored messages of one round from one sender. */
  function StoredFrom(stored: map<Key, WireMessage>, round: string, id: PartyId): set<Key> {
    set k | k in stored && stored[k].roundInfo == round && stored[k].from == id
  }

  function SendersOf(stored: map<Key, WireMessage>, round: string): set<PartyId> {
    set k | k in stored && stored[k].roundInfo == round :: stored[k].from
  }

  /** What a timeout in the given round blames. */
  function TimeoutBlamed(parties: set<PartyId>, local: PartyId, stored: map<Key, WireMessage>,
                         round: string): set<PartyId> {
    if SendersOf(stored, round) == {} then {} else parties - {local} - SendersOf(stored, round)
  }
}

/** The bookkeeping objects of one instance. */
module Managers {
  import opened Types
  import opened Protocol
  import opened BlamePolicy
  import W = Workers

  class ShareMgr {
    var requested: set<Hash>

    constructor ()
      ensures requested == {}
    {
      requested := {};
    }

    method Set(key: Hash)
      modifies this
      ensures requested == old(requested) + {key}
    {
      requested := requested + {key};
    }

    method QueryAndDelete(key: Hash) returns (ret: bool)
      modifies this
      ensures ret <==> key in old(requested)
      ensures requested == old(requested) - {key}
    {
      ret := key in requested;
      requested := requested - {key};
    }
  }

  class RoundMgr {
    var storedMsg: map<Key, WireMessage>

    constructor ()
      ensures storedMsg == map[]
    {
      storedMsg := map[];
    }

    method Get(key: Key) returns (msg: Option<WireMessage>)
      ensures msg == if key in storedMsg then Some(storedMsg[key]) else None
    {
      if key !in storedMsg {
        return None;
      }
      return Some(storedMsg[key]);
    }

    method Set(key: Key, msg: WireMessage)
      modifies this
      ensures storedMsg == old(storedMsg)[key := msg]
    {
      storedMsg := storedMsg[key := msg];
    }

    /** Lists the sender of every stored message of the round. */
    method GetByRound(roundInfo: string) returns (standby: seq<PartyId>)
      ensures ListsSenders(standby, storedMsg, roundInfo)
    {
      standby := [];
      var todo := storedMsg.Keys;
      ghost var done: map<Key, WireMessage> := map[];
      assert forall id :: StoredFrom(map[], roundInfo, id) == {};
      while todo != {}
        invariant todo !! done.Keys && todo + done.Keys == storedMsg.Keys
        invariant forall k :: k in done ==> done[k] == storedMsg[k]
        invariant ListsSenders(standby, done, roundInfo)
        decreases todo
      {
        var key :| key in todo;
        var el := storedMsg[key];
        ListStep(standby, done, roundInfo, key, el);
        if el.roundInfo == roundInfo {
          standby := standby + [el.from];
        }
        done := done[key := el];
        todo := todo - {key};
      }
      assert done == storedMsg;
    }
  }

  ghost predicate ListsSenders(standby: seq<PartyId>, stored: map<Key, WireMessage>, round: string) {
    forall id :: multiset(standby)[id] == |StoredFrom(stored, round, id)|
  }

  lemma ListStep(standby: seq<PartyId>, done: map<Key, WireMessage>, round: string, key: Key, msg: WireMessage)
    requires key !in done && ListsSenders(standby, done, round)
    ensures ListsSenders(if msg.roundInfo == round then standby + [msg.from] else standby, done[key := msg], round)
  {
    assert multiset(standby + [msg.from]) == multiset(standby) + multiset{msg.from};
    forall id {
      StoredFromStep(done, round, key, msg, id);
    }
  }

  lemma StoredFromStep(done: map<Key, WireMessage>, round: string, key: Key, msg: WireMessage, id: PartyId)
    requires key !in done
    ensures |StoredFrom(done[key := msg], round, id)|
      == |StoredFrom(done, round, id)| + if msg.roundInfo == round && msg.from == id then 1 else 0
  {
    if msg.roundInfo == round && msg.from == id {
      assert StoredFrom(done[key := msg], round, id) == StoredFrom(done, round, id) + {key};
    } else {
      assert StoredFrom(done[key := msg], round, id) == StoredFrom(done, round, id);
    }
  }

  /** Blame bookkeeping of one instance. `partyIDMap` gives the public key of each party. */
  class Manager {
    const roundMgr: RoundMgr
    const shareMgr: ShareMgr
    const partyIDMap: map<PartyId, string>
    const partyIDToP2PID: map<PartyId, PeerId>
    const localPartyID: PartyId
    var lastUnicastPeer: map<string, seq<PeerId>>
    var acceptedShares: W.AcceptedShares

    constructor (partyIDMap: map<PartyId, string>, partyToPeer: map<PartyId, PeerId>, localPartyID: PartyId)
      ensures this.partyIDMap == partyIDMap && partyIDToP2PID == partyToPeer && this.localPartyID == localPartyID
      ensures fresh(roundMgr) && fresh(shareMgr)
      ensures roundMgr.storedMsg == map[] && shareMgr.requested == {}
      ensures lastUnicastPeer == map[] && acceptedShares == map[]
    {
      roundMgr := new RoundMgr();
      shareMgr := new ShareMgr();
      this.partyIDMap, partyIDToP2PID, this.localPartyID := partyIDMap, partyToPeer, localPartyID;
      lastUnicastPeer, acceptedShares := map[], map[];
    }

    method UpdateAcceptShare(round: W.RoundInfo, id: PartyId)
      modifies this`acceptedShares
      ensures acceptedShares == W.AddShare(old(acceptedShares), round, id)
    {
      if round !in acceptedShares {
        acceptedShares := acceptedShares[round := [id]];
        assert [] + [id] == [id];
        return;
      }
      acceptedShares := acceptedShares[round := acceptedShares[round] + [id]];
    }

    method CheckMsgDuplication(round: W.RoundInfo, id: PartyId) returns (dup: bool)
      ensures dup <==> round in acceptedShares && id in acceptedShares[round]
    {
      if round in acceptedShares {
        var partyList := acceptedShares[round];
        for i := 0 to |partyList|
          invariant id !in partyList[..i]
        {
          if partyList[i] == id {
            return true;
          }
        }
        assert partyList[..|partyList|] == partyList;
      }
      return false;
    }

    method SetLastUnicastPeer(peerID: PeerId, roundInfo: string)
      modifies this`lastUnicastPeer
      ensures lastUnicastPeer == old(lastUnicastPeer)[roundInfo :=
        (if roundInfo in old(lastUnicastPeer) then old(lastUnicastPeer)[roundInfo] else []) + [peerID]]
    {
      if roundInfo !in lastUnicastPeer {
        lastUnicastPeer := lastUnicastPeer[roundInfo := [peerID]];
        assert [] + [peerID] == [peerID];
      } else {
        lastUnicastPeer := lastUnicastPeer[roundInfo := lastUnicastPeer[roundInfo] + [peerID]];
      }
    }

    /** Public keys of the listed parties; fails when one is unknown. */
    method AccPubKeysFromPartyIDs(ids: seq<PartyId>) returns (ok: bool, keys: seq<string>)
      ensures ok <==> forall i :: 0 <= i < |ids| ==> ids[i] in partyIDMap
      ensures ok ==> |keys| == |ids| && forall i :: 0 <= i < |ids| ==> keys[i] == partyIDMap[ids[i]]
    {
      keys := [];
      for i := 0 to |ids|
        invariant |keys| == i
        invariant forall j :: 0 <= j < i ==> ids[j] in partyIDMap && keys[j] == partyIDMap[ids[j]]
      {
        if ids[i] !in partyIDMap {
          return false, [];
        }
        keys := keys + [partyIDMap[ids[i]]];
      }
      ok := true;
    }

    /** Parties whose peer is not listed, ourselves excepted, in no particular order. */
    method PartiesNotInList(peers: seq<PeerId>) returns (parties: seq<PartyId>)
      ensures NoDuplicates(parties)
      ensures SetOf(parties) == NotIn(partyIDToP2PID, localPartyID, peers)
    {
      parties := [];
      var todo := partyIDToP2PID.Keys;
      while todo != {}
        invariant todo <= partyIDToP2PID.Keys
        invariant SetOf(parties) !! todo
        invariant NoDuplicates(parties)
        invariant SetOf(parties) == NotIn(partyIDToP2PID, localPartyID, peers) - todo
        decreases todo
      {
        var partyID :| partyID in todo;
        todo := todo - {partyID};
        if localPartyID == partyID {
          continue;
        }
        var found := false;
        for i := 0 to |peers|
          invariant !found ==> partyIDToP2PID[partyID] !in peers[..i]
          invariant found ==> partyIDToP2PID[partyID] in peers
        {
          if partyIDToP2PID[partyID] == peers[i] {
            found := true;
            break;
          }
        }
        assert peers[..|peers|] == peers;
        if !found {
          assert SetOf(parties + [partyID]) == SetOf(parties) + {partyID};
          parties := parties + [partyID];
        }
      }
    }

    /** Public keys of the parties whose peer is not listed, each once. */
    method GetBlamePubKeysNotInList(peers: seq<PeerId>) returns (ok: bool, keys: seq<string>)
      ensures ok <==> NotIn(partyIDToP2PID, localPartyID, peers) <= partyIDMap.Keys
      ensures ok ==> KeysOfSet(partyIDMap, NotIn(partyIDToP2PID, localPartyID, peers), keys)
    {
      var parties := PartiesNotInList(peers);
      ok, keys := AccPubKeysFromPartyIDs(parties);
      assert Lists(parties, NotIn(partyIDToP2PID, localPartyID, peers));
      assert forall i :: 0 <= i < |parties| ==> parties[i] in SetOf(parties);
    }

    /** Enters one accepted list in the table of its message. */
    method AddToTables(rounds: nat, tables: map<string, ShareTable>, roundInfo: W.RoundInfo, value: seq<PartyId>,
                       ghost done: W.AcceptedShares) returns (next: map<string, ShareTable>)
      requires roundInfo !in done && roundInfo.index < rounds && RoundsNamed(done[roundInfo := value], rounds)
      requires TablesFit(done, rounds, tables)
      ensures TablesFit(done[roundInfo := value], rounds, next)
    {
      TablesStep(done, rounds, roundInfo, value, tables);
      var cachedShares :=
        if roundInfo.msgIdentifier in tables then tables[roundInfo.msgIdentifier] else EmptyTable(rounds);
      next := tables[roundInfo.msgIdentifier := cachedShares[roundInfo.index := value]];
    }

    /** Accepted lists per message identifier and round. */
    method GroupByMessage(rounds: nat) returns (tables: map<string, ShareTable>)
      requires RoundsNamed(acceptedShares, rounds)
      ensures TablesFit(acceptedShares, rounds, tables)
    {
      tables := map[];
      var todo := acceptedShares.Keys;
      ghost var done: W.AcceptedShares := map[];
      while todo != {}
        invariant todo !! done.Keys && todo + done.Keys == acceptedShares.Keys
        invariant forall r :: r in done ==> done[r] == acceptedShares[r]
        invariant TablesFit(done, rounds, tables)
        decreases todo
      {
        var roundInfo :| roundInfo in todo;
        var value := acceptedShares[roundInfo];
        tables := AddToTables(rounds, tables, roundInfo, value, done);
        done := done[roundInfo := value];
        todo := todo - {roundInfo};
      }
      assert done == acceptedShares;
    }

    /** Peers cleared by one message: the senders of its first short round, and ourselves. */
    method ClearFirstShort(rounds: nat, cachedShares: ShareTable) returns (peers: seq<PeerId>, isUnicast: bool)
      requires |cachedShares| == rounds
      ensures peers == Cleared(partyIDToP2PID, localPartyID, cachedShares)
      ensures isUnicast <==> TableIsUnicast(partyIDToP2PID, rounds, cachedShares)
    {
      peers, isUnicast := [], false;
      for index := 0 to |cachedShares|
        invariant peers == [] && !isUnicast
        invariant forall j :: 0 <= j < index ==> |cachedShares[j]| + 1 == |partyIDToP2PID|
      {
        var el := cachedShares[index];
        if |el| + 1 == |partyIDToP2PID| {
          continue;
        }
        FirstShortIs(cachedShares, |partyIDToP2PID|, index);
        if rounds == TSSKEYGENROUNDS && index == 1 {
          isUnicast := true;
        }
        if rounds == TSSKEYSIGNROUNDS && index < 5 {
          isUnicast := true;
        }
        el := el + [localPartyID];
        peers := PeersOf(partyIDToP2PID, el);
        return;
      }
    }

    /** One message: clears its peers and lists the parties that are still not cleared. */
    method BlameMessage(rounds: nat, cachedShares: ShareTable, cleared: seq<PeerId>)
        returns (peers: seq<PeerId>, isUnicast: bool, ok: bool, keys: seq<string>)
      requires |cachedShares| == rounds
      ensures peers == cleared + Cleared(partyIDToP2PID, localPartyID, cachedShares)
      ensures isUnicast <==> TableIsUnicast(partyIDToP2PID, rounds, cachedShares)
      ensures ok <==> NotIn(partyIDToP2PID, localPartyID, peers) <= partyIDMap.Keys
      ensures ok ==> KeysOfSet(partyIDMap, NotIn(partyIDToP2PID, localPartyID, peers), keys)
    {
      var more;
      more, isUnicast := ClearFirstShort(rounds, cachedShares);
      peers := cleared + more;
      ok, keys := GetBlamePubKeysNotInList(peers);
    }

    method BlameMessages(rounds: nat, tables: map<string, ShareTable>)
        returns (ok: bool, nodes: seq<string>, isUnicast: bool)
      requires forall id :: id in tables ==> |tables[id]| == rounds
      ensures partyIDToP2PID.Keys <= partyIDMap.Keys ==> ok
      ensures ok ==> Blames(partyIDToP2PID, localPartyID, partyIDMap, tables, nodes)
      ensures ok ==> (isUnicast <==> AnyUnicast(partyIDToP2PID, rounds, tables, tables.Keys))
    {
      ok, nodes, isUnicast := true, [], false;
      ghost var order, parties := [], [];
      var peers: seq<PeerId> := [];
      var todo := tables.Keys;
      while ok && todo != {}
        invariant todo <= tables.Keys
        invariant ok ==> WalkSoFar(partyIDToP2PID, localPartyID, partyIDMap, tables, todo, order, parties, peers, nodes)
        invariant ok ==> (isUnicast <==> AnyUnicast(partyIDToP2PID, rounds, tables, tables.Keys - todo))
        invariant partyIDToP2PID.Keys <= partyIDMap.Keys ==> ok
        decreases todo
      {
        var id :| id in todo;
        AnyUnicastStep(partyIDToP2PID, rounds, tables, todo, id);
        var unicast, keys;
        ghost var cleared := peers;
        peers, unicast, ok, keys := BlameMessage(rounds, tables[id], peers);
        if ok {
          ghost var absent: seq<PartyId> :|
            Lists(absent, NotIn(partyIDToP2PID, localPartyID, peers)) && KeysOf(partyIDMap, absent, keys);
          WalkGoesOn(partyIDToP2PID, localPartyID, partyIDMap, tables, todo, order, parties,
                     cleared, nodes, id, absent, keys);
          order, parties := order + [id], parties + absent;
        }
        nodes, isUnicast := nodes + keys, isUnicast || unicast;
        todo := todo - {id};
      }
    }

    /** Walks the messages in an arbitrary order, clearing peers as it goes; each message adds the
        parties that are still not cleared. */
    method TssMissingShareBlame(rounds: nat) returns (ok: bool, nodes: seq<string>, isUnicast: bool)
      requires RoundsNamed(acceptedShares, rounds)
      ensures partyIDToP2PID.Keys <= partyIDMap.Keys ==> ok
      ensures !ok ==> nodes == []
      ensures ok ==>
        MissingShareBlamed(acceptedShares, rounds, partyIDToP2PID, localPartyID, partyIDMap, nodes, isUnicast)
    {
      var acceptedShareForMsg := GroupByMessage(rounds);
      ok, nodes, isUnicast := BlameMessages(rounds, acceptedShareForMsg);
      if !ok {
        nodes := [];
      }
    }

    /** What a timed-out instance that blamed nobody so far makes of missing shares: a list longer
        than the threshold is dropped, and each node is reported once. */
    method AddMissingShareBlame(rounds: nat, threshold: int) returns (reported: seq<string>, isUnicast: bool)
      requires RoundsNamed(acceptedShares, rounds)
      ensures
        || MissingShareReported(acceptedShares, rounds, partyIDToP2PID, localPartyID, partyIDMap, threshold,
                                reported, isUnicast)
        || (reported == [] && !isUnicast && !(partyIDToP2PID.Keys <= partyIDMap.Keys))
    {
      var ok, nodes, unicast := TssMissingShareBlame(rounds);
      reported, isUnicast := [], false;
      if 0 < |nodes| <= threshold {
        reported := AddBlameNodes(reported, nodes);
        isUnicast := unicast;
        assert nodes[0] in SetOf(reported);
      }
      assert Lists(reported, Reported(nodes, threshold));
    }

    /** The timeout policy for a broadcast round. */
    method TssTimeoutBlame(lastMessageType: string) returns (ok: bool, keys: seq<string>)
      ensures ok
      ensures KeysOfSet(partyIDMap, TimeoutBlamed(partyIDMap.Keys, localPartyID, roundMgr.storedMsg,
                        lastMessageType), keys)
    {
      var peersSet := partyIDMap.Keys - {localPartyID};
      var standbyNodes := roundMgr.GetByRound(lastMessageType);
      StandbySet(standbyNodes, roundMgr.storedMsg, lastMessageType);
      if |standbyNodes| == 0 {
        assert Lists<PartyId>([], {}) && KeysOf(partyIDMap, [], []);
        return true, [];
      }
      assert standbyNodes[0] in SendersOf(roundMgr.storedMsg, lastMessageType);
      var diff := peersSet - SetOf(standbyNodes);
      var blames := [];
      while diff != {}
        invariant SetOf(blames) + diff == peersSet - SetOf(standbyNodes) && SetOf(blames) !! diff
        invariant NoDuplicates(blames)
        decreases diff
      {
        var el :| el in diff;
        assert SetOf(blames + [el]) == SetOf(blames) + {el};
        blames, diff := blames + [el], diff - {el};
      }
      ok, keys := AccPubKeysFromPartyIDs(blames);
      assert Lists(blames, peersSet - SetOf(standbyNodes));
      assert forall i :: 0 <= i < |blames| ==> blames[i] in SetOf(blames);
    }
  }

  /** Peers cleared by the messages of `order`. */
  ghost function ClearedBy(p2p: map<PartyId, PeerId>, local: PartyId, tables: map<string, ShareTable>,
                           order: seq<string>): seq<PeerId>
    requires SetOf(order) <= tables.Keys
  {
    if order == [] then []
    else
      var rest, last := order[..|order| - 1], order[|order| - 1];
      assert last in SetOf(order) && SetOf(rest) <= SetOf(order);
      ClearedBy(p2p, local, tables, rest) + Cleared(p2p, local, tables[last])
  }

  /** A walk over the messages in this order blames these parties: for each message, in any order
      but each once, those that no message so far has cleared. */
  ghost predicate Walk(p2p: map<PartyId, PeerId>, local: PartyId, tables: map<string, ShareTable>,
                       order: seq<string>, parties: seq<PartyId>)
    requires SetOf(order) <= tables.Keys
    decreases |order|
  {
    if order == [] then parties == []
    else
      var rest := order[..|order| - 1];
      assert SetOf(rest) <= SetOf(order);
      exists before, absent :: parties == before + absent
        && Walk(p2p, local, tables, rest, before)
        && Lists(absent, NotIn(p2p, local, ClearedBy(p2p, local, tables, order)))
  }

  /** The messages outside `todo` were visited in this order and blamed these parties. */
  ghost predicate WalkSoFar(p2p: map<PartyId, PeerId>, local: PartyId, pubKeys: map<PartyId, string>,
                            tables: map<string, ShareTable>, todo: set<string>, order: seq<string>,
                            parties: seq<PartyId>, peers: seq<PeerId>, nodes: seq<string>)
  {
    && Lists(order, tables.Keys - todo) && peers == ClearedBy(p2p, local, tables, order)
    && Walk(p2p, local, tables, order, parties) && KeysOf(pubKeys, parties, nodes)
  }

  lemma WalkGoesOn(p2p: map<PartyId, PeerId>, local: PartyId, pubKeys: map<PartyId, string>,
                   tables: map<string, ShareTable>, todo: set<string>, order: seq<string>, parties: seq<PartyId>,
                   peers: seq<PeerId>, nodes: seq<string>, id: string, absent: seq<PartyId>, keys: seq<string>)
    requires WalkSoFar(p2p, local, pubKeys, tables, todo, order, parties, peers, nodes)
    requires id in todo && todo <= tables.Keys
    requires Lists(absent, NotIn(p2p, local, peers + Cleared(p2p, local, tables[id]))) && KeysOf(pubKeys, absent, keys)
    ensures WalkSoFar(p2p, local, pubKeys, tables, todo - {id}, order + [id], parties + absent,
                      peers + Cleared(p2p, local, tables[id]), nodes + keys)
  {
    WalkStep(p2p, local, tables, order, parties, id, absent);
    KeysOfAppend(pubKeys, parties, nodes, absent, keys);
    assert id !in SetOf(order);
    OneMore(order, id);
    assert tables.Keys - (todo - {id}) == tables.Keys - todo + {id};
  }

  lemma WalkStep(p2p: map<PartyId, PeerId>, local: PartyId, tables: map<string, ShareTable>, order: seq<string>,
                 parties: seq<PartyId>, id: string, absent: seq<PartyId>)
    requires SetOf(order) <= tables.Keys && id in tables && Walk(p2p, local, tables, order, parties)
    requires Lists(absent, NotIn(p2p, local, ClearedBy(p2p, local, tables, order) + Cleared(p2p, local, tables[id])))
    ensures SetOf(order + [id]) <= tables.Keys
    ensures ClearedBy(p2p, local, tables, order + [id])
      == ClearedBy(p2p, local, tables, order) + Cleared(p2p, local, tables[id])
    ensures Walk(p2p, local, tables, order + [id], parties + absent)
  {
    assert (order + [id])[..|order|] == order;
  }

  ghost predicate AnyUnicast(p2p: map<PartyId, PeerId>, rounds: nat, tables: map<string, ShareTable>,
                             ids: set<string>) {
    exists id :: id in ids && id in tables && TableIsUnicast(p2p, rounds, tables[id])
  }

  ghost predicate KeysOf(pubKeys: map<PartyId, string>, parties: seq<PartyId>, nodes: seq<string>) {
    |nodes| == |parties|
    && forall i :: 0 <= i < |nodes| ==> parties[i] in pubKeys && nodes[i] == pubKeys[parties[i]]
  }

  /** `nodes` lists the public keys of the parties of a set, each party once. */
  ghost predicate KeysOfSet(pubKeys: map<PartyId, string>, parties: set<PartyId>, nodes: seq<string>) {
    exists list :: Lists(list, parties) && KeysOf(pubKeys, list, nodes)
  }

  /** `nodes` are the keys of the parties that some walk over all tables blames. */
  ghost predicate Blames(p2p: map<PartyId, PeerId>, local: PartyId, pubKeys: map<PartyId, string>,
                         tables: map<string, ShareTable>, nodes: seq<string>)
  {
    exists order, parties ::
      Lists(order, tables.Keys) && Walk(p2p, local, tables, order, parties) && KeysOf(pubKeys, parties, nodes)
  }

  ghost predicate MissingShareBlamed(accepted: W.AcceptedShares, rounds: nat, p2p: map<PartyId, PeerId>, local: PartyId,
                                     pubKeys: map<PartyId, string>, nodes: seq<string>, isUnicast: bool)
  {
    exists tables ::
      && TablesFit(accepted, rounds, tables)
      && Blames(p2p, local, pubKeys, tables, nodes)
      && (isUnicast <==> AnyUnicast(p2p, rounds, tables, tables.Keys))
  }

  /** A list of blamed nodes counts only up to the threshold. */
  function Reported(nodes: seq<string>, threshold: int): set<string> {
    if |nodes| <= threshold then SetOf(nodes) else {}
  }

  ghost predicate MissingShareReported(accepted: W.AcceptedShares, rounds: nat, p2p: map<PartyId, PeerId>,
                                       local: PartyId,
                                       pubKeys: map<PartyId, string>, threshold: int,
                                       reported: seq<string>, isUnicast: bool)
  {
    exists nodes, unicast ::
      && MissingShareBlamed(accepted, rounds, p2p, local, pubKeys, nodes, unicast)
      && Lists(reported, Reported(nodes, threshold)) && (isUnicast <==> unicast && reported != [])
  }

  /** Adds the nodes that are not on the list yet. */
  method AddBlameNodes(blameNodes: seq<string>, newBlameNodes: seq<string>) returns (all: seq<string>)
    requires NoDuplicates(blameNodes)
    ensures Lists(all, SetOf(blameNodes) + SetOf(newBlameNodes)) && blameNodes <= all
  {
    all := blameNodes;
    for i := 0 to |newBlameNodes|
      invariant Lists(all, SetOf(blameNodes) + SetOf(newBlameNodes[..i])) && blameNodes <= all
    {
      var node := newBlameNodes[i];
      assert SetOf(newBlameNodes[..i + 1]) == SetOf(newBlameNodes[..i]) + {node};
      if node !in all {
        OneMore(all, node);
        all := all + [node];
      } else {
        assert node in SetOf(all);
      }
    }
    assert newBlameNodes[..|newBlameNodes|] == newBlameNodes;
  }

  lemma KeysOfAppend(pubKeys: map<PartyId, string>, a: seq<PartyId>, ka: seq<string>, b: seq<PartyId>, kb: seq<string>)
    requires KeysOf(pubKeys, a, ka) && KeysOf(pubKeys, b, kb)
    ensures KeysOf(pubKeys, a + b, ka + kb)
    ensures SetOf(a + b) <= pubKeys.Keys
  {
    forall x | x in a + b ensures x in pubKeys {
      var i :| 0 <= i < |a + b| && (a + b)[i] == x;
      assert x == if i < |a| then a[i] else b[i - |a|];
    }
  }

  lemma AnyUnicastStep(p2p: map<PartyId, PeerId>, rounds: nat, tables: map<string, ShareTable>, todo: set<string>,
                       id: string)
    requires todo <= tables.Keys && id in todo
    ensures AnyUnicast(p2p, rounds, tables, tables.Keys - (todo - {id}))
      <==> AnyUnicast(p2p, rounds, tables, tables.Keys - todo) || TableIsUnicast(p2p, rounds, tables[id])
  {
    if TableIsUnicast(p2p, rounds, tables[id]) {
      assert id in tables.Keys - (todo - {id});
    }
  }

  ghost predicate TablesFit(accepted: W.AcceptedShares, rounds: nat, tables: map<string, ShareTable>) {
    && tables.Keys == MessageIds(accepted)
    && forall id :: id in tables ==> TableFits(accepted, rounds, id, tables[id])
  }

  lemma TableStep(done: W.AcceptedShares, rounds: nat, r: W.RoundInfo, value: seq<PartyId>, id: string, t: ShareTable)
    requires r !in done && r.index < rounds
    requires RoundsNamed(done[r := value], rounds)
    requires TableFits(done, rounds, id, t)
    ensures id == r.msgIdentifier ==> TableFits(done[r := value], rounds, id, t[r.index := value])
    ensures id != r.msgIdentifier ==> TableFits(done[r := value], rounds, id, t)
  {
    var next := done[r := value];
    forall i | 0 <= i < rounds && t[i] != [] ensures exists s :: s in next && s.msgIdentifier == id && s.index == i {
      var s :| s in done && s.msgIdentifier == id && s.index == i;
      assert s in next;
    }
    if id == r.msgIdentifier {
      forall s | s in next && s.msgIdentifier == id ensures t[r.index := value][s.index] == next[s] {
        if s != r {
          assert s.index != r.index;
        }
      }
      assert r in next;
    }
  }

  lemma EmptyTableFits(done: W.AcceptedShares, rounds: nat, id: string)
    requires id !in MessageIds(done)
    ensures TableFits(done, rounds, id, EmptyTable(rounds))
  {
    forall r | r in done ensures r.msgIdentifier != id {
      assert r.msgIdentifier in MessageIds(done);
    }
  }

  lemma TablesStep(done: W.AcceptedShares, rounds: nat, r: W.RoundInfo, value: seq<PartyId>,
                   tables: map<string, ShareTable>)
    requires r !in done && r.index < rounds && RoundsNamed(done[r := value], rounds)
    requires TablesFit(done, rounds, tables)
    ensures var before := if r.msgIdentifier in tables then tables[r.msgIdentifier] else EmptyTable(rounds);
      |before| == rounds && TablesFit(done[r := value], rounds, tables[r.msgIdentifier := before[r.index := value]])
  {
    var before := if r.msgIdentifier in tables then tables[r.msgIdentifier] else EmptyTable(rounds);
    if r.msgIdentifier !in tables {
      EmptyTableFits(done, rounds, r.msgIdentifier);
    }
    TableStep(done, rounds, r, value, r.msgIdentifier, before);
    forall id | id in tables && id != r.msgIdentifier ensures TableFits(done[r := value], rounds, id, tables[id]) {
      TableStep(done, rounds, r, value, id, tables[id]);
    }
    assert MessageIds(done[r := value]) == MessageIds(done) + {r.msgIdentifier};
  }

  function EmptyTable(rounds: nat): (t: ShareTable)
    ensures |t| == rounds && forall i :: 0 <= i < rounds ==> t[i] == []
  {
    seq(rounds, i => [])
  }

  lemma StandbySet(standby: seq<PartyId>, stored: map<Key, WireMessage>, round: string)
    requires ListsSenders(standby, stored, round)
    ensures SetOf(standby) == SendersOf(stored, round)
  {
    forall id ensures id in standby <==> id in SendersOf(stored, round) {
      assert id in standby <==> multiset(standby)[id] > 0;
      assert multiset(standby)[id] == |StoredFrom(stored, round, id)|;
      if id in SendersOf(stored, round) {
        var k :| k in stored && stored[k].roundInfo == round && stored[k].from == id;
        assert k in StoredFrom(stored, round, id);
      }
      if StoredFrom(stored, round, id) != {} {
        var k :| k in StoredFrom(stored, round, id);
        assert stored[k].from in SendersOf(stored, round);
      }
    }
  }
}
