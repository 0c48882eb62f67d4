/** Forming the party of one instance: peers report to a leader, which takes the first ones up to
    the threshold and tells everybody the result; or, without a leader, every peer waits for all. */
module PeerStatuses {
  import opened Types

  const NONE := "NONE"

  /** Who has reported so far. */
  datatype Status = Status(peers: map<PeerId, bool>, leader: string, threshold: int, reqCount: nat)

  function Online(s: Status): set<PeerId> {
    set p | p in s.peers && s.peers[p]
  }

  datatype Update = UnknownPeer | Updated(signal: bool)

  function Report(s: Status, p: PeerId): (Status, Update) {
    if p !in s.peers then (s, UnknownPeer)
    else
      var marked := s.(peers := s.peers[p := true]);
      if s.leader == NONE then
        if s.peers[p] then (s, Updated(false)) else (marked, Updated(true))
      else if s.reqCount >= s.threshold || s.peers[p] then (s, Updated(false))
      else (marked.(reqCount := s.reqCount + 1), Updated(s.reqCount + 1 >= s.threshold))
  }

  function Initial(nodes: seq<PeerId>, me: PeerId, leader: string, threshold: int): Status {
    Status(map p | p in nodes && p != me :: false, leader, threshold, 0)
  }

  function After(s: Status, reports: seq<PeerId>): Status {
    if reports == [] then s else Report(After(s, reports[..|reports| - 1]), reports[|reports| - 1]).0
  }

  /** How often a report asked for the waiting side to be notified. */
  function Signals(s: Status, reports: seq<PeerId>): nat {
    if reports == [] then 0
    else
      var u := Report(After(s, reports[..|reports| - 1]), reports[|reports| - 1]).1;
      Signals(s, reports[..|reports| - 1]) + if u == Updated(true) then 1 else 0
  }

  lemma UpdateOnline(s: Status, p: PeerId)
    ensures var s' := Report(s, p).0;
      && s'.peers.Keys == s.peers.Keys && s'.leader == s.leader && s'.threshold == s.threshold
      && (s' == s || (p !in Online(s) && p in s.peers && Online(s') == Online(s) + {p}))
      && (Report(s, p).1 == UnknownPeer <==> p !in s.peers)
  {
    var s' := Report(s, p).0;
    if s' != s {
      assert p !in Online(s);
      assert Online(s') == Online(s) + {p};
    }
  }

  /** In leader mode the request count is the number of online peers and never passes the
      threshold; the leader is notified once, when the threshold is reached. */
  lemma {:induction false} LeaderCounts(nodes: seq<PeerId>, me: PeerId, leader: string, threshold: int,
                                        reports: seq<PeerId>)
    requires leader != NONE
    ensures var s := Initial(nodes, me, leader, threshold); var t := After(s, reports);
      && t.leader == leader && t.threshold == threshold && t.peers.Keys == s.peers.Keys
      && t.reqCount == |Online(t)| <= Max(threshold, 0)
      && Signals(s, reports) == if threshold >= 1 && t.reqCount == threshold then 1 else 0
  {
    var s := Initial(nodes, me, leader, threshold);
    if reports == [] {
      assert Online(s) == {};
    } else {
      var rest, p := reports[..|reports| - 1], reports[|reports| - 1];
      LeaderCounts(nodes, me, leader, threshold, rest);
      UpdateOnline(After(s, rest), p);
    }
  }

  /** The listed peers, this node excepted, that have reported. */
  function Reporters(nodes: seq<PeerId>, me: PeerId, reports: seq<PeerId>): set<PeerId> {
    set p | p in reports && p in nodes && p != me
  }

  /** Among the first so many different listed peers that reported. */
  ghost predicate EarlyReporter(nodes: seq<PeerId>, me: PeerId, threshold: int, reports: seq<PeerId>, p: PeerId) {
    exists i :: 0 <= i < |reports| && IsEarly(nodes, me, threshold, reports, p, i)
  }

  ghost predicate IsEarly(nodes: seq<PeerId>, me: PeerId, threshold: int, reports: seq<PeerId>, p: PeerId, i: nat)
    requires i < |reports|
  {
    reports[i] == p && p in nodes && p != me && |Reporters(nodes, me, reports[..i])| < threshold
  }

  lemma EarlyLater(nodes: seq<PeerId>, me: PeerId, threshold: int, reports: seq<PeerId>, p: PeerId)
    requires reports != []
    ensures var n := |reports| - 1;
      EarlyReporter(nodes, me, threshold, reports, p)
      <==> EarlyReporter(nodes, me, threshold, reports[..n], p) || IsEarly(nodes, me, threshold, reports, p, n)
  {
    var n := |reports| - 1;
    forall i | 0 <= i < n ensures
      IsEarly(nodes, me, threshold, reports, p, i) <==> IsEarly(nodes, me, threshold, reports[..n], p, i)
    {
      assert reports[..n][..i] == reports[..i];
    }
  }

  lemma OneMoreReport(nodes: seq<PeerId>, me: PeerId, reports: seq<PeerId>)
    requires reports != []
    ensures var rest, p := reports[..|reports| - 1], reports[|reports| - 1];
      Reporters(nodes, me, reports) == Reporters(nodes, me, rest) + if p in nodes && p != me then {p} else {}
  {
    var rest, p := reports[..|reports| - 1], reports[|reports| - 1];
    assert forall q :: q in reports <==> q in rest || q == p;
  }

  lemma InitialPeers(nodes: seq<PeerId>, me: PeerId, leader: string, threshold: int)
    ensures var s := Initial(nodes, me, leader, threshold);
      && (forall p :: p in s.peers <==> p in nodes && p != me) && Online(s) == {}
      && s.leader == leader && s.threshold == threshold && s.reqCount == 0
  {
  }

  /** One report to a leader, in terms of who is online. */
  lemma LeaderReport(s: Status, p: PeerId)
    requires s.leader != NONE && s.reqCount == |Online(s)|
    ensures Online(Report(s, p).0) == Online(s) + if p in s.peers && |Online(s)| < s.threshold then {p} else {}
  {
    UpdateOnline(s, p);
    if p in s.peers && |Online(s)| < s.threshold {
      assert s.peers[p] ==> p in Online(s);
    }
  }

  /** A leader counts exactly the first `threshold` different listed peers that report, in the order
      of arrival, and all of them if they are fewer. */
  lemma {:induction false} LeaderCountsFirst(nodes: seq<PeerId>, me: PeerId, leader: string, threshold: int,
                                             reports: seq<PeerId>)
    requires leader != NONE
    ensures var online := Online(After(Initial(nodes, me, leader, threshold), reports));
      var all := Reporters(nodes, me, reports);
      && (forall p :: p in online <==> EarlyReporter(nodes, me, threshold, reports, p))
      && online <= all && |online| == Max(0, if |all| < threshold then |all| else threshold)
      && (|all| < threshold ==> online == all)
  {
    var s := Initial(nodes, me, leader, threshold);
    InitialPeers(nodes, me, leader, threshold);
    if reports == [] {
      assert Reporters(nodes, me, reports) == {};
    } else {
      var rest, p := reports[..|reports| - 1], reports[|reports| - 1];
      LeaderCountsFirst(nodes, me, leader, threshold, rest);
      LeaderCounts(nodes, me, leader, threshold, rest);
      LeaderReport(After(s, rest), p);
      OneMoreReport(nodes, me, reports);
      CountOneMore(Online(After(s, rest)), Reporters(nodes, me, rest), p, p in nodes && p != me, threshold);
      forall q { EarlyLater(nodes, me, threshold, reports, q); }
      assert reports[..|reports| - 1] == rest;
    }
  }

  lemma CountOneMore(online: set<PeerId>, all: set<PeerId>, p: PeerId, listed: bool, threshold: int)
    requires online <= all && |online| == Max(0, if |all| < threshold then |all| else threshold)
    requires |all| < threshold ==> online == all
    ensures var more := all + if listed then {p} else {};
      var counted := online + if listed && |online| < threshold then {p} else {};
      && counted <= more && |counted| == Max(0, if |more| < threshold then |more| else threshold)
      && (|more| < threshold ==> counted == more)
      && (|online| < threshold <==> |all| < threshold)
  {
    var more := all + if listed then {p} else {};
    SubsetSize(all, more);
    if |all| < threshold {
      AddOne(all, p);
      assert online + (if listed then {p} else {}) == more;
    }
  }

  lemma AddOne<T>(s: set<T>, x: T)
    ensures |s + {x}| <= |s| + 1
  {
    if x in s {
      assert s + {x} == s;
    }
  }

  /** Without a leader every peer causes one notification, however often it reports. */
  lemma {:induction false} EachPeerSignalsOnce(nodes: seq<PeerId>, me: PeerId, threshold: int, reports: seq<PeerId>)
    ensures var s := Initial(nodes, me, NONE, threshold); var t := After(s, reports);
      && t.leader == NONE && t.peers.Keys == s.peers.Keys
      && Signals(s, reports) == |Online(t)|
      && Online(t) == set p | p in reports && p in s.peers
  {
    var s := Initial(nodes, me, NONE, threshold);
    if reports == [] {
      assert Online(s) == {};
    } else {
      var rest, p := reports[..|reports| - 1], reports[|reports| - 1];
      EachPeerSignalsOnce(nodes, me, threshold, rest);
      UpdateOnline(After(s, rest), p);
      assert forall q :: q in reports <==> q in rest || q == p;
    }
  }

  /** The notification channel has room for one entry per listed node, so no notification blocks. */
  lemma SignalsFitChannel(nodes: seq<PeerId>, me: PeerId, leader: string, threshold: int, reports: seq<PeerId>)
    ensures Signals(Initial(nodes, me, leader, threshold), reports) <= |nodes|
  {
    var s := Initial(nodes, me, leader, threshold);
    var t := After(s, reports);
    if leader == NONE {
      EachPeerSignalsOnce(nodes, me, threshold, reports);
    } else {
      LeaderCounts(nodes, me, leader, threshold, reports);
    }
    SubsetSize(Online(t), SetOf(nodes));
    SizeMeansDistinct(nodes);
  }

  class PeerStatus {
    var peersResponse: map<PeerId, bool>
    const leader: string
    const threshold: int
    var reqCount: nat

    ghost function Value(): Status
      reads this
    {
      Status(peersResponse, leader, threshold, reqCount)
    }

    constructor (peerNodes: seq<PeerId>, myPeerID: PeerId, leader: string, threshold: int)
      ensures Value() == Initial(peerNodes, myPeerID, leader, threshold)
    {
      this.leader, this.threshold, reqCount := leader, threshold, 0;
      peersResponse := map[];
      new;
      for i := 0 to |peerNodes|
        invariant reqCount == 0
        invariant peersResponse == map p | p in peerNodes[..i] && p != myPeerID :: false
      {
        if peerNodes[i] != myPeerID {
          peersResponse := peersResponse[peerNodes[i] := false];
        }
      }
      assert peerNodes[..|peerNodes|] == peerNodes;
    }

    method UpdatePeer(peerNode: PeerId) returns (u: Update)
      modifies this
      ensures (Value(), u) == Report(old(Value()), peerNode)
    {
      if peerNode !in peersResponse {
        return UnknownPeer;
      }
      var val := peersResponse[peerNode];
      if leader == NONE {
        if !val {
          peersResponse := peersResponse[peerNode := true];
          return Updated(true);
        }
        return Updated(false);
      }
      if reqCount >= threshold {
        return Updated(false);
      }
      if !val {
        peersResponse := peersResponse[peerNode := true];
        reqCount := reqCount + 1;
        if reqCount >= threshold {
          return Updated(true);
        }
      }
      return Updated(false);
    }

    /** Online and offline peers, each once, in an arbitrary order. */
    method GetPeersStatus() returns (online: seq<PeerId>, offline: seq<PeerId>)
      ensures NoDuplicates(online) && SetOf(online) == Online(Value())
      ensures NoDuplicates(offline) && SetOf(offline) == peersResponse.Keys - Online(Value())
    {
      online, offline := [], [];
      var todo := peersResponse.Keys;
      while todo != {}
        invariant todo <= peersResponse.Keys
        invariant NoDuplicates(online) && SetOf(online) == Online(Value()) - todo
        invariant NoDuplicates(offline) && SetOf(offline) == peersResponse.Keys - Online(Value()) - todo
        decreases todo
      {
        var peerNode :| peerNode in todo;
        assert SetOf(online + [peerNode]) == SetOf(online) + {peerNode};
        assert SetOf(offline + [peerNode]) == SetOf(offline) + {peerNode};
        if peersResponse[peerNode] {
          assert peerNode !in SetOf(online);
          online := online + [peerNode];
        } else {
          assert peerNode !in SetOf(offline);
          offline := offline + [peerNode];
        }
        todo := todo - {peerNode};
      }
    }

    /** Leaderless joining is complete when nobody is offline. */
    method GetCoordinationStatus() returns (done: bool)
      ensures done <==> Online(Value()) == peersResponse.Keys
    {
      var online, offline := GetPeersStatus();
      done := |offline| == 0;
      if done {
        assert peersResponse.Keys - Online(Value()) == {};
        assert forall p ::
          p in peersResponse.Keys ==> p in peersResponse.Keys - Online(Value()) || p in Online(Value());
      } else {
        assert offline[0] in SetOf(offline);
      }
    }
  }
}

/** Joining with a leader, on every node at once. */
module JoinParty {
  import opened Types
  import opened PeerStatuses

  /** What the leader sends to everybody. */
  datatype Response = Response(success: bool, peers: seq<PeerId>)

  datatype Outcome = Joined(party: seq<PeerId>) | Timeout(party: seq<PeerId>) | NotEnoughPeers(party: seq<PeerId>)
                   | LeaderNotReady | SignReceived

  /** The list is the online peers in some order, followed by the leader itself. */
  ghost predicate PartyList(s: Status, me: PeerId, party: seq<PeerId>) {
    && party != [] && party[|party| - 1] == me
    && NoDuplicates(party[..|party| - 1]) && SetOf(party[..|party| - 1]) == Online(s)
  }

  function LeaderResponse(party: seq<PeerId>, threshold: int): Response {
    Response(|party| >= threshold + 1, party)
  }

  /** The leader's own return value; it publishes nothing when the signature arrived meanwhile. */
  function LeaderOutcome(party: seq<PeerId>, threshold: int): Outcome {
    if |party| < threshold + 1 then Timeout(party) else Joined(party)
  }

  method FormParty(group: PeerStatus, me: PeerId, sigNotify: string)
      returns (out: Outcome, published: Option<Response>)
    ensures sigNotify == "signature received" ==> out == SignReceived && published == None
    ensures sigNotify != "signature received" ==>
      exists party :: PartyList(group.Value(), me, party)
        && out == LeaderOutcome(party, group.threshold) && published == Some(LeaderResponse(party, group.threshold))
  {
    if sigNotify == "signature received" {
      return SignReceived, None;
    }
    var onlinePeers, _ := group.GetPeersStatus();
    var party := onlinePeers + [me];
    assert party[..|party| - 1] == onlinePeers;
    published := Some(LeaderResponse(party, group.threshold));
    if |party| < group.threshold + 1 {
      return Timeout(party), published;
    }
    return Joined(party), published;
  }

  /** What a member makes of the response it holds when it stops waiting. */
  method JoinPartyMember(response: Option<Response>, sigNotify: string, threshold: int) returns (out: Outcome)
    ensures out == MemberOutcome(response, sigNotify == "signature received", threshold)
  {
    if response.None? {
      return LeaderNotReady;
    }
    if sigNotify == "signature received" {
      return SignReceived;
    }
    var pIDs := response.value.peers;
    if |pIDs| < threshold {
      return NotEnoughPeers(pIDs);
    }
    if response.value.success {
      return Joined(pIDs);
    }
    return Timeout(pIDs);
  }

  function MemberOutcome(response: Option<Response>, signed: bool, threshold: int): Outcome {
    match response
    case None => LeaderNotReady
    case Some(r) =>
      if signed then SignReceived
      else if |r.peers| < threshold then NotEnoughPeers(r.peers)
      else if r.success then Joined(r.peers) else Timeout(r.peers)
  }

  // ------------------------------------------------------------ the size of a party

  /** A successful leader has exactly threshold + 1 distinct participants, itself included; it
      succeeds if and only if the threshold was reached. */
  lemma PartySize(nodes: seq<PeerId>, me: PeerId, threshold: nat, reports: seq<PeerId>, party: seq<PeerId>)
    requires me != NONE
    requires PartyList(After(Initial(nodes, me, me, threshold), reports), me, party)
    ensures LeaderOutcome(party, threshold).Joined?
      <==> After(Initial(nodes, me, me, threshold), reports).reqCount == threshold
    ensures LeaderOutcome(party, threshold).Joined? ==> |party| == threshold + 1
    ensures NoDuplicates(party) && me in party && SetOf(party) <= SetOf(nodes) + {me}
  {
    LeaderCounts(nodes, me, me, threshold, reports);
    var t := After(Initial(nodes, me, me, threshold), reports);
    var online := party[..|party| - 1];
    assert party == online + [me];
    SetSize(online);
    forall p | p in online ensures p != me && p in nodes {
      assert p in Online(t) && p in t.peers.Keys;
    }
    OneMore(online, me);
  }

  /** What the leader makes of its party, by the reports alone: it joins exactly if `threshold`
      different listed peers have reported, and tells everybody so. */
  lemma LeaderJoinsIff(nodes: seq<PeerId>, me: PeerId, threshold: nat, reports: seq<PeerId>, party: seq<PeerId>)
    requires me != NONE && PartyList(After(Initial(nodes, me, me, threshold), reports), me, party)
    ensures var formed := |Reporters(nodes, me, reports)| >= threshold;
      && LeaderOutcome(party, threshold) == (if formed then Joined(party) else Timeout(party))
      && LeaderResponse(party, threshold) == Response(formed, party)
    ensures forall p :: p in party <==> p == me || EarlyReporter(nodes, me, threshold, reports, p)
  {
    LeaderCountsFirst(nodes, me, me, threshold, reports);
    var online := party[..|party| - 1];
    SetSize(online);
    assert party == online + [me];
    forall p ensures p in party <==> p == me || EarlyReporter(nodes, me, threshold, reports, p) {
      assert p in SetOf(online) <==> p in online;
    }
  }

  /** With the threshold of keygen a successful party is everybody. */
  lemma KeygenPartyIsComplete(nodes: seq<PeerId>, me: PeerId, reports: seq<PeerId>, party: seq<PeerId>)
    requires me != NONE && NoDuplicates(nodes) && me in nodes
    requires PartyList(After(Initial(nodes, me, me, |nodes| - 1), reports), me, party)
    requires LeaderOutcome(party, |nodes| - 1).Joined?
    ensures SetOf(party) == SetOf(nodes)
  {
    PartySize(nodes, me, |nodes| - 1, reports, party);
    SetSize(party);
    SetSize(nodes);
    assert SetOf(party) <= SetOf(nodes);
    assert SetOf(nodes) == SetOf(party) + (SetOf(nodes) - SetOf(party));
  }

  // ------------------------------------------------------------ all nodes together

  datatype Member = Member(response: Option<Response>, outcome: Option<Outcome>)

  /** The leader's status object, what it returned and published, and the other nodes. */
  datatype System = System(reports: seq<PeerId>, leaderOutcome: Option<Outcome>, published: Option<Response>,
                           members: map<PeerId, Member>)

  datatype Instance = Instance(nodes: seq<PeerId>, leader: PeerId, threshold: nat)

  datatype Event =
    | Request(from: PeerId)
    | LeaderDecides(signed: bool, party: seq<PeerId>)
    | Deliver(from: PeerId, to: PeerId, response: Response)
    | MemberReturns(member: PeerId, signed: bool)

  function StatusOf(i: Instance, s: System): Status {
    After(Initial(i.nodes, i.leader, i.leader, i.threshold), s.reports)
  }

  /** The leader publishes one response, the one it decided on; others may send anything. */
  ghost predicate Enabled(i: Instance, s: System, e: Event) {
    match e
    case Request(from) => true
    case LeaderDecides(signed, party) => s.leaderOutcome.None? && (signed || PartyList(StatusOf(i, s), i.leader, party))
    case Deliver(from, to, response) => to in s.members && (from == i.leader ==> s.published == Some(response))
    case MemberReturns(member, signed) => member in s.members && s.members[member].outcome.None?
  }

  function Step(i: Instance, s: System, e: Event): System {
    match e
    case Request(from) => s.(reports := s.reports + [from])
    case LeaderDecides(signed, party) =>
      if signed then s.(leaderOutcome := Some(SignReceived))
      else s.(leaderOutcome := Some(LeaderOutcome(party, i.threshold)),
             published := Some(LeaderResponse(party, i.threshold)))
    case Deliver(from, to, response) =>
      if from != i.leader || to !in s.members then s
      else s.(members := s.members[to := s.members[to].(response := Some(response))])
    case MemberReturns(m, signed) =>
      if m !in s.members then s
      else
        s.(members := s.members[m :=
            s.members[m].(outcome := Some(MemberOutcome(s.members[m].response, signed, i.threshold)))])
  }

  ghost predicate Run(i: Instance, states: seq<System>, events: seq<Event>) {
    && |states| == |events| + 1
    && states[0].reports == [] && states[0].leaderOutcome.None? && states[0].published.None?
    && (forall m :: m in states[0].members ==> states[0].members[m] == Member(None, None))
    && forall k :: 0 <= k < |events| ==>
      Enabled(i, states[k], events[k]) && states[k + 1] == Step(i, states[k], events[k])
  }

  /** A published success is a full party; members only ever hold the published response. */
  ghost predicate Inv(i: Instance, s: System) {
    && (s.published.Some? && s.published.value.success ==> GoodParty(i, s.published.value.peers))
    && (s.leaderOutcome.Some? && s.leaderOutcome.value.Joined? ==>
          s.published == Some(Response(true, s.leaderOutcome.value.party)))
    && (s.published.Some? ==> s.leaderOutcome.Some?)
    && (forall m :: m in s.members ==> MemberOk(i, s, s.members[m]))
  }

  ghost predicate MemberOk(i: Instance, s: System, m: Member) {
    && (m.response.Some? ==> m.response == s.published)
    && (m.outcome.Some? && m.outcome.value.Joined? ==>
          s.published == Some(Response(true, m.outcome.value.party)))
  }

  ghost predicate GoodParty(i: Instance, party: seq<PeerId>) {
    |party| == i.threshold + 1 && NoDuplicates(party) && i.leader in party
    && SetOf(party) <= SetOf(i.nodes) + {i.leader}
  }

  lemma StepKeepsInv(i: Instance, s: System, e: Event)
    requires i.leader != NONE && Inv(i, s) && Enabled(i, s, e)
    ensures Inv(i, Step(i, s, e))
  {
    match e
    case LeaderDecides(signed, party) =>
      if !signed {
        PartySize(i.nodes, i.leader, i.threshold, s.reports, party);
      }
    case _ =>
  }

  lemma {:induction false} InvAlways(i: Instance, states: seq<System>, events: seq<Event>, k: nat)
    requires i.leader != NONE && Run(i, states, events) && k < |states|
    ensures Inv(i, states[k])
  {
    if k > 0 {
      InvAlways(i, states, events, k - 1);
      StepKeepsInv(i, states[k - 1], events[k - 1]);
    }
  }

  // ------------------------------------------------------------ who joins, by the events

  /** The peers that asked to join so far. */
  function Requests(events: seq<Event>): seq<PeerId> {
    if events == [] then []
    else
      Requests(events[..|events| - 1]) +
      match events[|events| - 1]
      case Request(from) => [from]
      case _ => []
  }

  lemma {:induction false} ReportsAreRequests(i: Instance, states: seq<System>, events: seq<Event>, k: nat)
    requires Run(i, states, events) && k < |states|
    ensures states[k].reports == Requests(events[..k])
  {
    if k > 0 {
      ReportsAreRequests(i, states, events, k - 1);
      assert events[..k][..k - 1] == events[..k - 1];
    } else {
      assert events[..0] == [];
    }
  }

  /** A leader that has the signature already tells nobody anything. */
  lemma SignedLeaderIsSilent(i: Instance, states: seq<System>, events: seq<Event>, k: nat)
    requires i.leader != NONE && Run(i, states, events) && k < |events|
    requires events[k].LeaderDecides? && events[k].signed
    ensures states[k + 1].leaderOutcome == Some(SignReceived) && states[k + 1].published.None?
  {
    InvAlways(i, states, events, k);
  }

  /** A leader that decides without a signature joins exactly if as many different listed peers as the
      threshold says have asked by then; its party is the first of them and itself. */
  lemma LeaderDecidesByRequests(i: Instance, states: seq<System>, events: seq<Event>, k: nat)
    requires i.leader != NONE && Run(i, states, events) && k < |events|
    requires events[k].LeaderDecides? && !events[k].signed
    ensures var party, asked := events[k].party, Requests(events[..k]);
      && var formed := |Reporters(i.nodes, i.leader, asked)| >= i.threshold;
      && states[k + 1].leaderOutcome == Some(if formed then Joined(party) else Timeout(party))
      && states[k + 1].published == Some(Response(formed, party))
      && forall p :: p in party <==> p == i.leader || EarlyReporter(i.nodes, i.leader, i.threshold, asked, p)
  {
    ReportsAreRequests(i, states, events, k);
    LeaderJoinsIff(i.nodes, i.leader, i.threshold, states[k].reports, events[k].party);
  }

  /** The leader's response has reached the member. */
  ghost predicate Heard(i: Instance, events: seq<Event>, m: PeerId) {
    exists k :: 0 <= k < |events| && events[k].Deliver? && events[k].from == i.leader && events[k].to == m
  }

  lemma HeardLater(i: Instance, events: seq<Event>, m: PeerId)
    requires events != []
    ensures var n := |events| - 1;
      Heard(i, events, m)
      <==> Heard(i, events[..n], m) || (events[n].Deliver? && events[n].from == i.leader && events[n].to == m)
  {
    var n := |events| - 1;
    if Heard(i, events[..n], m) {
      var k :| 0 <= k < n && events[..n][k].Deliver? && events[..n][k].from == i.leader && events[..n][k].to == m;
      assert events[k] == events[..n][k];
    }
    if k :| 0 <= k < |events| && events[k].Deliver? && events[k].from == i.leader && events[k].to == m && k < n {
      assert events[..n][k] == events[k];
    }
  }

  lemma {:induction false} HoldsIffHeard(i: Instance, states: seq<System>, events: seq<Event>, k: nat, m: PeerId)
    requires Run(i, states, events) && k < |states| && m in states[k].members
    ensures states[k].members[m].response.Some? <==> Heard(i, events[..k], m)
  {
    if k > 0 {
      HoldsIffHeard(i, states, events, k - 1, m);
      HeardLater(i, events[..k], m);
      assert events[..k][..k - 1] == events[..k - 1];
    }
  }

  lemma PublishedParty(i: Instance, states: seq<System>, events: seq<Event>, k: nat)
    requires i.leader != NONE && Run(i, states, events) && k < |states|
    ensures var s := states[k];
      s.published.Some? ==>
        && s.leaderOutcome.Some?
        && if s.published.value.success
           then s.leaderOutcome.value == Joined(s.published.value.peers) && |s.published.value.peers| == i.threshold + 1
           else s.leaderOutcome.value == Timeout(s.published.value.peers) && |s.published.value.peers| <= i.threshold
    decreases k
  {
    if k > 0 {
      PublishedParty(i, states, events, k - 1);
      if events[k - 1].LeaderDecides? && !events[k - 1].signed {
        PartySize(i.nodes, i.leader, i.threshold, states[k - 1].reports, events[k - 1].party);
        LeaderCounts(i.nodes, i.leader, i.leader, i.threshold, states[k - 1].reports);
      }
    }
  }

  /** A member that stops waiting joins exactly if the leader joined, its response has reached the
      member and no signature has, and then it joins the leader's party. It finds the leader not ready
      exactly if no response has reached it, and peers missing if the leader's party lacked two or more. */
  lemma MemberJoinsIff(i: Instance, states: seq<System>, events: seq<Event>, k: nat)
    requires i.leader != NONE && Run(i, states, events) && k < |events| && events[k].MemberReturns?
    ensures var m, s, signed := events[k].member, states[k], events[k].signed;
      var heard := Heard(i, events[..k], m);
      && m in states[k + 1].members && states[k + 1].members[m].outcome.Some?
      && var out := states[k + 1].members[m].outcome.value;
      && (out == LeaderNotReady <==> !heard) && (out == SignReceived <==> heard && signed)
      && (out.Joined? <==> heard && !signed && s.leaderOutcome.Some? && s.leaderOutcome.value.Joined?)
      && (out.Joined? ==> out == s.leaderOutcome.value)
      && (out.NotEnoughPeers? || out.Timeout? ==>
            && heard && s.leaderOutcome == Some(Timeout(out.party))
            && (out.NotEnoughPeers? <==> |out.party| < i.threshold))
  {
    HoldsIffHeard(i, states, events, k, events[k].member);
    InvAlways(i, states, events, k);
    PublishedParty(i, states, events, k);
  }

  function OutcomeAt(i: Instance, s: System, node: PeerId): Option<Outcome> {
    if node == i.leader then s.leaderOutcome else if node in s.members then s.members[node].outcome else None
  }

  /** Whatever the order of requests, timeouts, deliveries and forged responses, any two nodes
      that join, join the same party: threshold + 1 distinct participants, the leader among them. */
  lemma PartiesAgree(i: Instance, states: seq<System>, events: seq<Event>, k: nat, a: PeerId, b: PeerId)
    requires i.leader != NONE && Run(i, states, events) && k < |states|
    requires OutcomeAt(i, states[k], a).Some? && OutcomeAt(i, states[k], a).value.Joined?
    requires OutcomeAt(i, states[k], b).Some? && OutcomeAt(i, states[k], b).value.Joined?
    ensures OutcomeAt(i, states[k], a) == OutcomeAt(i, states[k], b)
    ensures GoodParty(i, OutcomeAt(i, states[k], a).value.party)
  {
    InvAlways(i, states, events, k);
  }
}
