/** Who is reported for missing shares in the end: a timed-out instance drops a list of blamed nodes
    that is longer than the threshold, and the list repeats a party for every message of the batch
    that does not clear it. */
module BlameReports {
  import opened Types
  import opened Protocol
  import opened Runs
  import opened Agreement
  import opened BlamePolicy
  import opened BlameRuns
  import M = Managers
  import V = Votes
  import W = Workers

  /** Entries of a walk over the messages in this order. */
  ghost function Entries(peers: map<PartyId, PeerId>, local: PartyId, tables: map<string, ShareTable>,
                         order: seq<string>): nat
    requires SetOf(order) <= tables.Keys
  {
    if order == [] then 0
    else
      var rest := order[..|order| - 1];
      assert SetOf(rest) <= SetOf(order);
      Entries(peers, local, tables, rest) + |NotIn(peers, local, M.ClearedBy(peers, local, tables, order))|
  }

  lemma {:induction false} WalkHasEntries(peers: map<PartyId, PeerId>, local: PartyId, tables: map<string, ShareTable>,
                                          order: seq<string>, blamed: seq<PartyId>)
    requires SetOf(order) <= tables.Keys && M.Walk(peers, local, tables, order, blamed)
    ensures |blamed| == Entries(peers, local, tables, order)
    decreases |order|
  {
    if order != [] {
      var before, absent := LastOfWalk(peers, local, tables, order, blamed);
      WalkHasEntries(peers, local, tables, order[..|order| - 1], before);
      SetSize(absent);
    }
  }

  function KeysFor(pubKeys: map<PartyId, string>, parties: set<PartyId>): set<string> {
    set p | p in parties && p in pubKeys :: pubKeys[p]
  }

  lemma KeysOfTheSet(pubKeys: map<PartyId, string>, parties: seq<PartyId>, nodes: seq<string>)
    requires M.KeysOf(pubKeys, parties, nodes)
    ensures SetOf(nodes) == KeysFor(pubKeys, SetOf(parties))
  {
    forall key | key in KeysFor(pubKeys, SetOf(parties)) ensures key in nodes {
      var p :| p in SetOf(parties) && p in pubKeys && pubKeys[p] == key;
      var i :| 0 <= i < |parties| && parties[i] == p;
      assert nodes[i] == key;
    }
    forall key | key in nodes ensures key in KeysFor(pubKeys, SetOf(parties)) {
      var i :| 0 <= i < |nodes| && nodes[i] == key;
      assert parties[i] in SetOf(parties);
    }
  }

  /** The keys reported after a walk in this order: those of the parties that its first message does
      not clear, unless the walk has too many entries. */
  ghost function ReportOf(peers: map<PartyId, PeerId>, local: PartyId, pubKeys: map<PartyId, string>,
                          tables: map<string, ShareTable>, order: seq<string>, threshold: int): set<string>
    requires SetOf(order) <= tables.Keys
  {
    if order == [] || Entries(peers, local, tables, order) > threshold then {}
    else
      assert order[0] in SetOf(order);
      KeysFor(pubKeys, NotCleared(peers, local, tables, order[0]))
  }

  lemma BlamedNodes(peers: map<PartyId, PeerId>, local: PartyId, accepted: W.AcceptedShares, rounds: nat,
                    pubKeys: map<PartyId, string>, threshold: int, reported: seq<string>, isUnicast: bool)
      returns (nodes: seq<string>)
    requires M.MissingShareReported(accepted, rounds, peers, local, pubKeys, threshold, reported, isUnicast)
    ensures exists unicast :: M.MissingShareBlamed(accepted, rounds, peers, local, pubKeys, nodes, unicast)
    ensures Lists(reported, M.Reported(nodes, threshold))
  {
    var unicast;
    nodes, unicast :|
      && M.MissingShareBlamed(accepted, rounds, peers, local, pubKeys, nodes, unicast)
      && Lists(reported, M.Reported(nodes, threshold)) && (isUnicast <==> unicast && reported != []);
  }

  lemma TablesOf(peers: map<PartyId, PeerId>, local: PartyId, accepted: W.AcceptedShares, rounds: nat,
                 pubKeys: map<PartyId, string>, nodes: seq<string>) returns (tables: map<string, ShareTable>)
    requires exists unicast :: M.MissingShareBlamed(accepted, rounds, peers, local, pubKeys, nodes, unicast)
    ensures M.TablesFit(accepted, rounds, tables) && M.Blames(peers, local, pubKeys, tables, nodes)
  {
    var unicast :| M.MissingShareBlamed(accepted, rounds, peers, local, pubKeys, nodes, unicast);
    tables :|
      && M.TablesFit(accepted, rounds, tables)
      && M.Blames(peers, local, pubKeys, tables, nodes)
      && (unicast <==> M.AnyUnicast(peers, rounds, tables, tables.Keys));
  }

  lemma WalkOf(peers: map<PartyId, PeerId>, local: PartyId, pubKeys: map<PartyId, string>,
               tables: map<string, ShareTable>, nodes: seq<string>) returns (order: seq<string>, parties: seq<PartyId>)
    requires M.Blames(peers, local, pubKeys, tables, nodes)
    ensures Lists(order, tables.Keys) && M.Walk(peers, local, tables, order, parties)
    ensures M.KeysOf(pubKeys, parties, nodes)
  {
    order, parties :|
      Lists(order, tables.Keys) && M.Walk(peers, local, tables, order, parties) && M.KeysOf(pubKeys, parties, nodes);
  }

  /** What is reported, repetitions, length filter and all: some order of the messages decides. */
  lemma ReportIsOfSomeOrder(peers: map<PartyId, PeerId>, local: PartyId, accepted: W.AcceptedShares, rounds: nat,
                            pubKeys: map<PartyId, string>, threshold: int, reported: seq<string>, isUnicast: bool)
      returns (tables: map<string, ShareTable>, order: seq<string>)
    requires M.MissingShareReported(accepted, rounds, peers, local, pubKeys, threshold, reported, isUnicast)
    ensures M.TablesFit(accepted, rounds, tables) && Lists(order, MessageIds(accepted))
    ensures Lists(reported, ReportOf(peers, local, pubKeys, tables, order, threshold))
  {
    var nodes := BlamedNodes(peers, local, accepted, rounds, pubKeys, threshold, reported, isUnicast);
    tables := TablesOf(peers, local, accepted, rounds, pubKeys, nodes);
    var parties;
    order, parties := WalkOf(peers, local, pubKeys, tables, nodes);
    WalkReports(peers, local, pubKeys, tables, order, parties, nodes, threshold);
  }

  /** And every order of the messages can decide it. */
  lemma EveryOrderReports(peers: map<PartyId, PeerId>, local: PartyId, accepted: W.AcceptedShares, rounds: nat,
                          pubKeys: map<PartyId, string>, threshold: int,
                          tables: map<string, ShareTable>, order: seq<string>)
      returns (reported: seq<string>, isUnicast: bool)
    requires M.TablesFit(accepted, rounds, tables) && Lists(order, MessageIds(accepted)) && peers.Keys <= pubKeys.Keys
    ensures M.MissingShareReported(accepted, rounds, peers, local, pubKeys, threshold, reported, isUnicast)
    ensures Lists(reported, ReportOf(peers, local, pubKeys, tables, order, threshold))
  {
    var parties := WalkExists(peers, local, tables, order);
    var nodes := WalkedKeys(peers, local, pubKeys, tables, order, parties);
    WalkReports(peers, local, pubKeys, tables, order, parties, nodes, threshold);
    reported, isUnicast := ReportNodes(peers, local, accepted, rounds, pubKeys, threshold,
                                       tables, order, parties, nodes);
  }

  lemma ReportNodes(peers: map<PartyId, PeerId>, local: PartyId, accepted: W.AcceptedShares, rounds: nat,
                    pubKeys: map<PartyId, string>, threshold: int, tables: map<string, ShareTable>,
                    order: seq<string>, parties: seq<PartyId>, nodes: seq<string>)
      returns (reported: seq<string>, isUnicast: bool)
    requires M.TablesFit(accepted, rounds, tables) && Lists(order, tables.Keys)
    requires M.Walk(peers, local, tables, order, parties) && M.KeysOf(pubKeys, parties, nodes)
    ensures M.MissingShareReported(accepted, rounds, peers, local, pubKeys, threshold, reported, isUnicast)
    ensures Lists(reported, M.Reported(nodes, threshold))
  {
    var unicast := M.AnyUnicast(peers, rounds, tables, tables.Keys);
    assert M.Blames(peers, local, pubKeys, tables, nodes);
    assert M.MissingShareBlamed(accepted, rounds, peers, local, pubKeys, nodes, unicast);
    reported := ListOf(M.Reported(nodes, threshold));
    isUnicast := unicast && reported != [];
  }

  /** What is reported of the nodes of a walk. */
  lemma WalkReports(peers: map<PartyId, PeerId>, local: PartyId, pubKeys: map<PartyId, string>,
                    tables: map<string, ShareTable>, order: seq<string>, parties: seq<PartyId>, nodes: seq<string>,
                    threshold: int)
    requires SetOf(order) <= tables.Keys && M.Walk(peers, local, tables, order, parties)
    requires M.KeysOf(pubKeys, parties, nodes)
    ensures M.Reported(nodes, threshold) == ReportOf(peers, local, pubKeys, tables, order, threshold)
  {
    WalkHasEntries(peers, local, tables, order, parties);
    KeysOfTheSet(pubKeys, parties, nodes);
    if order == [] {
      assert SetOf(nodes) == {};
    } else {
      assert order[0] in SetOf(order);
      WalkBlamesFirst(peers, local, tables, order, parties);
    }
  }

  lemma WalkedKeys(peers: map<PartyId, PeerId>, local: PartyId, pubKeys: map<PartyId, string>,
                   tables: map<string, ShareTable>, order: seq<string>, parties: seq<PartyId>)
      returns (nodes: seq<string>)
    requires SetOf(order) <= tables.Keys && peers.Keys <= pubKeys.Keys
    requires M.Walk(peers, local, tables, order, parties)
    ensures M.KeysOf(pubKeys, parties, nodes)
  {
    if order != [] {
      assert order[0] in SetOf(order);
      WalkBlamesFirst(peers, local, tables, order, parties);
    }
    assert forall i :: 0 <= i < |parties| ==> parties[i] in SetOf(parties);
    nodes := seq(|parties|, i requires 0 <= i < |parties| => pubKeys[parties[i]]);
  }

  // ------------------------------------------------------------ messages that clear the same parties

  ghost predicate LeavesAll(peers: map<PartyId, PeerId>, local: PartyId, tables: map<string, ShareTable>,
                            rest: set<PartyId>) {
    forall id :: id in tables ==> NotCleared(peers, local, tables, id) == rest
  }

  lemma NotInBoth(peers: map<PartyId, PeerId>, local: PartyId, a: seq<PeerId>, b: seq<PeerId>)
    ensures NotIn(peers, local, a + b) == NotIn(peers, local, a) * NotIn(peers, local, b)
  {
  }

  lemma {:induction false} SameEntries(peers: map<PartyId, PeerId>, local: PartyId, tables: map<string, ShareTable>,
                                       order: seq<string>, rest: set<PartyId>)
    requires SetOf(order) <= tables.Keys && LeavesAll(peers, local, tables, rest)
    ensures order != [] ==> NotIn(peers, local, M.ClearedBy(peers, local, tables, order)) == rest
    ensures Entries(peers, local, tables, order) == |order| * |rest|
    decreases |order|
  {
    if order != [] {
      var init, last := order[..|order| - 1], order[|order| - 1];
      assert last in SetOf(order) && SetOf(init) <= SetOf(order);
      SameEntries(peers, local, tables, init, rest);
      NotInBoth(peers, local, M.ClearedBy(peers, local, tables, init), Cleared(peers, local, tables[last]));
      assert NotCleared(peers, local, tables, last) == rest;
      if init == [] {
        assert M.ClearedBy(peers, local, tables, order) == Cleared(peers, local, tables[last]);
      }
      assert (|init| + 1) * |rest| == |init| * |rest| + |rest|;
    }
  }

  lemma LeavesTheRest(peers: map<PartyId, PeerId>, local: PartyId, accepted: W.AcceptedShares, rounds: nat,
                      tables: map<string, ShareTable>, senders: set<PartyId>)
    requires local in peers && Injective(peers) && ListsOk(accepted, peers.Keys)
    requires M.TablesFit(accepted, rounds, tables)
    requires forall id :: id in MessageIds(accepted) ==>
      FirstSenders(accepted, peers.Keys, local, rounds, id) == senders
    ensures LeavesAll(peers, local, tables, peers.Keys - {local} - senders)
  {
    forall id | id in tables ensures NotCleared(peers, local, tables, id) == peers.Keys - {local} - senders {
      NotClearedIs(peers, local, accepted, rounds, id, tables[id]);
    }
  }

  /** If all messages of a batch have the same other senders in their first short round, the
      remaining parties are reported exactly if their number times that of the messages is within
      the threshold: one silent party escapes as soon as the batch is larger than the threshold. */
  lemma SameSendersReport(peers: map<PartyId, PeerId>, local: PartyId, accepted: W.AcceptedShares, rounds: nat,
                          pubKeys: map<PartyId, string>, threshold: int, reported: seq<string>, isUnicast: bool,
                          senders: set<PartyId>)
    requires local in peers && Injective(peers) && ListsOk(accepted, peers.Keys)
    requires M.MissingShareReported(accepted, rounds, peers, local, pubKeys, threshold, reported, isUnicast)
    requires forall id :: id in MessageIds(accepted) ==>
      FirstSenders(accepted, peers.Keys, local, rounds, id) == senders
    ensures var rest := peers.Keys - {local} - senders;
      Lists(reported, if accepted != map[] && |MessageIds(accepted)| * |rest| <= threshold
                      then KeysFor(pubKeys, rest) else {})
  {
    var tables, order := ReportIsOfSomeOrder(peers, local, accepted, rounds, pubKeys, threshold, reported, isUnicast);
    LeavesTheRest(peers, local, accepted, rounds, tables, senders);
    SameEntries(peers, local, tables, order, peers.Keys - {local} - senders);
    SetSize(order);
    if r :| r in accepted {
      assert r.msgIdentifier in SetOf(order);
      assert order[0] in SetOf(order);
    } else {
      assert accepted == map[];
    }
  }

  // ------------------------------------------------------------ complete instances

  ghost predicate NoShortRound(accepted: W.AcceptedShares, parties: set<PartyId>, rounds: nat) {
    forall id, i :: id in MessageIds(accepted) && 0 <= i < rounds ==> OneAbsent(accepted, parties, id, i)
  }

  lemma NobodyCleared(accepted: W.AcceptedShares, parties: set<PartyId>, local: PartyId, rounds: nat)
    requires NoShortRound(accepted, parties, rounds)
    ensures forall id :: id in MessageIds(accepted) ==> FirstSenders(accepted, parties, local, rounds, id) == {}
  {
  }

  lemma MoreThanOnce(times: nat, x: nat)
    requires times > 0
    ensures times * x >= x
  {
    assert times * x == x + (times - 1) * x;
  }

  lemma OthersWithinThreshold(n: nat, messages: nat)
    requires n > 0 && messages > 0
    ensures messages * (n - 1) <= V.Threshold(n) <==> n == 1 || (n == 2 && messages == 1)
  {
    if n >= 3 {
      MoreThanOnce(messages, n - 1);
      assert n - 1 > V.Threshold(n);
    } else if n == 2 {
      assert messages * (n - 1) == messages && V.Threshold(n) == 1;
    } else {
      assert messages * (n - 1) == 0 == V.Threshold(n);
    }
  }

  /** An instance in which every round looks complete blames everybody else, but the length filter
      drops that list again, except for two parties and a single message. */
  lemma CompleteReport(peers: map<PartyId, PeerId>, local: PartyId, accepted: W.AcceptedShares, rounds: nat,
                       pubKeys: map<PartyId, string>, reported: seq<string>, isUnicast: bool)
    requires local in peers && Injective(peers) && ListsOk(accepted, peers.Keys) && accepted != map[]
    requires NoShortRound(accepted, peers.Keys, rounds) && peers.Keys <= pubKeys.Keys
    requires M.MissingShareReported(accepted, rounds, peers, local, pubKeys, V.Threshold(|peers|), reported, isUnicast)
    ensures reported != [] <==> |peers| == 2 && |MessageIds(accepted)| == 1
  {
    NobodyCleared(accepted, peers.Keys, local, rounds);
    SameSendersReport(peers, local, accepted, rounds, pubKeys, V.Threshold(|peers|), reported, isUnicast, {});
    var others := peers.Keys - {local};
    assert others - {} == others;
    var r :| r in accepted;
    assert r.msgIdentifier in MessageIds(accepted);
    ReportOfAll(peers, local, pubKeys, |MessageIds(accepted)|, reported);
  }

  lemma ReportOfAll(peers: map<PartyId, PeerId>, local: PartyId, pubKeys: map<PartyId, string>, messages: nat,
                    reported: seq<string>)
    requires local in peers && peers.Keys <= pubKeys.Keys && messages > 0
    requires var others := peers.Keys - {local};
      Lists(reported, if messages * |others| <= V.Threshold(|peers|) then KeysFor(pubKeys, others) else {})
    ensures reported != [] <==> |peers| == 2 && messages == 1
  {
    var others := peers.Keys - {local};
    assert |others| == |peers| - 1;
    OthersWithinThreshold(|peers|, messages);
    SomeKeys(pubKeys, others);
    ListedIff(reported, if messages * |others| <= V.Threshold(|peers|) then KeysFor(pubKeys, others) else {});
  }

  lemma SomeKeys(pubKeys: map<PartyId, string>, parties: set<PartyId>)
    requires parties <= pubKeys.Keys
    ensures KeysFor(pubKeys, parties) == {} <==> |parties| == 0
  {
    if p :| p in parties {
      assert pubKeys[p] in KeysFor(pubKeys, parties);
    }
  }

  lemma ListedIff<T>(list: seq<T>, elements: set<T>)
    requires Lists(list, elements)
    ensures list == [] <==> elements == {}
  {
    if list != [] {
      assert list[0] in SetOf(list);
    }
  }

  // ------------------------------------------------------------ reachable states

  /** After any run with one message: the others that the first short round does not name are
      reported, each once, exactly if they are not more than the threshold, and nobody otherwise. */
  lemma OneMessageReport(env: Env, local: PartyId, names: seq<string>, tr: Trace, id: string,
                         pubKeys: map<PartyId, string>, reported: seq<string>, isUnicast: bool)
    requires IsRun(env, tr) && CleanRun(env, tr) && DecoderOk(env, names)
    requires PartiesOk(env) && local in env.parties && MessageIds(Last(tr).accepted) == {id}
    requires M.MissingShareReported(Last(tr).accepted, |names|, env.parties, local, pubKeys, Quorum(env),
                                    reported, isUnicast)
    ensures var rest := env.parties.Keys - {local}
        - FirstSenders(Last(tr).accepted, env.parties.Keys, local, |names|, id);
      Lists(reported, if |rest| <= Quorum(env) then KeysFor(pubKeys, rest) else {})
  {
    RunsFillTables(env, local, names, tr);
    OneIdReport(env.parties, local, Last(tr).accepted, |names|, id, pubKeys, Quorum(env), reported, isUnicast);
  }

  lemma OneTimes(ids: set<string>, id: string, n: nat)
    requires ids == {id}
    ensures |ids| * n == n
  {
  }

  lemma OneIdReport(peers: map<PartyId, PeerId>, local: PartyId, accepted: W.AcceptedShares, rounds: nat, id: string,
                    pubKeys: map<PartyId, string>, threshold: int, reported: seq<string>, isUnicast: bool)
    requires local in peers && Injective(peers) && ListsOk(accepted, peers.Keys) && MessageIds(accepted) == {id}
    requires M.MissingShareReported(accepted, rounds, peers, local, pubKeys, threshold, reported, isUnicast)
    ensures var rest := peers.Keys - {local} - FirstSenders(accepted, peers.Keys, local, rounds, id);
      Lists(reported, if |rest| <= threshold then KeysFor(pubKeys, rest) else {})
  {
    assert id in MessageIds(accepted);
    SameSendersReport(peers, local, accepted, rounds, pubKeys, threshold, reported, isUnicast,
                      FirstSenders(accepted, peers.Keys, local, rounds, id));
    OneTimes(MessageIds(accepted), id, |peers.Keys - {local} - FirstSenders(accepted, peers.Keys, local, rounds, id)|);
    assert accepted != map[];
  }

  /** After any run with several messages: one of the messages decides whose keys are reported, if any. */
  lemma RunsReport(env: Env, local: PartyId, names: seq<string>, tr: Trace, pubKeys: map<PartyId, string>,
                   reported: seq<string>, isUnicast: bool) returns (tables: map<string, ShareTable>, order: seq<string>)
    requires IsRun(env, tr) && CleanRun(env, tr) && DecoderOk(env, names)
    requires PartiesOk(env) && local in env.parties && Last(tr).accepted != map[]
    requires M.MissingShareReported(Last(tr).accepted, |names|, env.parties, local, pubKeys, Quorum(env),
                                    reported, isUnicast)
    ensures M.TablesFit(Last(tr).accepted, |names|, tables) && Lists(order, MessageIds(Last(tr).accepted))
      && order != []
    ensures var senders := FirstSenders(Last(tr).accepted, env.parties.Keys, local, |names|, order[0]);
      Lists(reported, if Entries(env.parties, local, tables, order) <= Quorum(env)
                      then KeysFor(pubKeys, env.parties.Keys - {local} - senders) else {})
  {
    RunsFillTables(env, local, names, tr);
    tables, order := ReportIsOfSomeOrder(env.parties, local, Last(tr).accepted, |names|, pubKeys, Quorum(env),
                                          reported, isUnicast);
    var r :| r in Last(tr).accepted;
    assert r.msgIdentifier in SetOf(order);
    assert order[0] in SetOf(order);
    NotClearedIs(env.parties, local, Last(tr).accepted, |names|, order[0], tables[order[0]]);
  }
}
