/** What the blame policies name in the states that runs of the confirmation protocol reach. */
module BlameRuns {
  import opened Types
  import opened Protocol
  import opened Runs
  import opened Agreement
  import opened BlamePolicy
  import M = Managers
  import W = Workers

  /** Every round that the decoder of library messages can name has a fixed place in `names`. */
  ghost predicate DecoderOk(env: Env, names: seq<string>) {
    forall w, p, b :: env.round(w, p, b).Some? ==> RoundNamed(names, env.round(w, p, b).value)
  }

  predicate RoundNamed(names: seq<string>, r: (nat, string)) {
    r.0 < |names| && r.1 == names[r.0]
  }

  /** No wire message claims to come from this node. */
  ghost predicate RunOfOthers(local: PartyId, tr: Trace) {
    forall i :: 0 <= i < |tr.inputs| ==> InputIn(NotFrom(local), tr.inputs[i])
  }

  // ------------------------------------------------------------ who is on the accepted lists

  ghost predicate SharesOf(others: set<PartyId>, names: seq<string>, accepted: W.AcceptedShares) {
    forall r :: r in accepted ==> RoundNamed(names, (r.index, r.roundMsg)) && SetOf(accepted[r]) <= others
  }

  ghost function NotFrom(local: PartyId): iset<WireMessage> {
    iset msg: WireMessage | msg.from != local
  }

  ghost predicate OthersInv(env: Env, local: PartyId, names: seq<string>, node: Node) {
    SharesOf(env.parties.Keys - {local}, names, node.accepted) && CachedIn(NotFrom(local), node)
  }

  ghost predicate QueueNamed(names: seq<string>, queue: seq<W.Job>) {
    forall k :: 0 <= k < |queue| ==> RoundNamed(names, (queue[k].round.index, queue[k].round.roundMsg))
  }

  ghost predicate BulkNamed(names: seq<string>, b: W.Bulk) {
    forall i :: 0 <= i < |b.rounds| && b.rounds[i].Some? ==>
      RoundNamed(names, (b.rounds[i].value.index, b.rounds[i].value.roundMsg))
  }

  lemma {:induction false} PoolKeepsShares(others: set<PartyId>, names: seq<string>, b: W.Bulk, p: W.Pool,
                                           actions: seq<W.Action>, q: W.Pool)
    requires b.from in others && BulkNamed(names, b)
    requires SharesOf(others, names, p.accepted) && QueueNamed(names, p.queue)
    requires W.Run(b, p, actions, q)
    ensures SharesOf(others, names, q.accepted)
    decreases |actions|
  {
    if actions != [] {
      var next := W.Step(b, p, actions[0]);
      match actions[0] {
        case Scan =>
        case Finish(k) => AddKeepsShares(others, names, p.accepted, p.queue[k].round, b.from);
      }
      PoolKeepsShares(others, names, b, next, actions[1..], q);
    }
  }

  lemma AddKeepsShares(others: set<PartyId>, names: seq<string>, accepted: W.AcceptedShares, r: W.RoundInfo,
                       from: PartyId)
    requires SharesOf(others, names, accepted) && from in others && RoundNamed(names, (r.index, r.roundMsg))
    ensures SharesOf(others, names, W.AddShare(accepted, r, from))
  {
    assert SetOf(W.Get(accepted, r) + [from]) == SetOf(W.Get(accepted, r)) + {from};
  }

  lemma BulkIsNamed(env: Env, names: seq<string>, from: PartyId, entries: seq<BulkEntry>, lib: nat -> bool)
    requires DecoderOk(env, names)
    ensures BulkNamed(names, BulkOf(env, from, entries, lib))
  {
    var b := BulkOf(env, from, entries, lib);
    forall i | 0 <= i < |b.rounds| && b.rounds[i].Some?
      ensures RoundNamed(names, (b.rounds[i].value.index, b.rounds[i].value.roundMsg))
    {
      var e := entries[i];
      assert env.round(e.wired, from, e.isBroadcast).Some?;
    }
  }

  lemma TakenSharesAreNamed(env: Env, others: set<PartyId>, names: seq<string>, node: Node, msg: WireMessage,
                            lib: nat -> bool, c: Choices, r: Node)
    requires DecoderOk(env, names) && SharesOf(others, names, node.accepted)
    requires msg.from in others && TookPool(env, node, msg, lib, c, r)
    ensures SharesOf(others, names, r.accepted)
  {
    if r.accepted != node.accepted {
      var entries := env.parse(msg.message).value;
      var b := BulkOf(env, msg.from, entries, lib);
      BulkIsNamed(env, names, msg.from, entries, lib);
      var actions :| W.Run(b, W.Start(node.accepted, node.applied), actions, c.pool);
      PoolKeepsShares(others, names, b, W.Start(node.accepted, node.applied), actions, c.pool);
    }
  }

  /** A message that changes the accepted shares comes from a known party. */
  lemma HandedFromParties(env: Env, node: Node, input: Input, c: Choices)
    requires MessagesKnown(env, node)
    ensures ProcessOneMessage(env, node, input, c).node.accepted != node.accepted ==>
      ShareOf(env, node, input).Some? ==> ShareOf(env, node, input).value.from in env.parties
  {
  }

  lemma StepKeepsOthers(env: Env, local: PartyId, names: seq<string>, node: Node, input: Input, lib: nat -> bool,
                        c: Choices)
    requires DecoderOk(env, names) && InputIn(NotFrom(local), input)
    requires MessagesKnown(env, node) && InputFits(env, node, input, lib, c)
    requires OthersInv(env, local, names, node)
    ensures OthersInv(env, local, names, ProcessOneMessage(env, node, input, c).node)
  {
    var next := ProcessOneMessage(env, node, input, c).node;
    StepKeepsCached(env, NotFrom(local), node, input, c);
    StepTakesPool(env, node, input, lib, c);
    if next.accepted != node.accepted {
      HandedFromParties(env, node, input, c);
      HandedIn(env, NotFrom(local), node, input);
      TakenSharesAreNamed(env, env.parties.Keys - {local}, names, node, ShareOf(env, node, input).value, lib, c, next);
    }
  }

  /** Accepted lists only ever name other parties, under rounds of this protocol. */
  lemma {:induction false} SharesOfOthersAlways(env: Env, local: PartyId, names: seq<string>, tr: Trace, i: nat)
    requires IsRun(env, tr) && RunOfOthers(local, tr) && DecoderOk(env, names) && i < |tr.nodes|
    ensures OthersInv(env, local, names, tr.nodes[i])
  {
    if i > 0 {
      SharesOfOthersAlways(env, local, names, tr, i - 1);
      var c := ChoiceOf(env, tr.nodes[i - 1], tr.inputs[i - 1], tr.libs[i - 1], tr.nodes[i]);
      StepKeepsOthers(env, local, names, tr.nodes[i - 1], tr.inputs[i - 1], tr.libs[i - 1], c);
    }
  }

  lemma StepKeepsParties(env: Env, names: seq<string>, node: Node, input: Input, lib: nat -> bool, c: Choices)
    requires DecoderOk(env, names) && SharesOf(env.parties.Keys, names, node.accepted)
    requires MessagesKnown(env, node) && InputFits(env, node, input, lib, c)
    ensures SharesOf(env.parties.Keys, names, ProcessOneMessage(env, node, input, c).node.accepted)
  {
    var next := ProcessOneMessage(env, node, input, c).node;
    StepTakesPool(env, node, input, lib, c);
    if next.accepted != node.accepted {
      HandedFromParties(env, node, input, c);
      TakenSharesAreNamed(env, env.parties.Keys, names, node, ShareOf(env, node, input).value, lib, c, next);
    }
  }

  /** Without that premise they can name this node too, when its own broadcast is replayed to it. */
  lemma {:induction false} SharesOfPartiesAlways(env: Env, names: seq<string>, tr: Trace, i: nat)
    requires IsRun(env, tr) && DecoderOk(env, names) && i < |tr.nodes|
    ensures SharesOf(env.parties.Keys, names, tr.nodes[i].accepted)
  {
    if i > 0 {
      SharesOfPartiesAlways(env, names, tr, i - 1);
      var c := ChoiceOf(env, tr.nodes[i - 1], tr.inputs[i - 1], tr.libs[i - 1], tr.nodes[i]);
      StepKeepsParties(env, names, tr.nodes[i - 1], tr.inputs[i - 1], tr.libs[i - 1], c);
    }
  }

  /** No accepted list names the party. */
  ghost predicate NotListed(p: PartyId, accepted: W.AcceptedShares) {
    forall r :: r in accepted ==> p !in accepted[r]
  }

  lemma RunsOfOthersDoNotList(env: Env, local: PartyId, names: seq<string>, tr: Trace)
    requires IsRun(env, tr) && RunOfOthers(local, tr) && DecoderOk(env, names)
    ensures NotListed(local, Last(tr).accepted)
  {
    SharesOfOthersAlways(env, local, names, tr, |tr.nodes| - 1);
    forall r | r in Last(tr).accepted ensures local !in Last(tr).accepted[r] {
      assert local !in SetOf(Last(tr).accepted[r]);
    }
  }

  /** So the tables that missing-share blame builds are well formed. */
  lemma RunsFillTables(env: Env, local: PartyId, names: seq<string>, tr: Trace)
    requires IsRun(env, tr) && CleanRun(env, tr) && DecoderOk(env, names)
    ensures RoundsNamed(Last(tr).accepted, |names|)
    ensures ListsOk(Last(tr).accepted, env.parties.Keys)
    ensures NotListed(local, Last(tr).accepted) ==> ListsOk(Last(tr).accepted, env.parties.Keys - {local})
  {
    var accepted := Last(tr).accepted;
    SharesOfPartiesAlways(env, names, tr, |tr.nodes| - 1);
    forall r | r in accepted ensures NoDuplicates(accepted[r]) {
      AcceptedListsAreDuplicateFree(env, tr, r);
    }
  }

  /** `nodes` are the keys of exactly those others that did not deliver in the first round in which
      not exactly one party is absent, each once, and the flag is that of this round; if there is no
      such round they are the keys of everybody else. */
  ghost predicate BlamesByCount(accepted: W.AcceptedShares, parties: set<PartyId>, local: PartyId, id: string,
                                rounds: nat,
                                pubKeys: map<PartyId, string>, nodes: seq<string>, isUnicast: bool)
  {
    && (forall i: nat :: IsFirstShort(accepted, parties, id, rounds, i) ==>
          && M.KeysOfSet(pubKeys, parties - {local} - Delivered(accepted, id, i), nodes)
          && (isUnicast <==> (rounds == 4 && i == 1) || (rounds == 8 && i < 5)))
    && ((forall j :: 0 <= j < rounds ==> OneAbsent(accepted, parties, id, j)) ==>
          M.KeysOfSet(pubKeys, parties - {local}, nodes))
  }

  /** `nodes` are the keys of exactly those others whose share of the first incomplete round never
      arrived, each once, and the flag is that of this round; if no round is incomplete they are
      the keys of everybody else. */
  ghost predicate BlamesMissing(accepted: W.AcceptedShares, others: set<PartyId>, id: string, rounds: nat,
                                pubKeys: map<PartyId, string>, nodes: seq<string>, isUnicast: bool)
  {
    && (forall i: nat :: IsFirstIncomplete(accepted, others, id, rounds, i) ==>
          && nodes != [] && M.KeysOfSet(pubKeys, others - Delivered(accepted, id, i), nodes)
          && (isUnicast <==> (rounds == 4 && i == 1) || (rounds == 8 && i < 5)))
    && ((forall j :: 0 <= j < rounds ==> AllDelivered(accepted, others, id, j)) ==> M.KeysOfSet(pubKeys, others, nodes))
  }

  /** The walk over a single table blames what that table does not clear. */
  lemma OneTable(peers: map<PartyId, PeerId>, local: PartyId, accepted: W.AcceptedShares, rounds: nat, id: string,
                 pubKeys: map<PartyId, string>, nodes: seq<string>, isUnicast: bool) returns (t: ShareTable)
    requires MessageIds(accepted) == {id}
    requires M.MissingShareBlamed(accepted, rounds, peers, local, pubKeys, nodes, isUnicast)
    ensures TableFits(accepted, rounds, id, t)
    ensures M.KeysOfSet(pubKeys, NotIn(peers, local, Cleared(peers, local, t)), nodes)
    ensures isUnicast <==> TableIsUnicast(peers, rounds, t)
  {
    var tables :|
      && M.TablesFit(accepted, rounds, tables)
      && M.Blames(peers, local, pubKeys, tables, nodes)
      && (isUnicast <==> M.AnyUnicast(peers, rounds, tables, tables.Keys));
    assert tables.Keys == {id};
    OnlyTable(peers, local, tables, rounds, id, pubKeys, nodes);
    t := tables[id];
  }

  lemma OnlyTable(peers: map<PartyId, PeerId>, local: PartyId, tables: map<string, ShareTable>, rounds: nat, id: string,
                  pubKeys: map<PartyId, string>, nodes: seq<string>)
    requires tables.Keys == {id} && M.Blames(peers, local, pubKeys, tables, nodes)
    ensures M.KeysOfSet(pubKeys, NotIn(peers, local, Cleared(peers, local, tables[id])), nodes)
    ensures M.AnyUnicast(peers, rounds, tables, tables.Keys) <==> TableIsUnicast(peers, rounds, tables[id])
  {
    var order, blamed :|
      Lists(order, tables.Keys) && M.Walk(peers, local, tables, order, blamed) && M.KeysOf(pubKeys, blamed, nodes);
    SetSize(order);
    assert |tables.Keys| == 1 && order[0] in SetOf(order);
    assert order == [id];
    OneStep(peers, local, tables, id, blamed);
    assert id in tables.Keys;
  }

  lemma OneStep(peers: map<PartyId, PeerId>, local: PartyId, tables: map<string, ShareTable>, id: string,
                blamed: seq<PartyId>)
    requires id in tables && M.Walk(peers, local, tables, [id], blamed)
    ensures Lists(blamed, NotIn(peers, local, Cleared(peers, local, tables[id])))
  {
    var before, absent := LastOfWalk(peers, local, tables, [id], blamed);
    assert blamed == absent;
    assert M.ClearedBy(peers, local, tables, [id]) == Cleared(peers, local, tables[id]);
  }

  lemma LastOfWalk(peers: map<PartyId, PeerId>, local: PartyId, tables: map<string, ShareTable>, order: seq<string>,
                   blamed: seq<PartyId>) returns (before: seq<PartyId>, absent: seq<PartyId>)
    requires SetOf(order) <= tables.Keys && order != [] && M.Walk(peers, local, tables, order, blamed)
    ensures blamed == before + absent && SetOf(order[..|order| - 1]) <= tables.Keys
    ensures M.Walk(peers, local, tables, order[..|order| - 1], before)
    ensures Lists(absent, NotIn(peers, local, M.ClearedBy(peers, local, tables, order)))
  {
    var rest := order[..|order| - 1];
    assert SetOf(rest) <= SetOf(order);
    before, absent :| blamed == before + absent
      && M.Walk(peers, local, tables, rest, before)
      && Lists(absent, NotIn(peers, local, M.ClearedBy(peers, local, tables, order)));
  }

  lemma OneTableByCount(peers: map<PartyId, PeerId>, local: PartyId, accepted: W.AcceptedShares, rounds: nat,
                        id: string,
                        t: ShareTable, pubKeys: map<PartyId, string>, nodes: seq<string>)
    requires local in peers && Injective(peers)
    requires TableFits(accepted, rounds, id, t) && ListsOk(accepted, peers.Keys)
    requires M.KeysOfSet(pubKeys, NotIn(peers, local, Cleared(peers, local, t)), nodes)
    ensures BlamesByCount(accepted, peers.Keys, local, id, rounds, pubKeys, nodes, TableIsUnicast(peers, rounds, t))
  {
    MissingShareBlameByCount(peers, local, accepted, rounds, id, t);
  }

  /** After any run, missing-share blame with one message is exact in terms of its counts. */
  lemma OneMessageBlameByCount(env: Env, local: PartyId, names: seq<string>, tr: Trace, id: string,
                               pubKeys: map<PartyId, string>, nodes: seq<string>, isUnicast: bool)
    requires IsRun(env, tr) && CleanRun(env, tr) && DecoderOk(env, names)
    requires PartiesOk(env) && local in env.parties && MessageIds(Last(tr).accepted) == {id}
    requires M.MissingShareBlamed(Last(tr).accepted, |names|, env.parties, local, pubKeys, nodes, isUnicast)
    ensures BlamesByCount(Last(tr).accepted, env.parties.Keys, local, id, |names|, pubKeys, nodes, isUnicast)
  {
    RunsFillTables(env, local, names, tr);
    var t := OneTable(env.parties, local, Last(tr).accepted, |names|, id, pubKeys, nodes, isUnicast);
    OneTableByCount(env.parties, local, Last(tr).accepted, |names|, id, t, pubKeys, nodes);
  }

  /** And if no accepted list names this node, it is exact in terms of what is missing. */
  lemma OneMessageBlameIsExact(env: Env, local: PartyId, names: seq<string>, tr: Trace, id: string,
                               pubKeys: map<PartyId, string>, nodes: seq<string>, isUnicast: bool)
    requires IsRun(env, tr) && CleanRun(env, tr) && DecoderOk(env, names)
    requires PartiesOk(env) && local in env.parties && MessageIds(Last(tr).accepted) == {id}
    requires NotListed(local, Last(tr).accepted)
    requires M.MissingShareBlamed(Last(tr).accepted, |names|, env.parties, local, pubKeys, nodes, isUnicast)
    ensures BlamesMissing(Last(tr).accepted, env.parties.Keys - {local}, id, |names|, pubKeys, nodes, isUnicast)
  {
    RunsFillTables(env, local, names, tr);
    OneMessageBlameByCount(env, local, names, tr, id, pubKeys, nodes, isUnicast);
    CountsAreExact(Last(tr).accepted, env.parties.Keys, local, id, |names|, pubKeys, nodes, isUnicast);
  }

  lemma CountsAreExact(accepted: W.AcceptedShares, parties: set<PartyId>, local: PartyId, id: string, rounds: nat,
                       pubKeys: map<PartyId, string>, nodes: seq<string>, isUnicast: bool)
    requires local in parties && ListsOk(accepted, parties - {local})
    requires BlamesByCount(accepted, parties, local, id, rounds, pubKeys, nodes, isUnicast)
    ensures BlamesMissing(accepted, parties - {local}, id, rounds, pubKeys, nodes, isUnicast)
  {
    FirstShortIsIncomplete(accepted, parties, local, id, rounds);
    DeliveredAreListed(accepted, parties - {local}, id);
    forall i: nat | IsFirstIncomplete(accepted, parties - {local}, id, rounds, i) ensures nodes != [] {
      assert M.KeysOfSet(pubKeys, parties - {local} - Delivered(accepted, id, i), nodes);
      if nodes == [] {
        EmptyList(pubKeys, parties - {local} - Delivered(accepted, id, i));
      }
    }
  }

  /** The first short round of some message is one whose missing shares may be unicast: the second of
      a keygen, or one of the first five of a keysign. */
  ghost predicate ShortUnicast(accepted: W.AcceptedShares, parties: set<PartyId>, rounds: nat) {
    exists id :: id in MessageIds(accepted) && ShortUnicastOf(accepted, parties, rounds, id)
  }

  ghost predicate ShortUnicastOf(accepted: W.AcceptedShares, parties: set<PartyId>, rounds: nat, id: string) {
    exists i: nat ::
      IsFirstShort(accepted, parties, id, rounds, i) && ((rounds == 4 && i == 1) || (rounds == 8 && i < 5))
  }

  lemma TableFlag(peers: map<PartyId, PeerId>, accepted: W.AcceptedShares, rounds: nat, id: string, t: ShareTable)
    requires TableFits(accepted, rounds, id, t) && ListsOk(accepted, peers.Keys)
    ensures TableIsUnicast(peers, rounds, t) <==> ShortUnicastOf(accepted, peers.Keys, rounds, id)
  {
    var n := FirstShort(t, |peers|);
    forall j: nat | j < rounds ensures |t[j]| + 1 == |peers| <==> OneAbsent(accepted, peers.Keys, id, j) {
      CountInTable(peers.Keys, accepted, rounds, id, t, j);
    }
    if n < rounds {
      assert IsFirstShort(accepted, peers.Keys, id, rounds, n);
    }
    forall i: nat | IsFirstShort(accepted, peers.Keys, id, rounds, i) ensures i == n {
      FirstShortIs(t, |peers|, i);
    }
  }

  /** With any messages, the flag of missing-share blame says whether one of them is like that. */
  lemma FlagIsExact(peers: map<PartyId, PeerId>, local: PartyId, accepted: W.AcceptedShares, rounds: nat,
                    pubKeys: map<PartyId, string>, nodes: seq<string>, isUnicast: bool)
    requires ListsOk(accepted, peers.Keys)
    requires M.MissingShareBlamed(accepted, rounds, peers, local, pubKeys, nodes, isUnicast)
    ensures isUnicast <==> ShortUnicast(accepted, peers.Keys, rounds)
  {
    var tables :|
      && M.TablesFit(accepted, rounds, tables)
      && M.Blames(peers, local, pubKeys, tables, nodes)
      && (isUnicast <==> M.AnyUnicast(peers, rounds, tables, tables.Keys));
    forall id | id in tables
      ensures TableIsUnicast(peers, rounds, tables[id]) <==> ShortUnicastOf(accepted, peers.Keys, rounds, id)
    {
      TableFlag(peers, accepted, rounds, id, tables[id]);
    }
  }

  lemma EmptyList(pubKeys: map<PartyId, string>, parties: set<PartyId>)
    requires M.KeysOfSet(pubKeys, parties, [])
    ensures parties == {}
  {
    var list :| Lists(list, parties) && M.KeysOf(pubKeys, list, []);
    assert list == [];
  }

  // ------------------------------------------------------------ broadcast timeouts

  lemma StoredUnderItsKey(env: Env, members: set<PeerId>, node: Node, key: Key)
    requires AcceptanceInv(env, members, node) && key in node.stored
    ensures key == CacheKey(node.stored[key]) && node.stored[key].from in env.parties
  {
    var i :| 0 <= i < |node.log| && node.log[i].key == key && node.log[i].msg == node.stored[key];
    assert AcceptanceOk(env, node.log[i]);
  }

  /** The round manager holds at most one message of each sender and round. */
  lemma OneStoredPerSender(env: Env, members: set<PeerId>, node: Node, round: string, id: PartyId)
    requires AcceptanceInv(env, members, node)
    ensures StoredFrom(node.stored, round, id) <= {id + "-" + round}
    ensures |StoredFrom(node.stored, round, id)| <= 1
  {
    forall k | k in StoredFrom(node.stored, round, id) ensures k == id + "-" + round {
      StoredUnderItsKey(env, members, node, k);
    }
    var found := StoredFrom(node.stored, round, id);
    assert found == {} || found == {id + "-" + round};
  }

  /** After any run, the list of senders of a round has no sender twice. */
  lemma StandbyListsOnce(env: Env, members: set<PeerId>, tr: Trace, round: string, standby: seq<PartyId>)
    requires IsRun(env, tr) && RunFrom(env, members, tr)
    requires M.ListsSenders(standby, Last(tr).stored, round)
    ensures NoDuplicates(standby)
  {
    AcceptanceAlways(env, members, tr, |tr.nodes| - 1);
    forall i, j | 0 <= i < j < |standby| ensures standby[i] != standby[j] {
      OneStoredPerSender(env, members, Last(tr), round, standby[i]);
      if standby[i] == standby[j] {
        CountedTwice(standby, i, j);
      }
    }
  }

  /** After any run, the timeout policy blames nobody if no message of the round was confirmed,
      and otherwise exactly the other parties under whose cache key none was. */
  lemma TimeoutBlameIsExact(env: Env, members: set<PeerId>, tr: Trace, local: PartyId, round: string, id: PartyId)
    requires IsRun(env, tr) && RunFrom(env, members, tr) && PartiesOk(env)
    ensures var stored := Last(tr).stored;
      id in TimeoutBlamed(env.parties.Keys, local, stored, round) <==>
        && (exists p :: p in env.parties && p + "-" + round in stored)
        && id in env.parties && id != local && id + "-" + round !in stored
  {
    AcceptanceAlways(env, members, tr, |tr.nodes| - 1);
    forall p | p in env.parties ensures p in SendersOf(Last(tr).stored, round) <==> p + "-" + round in Last(tr).stored {
      SenderIffStored(env, members, Last(tr), round, p);
    }
    forall p | p in SendersOf(Last(tr).stored, round) ensures p in env.parties {
      var k :| k in Last(tr).stored && Last(tr).stored[k].roundInfo == round && Last(tr).stored[k].from == p;
      StoredUnderItsKey(env, members, Last(tr), k);
    }
  }

  lemma SenderIffStored(env: Env, members: set<PeerId>, node: Node, round: string, p: PartyId)
    requires AcceptanceInv(env, members, node) && PartiesOk(env) && p in env.parties
    ensures p in SendersOf(node.stored, round) <==> p + "-" + round in node.stored
  {
    var key := p + "-" + round;
    if p in SendersOf(node.stored, round) {
      var k :| k in node.stored && node.stored[k].roundInfo == round && node.stored[k].from == p;
      StoredUnderItsKey(env, members, node, k);
    }
    if key in node.stored {
      StoredUnderItsKey(env, members, node, key);
      SeparatorSplits('-', p, node.stored[key].from, round, node.stored[key].roundInfo);
    }
  }

  // ------------------------------------------------------------ several messages

  /** How many messages of the walk pass before one clears the party. */
  ghost function Waits(peers: map<PartyId, PeerId>, local: PartyId, tables: map<string, ShareTable>,
                       order: seq<string>, p: PartyId): nat
    requires SetOf(order) <= tables.Keys
  {
    if order == [] then 0
    else
      var rest := order[..|order| - 1];
      assert SetOf(rest) <= SetOf(order);
      Waits(peers, local, tables, rest, p)
        + if p in NotIn(peers, local, M.ClearedBy(peers, local, tables, order)) then 1 else 0
  }

  /** A party is listed once for every message that is visited before one clears it. */
  lemma {:induction false} WalkListsUntilCleared(peers: map<PartyId, PeerId>, local: PartyId,
                                                 tables: map<string, ShareTable>,
                                                 order: seq<string>, blamed: seq<PartyId>, p: PartyId)
    requires SetOf(order) <= tables.Keys && M.Walk(peers, local, tables, order, blamed)
    ensures multiset(blamed)[p] == Waits(peers, local, tables, order, p)
    decreases |order|
  {
    if order != [] {
      var before, absent := LastOfWalk(peers, local, tables, order, blamed);
      WalkListsUntilCleared(peers, local, tables, order[..|order| - 1], before, p);
      OnceInList(absent, p);
    }
  }

  lemma OnceInList(list: seq<PartyId>, p: PartyId)
    requires NoDuplicates(list)
    ensures multiset(list)[p] == if p in list then 1 else 0
  {
    if i :| 0 <= i < |list| && list[i] == p {
      assert list == list[..i] + [p] + list[i + 1..];
    }
  }

  /** So what a walk blames is what its first message does not clear. */
  lemma {:induction false} WalkBlamesFirst(peers: map<PartyId, PeerId>, local: PartyId, tables: map<string, ShareTable>,
                                           order: seq<string>, blamed: seq<PartyId>)
    requires SetOf(order) <= tables.Keys && M.Walk(peers, local, tables, order, blamed)
    requires order != [] && order[0] in tables
    ensures SetOf(blamed) == NotIn(peers, local, Cleared(peers, local, tables[order[0]]))
    decreases |order|
  {
    if |order| == 1 {
      assert order == [order[0]];
      OneStep(peers, local, tables, order[0], blamed);
    } else {
      var before, absent := LastOfWalk(peers, local, tables, order, blamed);
      WalkBlamesFirst(peers, local, tables, order[..|order| - 1], before);
      FirstStaysCleared(peers, local, tables, order);
      assert SetOf(absent) <= SetOf(before);
      assert SetOf(blamed) == SetOf(before) + SetOf(absent);
    }
  }

  lemma {:induction false} FirstStaysCleared(peers: map<PartyId, PeerId>, local: PartyId,
                                             tables: map<string, ShareTable>,
                                             order: seq<string>)
    requires SetOf(order) <= tables.Keys && order != [] && order[0] in tables
    ensures NotIn(peers, local, M.ClearedBy(peers, local, tables, order))
      <= NotIn(peers, local, Cleared(peers, local, tables[order[0]]))
    decreases |order|
  {
    var rest := order[..|order| - 1];
    assert SetOf(rest) <= SetOf(order);
    if |order| > 1 {
      FirstStaysCleared(peers, local, tables, rest);
    }
  }

  lemma {:induction false} WalkExists(peers: map<PartyId, PeerId>, local: PartyId, tables: map<string, ShareTable>,
                                      order: seq<string>) returns (blamed: seq<PartyId>)
    requires SetOf(order) <= tables.Keys
    ensures M.Walk(peers, local, tables, order, blamed)
    decreases |order|
  {
    if order == [] {
      blamed := [];
    } else {
      var rest := order[..|order| - 1];
      assert SetOf(rest) <= SetOf(order);
      var before := WalkExists(peers, local, tables, rest);
      var absent := ListOf(NotIn(peers, local, M.ClearedBy(peers, local, tables, order)));
      blamed := before + absent;
    }
  }

  /** Some order of all messages blames exactly this set. */
  ghost predicate CanBlame(peers: map<PartyId, PeerId>, local: PartyId, tables: map<string, ShareTable>,
                           blamed: set<PartyId>) {
    exists order, parties ::
      Lists(order, tables.Keys) && M.Walk(peers, local, tables, order, parties) && SetOf(parties) == blamed
  }

  /** The sets that can be blamed are those that single messages do not clear. */
  lemma CanBlameIff(peers: map<PartyId, PeerId>, local: PartyId, tables: map<string, ShareTable>, blamed: set<PartyId>)
    requires tables != map[]
    ensures CanBlame(peers, local, tables, blamed)
      <==> exists id :: id in tables && blamed == NotIn(peers, local, Cleared(peers, local, tables[id]))
  {
    if CanBlame(peers, local, tables, blamed) {
      var order, parties :|
        Lists(order, tables.Keys) && M.Walk(peers, local, tables, order, parties) && SetOf(parties) == blamed;
      assert order != [] by {
        var id :| id in tables.Keys;
        assert id in SetOf(order);
      }
      assert order[0] in SetOf(order);
      WalkBlamesFirst(peers, local, tables, order, parties);
    }
    if id :| id in tables && blamed == NotIn(peers, local, Cleared(peers, local, tables[id])) {
      var order, parties := WalkFrom(peers, local, tables, id);
    }
  }

  /** A walk over all messages that starts with this one. */
  lemma WalkFrom(peers: map<PartyId, PeerId>, local: PartyId, tables: map<string, ShareTable>, id: string)
      returns (order: seq<string>, parties: seq<PartyId>)
    requires id in tables
    ensures Lists(order, tables.Keys) && M.Walk(peers, local, tables, order, parties)
    ensures SetOf(parties) == NotIn(peers, local, Cleared(peers, local, tables[id]))
  {
    var rest := ListOf(tables.Keys - {id});
    order := [id] + rest;
    assert SetOf(order) == {id} + SetOf(rest);
    assert id !in rest by {
      assert id !in SetOf(rest);
    }
    parties := WalkExists(peers, local, tables, order);
    WalkBlamesFirst(peers, local, tables, order, parties);
  }

  /** The first round in which not exactly one party is absent; `rounds` if there is none. */
  ghost function ShortRound(accepted: W.AcceptedShares, parties: set<PartyId>, rounds: nat, id: string): (r: nat)
    ensures r <= rounds
    ensures forall j :: 0 <= j < r ==> OneAbsent(accepted, parties, id, j)
    ensures r < rounds ==> !OneAbsent(accepted, parties, id, r)
  {
    FirstFalse(RoundsWithOneAbsent(accepted, parties, rounds, id))
  }

  ghost function RoundsWithOneAbsent(accepted: W.AcceptedShares, parties: set<PartyId>, rounds: nat, id: string):
      (s: seq<bool>)
    ensures |s| == rounds
    ensures forall j :: 0 <= j < rounds ==> s[j] == OneAbsent(accepted, parties, id, j)
  {
    seq(rounds, i => OneAbsent(accepted, parties, id, i))
  }

  function FirstFalse(s: seq<bool>): (r: nat)
    ensures r <= |s| && (forall j :: 0 <= j < r ==> s[j]) && (r < |s| ==> !s[r])
  {
    if s == [] || !s[0] then 0 else 1 + FirstFalse(s[1..])
  }

  /** The other senders of this round; nobody if there is none. */
  ghost function FirstSenders(accepted: W.AcceptedShares, parties: set<PartyId>, local: PartyId, rounds: nat,
                              id: string): set<PartyId>
  {
    var i := ShortRound(accepted, parties, rounds, id);
    if i < rounds then Delivered(accepted, id, i) - {local} else {}
  }

  lemma NotClearedIs(peers: map<PartyId, PeerId>, local: PartyId, accepted: W.AcceptedShares, rounds: nat,
                     id: string, t: ShareTable)
    requires local in peers && Injective(peers) && ListsOk(accepted, peers.Keys)
    requires TableFits(accepted, rounds, id, t)
    ensures var senders := FirstSenders(accepted, peers.Keys, local, rounds, id);
      && NotIn(peers, local, Cleared(peers, local, t)) == peers.Keys - {local} - senders
      && senders <= peers.Keys - {local}
  {
    var i := ShortRound(accepted, peers.Keys, rounds, id);
    BlamedAt(peers, local, accepted, rounds, id, t, i);
    if i < rounds {
      DeliveredAreListed(accepted, peers.Keys, id);
      WithoutTwice(peers.Keys, local, Delivered(accepted, id, i));
    }
  }

  lemma WithoutTwice(parties: set<PartyId>, local: PartyId, delivered: set<PartyId>)
    ensures parties - {local} - delivered == parties - {local} - (delivered - {local})
  {
  }

  ghost predicate OrderIrrelevant(peers: map<PartyId, PeerId>, local: PartyId, tables: map<string, ShareTable>) {
    forall x, y :: CanBlame(peers, local, tables, x) && CanBlame(peers, local, tables, y) ==> x == y
  }

  ghost function NotCleared(peers: map<PartyId, PeerId>, local: PartyId, tables: map<string, ShareTable>,
                            id: string): set<PartyId>
    requires id in tables
  {
    NotIn(peers, local, Cleared(peers, local, tables[id]))
  }

  lemma OrderIrrelevantForTables(peers: map<PartyId, PeerId>, local: PartyId, tables: map<string, ShareTable>)
    requires tables != map[]
    ensures OrderIrrelevant(peers, local, tables)
      <==> forall a, b :: a in tables && b in tables ==>
             NotCleared(peers, local, tables, a) == NotCleared(peers, local, tables, b)
  {
    forall x
      ensures CanBlame(peers, local, tables, x)
        <==> exists id :: id in tables && x == NotCleared(peers, local, tables, id)
    {
      CanBlameIff(peers, local, tables, x);
    }
    if OrderIrrelevant(peers, local, tables) {
      forall a, b | a in tables && b in tables
        ensures NotCleared(peers, local, tables, a) == NotCleared(peers, local, tables, b)
      {
        assert CanBlame(peers, local, tables, NotCleared(peers, local, tables, a));
        assert CanBlame(peers, local, tables, NotCleared(peers, local, tables, b));
      }
    }
  }

  lemma SameNotCleared(peers: map<PartyId, PeerId>, local: PartyId, accepted: W.AcceptedShares, rounds: nat,
                       tables: map<string, ShareTable>, a: string, b: string)
    requires local in peers && Injective(peers) && ListsOk(accepted, peers.Keys)
    requires M.TablesFit(accepted, rounds, tables) && a in tables && b in tables
    ensures NotCleared(peers, local, tables, a) == NotCleared(peers, local, tables, b)
      <==> FirstSenders(accepted, peers.Keys, local, rounds, a) == FirstSenders(accepted, peers.Keys, local, rounds, b)
  {
    NotClearedIs(peers, local, accepted, rounds, a, tables[a]);
    NotClearedIs(peers, local, accepted, rounds, b, tables[b]);
    SameRest(peers.Keys - {local}, FirstSenders(accepted, peers.Keys, local, rounds, a),
             FirstSenders(accepted, peers.Keys, local, rounds, b));
  }

  lemma SameRest(all: set<PartyId>, x: set<PartyId>, y: set<PartyId>)
    requires x <= all && y <= all
    ensures all - x == all - y <==> x == y
  {
    assert x == all - (all - x) && y == all - (all - y);
  }

  /** All messages have the same other senders in their first short round. */
  ghost predicate SameFirstSenders(accepted: W.AcceptedShares, parties: set<PartyId>, local: PartyId, rounds: nat) {
    forall a, b :: a in MessageIds(accepted) && b in MessageIds(accepted) ==>
      FirstSenders(accepted, parties, local, rounds, a) == FirstSenders(accepted, parties, local, rounds, b)
  }

  /** All visiting orders blame the same parties exactly if all messages have the same other senders
      in their first short round. */
  lemma OrderIrrelevantIff(peers: map<PartyId, PeerId>, local: PartyId, accepted: W.AcceptedShares, rounds: nat,
                           tables: map<string, ShareTable>)
    requires local in peers && Injective(peers) && ListsOk(accepted, peers.Keys)
    requires M.TablesFit(accepted, rounds, tables) && accepted != map[]
    ensures OrderIrrelevant(peers, local, tables) <==> SameFirstSenders(accepted, peers.Keys, local, rounds)
  {
    var r :| r in accepted;
    assert r.msgIdentifier in MessageIds(accepted);
    OrderIrrelevantForTables(peers, local, tables);
    SameForTables(peers, local, accepted, rounds, tables);
  }

  lemma SameForTables(peers: map<PartyId, PeerId>, local: PartyId, accepted: W.AcceptedShares, rounds: nat,
                      tables: map<string, ShareTable>)
    requires local in peers && Injective(peers) && ListsOk(accepted, peers.Keys)
    requires M.TablesFit(accepted, rounds, tables)
    ensures SameFirstSenders(accepted, peers.Keys, local, rounds)
      <==> forall a, b :: a in tables && b in tables ==>
             NotCleared(peers, local, tables, a) == NotCleared(peers, local, tables, b)
  {
    if SameFirstSenders(accepted, peers.Keys, local, rounds) {
      forall a, b | a in tables && b in tables
        ensures NotCleared(peers, local, tables, a) == NotCleared(peers, local, tables, b)
      {
        assert a in MessageIds(accepted) && b in MessageIds(accepted);
        SameNotCleared(peers, local, accepted, rounds, tables, a, b);
      }
    } else {
      var a, b :| a in MessageIds(accepted) && b in MessageIds(accepted)
        && FirstSenders(accepted, peers.Keys, local, rounds, a) != FirstSenders(accepted, peers.Keys, local, rounds, b);
      assert a in tables && b in tables;
      SameNotCleared(peers, local, accepted, rounds, tables, a, b);
    }
  }

  /** After any run, the parties blamed do not depend on the visiting order exactly if all messages
      have the same other senders in their first short round. */
  lemma RunsBlameAlikeIff(env: Env, local: PartyId, names: seq<string>, tr: Trace, tables: map<string, ShareTable>)
    requires IsRun(env, tr) && CleanRun(env, tr) && DecoderOk(env, names)
    requires PartiesOk(env) && local in env.parties && Last(tr).accepted != map[]
    requires M.TablesFit(Last(tr).accepted, |names|, tables)
    ensures OrderIrrelevant(env.parties, local, tables)
      <==> SameFirstSenders(Last(tr).accepted, env.parties.Keys, local, |names|)
  {
    RunsFillTables(env, local, names, tr);
    OrderIrrelevantIff(env.parties, local, Last(tr).accepted, |names|, tables);
  }

  // ------------------------------------------------------------ a run in which the order matters

  /** A verified unicast message whose bulk is one share. */
  ghost predicate OneShare(env: Env, msg: WireMessage, r: W.RoundInfo) {
    && !msg.isBroadcast && ShareIsValid(env, msg)
    && env.parse(msg.message).Some? && |env.parse(msg.message).value| == 1
    && EntryIs(env, msg.from, env.parse(msg.message).value[0], r)
  }

  /** Such a share is taken when nobody's share of its round was taken before. */
  lemma TakeShare(env: Env, node: Node, msg: WireMessage, r: W.RoundInfo) returns (next: Node)
    requires OneShare(env, msg, r) && r !in node.accepted && MessagesKnown(env, node)
    ensures Next(env, node, TssShare(TSSKeySignMsg, msg), (i: nat) => true, next) && MessagesKnown(env, next)
    ensures next.accepted == node.accepted[r := [msg.from]]
  {
    var lib := (i: nat) => true;
    var b := BulkOf(env, msg.from, env.parse(msg.message).value, lib);
    var pool := W.OutcomeExists(b, node.accepted, node.applied);
    ResolvedIs(env, msg.from, env.parse(msg.message).value, 0, r);
    assert b.rounds == [Some(r)];
    OneEntryTaken(b, node.accepted, node.applied, pool, r);
    var c := Choices("", "", pool);
    next := UpdateLocal(env, node, msg, c).node;
    assert InputFits(env, node, TssShare(TSSKeySignMsg, msg), lib, c);
    assert next == ProcessOneMessage(env, node, TssShare(TSSKeySignMsg, msg), c).node;
  }

  lemma OneEntryTaken(b: W.Bulk, accepted: W.AcceptedShares, applied: multiset<W.Share>, q: W.Pool, r: W.RoundInfo)
    requires b.rounds == [Some(r)] && r !in accepted && b.ok(0)
    requires W.Outcome(b, accepted, applied, q)
    ensures q.accepted == accepted[r := [b.from]]
  {
    W.DistinctIsClean(b, accepted);
    W.Confluence(b, accepted, applied, q);
    assert b.rounds[1..] == [] && W.Stop(b.rounds) == 1;
    assert W.Good(b, accepted, 0);
    assert W.GoodRounds(b, accepted, 1) == {r} by {
      assert b.rounds[0].value == r;
    }
    assert W.Get(accepted, r) + [b.from] == [b.from];
    assert W.Extend(accepted, {r}, b.from) == accepted[r := [b.from]];
  }

  /** Two messages of one keysign, and of each the first share of one party, not the same party:
      whatever else the instance is, a run reaches this, and one visiting order blames the first
      party while the other blames the second. */
  lemma OrderMatters(env: Env, local: PartyId, rounds: nat, ma: WireMessage, mb: WireMessage, ra: W.RoundInfo,
                     rb: W.RoundInfo)
      returns (tr: Trace, tables: map<string, ShareTable>)
    requires PartiesOk(env) && local in env.parties && rounds > 0
    requires OneShare(env, ma, ra) && OneShare(env, mb, rb)
    requires ra.index == rb.index == 0 && ra.msgIdentifier != rb.msgIdentifier
    requires ma.from != local && mb.from != local && ma.from != mb.from
    ensures IsRun(env, tr) && Last(tr).accepted == map[ra := [ma.from], rb := [mb.from]]
    ensures M.TablesFit(Last(tr).accepted, rounds, tables)
    ensures CanBlame(env.parties, local, tables, env.parties.Keys - {local, ma.from})
    ensures CanBlame(env.parties, local, tables, env.parties.Keys - {local, mb.from})
    ensures !OrderIrrelevant(env.parties, local, tables)
  {
    tr := TakeBoth(env, ma, mb, ra, rb);
    tables := TwoTables(rounds, ma.from, mb.from, ra, rb);
    OrderMattersForTables(env.parties, local, tables, ra.msgIdentifier, rb.msgIdentifier, ma.from, mb.from);
  }

  lemma TakeBoth(env: Env, ma: WireMessage, mb: WireMessage, ra: W.RoundInfo, rb: W.RoundInfo) returns (tr: Trace)
    requires OneShare(env, ma, ra) && OneShare(env, mb, rb) && ra != rb
    ensures IsRun(env, tr) && Last(tr).accepted == map[ra := [ma.from], rb := [mb.from]]
  {
    var one := TakeShare(env, FRESH, ma, ra);
    var two := TakeShare(env, one, mb, rb);
    tr := Trace([FRESH, one, two], [TssShare(TSSKeySignMsg, ma), TssShare(TSSKeySignMsg, mb)],
                [(i: nat) => true, (i: nat) => true]);
  }

  lemma TwoTables(rounds: nat, p: PartyId, q: PartyId, ra: W.RoundInfo,
                  rb: W.RoundInfo) returns (tables: map<string, ShareTable>)
    requires rounds > 0 && ra.index == rb.index == 0 && ra.msgIdentifier != rb.msgIdentifier
    ensures M.TablesFit(map[ra := [p], rb := [q]], rounds, tables)
    ensures tables.Keys == {ra.msgIdentifier, rb.msgIdentifier}
    ensures tables[ra.msgIdentifier] != [] && tables[ra.msgIdentifier][0] == [p]
    ensures tables[rb.msgIdentifier] != [] && tables[rb.msgIdentifier][0] == [q]
  {
    var accepted := map[ra := [p], rb := [q]];
    tables := map[ra.msgIdentifier := M.EmptyTable(rounds)[0 := [p]],
                  rb.msgIdentifier := M.EmptyTable(rounds)[0 := [q]]];
    assert ra in accepted && rb in accepted;
    assert MessageIds(accepted) == {ra.msgIdentifier, rb.msgIdentifier};
  }

  lemma OrderMattersForTables(peers: map<PartyId, PeerId>, local: PartyId, tables: map<string, ShareTable>,
                              a: string, b: string, p: PartyId, q: PartyId)
    requires local in peers && Injective(peers) && {p, q} <= peers.Keys && |{local, p, q}| == 3
    requires a in tables && tables[a] != [] && tables[a][0] == [p]
    requires b in tables && tables[b] != [] && tables[b][0] == [q]
    ensures CanBlame(peers, local, tables, peers.Keys - {local, p})
    ensures CanBlame(peers, local, tables, peers.Keys - {local, q})
    ensures !OrderIrrelevant(peers, local, tables)
  {
    SubsetSize({local, p, q}, peers.Keys);
    ShortAtOnce(peers, local, tables[a], p);
    ShortAtOnce(peers, local, tables[b], q);
    CanBlameIff(peers, local, tables, peers.Keys - {local, p});
    CanBlameIff(peers, local, tables, peers.Keys - {local, q});
    assert p in peers.Keys - {local, q} && p !in peers.Keys - {local, p};
  }

  /** With three parties or more, a first round with one sender is short and clears that sender. */
  lemma ShortAtOnce(peers: map<PartyId, PeerId>, local: PartyId, t: ShareTable, p: PartyId)
    requires local in peers && p in peers && p != local && Injective(peers) && |peers| >= 3
    requires t != [] && t[0] == [p]
    ensures NotIn(peers, local, Cleared(peers, local, t)) == peers.Keys - {local, p}
  {
    FirstShortIs(t, |peers|, 0);
    ClearedAreListed(peers, local, [p]);
    assert SetOf([p]) == {p};
  }
}
