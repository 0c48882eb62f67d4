/** Grouping of outgoing shares: shares of one type (and, for unicast, one destination) wait in a
    list until there is one per message being signed, and are then sent as one bulk. */
module OutgoingBatches {
  import opened Types

  /** An outgoing share of the library: `to` is empty for a broadcast. */
  datatype OutMsg = OutMsg(msgType: string, isBroadcast: bool, to: seq<string>, data: Bytes, identifier: string)

  datatype BulkWireMsg = BulkWireMsg(data: Bytes, identifier: string, isBroadcast: bool, to: seq<string>)

  function Wired(m: OutMsg): BulkWireMsg {
    BulkWireMsg(m.data, m.identifier, m.isBroadcast, m.to)
  }

  /** Which of the two caches a share goes to, and under which key. */
  datatype CacheKey = Broadcast(msgType: string) | Unicast(key: string)

  function KeyOf(m: OutMsg): CacheKey
    requires !m.isBroadcast ==> m.to != []
  {
    if m.isBroadcast then Broadcast(m.msgType) else Unicast(m.msgType + ":" + m.to[0])
  }

  /** The part before the first separator, as the sender of a unicast bulk computes its round name. */
  function FirstPart(s: string): string {
    if s == [] || s[0] == ':' then [] else [s[0]] + FirstPart(s[1..])
  }

  function RoundName(k: CacheKey): string {
    match k
    case Broadcast(t) => t
    case Unicast(key) => FirstPart(key)
  }

  /** The round name of a bulk is the type of its shares whenever types contain no separator. */
  lemma {:induction false} FirstPartIsType(t: string, dest: string)
    requires ':' !in t
    ensures FirstPart(t + ":" + dest) == t
  {
    if t != [] {
      FirstPartIsType(t[1..], dest);
      assert (t + ":" + dest)[1..] == t[1..] + ":" + dest;
      assert t == [t[0]] + t[1..];
    }
  }

  lemma RoundNameIsType(t: string, dest: string)
    requires ':' !in t
    ensures RoundName(Unicast(t + ":" + dest)) == t && RoundName(Broadcast(t)) == t
  {
    FirstPartIsType(t, dest);
  }

  // ------------------------------------------------------------ one key

  datatype Lane = Lane(pending: seq<BulkWireMsg>, sent: seq<seq<BulkWireMsg>>)

  const EMPTY_LANE := Lane([], [])

  function AddTo(lane: Lane, m: BulkWireMsg): Lane {
    lane.(pending := lane.pending + [m])
  }

  /** A list of exactly the right length is sent, and forgotten if that worked. */
  function Flush(lane: Lane, msgNum: nat, sendOk: bool): Lane {
    if lane.pending != [] && |lane.pending| == msgNum && sendOk then Lane([], lane.sent + [lane.pending]) else lane
  }

  // ------------------------------------------------------------ runs

  /** One outgoing share, and whether sending the bulk of a key works at this moment. */
  datatype Event = Event(msg: OutMsg, sendOk: CacheKey -> bool)

  ghost predicate WellFormed(e: Event) {
    !e.msg.isBroadcast ==> e.msg.to != []
  }

  ghost predicate AllFormed(events: seq<Event>) {
    forall e :: e in events ==> WellFormed(e)
  }

  /** Every key changes in the same way, whatever the order in which the caches are visited. */
  function NextLane(lane: Lane, k: CacheKey, e: Event, msgNum: nat): Lane
    requires WellFormed(e)
  {
    Flush(if KeyOf(e.msg) == k then AddTo(lane, Wired(e.msg)) else lane, msgNum, e.sendOk(k))
  }

  /** The lane of key k after all events. */
  function LaneAfter(events: seq<Event>, k: CacheKey, msgNum: nat): Lane
    requires AllFormed(events)
  {
    if events == [] then EMPTY_LANE
    else NextLane(LaneAfter(events[..|events| - 1], k, msgNum), k, events[|events| - 1], msgNum)
  }

  /** The shares produced for key k, in order. */
  function Produced(events: seq<Event>, k: CacheKey): seq<BulkWireMsg>
    requires AllFormed(events)
  {
    if events == [] then []
    else
      var e := events[|events| - 1];
      assert WellFormed(e);
      Produced(events[..|events| - 1], k) + if KeyOf(e.msg) == k then [Wired(e.msg)] else []
  }

  /** No share is lost, duplicated or reordered, whether or not sending works. */
  lemma {:induction false} Conservation(events: seq<Event>, k: CacheKey, msgNum: nat)
    requires AllFormed(events)
    ensures Flatten(LaneAfter(events, k, msgNum).sent) + LaneAfter(events, k, msgNum).pending == Produced(events, k)
  {
    if events != [] {
      var rest, e := events[..|events| - 1], events[|events| - 1];
      Conservation(rest, k, msgNum);
      var before := LaneAfter(rest, k, msgNum);
      assert WellFormed(e);
      NextLaneKeeps(before, k, e, msgNum);
      assert Produced(events, k) == Produced(rest, k) + if KeyOf(e.msg) == k then [Wired(e.msg)] else [];
    }
  }

  lemma NextLaneKeeps(lane: Lane, k: CacheKey, e: Event, msgNum: nat)
    requires WellFormed(e)
    ensures var next := NextLane(lane, k, e, msgNum);
      Flatten(next.sent) + next.pending
        == Flatten(lane.sent) + lane.pending + if KeyOf(e.msg) == k then [Wired(e.msg)] else []
  {
    var added := if KeyOf(e.msg) == k then AddTo(lane, Wired(e.msg)) else lane;
    FlattenAppend(added.sent, added.pending);
  }

  /** Every bulk holds one share per message, all of its own key. */
  lemma {:induction false} BulksAreFull(events: seq<Event>, k: CacheKey, msgNum: nat)
    requires AllFormed(events)
    ensures forall b :: b in LaneAfter(events, k, msgNum).sent ==> |b| == msgNum
    ensures forall m :: m in Flatten(LaneAfter(events, k, msgNum).sent) + LaneAfter(events, k, msgNum).pending ==>
      exists e :: e in events && KeyOf(e.msg) == k && Wired(e.msg) == m
  {
    Conservation(events, k, msgNum);
    ProducedForKey(events, k);
    if events != [] {
      BulksAreFull(events[..|events| - 1], k, msgNum);
    }
  }

  lemma {:induction false} ProducedForKey(events: seq<Event>, k: CacheKey)
    requires AllFormed(events)
    ensures forall m :: m in Produced(events, k) ==> exists e :: e in events && KeyOf(e.msg) == k && Wired(e.msg) == m
  {
    if events != [] {
      var rest, last := events[..|events| - 1], events[|events| - 1];
      ProducedForKey(rest, k);
      forall m | m in Produced(events, k) ensures exists e :: e in events && KeyOf(e.msg) == k && Wired(e.msg) == m {
        if m in Produced(rest, k) {
          var e :| e in rest && KeyOf(e.msg) == k && Wired(e.msg) == m;
          assert e in events;
        } else {
          assert last in events;
        }
      }
    }
  }

  // ------------------------------------------------------------ lanes by type and destination

  ghost predicate PlainTypes(events: seq<Event>) {
    forall e :: e in events ==> ':' !in e.msg.msgType
  }

  /** What is sent on of the broadcast shares of a type, or of its unicast shares to a destination. */
  function ProducedFor(events: seq<Event>, isBroadcast: bool, msgType: string, dest: string): seq<BulkWireMsg>
    requires AllFormed(events)
  {
    if events == [] then []
    else
      var e := events[|events| - 1];
      assert WellFormed(e);
      var m := e.msg;
      ProducedFor(events[..|events| - 1], isBroadcast, msgType, dest) +
      if m.isBroadcast == isBroadcast && m.msgType == msgType && (isBroadcast || m.to[0] == dest)
      then [BulkWireMsg(m.data, m.identifier, m.isBroadcast, m.to)] else []
  }

  lemma SameUnicastKey(m: OutMsg, t: string, dest: string)
    requires !m.isBroadcast && m.to != [] && ':' !in m.msgType && ':' !in t
    ensures KeyOf(m) == Unicast(t + ":" + dest) <==> m.msgType == t && m.to[0] == dest
  {
    if m.msgType + ":" + m.to[0] == t + ":" + dest {
      SeparatorSplits(':', m.msgType, t, m.to[0], dest);
    }
  }

  lemma {:induction false} ProducedByType(events: seq<Event>, t: string, dest: string)
    requires AllFormed(events) && PlainTypes(events) && ':' !in t
    ensures Produced(events, Unicast(t + ":" + dest)) == ProducedFor(events, false, t, dest)
    ensures Produced(events, Broadcast(t)) == ProducedFor(events, true, t, dest)
  {
    if events != [] {
      var e := events[|events| - 1];
      ProducedByType(events[..|events| - 1], t, dest);
      assert e in events && WellFormed(e);
      if !e.msg.isBroadcast {
        SameUnicastKey(e.msg, t, dest);
      }
    }
  }

  /** The unicast lane of a type and a destination holds exactly the shares of that type for that
      destination, sent or waiting, in order, and the broadcast lane of a type those of the type. */
  lemma LanesByType(events: seq<Event>, t: string, dest: string, msgNum: nat)
    requires AllFormed(events) && PlainTypes(events) && ':' !in t
    ensures var lane := LaneAfter(events, Unicast(t + ":" + dest), msgNum);
      Flatten(lane.sent) + lane.pending == ProducedFor(events, false, t, dest)
    ensures var lane := LaneAfter(events, Broadcast(t), msgNum);
      Flatten(lane.sent) + lane.pending == ProducedFor(events, true, t, dest)
  {
    Conservation(events, Unicast(t + ":" + dest), msgNum);
    Conservation(events, Broadcast(t), msgNum);
    ProducedByType(events, t, dest);
  }

  lemma {:induction false} InFlatten<T>(lists: seq<seq<T>>, list: seq<T>, x: T)
    requires list in lists && x in list
    ensures x in Flatten(lists)
  {
    var init, last := lists[..|lists| - 1], lists[|lists| - 1];
    if list != last {
      assert list in init;
      InFlatten(init, list, x);
    }
  }

  lemma EntryCame(events: seq<Event>, k: CacheKey, msgNum: nat, bulk: seq<BulkWireMsg>,
                  m: BulkWireMsg) returns (e: Event)
    requires AllFormed(events) && bulk in LaneAfter(events, k, msgNum).sent && m in bulk
    ensures e in events && WellFormed(e) && KeyOf(e.msg) == k
    ensures m == BulkWireMsg(e.msg.data, e.msg.identifier, e.msg.isBroadcast, e.msg.to)
  {
    BulksAreFull(events, k, msgNum);
    InFlatten(LaneAfter(events, k, msgNum).sent, bulk, m);
    assert m in Flatten(LaneAfter(events, k, msgNum).sent) + LaneAfter(events, k, msgNum).pending;
    e :| e in events && KeyOf(e.msg) == k && Wired(e.msg) == m;
  }

  /** All entries of a bulk are of one kind and, if unicast, for one destination, so that sending the
      bulk to the destination of its first entry shows nobody a share for another party. */
  lemma OneDestination(events: seq<Event>, k: CacheKey, msgNum: nat, bulk: seq<BulkWireMsg>, a: BulkWireMsg,
                       b: BulkWireMsg)
    requires AllFormed(events) && PlainTypes(events)
    requires bulk in LaneAfter(events, k, msgNum).sent && a in bulk && b in bulk
    ensures a.isBroadcast == b.isBroadcast
    ensures !a.isBroadcast ==> a.to != [] && b.to != [] && a.to[0] == b.to[0]
  {
    var x := EntryCame(events, k, msgNum, bulk, a);
    var y := EntryCame(events, k, msgNum, bulk, b);
    if !a.isBroadcast {
      SameUnicastKey(x.msg, y.msg.msgType, y.msg.to[0]);
    }
  }

  /** Two unicast shares can be in one bulk exactly if they have the same type and first destination. */
  lemma ShareLaneIff(a: Event, b: Event)
    requires !a.msg.isBroadcast && !b.msg.isBroadcast && a.msg.to != [] && b.msg.to != []
    requires PlainTypes([a, b])
    ensures (exists k :: Produced([a], k) != [] && Produced([b], k) != [])
      <==> a.msg.msgType == b.msg.msgType && a.msg.to[0] == b.msg.to[0]
  {
    assert a in [a, b] && b in [a, b];
    assert [a][..0] == [] && [b][..0] == [];
    SameUnicastKey(a.msg, b.msg.msgType, b.msg.to[0]);
    assert Produced([b], KeyOf(b.msg)) == [] + [Wired(b.msg)];
    if a.msg.msgType == b.msg.msgType && a.msg.to[0] == b.msg.to[0] {
      assert Produced([a], KeyOf(b.msg)) == [] + [Wired(a.msg)];
    }
  }

  // ------------------------------------------------------------ failed sends

  /** Sending the list of key k failed when it was due at event i. */
  predicate SendFailed(events: seq<Event>, k: CacheKey, msgNum: nat, i: nat)
    requires AllFormed(events)
    requires i < |events|
  {
    var before := LaneAfter(events[..i], k, msgNum);
    assert WellFormed(events[i]);
    var added := if KeyOf(events[i].msg) == k then AddTo(before, Wired(events[i].msg)) else before;
    added.pending != [] && |added.pending| == msgNum && !events[i].sendOk(k)
  }

  /** After every event fewer shares than messages are waiting. */
  ghost predicate AlwaysShort(events: seq<Event>, k: CacheKey, msgNum: nat)
    requires AllFormed(events)
  {
    forall i :: 0 <= i <= |events| ==> |LaneAfter(events[..i], k, msgNum).pending| < msgNum
  }

  lemma {:induction false} ShortUnlessFailed(events: seq<Event>, k: CacheKey, msgNum: nat, n: nat)
    requires msgNum >= 1 && n <= |events|
    requires AllFormed(events)
    requires forall i :: 0 <= i < n ==> !SendFailed(events, k, msgNum, i)
    ensures |LaneAfter(events[..n], k, msgNum).pending| < msgNum
  {
    if n > 0 {
      ShortUnlessFailed(events, k, msgNum, n - 1);
      assert events[..n][..n - 1] == events[..n - 1];
      assert !SendFailed(events, k, msgNum, n - 1);
    }
  }

  /** The bound on the waiting lists holds exactly for the runs in which no due send fails. */
  lemma AlwaysShortIff(events: seq<Event>, k: CacheKey, msgNum: nat)
    requires msgNum >= 1
    requires AllFormed(events)
    ensures AlwaysShort(events, k, msgNum) <==> forall i :: 0 <= i < |events| ==> !SendFailed(events, k, msgNum, i)
  {
    if forall i :: 0 <= i < |events| ==> !SendFailed(events, k, msgNum, i) {
      forall i | 0 <= i <= |events| ensures |LaneAfter(events[..i], k, msgNum).pending| < msgNum {
        ShortUnlessFailed(events, k, msgNum, i);
      }
    } else {
      var i :| 0 <= i < |events| && SendFailed(events, k, msgNum, i);
      assert events[..i + 1][..i] == events[..i];
      assert |LaneAfter(events[..i + 1], k, msgNum).pending| == msgNum;
    }
  }

  lemma LaneStep(events: seq<Event>, k: CacheKey, msgNum: nat, i: nat)
    requires AllFormed(events) && i < |events|
    ensures WellFormed(events[i])
    ensures LaneAfter(events[..i + 1], k, msgNum) == NextLane(LaneAfter(events[..i], k, msgNum), k, events[i], msgNum)
  {
    assert events[..i + 1][..i] == events[..i];
    assert events[i] in events;
  }

  /** A full list whose send failed stays as it is while no share of its key comes and sending does
      not work; this holds for event `j` and all after `i` before it. */
  lemma {:induction false} FullListWaits(events: seq<Event>, k: CacheKey, msgNum: nat, i: nat, j: nat)
    requires AllFormed(events) && msgNum > 0 && i <= j <= |events|
    requires |LaneAfter(events[..i], k, msgNum).pending| == msgNum
    requires forall l :: i <= l < j ==> WellFormed(events[l]) && KeyOf(events[l].msg) != k && !events[l].sendOk(k)
    ensures LaneAfter(events[..j], k, msgNum) == LaneAfter(events[..i], k, msgNum)
  {
    if i < j {
      FullListWaits(events, k, msgNum, i, j - 1);
      LaneStep(events, k, msgNum, j - 1);
    }
  }

  /** A failed send is not the end: the next call at which sending works sends the list, whatever
      share that call is for, unless another share of the same key came first. */
  lemma FailedSendIsRetried(events: seq<Event>, k: CacheKey, msgNum: nat, i: nat, j: nat)
    requires AllFormed(events) && msgNum > 0 && i < j < |events| && SendFailed(events, k, msgNum, i)
    requires forall l :: i < l <= j ==> WellFormed(events[l]) && KeyOf(events[l].msg) != k
    requires (forall l :: i < l < j ==> !events[l].sendOk(k)) && events[j].sendOk(k)
    ensures var full, after := LaneAfter(events[..i + 1], k, msgNum), LaneAfter(events[..j + 1], k, msgNum);
      |full.pending| == msgNum && after == Lane([], full.sent + [full.pending])
  {
    LaneStep(events, k, msgNum, i);
    FullListWaits(events, k, msgNum, i + 1, j);
    LaneStep(events, k, msgNum, j);
  }

  /** Event i brings one more share for a list that is full already. */
  ghost predicate OneTooMany(events: seq<Event>, k: CacheKey, msgNum: nat, i: nat)
    requires AllFormed(events) && i < |events|
  {
    && |LaneAfter(events[..i], k, msgNum).pending| == msgNum > 0
    && events[i] in events && KeyOf(events[i].msg) == k
  }

  ghost predicate Overfull(events: seq<Event>, k: CacheKey, msgNum: nat, i: nat)
    requires AllFormed(events) && i <= |events|
  {
    |LaneAfter(events[..i], k, msgNum).pending| > msgNum
  }

  lemma {:induction false} OverfullHasCause(events: seq<Event>, k: CacheKey, msgNum: nat, i: nat)
    requires AllFormed(events) && msgNum > 0 && i <= |events| && Overfull(events, k, msgNum, i)
    ensures exists j :: 0 <= j < |events| && OneTooMany(events, k, msgNum, j)
  {
    if i > 0 {
      LaneStep(events, k, msgNum, i - 1);
      if Overfull(events, k, msgNum, i - 1) {
        OverfullHasCause(events, k, msgNum, i - 1);
      } else {
        assert OneTooMany(events, k, msgNum, i - 1);
      }
    }
  }

  /** A list outgrows the number of messages exactly if another share of its key comes while it is
      full, which it only is after a failed send. */
  lemma OutgrowsIff(events: seq<Event>, k: CacheKey, msgNum: nat)
    requires AllFormed(events) && msgNum > 0
    ensures (exists i :: 0 <= i <= |events| && Overfull(events, k, msgNum, i))
      <==> (exists i :: 0 <= i < |events| && OneTooMany(events, k, msgNum, i))
  {
    if i :| 0 <= i <= |events| && Overfull(events, k, msgNum, i) {
      OverfullHasCause(events, k, msgNum, i);
    }
    if i :| 0 <= i < |events| && OneTooMany(events, k, msgNum, i) {
      LaneStep(events, k, msgNum, i);
      assert Overfull(events, k, msgNum, i + 1);
    }
  }

  /** With at most one share per message for a key its list never outgrows, whatever fails: all of
      its shares wait, or they all left as one bulk. */
  lemma OneBulkPerKey(events: seq<Event>, k: CacheKey, msgNum: nat)
    requires AllFormed(events) && msgNum > 0 && |Produced(events, k)| <= msgNum
    ensures var lane := LaneAfter(events, k, msgNum);
      || lane == Lane(Produced(events, k), [])
      || (|Produced(events, k)| == msgNum && lane == Lane([], [Produced(events, k)]))
  {
    Conservation(events, k, msgNum);
    BulksAreFull(events, k, msgNum);
    var lane := LaneAfter(events, k, msgNum);
    if lane.sent == [] {
      assert Flatten(lane.sent) + lane.pending == lane.pending;
    } else {
      if |lane.sent| >= 2 {
        TwoBulksAreLong(lane.sent, msgNum);
      }
      assert lane.sent == [lane.sent[0]] && lane.sent[0] in lane.sent;
      assert Flatten(lane.sent) == [] + lane.sent[0] == lane.sent[0];
      assert lane.pending == [];
      assert Flatten(lane.sent) + lane.pending == Flatten(lane.sent);
    }
  }

  lemma TwoBulksAreLong(bulks: seq<seq<BulkWireMsg>>, size: nat)
    requires |bulks| >= 2 && forall b :: b in bulks ==> |b| == size
    ensures |Flatten(bulks)| >= 2 * size
  {
    var init := bulks[..|bulks| - 1];
    assert bulks[|bulks| - 1] in bulks && init[|init| - 1] in bulks;
    assert |Flatten(init)| >= |init[|init| - 1]|;
  }

  /** A list that has grown past the limit is never sent again. */
  lemma {:induction false} OverfullIsStuck(events: seq<Event>, k: CacheKey, msgNum: nat, i: nat)
    requires AllFormed(events) && i <= |events| && Overfull(events, k, msgNum, i)
    ensures LaneAfter(events, k, msgNum).sent == LaneAfter(events[..i], k, msgNum).sent
    ensures |LaneAfter(events, k, msgNum).pending| > msgNum
    decreases |events|
  {
    if i == |events| {
      assert events[..i] == events;
    } else {
      var rest := events[..|events| - 1];
      assert rest[..i] == events[..i];
      OverfullIsStuck(rest, k, msgNum, i);
    }
  }

  /** The same share again and again, with a connection that is down. */
  function Repeated(m: OutMsg, n: nat): seq<Event> {
    seq(n, _ => Event(m, (key: CacheKey) => false))
  }

  lemma {:induction false} RepeatedFills(m: OutMsg, n: nat, msgNum: nat)
    requires !m.isBroadcast ==> m.to != []
    ensures AllFormed(Repeated(m, n))
    ensures var lane := LaneAfter(Repeated(m, n), KeyOf(m), msgNum); lane.sent == [] && |lane.pending| == n
  {
    var events := Repeated(m, n);
    if n > 0 {
      RepeatedFills(m, n - 1, msgNum);
      assert events[..n - 1] == Repeated(m, n - 1);
    }
  }

  /** One share more than there are messages, all while sending fails, is never sent, whatever
      happens afterwards. */
  lemma SurplusIsStuck(m: OutMsg, msgNum: nat, later: seq<Event>)
    requires (!m.isBroadcast ==> m.to != []) && AllFormed(later)
    ensures AllFormed(Repeated(m, msgNum + 1) + later)
    ensures LaneAfter(Repeated(m, msgNum + 1) + later, KeyOf(m), msgNum).sent == []
  {
    var first := Repeated(m, msgNum + 1);
    RepeatedFills(m, msgNum + 1, msgNum);
    assert (first + later)[..|first|] == first;
    OverfullIsStuck(first + later, KeyOf(m), msgNum, |first|);
  }

  // ------------------------------------------------------------ the caches

  /** `to` is where the bulk goes: the destination of its first entry, all other peers if there is none. */
  datatype Emitted = Emitted(key: CacheKey, roundName: string, to: seq<string>, bulk: seq<BulkWireMsg>)

  function SentFor(sent: seq<Emitted>, k: CacheKey): seq<seq<BulkWireMsg>> {
    if sent == [] then []
    else SentFor(sent[..|sent| - 1], k) + if sent[|sent| - 1].key == k then [sent[|sent| - 1].bulk] else []
  }

  lemma SentForAppend(sent: seq<Emitted>, e: Emitted, k: CacheKey)
    ensures SentFor(sent + [e], k) == SentFor(sent, k) + if e.key == k then [e.bulk] else []
  {
    assert (sent + [e])[..|sent|] == sent;
  }

  function Pending(lists: map<string, seq<BulkWireMsg>>, key: string): seq<BulkWireMsg> {
    if key in lists then lists[key] else []
  }

  class Batcher {
    const msgNum: nat
    var cachedWireBroadcastMsgLists: map<string, seq<BulkWireMsg>>
    var cachedWireUnicastMsgLists: map<string, seq<BulkWireMsg>>
    var sent: seq<Emitted>

    ghost function LaneAt(k: CacheKey): Lane
      reads this
    {
      Lane(match k
           case Broadcast(t) => Pending(cachedWireBroadcastMsgLists, t)
           case Unicast(key) => Pending(cachedWireUnicastMsgLists, key),
           SentFor(sent, k))
    }

    /** Every lane as it is now. */
    ghost function Lanes(): (lanes: CacheKey -> Lane)
      reads this
      ensures forall k :: lanes(k) == LaneAt(k)
    {
      var (bs, us, out) := (cachedWireBroadcastMsgLists, cachedWireUnicastMsgLists, sent);
      (k: CacheKey) =>
        Lane(match k
             case Broadcast(t) => Pending(bs, t)
             case Unicast(key) => Pending(us, key),
             SentFor(out, k))
    }

    /** No cached list is empty; every bulk carries the round name of its key. */
    ghost predicate Valid()
      reads this
    {
      && (forall t :: t in cachedWireBroadcastMsgLists ==> cachedWireBroadcastMsgLists[t] != [])
      && (forall t :: t in cachedWireUnicastMsgLists ==> cachedWireUnicastMsgLists[t] != [])
      && (forall e :: e in sent ==> e.roundName == RoundName(e.key) && e.bulk != [] && e.to == e.bulk[0].to)
    }

    constructor (msgNum: nat)
      ensures Valid() && this.msgNum == msgNum
      ensures forall k :: LaneAt(k) == EMPTY_LANE
    {
      this.msgNum := msgNum;
      cachedWireBroadcastMsgLists, cachedWireUnicastMsgLists, sent := map[], map[], [];
    }

    method SendBulkMsg(key: CacheKey, wiredMsgType: string, wiredMsgList: seq<BulkWireMsg>, sendOk: CacheKey -> bool)
        returns (ok: bool)
      requires Valid() && wiredMsgType == RoundName(key) && wiredMsgList != []
      modifies this`sent
      ensures Valid() && ok == sendOk(key)
      ensures sent ==
        if ok then old(sent) + [Emitted(key, wiredMsgType, wiredMsgList[0].to, wiredMsgList)] else old(sent)
    {
      ok := sendOk(key);
      if ok {
        sent := sent + [Emitted(key, wiredMsgType, wiredMsgList[0].to, wiredMsgList)];
      }
    }

    method CacheMsg(msg: OutMsg)
      requires Valid() && (!msg.isBroadcast ==> msg.to != [])
      modifies this`cachedWireBroadcastMsgLists, this`cachedWireUnicastMsgLists
      ensures Valid()
      ensures forall k :: LaneAt(k) == if KeyOf(msg) == k then AddTo(old(LaneAt(k)), Wired(msg)) else old(LaneAt(k))
    {
      var cachedWiredMsg := Wired(msg);
      if msg.isBroadcast {
        var cachedList := Pending(cachedWireBroadcastMsgLists, msg.msgType);
        cachedWireBroadcastMsgLists := cachedWireBroadcastMsgLists[msg.msgType := cachedList + [cachedWiredMsg]];
      } else {
        var key := msg.msgType + ":" + msg.to[0];
        var cachedList := Pending(cachedWireUnicastMsgLists, key);
        cachedWireUnicastMsgLists := cachedWireUnicastMsgLists[key := cachedList + [cachedWiredMsg]];
      }
    }

    method FlushUnicastList(key: string, sendOk: CacheKey -> bool)
      requires Valid() && key in cachedWireUnicastMsgLists
      modifies this`cachedWireUnicastMsgLists, this`sent
      ensures Valid() && old(cachedWireUnicastMsgLists.Keys) - {key} <= cachedWireUnicastMsgLists.Keys
      ensures forall k ::
        LaneAt(k) == if k == Unicast(key) then Flush(old(LaneAt(k)), msgNum, sendOk(k)) else old(LaneAt(k))
    {
      var wiredMsgList := cachedWireUnicastMsgLists[key];
      if |wiredMsgList| == msgNum {
        var ok := SendBulkMsg(Unicast(key), FirstPart(key), wiredMsgList, sendOk);
        if ok {
          forall k {
            SentForAppend(old(sent), Emitted(Unicast(key), FirstPart(key), wiredMsgList[0].to, wiredMsgList), k);
          }
          cachedWireUnicastMsgLists := cachedWireUnicastMsgLists - {key};
        }
      }
    }

    /** Every unicast list, in an arbitrary order. */
    method FlushUnicast(sendOk: CacheKey -> bool)
      requires Valid()
      modifies this`cachedWireUnicastMsgLists, this`sent
      ensures Valid()
      ensures forall k :: LaneAt(k) == if k.Unicast? then Flush(old(LaneAt(k)), msgNum, sendOk(k)) else old(LaneAt(k))
    {
      ghost var before, keys := Lanes(), cachedWireUnicastMsgLists.Keys;
      var todo := cachedWireUnicastMsgLists.Keys;
      while todo != {}
        invariant Valid() && todo <= cachedWireUnicastMsgLists.Keys && todo <= keys
        invariant forall k ::
          LaneAt(k) == PartlyFlushed(before, set key | key in keys - todo :: Unicast(key), k, msgNum, sendOk)
        decreases todo
      {
        var key :| key in todo;
        FlushUnicastList(key, sendOk);
        todo := todo - {key};
      }
    }

    method FlushBroadcastList(key: string, sendOk: CacheKey -> bool)
      requires Valid() && key in cachedWireBroadcastMsgLists
      modifies this`cachedWireBroadcastMsgLists, this`sent
      ensures Valid() && old(cachedWireBroadcastMsgLists.Keys) - {key} <= cachedWireBroadcastMsgLists.Keys
      ensures forall k ::
        LaneAt(k) == if k == Broadcast(key) then Flush(old(LaneAt(k)), msgNum, sendOk(k)) else old(LaneAt(k))
    {
      var wiredMsgList := cachedWireBroadcastMsgLists[key];
      if |wiredMsgList| == msgNum {
        var ok := SendBulkMsg(Broadcast(key), key, wiredMsgList, sendOk);
        if ok {
          forall k { SentForAppend(old(sent), Emitted(Broadcast(key), key, wiredMsgList[0].to, wiredMsgList), k); }
          cachedWireBroadcastMsgLists := cachedWireBroadcastMsgLists - {key};
        }
      }
    }

    /** Every broadcast list, in an arbitrary order. */
    method FlushBroadcast(sendOk: CacheKey -> bool)
      requires Valid()
      modifies this`cachedWireBroadcastMsgLists, this`sent
      ensures Valid()
      ensures forall k :: LaneAt(k) == if k.Broadcast? then Flush(old(LaneAt(k)), msgNum, sendOk(k)) else old(LaneAt(k))
    {
      ghost var before, keys := Lanes(), cachedWireBroadcastMsgLists.Keys;
      var todo := cachedWireBroadcastMsgLists.Keys;
      while todo != {}
        invariant Valid() && todo <= cachedWireBroadcastMsgLists.Keys && todo <= keys
        invariant forall k ::
          LaneAt(k) == PartlyFlushed(before, set key | key in keys - todo :: Broadcast(key), k, msgNum, sendOk)
        decreases todo
      {
        var key :| key in todo;
        FlushBroadcastList(key, sendOk);
        todo := todo - {key};
      }
    }

    /** Caches one outgoing share and sends every list that is complete. */
    method ProcessOutCh(msg: OutMsg, sendOk: CacheKey -> bool)
      requires Valid() && (!msg.isBroadcast ==> msg.to != [])
      modifies this
      ensures Valid()
      ensures forall k :: LaneAt(k) == NextLane(old(LaneAt(k)), k, Event(msg, sendOk), msgNum)
    {
      CacheMsg(msg);
      FlushUnicast(sendOk);
      FlushBroadcast(sendOk);
    }
  }

  /** A lane in the middle of a flush that has visited the keys of `done`. */
  function PartlyFlushed(before: CacheKey -> Lane, done: set<CacheKey>, k: CacheKey, msgNum: nat,
                         sendOk: CacheKey -> bool): Lane {
    if k in done then Flush(before(k), msgNum, sendOk(k)) else before(k)
  }
}
