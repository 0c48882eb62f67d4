/** Decimal numerals, as strconv writes them. */
module Decimal {
  predicate IsDigit(c: char) {
    '0' <= c <= '9'
  }

  function Digit(d: nat): (c: char)
    requires d < 10
    ensures IsDigit(c)
  {
    ('0' as int + d) as char
  }

  function Itoa(n: nat): (s: string)
    ensures s != [] && forall c :: c in s ==> IsDigit(c)
  {
    if n < 10 then [Digit(n)] else Itoa(n / 10) + [Digit(n % 10)]
  }

  function FormatInt(n: int): string {
    if n < 0 then "-" + Itoa(-n) else Itoa(n)
  }

  function Atoi(s: string): int {
    if s == [] then 0 else 10 * Atoi(s[..|s| - 1]) + (s[|s| - 1] as int - '0' as int)
  }

  lemma {:induction false} AtoiOfItoa(n: nat)
    ensures Atoi(Itoa(n)) == n
  {
    if n < 10 {
      assert Itoa(n)[..0] == [];
    } else {
      AtoiOfItoa(n / 10);
      assert Itoa(n)[..|Itoa(n)| - 1] == Itoa(n / 10);
    }
  }

  /** The text of a number determines it, sign and all, and only the text of a negative one starts with
      a minus. */
  lemma FormatIntInjective(m: int, n: int)
    ensures FormatInt(m) == FormatInt(n) <==> m == n
    ensures FormatInt(m)[0] == '-' <==> m < 0
    ensures Atoi(if m < 0 then FormatInt(m)[1..] else FormatInt(m)) == if m < 0 then -m else m
  {
    AtoiOfItoa(if m < 0 then -m else m);
    AtoiOfItoa(if n < 0 then -n else n);
    assert m < 0 ==> FormatInt(m)[1..] == Itoa(-m);
    assert n < 0 ==> FormatInt(n)[1..] == Itoa(-n);
    assert m >= 0 ==> FormatInt(m)[0] in Itoa(m);
    assert n >= 0 ==> FormatInt(n)[0] in Itoa(n);
  }

  lemma ItoaInjective(m: nat, n: nat)
    requires Itoa(m) == Itoa(n)
    ensures m == n
  {
    AtoiOfItoa(m);
    AtoiOfItoa(n);
  }
}

/** Which peer leads, and which party id each key gets, on every node. */
module Roles {
  import opened Types
  import opened Sorting
  import opened LibrarySort
  import opened Decimal
  import Protocol
  import Agreement

  // ------------------------------------------------------------ the leader

  /** What decides the order of the peers for one instance. */
  function Ticket(hash: string -> string, msgID: string, blockHeight: int, peer: PeerId): string {
    hash(msgID + FormatInt(blockHeight) + peer)
  }

  /** `leader` has the least ticket; on a tie it is the last such peer in the list. */
  ghost predicate Leads(ticket: PeerId -> string, peers: seq<PeerId>, leader: PeerId) {
    exists i :: 0 <= i < |peers| && peers[i] == leader && IsLastLeast(ticket, peers, i)
  }

  ghost predicate IsLastLeast(ticket: PeerId -> string, peers: seq<PeerId>, i: nat)
    requires i < |peers|
  {
    && (forall j :: 0 <= j < |peers| ==> Leq(ticket(peers[i]), ticket(peers[j])))
    && (forall j :: i < j < |peers| ==> ticket(peers[j]) != ticket(peers[i]))
  }

  ghost predicate IsLeast(ticket: PeerId -> string, peers: seq<PeerId>, p: PeerId) {
    p in peers && forall q :: q in peers ==> Leq(ticket(p), ticket(q))
  }

  /** `store` holds, for each ticket seen, the last peer that had it. */
  ghost predicate StoreFits(ticket: PeerId -> string, peers: seq<PeerId>, store: map<string, PeerId>) {
    && (forall i :: 0 <= i < |peers| ==> ticket(peers[i]) in store)
    && (forall t :: t in store ==> exists i :: 0 <= i < |peers| && HeldBy(ticket, peers, t, store[t], i))
  }

  ghost predicate HeldBy(ticket: PeerId -> string, peers: seq<PeerId>, t: string, p: PeerId, i: nat)
    requires i < |peers|
  {
    peers[i] == p && ticket(p) == t && forall j :: i < j < |peers| ==> ticket(peers[j]) != t
  }

  lemma StoreStep(ticket: PeerId -> string, peers: seq<PeerId>, store: map<string, PeerId>, p: PeerId)
    requires StoreFits(ticket, peers, store)
    ensures StoreFits(ticket, peers + [p], store[ticket(p) := p])
  {
    var next, after := peers + [p], store[ticket(p) := p];
    forall t | t in after ensures exists i :: 0 <= i < |next| && HeldBy(ticket, next, t, after[t], i) {
      if t == ticket(p) {
        assert HeldBy(ticket, next, t, p, |peers|);
      } else {
        var i :| 0 <= i < |peers| && HeldBy(ticket, peers, t, store[t], i);
        assert HeldBy(ticket, next, t, store[t], i);
      }
    }
  }

  method LeaderNode(hash: string -> string, msgID: string, blockHeight: int, pIDs: seq<PeerId>)
      returns (ok: bool, leader: PeerId)
    ensures ok <==> pIDs != [] && msgID != "" && blockHeight != 0
    ensures ok ==> Leads(p => Ticket(hash, msgID, blockHeight, p), pIDs, leader)
  {
    if |pIDs| == 0 || |msgID| == 0 || blockHeight == 0 {
      return false, "";
    }
    var ticket := p => Ticket(hash, msgID, blockHeight, p);
    var keyStore, hashes := DrawTickets(ticket, pIDs);
    LeastTicket(ticket, pIDs, hashes[..], keyStore);
    SortStrings(hashes);
    leader := keyStore[hashes[0]];
    ok := true;
  }

  method DrawTickets(ticket: PeerId -> string, pIDs: seq<PeerId>)
      returns (keyStore: map<string, PeerId>, hashes: array<string>)
    ensures fresh(hashes) && hashes.Length == |pIDs|
    ensures forall j :: 0 <= j < |pIDs| ==> hashes[j] == ticket(pIDs[j])
    ensures StoreFits(ticket, pIDs, keyStore)
  {
    keyStore := map[];
    hashes := new string[|pIDs|];
    for i := 0 to |pIDs|
      invariant StoreFits(ticket, pIDs[..i], keyStore)
      invariant forall j :: 0 <= j < i ==> hashes[j] == ticket(pIDs[j])
    {
      var sum := ticket(pIDs[i]);
      StoreStep(ticket, pIDs[..i], keyStore, pIDs[i]);
      assert pIDs[..i + 1] == pIDs[..i] + [pIDs[i]];
      keyStore := keyStore[sum := pIDs[i]];
      hashes[i] := sum;
    }
    assert pIDs[..|pIDs|] == pIDs;
  }

  lemma LeastTicket(ticket: PeerId -> string, peers: seq<PeerId>, tickets: seq<string>, store: map<string, PeerId>)
    requires peers != [] && |tickets| == |peers| && StoreFits(ticket, peers, store)
    requires forall j :: 0 <= j < |peers| ==> tickets[j] == ticket(peers[j])
    ensures var t := SortedStrings(tickets)[0]; t in store && Leads(ticket, peers, store[t])
  {
    SortedStringsSorts(tickets);
    var sorted := SortedStrings(tickets);
    assert sorted[0] in multiset(tickets);
    var i :| 0 <= i < |peers| && HeldBy(ticket, peers, sorted[0], store[sorted[0]], i);
    forall j | 0 <= j < |peers| ensures Leq(ticket(peers[i]), ticket(peers[j])) {
      assert tickets[j] in multiset(sorted);
      var k :| 0 <= k < |sorted| && sorted[k] == tickets[j];
      LeqTotal(sorted[0], sorted[0]);
    }
    assert IsLastLeast(ticket, peers, i);
  }

  lemma LeaderIsLeast(ticket: PeerId -> string, peers: seq<PeerId>, leader: PeerId)
    requires Leads(ticket, peers, leader)
    ensures IsLeast(ticket, peers, leader)
  {
    var i :| 0 <= i < |peers| && peers[i] == leader && IsLastLeast(ticket, peers, i);
    forall q | q in peers ensures Leq(ticket(leader), ticket(q)) {
      var j :| 0 <= j < |peers| && peers[j] == q;
    }
  }

  /** The list with one occurrence of a peer moved to the end. */
  function MoveLast(peers: seq<PeerId>, i: nat): (r: seq<PeerId>)
    requires i < |peers|
    ensures multiset(r) == multiset(peers)
  {
    assert peers == peers[..i] + [peers[i]] + peers[i + 1..];
    peers[..i] + peers[i + 1..] + [peers[i]]
  }

  lemma LeastCanLead(ticket: PeerId -> string, peers: seq<PeerId>, p: PeerId) returns (order: seq<PeerId>)
    requires IsLeast(ticket, peers, p)
    ensures multiset(order) == multiset(peers) && Leads(ticket, order, p)
  {
    var i :| 0 <= i < |peers| && peers[i] == p;
    order := MoveLast(peers, i);
    forall j | 0 <= j < |order| ensures Leq(ticket(p), ticket(order[j])) {
      assert order[j] in multiset(peers);
    }
    assert IsLastLeast(ticket, order, |order| - 1);
  }

  /** Some ordering of the list makes `p` the leader. */
  ghost predicate CanLead(ticket: PeerId -> string, peers: seq<PeerId>, p: PeerId) {
    exists order :: multiset(order) == multiset(peers) && Leads(ticket, order, p)
  }

  /** Nodes that list the same peers in any order elect the same leader, exactly if no two
      different peers share the least ticket. */
  lemma LeaderAgreesIff(ticket: PeerId -> string, peers: seq<PeerId>)
    ensures (forall p, q :: CanLead(ticket, peers, p) && CanLead(ticket, peers, q) ==> p == q)
      <==> (forall p, q :: IsLeast(ticket, peers, p) && IsLeast(ticket, peers, q) ==> p == q)
  {
    forall p ensures CanLead(ticket, peers, p) <==> IsLeast(ticket, peers, p) {
      if CanLead(ticket, peers, p) {
        var order :| multiset(order) == multiset(peers) && Leads(ticket, order, p);
        LeaderOfOrder(ticket, peers, order, p);
      }
      if IsLeast(ticket, peers, p) {
        var order := LeastCanLead(ticket, peers, p);
      }
    }
  }

  lemma LeaderOfOrder(ticket: PeerId -> string, peers: seq<PeerId>, order: seq<PeerId>, p: PeerId)
    requires multiset(order) == multiset(peers) && Leads(ticket, order, p)
    ensures IsLeast(ticket, peers, p)
  {
    LeaderIsLeast(ticket, order, p);
    assert p in multiset(peers);
    forall q | q in peers ensures Leq(ticket(p), ticket(q)) {
      assert q in multiset(order);
    }
  }

  /** A hash without collisions gives different peers different tickets, hence one leader. */
  lemma OneLeader(hash: string -> string, msgID: string, blockHeight: int, a: seq<PeerId>, b: seq<PeerId>,
                  p: PeerId, q: PeerId)
    requires Separates(hash, msgID + FormatInt(blockHeight) + p, msgID + FormatInt(blockHeight) + q)
    requires multiset(a) == multiset(b)
    requires Leads(r => Ticket(hash, msgID, blockHeight, r), a, p)
    requires Leads(r => Ticket(hash, msgID, blockHeight, r), b, q)
    ensures p == q
  {
    var ticket := r => Ticket(hash, msgID, blockHeight, r);
    LeaderOfOrder(ticket, b, a, p);
    LeaderIsLeast(ticket, b, q);
    LeqAntisymmetric(ticket(p), ticket(q));
    var prefix := msgID + FormatInt(blockHeight);
    assert prefix + p == prefix + q;
    assert p == (prefix + p)[|prefix|..] && q == (prefix + q)[|prefix|..];
  }

  // ------------------------------------------------------------ party ids

  datatype Party = Party(id: PartyId, key: int)

  /** The library lists parties by ascending key. */
  function Ascending(p: Party): int { -p.key }

  lemma KeysAscend(parties: seq<Party>)
    requires Descending(Keys(parties, Ascending))
    ensures forall i, j :: 0 <= i < j < |parties| ==> parties[i].key <= parties[j].key
  {
    forall i, j | 0 <= i < j < |parties| ensures parties[i].key <= parties[j].key {
      assert Keys(parties, Ascending)[i] >= Keys(parties, Ascending)[j];
    }
  }

  /** The parties of sorted keys: the id of a party is the place of its key. */
  function PartiesOf(sorted: seq<string>, parse: string -> Option<int>): (r: seq<Party>)
    requires forall i :: 0 <= i < |sorted| ==> parse(sorted[i]).Some?
    ensures |r| == |sorted|
    ensures forall i :: 0 <= i < |sorted| ==> r[i] == Party(Itoa(i), parse(sorted[i]).value)
  {
    seq(|sorted|, i requires 0 <= i < |sorted| => Party(Itoa(i), parse(sorted[i]).value))
  }

  ghost predicate AllParse(keys: seq<string>, parse: string -> Option<int>) {
    forall i :: 0 <= i < |keys| ==> parse(keys[i]).Some?
  }

  ghost predicate IsPartyOf(sorted: seq<string>, parse: string -> Option<int>, key: string, p: Party)
    requires AllParse(sorted, parse)
  {
    exists i :: 0 <= i < |sorted| && sorted[i] == key && PartiesOf(sorted, parse)[i] == p
  }

  /** Sorts the keys in place, makes a party of each, and lists the parties by ascending key. */
  method GetParties(keys: array<string>, localPartyKey: string, parse: string -> Option<int>)
      returns (ok: bool, parties: seq<Party>, local: Option<Party>)
    modifies keys
    ensures keys[..] == SortedStrings(old(keys[..]))
    ensures ok <==> localPartyKey in keys[..] && AllParse(keys[..], parse)
    ensures ok ==> Sorts(parties, PartiesOf(keys[..], parse), Ascending)
    ensures ok ==> forall i, j :: 0 <= i < j < |parties| ==> parties[i].key <= parties[j].key
    ensures ok ==> local.Some? && IsPartyOf(keys[..], parse, localPartyKey, local.value)
  {
    SortStrings(keys);
    var unsorted: seq<Party> := [];
    local := None;
    for idx := 0 to keys.Length
      invariant keys[..] == SortedStrings(old(keys[..]))
      invariant AllParse(keys[..idx], parse) && unsorted == PartiesOf(keys[..idx], parse)
      invariant local.None? <==> localPartyKey !in keys[..idx]
      invariant local.Some? ==> exists i :: 0 <= i < idx && keys[i] == localPartyKey && unsorted[i] == local.value
    {
      var key := parse(keys[idx]);
      if key.None? {
        return false, [], None;
      }
      var partyID := Party(Itoa(idx), key.value);
      if keys[idx] == localPartyKey {
        local := Some(partyID);
      }
      unsorted := unsorted + [partyID];
    }
    assert keys[..keys.Length] == keys[..];
    ok := local.Some?;
    parties := StableSortDescending(unsorted, Ascending);
    StableSortDescendingSorts(unsorted, Ascending);
    KeysAscend(parties);
  }

  // ------------------------------------------------------------ the id maps

  function IdMapOf(parties: seq<Party>): map<PartyId, Party> {
    if parties == [] then map[]
    else IdMapOf(parties[..|parties| - 1])[parties[|parties| - 1].id := parties[|parties| - 1]]
  }

  method SetupPartyIDMap(parties: seq<Party>) returns (m: map<PartyId, Party>)
    ensures m == IdMapOf(parties)
  {
    m := map[];
    for i := 0 to |parties|
      invariant m == IdMapOf(parties[..i])
    {
      assert parties[..i + 1][..i] == parties[..i];
      m := m[parties[i].id := parties[i]];
    }
    assert parties[..|parties|] == parties;
  }

  function IdOf(p: Party): PartyId { p.id }

  /** The map holds exactly the parties of the list, each under its id. */
  ghost predicate IsIdMap(m: map<PartyId, Party>, parties: seq<Party>) {
    && (forall id :: id in m ==> m[id].id == id && m[id] in parties)
    && (forall p :: p in parties ==> p.id in m && m[p.id] == p)
  }

  lemma {:induction false} IdMapOfIs(parties: seq<Party>)
    requires NoDuplicates(Keys(parties, IdOf))
    ensures IsIdMap(IdMapOf(parties), parties)
  {
    if parties != [] {
      var init, last := parties[..|parties| - 1], parties[|parties| - 1];
      assert Keys(init, IdOf) == Keys(parties, IdOf)[..|init|];
      IdMapOfIs(init);
      forall p | p in init ensures p.id != last.id {
        var i :| 0 <= i < |init| && init[i] == p;
        assert Keys(parties, IdOf)[i] != Keys(parties, IdOf)[|init|];
      }
      assert parties == init + [last];
    }
  }

  lemma DistinctRearranged(s: seq<string>, t: seq<string>)
    requires NoDuplicates(s) && multiset(s) == multiset(t)
    ensures NoDuplicates(t)
  {
    SetSize(s);
    forall x ensures x in s <==> x in t {
      assert x in multiset(s) <==> x in multiset(t);
    }
    assert SetOf(s) == SetOf(t);
    assert |s| == |multiset(s)| == |t|;
    SizeMeansDistinct(t);
  }

  /** The ids of the parties that `GetParties` lists are all different. */
  lemma IdsDistinct(sorted: seq<string>, parse: string -> Option<int>, parties: seq<Party>)
    requires AllParse(sorted, parse) && multiset(parties) == multiset(PartiesOf(sorted, parse))
    ensures NoDuplicates(Keys(parties, IdOf))
  {
    var made := PartiesOf(sorted, parse);
    forall i, j | 0 <= i < j < |made| ensures Keys(made, IdOf)[i] != Keys(made, IdOf)[j] {
      if Itoa(i) == Itoa(j) {
        ItoaInjective(i, j);
      }
    }
    MultisetOfKeys(made, parties, IdOf);
    DistinctRearranged(Keys(made, IdOf), Keys(parties, IdOf));
  }

  method SetupIDMaps(parties: map<PartyId, Party>, peerOf: Party -> Option<PeerId>)
      returns (ok: bool, partyIDToP2PID: map<PartyId, PeerId>)
    ensures ok <==> forall id :: id in parties ==> peerOf(parties[id]).Some?
    ensures ok ==> partyIDToP2PID.Keys == parties.Keys
    ensures ok ==> forall id :: id in parties ==> Some(partyIDToP2PID[id]) == peerOf(parties[id])
  {
    partyIDToP2PID := map[];
    var todo := parties.Keys;
    while todo != {}
      invariant todo <= parties.Keys && partyIDToP2PID.Keys == parties.Keys - todo
      invariant forall id :: id in partyIDToP2PID ==> Some(partyIDToP2PID[id]) == peerOf(parties[id])
      decreases todo
    {
      var id :| id in todo;
      var peerID := peerOf(parties[id]);
      if peerID.None? {
        return false, map[];
      }
      partyIDToP2PID := partyIDToP2PID[id := peerID.value];
      todo := todo - {id};
    }
    ok := true;
  }

  // ------------------------------------------------------------ ranks

  predicate Less(a: string, b: string) {
    Leq(a, b) && a != b
  }

  /** Number of keys below `key`: does not mention any order of the list. */
  function Rank(keys: set<string>, key: string): nat {
    |set k | k in keys && Less(k, key)|
  }

  lemma DistinctAfterSort(keys: seq<string>)
    requires NoDuplicates(keys)
    ensures NoDuplicates(SortedStrings(keys)) && SetOf(SortedStrings(keys)) == SetOf(keys)
  {
    var sorted := SortedStrings(keys);
    SortedStringsSorts(keys);
    SetSize(keys);
    forall k ensures k in sorted <==> k in keys {
      assert k in multiset(sorted) <==> k in multiset(keys);
    }
    assert SetOf(sorted) == SetOf(keys);
    SizeMeansDistinct(sorted);
  }

  /** Among distinct keys, the place of a key in the sorted list is its rank. */
  lemma PlaceIsRank(keys: seq<string>, i: nat)
    requires NoDuplicates(keys) && i < |keys|
    ensures Rank(SetOf(keys), SortedStrings(keys)[i]) == i
  {
    var sorted := SortedStrings(keys);
    DistinctAfterSort(keys);
    SortedStringsSorts(keys);
    SetSize(sorted[..i]);
    var below := set k | k in SetOf(keys) && Less(k, sorted[i]);
    forall k | k in below ensures k in sorted[..i] {
      assert k in SetOf(sorted);
      var j :| 0 <= j < |sorted| && sorted[j] == k;
      if j > i {
        LeqAntisymmetric(sorted[i], sorted[j]);
      }
    }
    assert below == SetOf(sorted[..i]);
  }

  // ------------------------------------------------------------ the party map

  /** The peer of each key under the place of the key, which is what the id maps hold. */
  function PeerMap(sorted: seq<string>, peerOf: string -> PeerId): map<PartyId, PeerId> {
    if sorted == [] then map[]
    else
      var n := |sorted| - 1;
      PeerMap(sorted[..n], peerOf)[Itoa(n) := peerOf(sorted[n])]
  }

  lemma {:induction false} IdsOfMap(sorted: seq<string>, peerOf: string -> PeerId, id: PartyId)
    ensures id in PeerMap(sorted, peerOf) <==> exists i: nat :: i < |sorted| && id == Itoa(i)
  {
    if sorted != [] {
      var n: nat := |sorted| - 1;
      IdsOfMap(sorted[..n], peerOf, id);
      if id == Itoa(n) {
        assert n < |sorted| && id == Itoa(n);
      } else if exists i: nat :: i < |sorted| && id == Itoa(i) {
        var i: nat :| i < |sorted| && id == Itoa(i);
        assert i < n;
      }
    }
  }

  lemma {:induction false} PeerAt(sorted: seq<string>, peerOf: string -> PeerId, i: nat)
    requires i < |sorted|
    ensures Itoa(i) in PeerMap(sorted, peerOf) && PeerMap(sorted, peerOf)[Itoa(i)] == peerOf(sorted[i])
  {
    var n := |sorted| - 1;
    if i < n {
      PeerAt(sorted[..n], peerOf, i);
      if Itoa(i) == Itoa(n) {
        ItoaInjective(i, n);
      }
    }
  }

  lemma {:induction false} PeerMapSize(sorted: seq<string>, peerOf: string -> PeerId)
    ensures |PeerMap(sorted, peerOf)| == |sorted|
  {
    if sorted != [] {
      var n := |sorted| - 1;
      PeerMapSize(sorted[..n], peerOf);
      IdsOfMap(sorted[..n], peerOf, Itoa(n));
      if Itoa(n) in PeerMap(sorted[..n], peerOf) {
        var i: nat :| i < n && Itoa(n) == Itoa(i);
        ItoaInjective(i, n);
      }
    }
  }

  /** However the library orders the parties that `GetParties` made, the maps built from them hold
      the peer of each key under its place. */
  lemma IdMapsHoldPeers(sorted: seq<string>, parse: string -> Option<int>, parties: seq<Party>,
                        p2p: map<PartyId, PeerId>, peerOf: string -> PeerId, peerOfParty: Party -> Option<PeerId>)
    requires AllParse(sorted, parse) && multiset(parties) == multiset(PartiesOf(sorted, parse))
    requires var m := IdMapOf(parties);
      p2p.Keys == m.Keys && forall id :: id in m ==> Some(p2p[id]) == peerOfParty(m[id])
    requires forall i :: 0 <= i < |sorted| ==> peerOfParty(PartiesOf(sorted, parse)[i]) == Some(peerOf(sorted[i]))
    ensures p2p == PeerMap(sorted, peerOf)
  {
    var m, peers := IdMapOf(parties), PeerMap(sorted, peerOf);
    IdsDistinct(sorted, parse, parties);
    IdMapOfIs(parties);
    forall id ensures id in m <==> id in peers {
      PlacedIffMapped(sorted, parse, parties, m, id);
      IdsOfMap(sorted, peerOf, id);
    }
    assert p2p.Keys == peers.Keys;
    forall id | id in peers ensures p2p[id] == peers[id] {
      IdsOfMap(sorted, peerOf, id);
      var i: nat :| i < |sorted| && id == Itoa(i);
      PeerAt(sorted, peerOf, i);
      PartyAt(sorted, parse, parties, m, i);
    }
  }

  lemma PartyAt(sorted: seq<string>, parse: string -> Option<int>, parties: seq<Party>, m: map<PartyId, Party>, i: nat)
    requires AllParse(sorted, parse) && multiset(parties) == multiset(PartiesOf(sorted, parse)) && IsIdMap(m, parties)
    requires i < |sorted|
    ensures Itoa(i) in m && m[Itoa(i)] == PartiesOf(sorted, parse)[i]
  {
    assert PartiesOf(sorted, parse)[i] in multiset(parties);
  }

  lemma PlacedIffMapped(sorted: seq<string>, parse: string -> Option<int>, parties: seq<Party>, m: map<PartyId, Party>,
                        id: PartyId)
    requires AllParse(sorted, parse) && multiset(parties) == multiset(PartiesOf(sorted, parse)) && IsIdMap(m, parties)
    ensures id in m <==> exists i: nat :: i < |sorted| && id == Itoa(i)
  {
    var made := PartiesOf(sorted, parse);
    if id in m {
      assert m[id] in multiset(made);
      var i: nat :| i < |made| && made[i] == m[id];
      assert id == Itoa(i);
    }
    if i: nat :| i < |sorted| && id == Itoa(i) {
      PartyAt(sorted, parse, parties, m, i);
    }
  }

  ghost predicate OnePeerPerKey(keys: seq<string>, peerOf: string -> PeerId) {
    forall x, y :: x in keys && y in keys && peerOf(x) == peerOf(y) ==> x == y
  }

  /** Whatever the order of its list, a node knows the peer of a key under the rank of the key. */
  lemma PartyIdIsRank(keys: seq<string>, peerOf: string -> PeerId, k: string)
    requires NoDuplicates(keys) && k in keys
    ensures var id := Itoa(Rank(SetOf(keys), k)); var parties := PeerMap(SortedStrings(keys), peerOf);
      id in parties && parties[id] == peerOf(k)
  {
    var sorted := SortedStrings(keys);
    DistinctAfterSort(keys);
    assert k in SetOf(sorted);
    var i :| 0 <= i < |sorted| && sorted[i] == k;
    PlaceIsRank(keys, i);
    PeerAt(sorted, peerOf, i);
  }

  /** Nodes that list the same distinct keys in any order know the same parties, one for each key,
      and the party map is one that the confirmation protocol can rely on. */
  lemma SamePartiesEverywhere(a: seq<string>, b: seq<string>, peerOf: string -> PeerId, env: Protocol.Env)
    requires NoDuplicates(a) && multiset(a) == multiset(b) && OnePeerPerKey(a, peerOf)
    requires env.parties == PeerMap(SortedStrings(a), peerOf)
    ensures env.parties == PeerMap(SortedStrings(b), peerOf)
    ensures Agreement.PartiesOk(env) && |env.parties| == |a|
  {
    SameSorted(a, b);
    var sorted := SortedStrings(a);
    DistinctAfterSort(a);
    forall p, q | p in env.parties && q in env.parties && env.parties[p] == env.parties[q] ensures p == q {
      SamePeerSameParty(sorted, peerOf, p, q) by {
        forall x | x in sorted ensures x in a {
          assert x in SetOf(sorted);
        }
      }
    }
    forall p | p in env.parties ensures '-' !in p {
      IdsOfMap(sorted, peerOf, p);
    }
    PeerMapSize(sorted, peerOf);
  }

  lemma SamePeerSameParty(sorted: seq<string>, peerOf: string -> PeerId, p: PartyId, q: PartyId)
    requires NoDuplicates(sorted) && OnePeerPerKey(sorted, peerOf)
    requires var m := PeerMap(sorted, peerOf); p in m && q in m && m[p] == m[q]
    ensures p == q
  {
    IdsOfMap(sorted, peerOf, p);
    IdsOfMap(sorted, peerOf, q);
    var i: nat :| i < |sorted| && p == Itoa(i);
    var j: nat :| j < |sorted| && q == Itoa(j);
    PeerAt(sorted, peerOf, i);
    PeerAt(sorted, peerOf, j);
  }
}
