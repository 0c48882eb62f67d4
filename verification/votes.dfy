/** Vote counting over a confirm list (peer -> hash), the acceptance test that a
    broadcast share has to pass, and when two nodes that pass it must agree. */
module Votes {
  import opened Types

  type Ballots = map<PeerId, Hash>

  function Voters(ballots: Ballots, h: Hash): set<PeerId> {
    set p | p in ballots && ballots[p] == h
  }

  function Count(ballots: Ballots, h: Hash): nat {
    |Voters(ballots, h)|
  }

  /** `h` was voted for, and nothing got more votes. */
  ghost predicate IsMode(ballots: Ballots, h: Hash) {
    && Voters(ballots, h) != {}
    && forall g :: Count(ballots, g) <= Count(ballots, h)
  }

  // ------------------------------------------------------------ counting

  /** `done` restricted to the peers whose vote is `h`. */
  ghost function VotersIn(ballots: Ballots, done: set<PeerId>, h: Hash): set<PeerId> {
    set p | p in done && p in ballots && ballots[p] == h
  }

  ghost predicate Tallied(ballots: Ballots, done: set<PeerId>, freq: map<Hash, int>) {
    forall h :: |VotersIn(ballots, done, h)| == if h in freq then freq[h] else 0
  }

  lemma VotersInStep(ballots: Ballots, done: set<PeerId>, p: PeerId)
    requires p in ballots && p !in done
    ensures forall h ::
      |VotersIn(ballots, done + {p}, h)| == |VotersIn(ballots, done, h)| + (if h == ballots[p] then 1 else 0)
  {
    forall h ensures
      |VotersIn(ballots, done + {p}, h)| == |VotersIn(ballots, done, h)| + (if h == ballots[p] then 1 else 0)
    {
      if h == ballots[p] {
        assert VotersIn(ballots, done + {p}, h) == VotersIn(ballots, done, h) + {p};
      } else {
        assert VotersIn(ballots, done + {p}, h) == VotersIn(ballots, done, h);
      }
    }
  }

  lemma TallyIsComplete(ballots: Ballots, freq: map<Hash, int>)
    requires Tallied(ballots, ballots.Keys, freq)
    requires forall h :: h in freq ==> freq[h] > 0
    ensures freq.Keys == ballots.Values
    ensures forall h :: h in freq ==> freq[h] == Count(ballots, h)
  {
    ValuesAreVotedFor(ballots);
    forall h ensures VotersIn(ballots, ballots.Keys, h) == Voters(ballots, h) {
    }
    forall h ensures h in freq <==> h in ballots.Values {
      assert h in freq <==> |VotersIn(ballots, ballots.Keys, h)| > 0;
    }
  }

  /** One pass over the confirm list, in an arbitrary order. */
  method Tally(ballots: Ballots) returns (freq: map<Hash, int>)
    ensures freq.Keys == ballots.Values
    ensures forall h :: h in freq ==> freq[h] == Count(ballots, h)
  {
    freq := map[];
    var todo := ballots.Keys;
    ghost var done: set<PeerId> := {};
    while todo != {}
      invariant todo !! done && todo + done == ballots.Keys
      invariant Tallied(ballots, done, freq)
      invariant forall h :: h in freq ==> freq[h] > 0
      decreases todo
    {
      var p :| p in todo;
      var n := ballots[p];
      VotersInStep(ballots, done, p);
      freq := freq[n := (if n in freq then freq[n] else 0) + 1];
      todo, done := todo - {p}, done + {p};
    }
    assert done == ballots.Keys;
    TallyIsComplete(ballots, freq);
  }

  lemma ValuesAreVotedFor(ballots: Ballots)
    ensures forall h :: h in ballots.Values <==> Voters(ballots, h) != {}
  {
    forall h ensures h in ballots.Values <==> Voters(ballots, h) != {} {
      if h in ballots.Values {
        var p :| p in ballots && ballots[p] == h;
        assert p in Voters(ballots, h);
      }
    }
  }

  /** The second pass visits the tally in an arbitrary order and keeps the first maximum it meets. */
  method GetHighestFreq(ballots: Ballots) returns (ok: bool, data: Hash, maxFreq: int)
    ensures ok <==> ballots != map[]
    ensures ok ==> IsMode(ballots, data) && maxFreq == Count(ballots, data)
    ensures !ok ==> data == "" && maxFreq == 0
  {
    if |ballots| == 0 {
      return false, "", 0;
    }
    var freq := Tally(ballots);
    ValuesAreVotedFor(ballots);
    maxFreq, data := -1, "";
    var keys := freq.Keys;
    while keys != {}
      invariant keys <= freq.Keys
      invariant maxFreq == -1 ==> keys == freq.Keys
      invariant maxFreq != -1 ==> data in freq && maxFreq == freq[data]
      invariant forall h :: h in freq && h !in keys ==> freq[h] <= maxFreq
      decreases keys
    {
      var key :| key in keys;
      keys := keys - {key};
      if freq[key] > maxFreq {
        maxFreq, data := freq[key], key;
      }
    }
    var somePeer :| somePeer in ballots;
    assert ballots[somePeer] in freq.Keys;
    ok := true;
  }

  /** Every vote is counted exactly once. */
  ghost function TotalVotes(ballots: Ballots, hashes: set<Hash>): nat
    decreases hashes
  {
    if hashes == {} then 0
    else Count(ballots, Pick(hashes)) + TotalVotes(ballots, hashes - {Pick(hashes)})
  }

  ghost function Pick(hashes: set<Hash>): (h: Hash)
    requires hashes != {}
    ensures h in hashes
  {
    var h :| h in hashes; h
  }

  ghost function VotersOf(ballots: Ballots, hashes: set<Hash>): set<PeerId> {
    set p | p in ballots && ballots[p] in hashes
  }

  lemma {:induction false} TotalVotesCountsVoters(ballots: Ballots, hashes: set<Hash>)
    ensures TotalVotes(ballots, hashes) == |VotersOf(ballots, hashes)|
    decreases hashes
  {
    if hashes == {} {
      assert VotersOf(ballots, hashes) == {};
    } else {
      var h := Pick(hashes);
      TotalVotesCountsVoters(ballots, hashes - {h});
      assert VotersOf(ballots, hashes) == Voters(ballots, h) + VotersOf(ballots, hashes - {h});
    }
  }

  lemma CountsSumToBallots(ballots: Ballots)
    ensures TotalVotes(ballots, ballots.Values) == |ballots|
  {
    TotalVotesCountsVoters(ballots, ballots.Values);
    assert VotersOf(ballots, ballots.Values) == ballots.Keys;
  }

  /** Past half of the votes the result no longer depends on the iteration order. */
  lemma MajorityIsTheOnlyMode(ballots: Ballots, h: Hash, g: Hash)
    requires 2 * Count(ballots, h) > |ballots|
    requires IsMode(ballots, g)
    ensures g == h
  {
    if g != h {
      var both := Voters(ballots, h) + Voters(ballots, g);
      assert |both| == Count(ballots, h) + Count(ballots, g);
      SubsetSize(both, ballots.Keys);
    }
  }

  lemma {:induction false} ModeAmong(ballots: Ballots, hashes: set<Hash>) returns (h: Hash)
    requires hashes != {}
    ensures h in hashes && forall g :: g in hashes ==> Count(ballots, g) <= Count(ballots, h)
  {
    h := Pick(hashes);
    if hashes != {h} {
      var g := ModeAmong(ballots, hashes - {h});
      if Count(ballots, g) > Count(ballots, h) {
        h := g;
      }
    }
  }

  lemma ModeExists(ballots: Ballots) returns (h: Hash)
    requires ballots != map[]
    ensures IsMode(ballots, h)
  {
    ValuesAreVotedFor(ballots);
    var p :| p in ballots;
    assert ballots[p] in ballots.Values;
    h := ModeAmong(ballots, ballots.Values);
  }

  // ------------------------------------------------------------ agreement

  /** ceil(2n/3) - 1, as computed from the number of parties. */
  function Threshold(n: nat): int {
    (2 * n + 2) / 3 - 1
  }

  /** What a confirm list must satisfy for hash `h` to be applied. */
  ghost predicate Accepts(ballots: Ballots, voters: set<PeerId>, t: int, h: Hash) {
    && ballots.Keys <= voters
    && |ballots| >= t
    && IsMode(ballots, h)
    && Count(ballots, h) >= t - 1
  }

  /** Peers recorded with different hashes in two confirm lists. */
  function Conflicts(a: Ballots, b: Ballots): set<PeerId> {
    set p | p in a && p in b && a[p] != b[p]
  }

  /** No two acceptable confirm lists with at most `f` conflicting peers accept different hashes. */
  ghost predicate Agreement(voters: set<PeerId>, t: int, f: nat) {
    forall a, b, ha, hb ::
      Accepts(a, voters, t, ha) && Accepts(b, voters, t, hb) && |Conflicts(a, b)| <= f ==> ha == hb
  }

  /** The quorum-intersection side condition for n parties and f conflicting peers. */
  predicate QuorumsIntersect(n: nat, f: nat) {
    2 * Max(Threshold(n) - 1, 1) > n - 1 + f
  }

  lemma QuorumIntersection(voters: set<PeerId>, n: nat, f: nat, a: Ballots, b: Ballots, ha: Hash, hb: Hash)
    requires |voters| <= n - 1
    requires QuorumsIntersect(n, f)
    requires Accepts(a, voters, Threshold(n), ha)
    requires Accepts(b, voters, Threshold(n), hb)
    requires |Conflicts(a, b)| <= f
    ensures ha == hb
  {
    if ha != hb {
      VotersOverlap(a, b, voters, ha, hb);
    }
  }

  lemma VotersOverlap(a: Ballots, b: Ballots, voters: set<PeerId>, ha: Hash, hb: Hash)
    requires a.Keys <= voters && b.Keys <= voters
    requires ha != hb
    ensures Count(a, ha) + Count(b, hb) <= |voters| + |Conflicts(a, b)|
  {
    var va, vb := Voters(a, ha), Voters(b, hb);
    SubsetSize(va * vb, Conflicts(a, b));
    SubsetSize(va + vb, voters);
    assert |va + vb| == |va| + |vb| - |va * vb|;
  }

  /** Any set has a subset of any smaller size. */
  lemma {:induction false} SubsetOfSize(s: set<PeerId>, k: nat) returns (t: set<PeerId>)
    requires k <= |s|
    ensures t <= s && |t| == k
  {
    if k == |s| {
      t := s;
    } else {
      var x :| x in s;
      t := SubsetOfSize(s - {x}, k);
    }
  }

  /** `mine` confirm `h`, and those of `extra` outside it confirm `g`. */
  ghost function Split(mine: set<PeerId>, extra: set<PeerId>, h: Hash, g: Hash): Ballots {
    map p | p in mine + extra :: if p in mine then h else g
  }

  lemma SplitCounts(mine: set<PeerId>, extra: set<PeerId>, h: Hash, g: Hash)
    requires h != g && mine != {} && |extra - mine| <= |mine|
    ensures IsMode(Split(mine, extra, h, g), h)
    ensures Count(Split(mine, extra, h, g), h) == |mine|
    ensures |Split(mine, extra, h, g)| == |mine| + |extra - mine|
  {
    var s := Split(mine, extra, h, g);
    assert Voters(s, h) == mine;
    assert Voters(s, g) == extra - mine;
    assert s.Keys == mine + (extra - mine);
    assert |s.Keys| == |s|;
    forall k ensures Count(s, k) <= Count(s, h) {
      if k != h && k != g {
        assert Voters(s, k) == {};
      }
    }
  }

  /** Two different sets of m voters that overlap as little as the number of voters allows. */
  lemma TwoQuorums(voters: set<PeerId>, m: nat) returns (va: set<PeerId>, vb: set<PeerId>)
    requires 1 <= m <= |voters|
    requires m == |voters| ==> |voters| == 1
    ensures va <= voters && vb <= voters && |va| == m && |vb| == m
    ensures |va * vb| == Max(2 * m - |voters|, 0)
  {
    va := SubsetOfSize(voters, m);
    var rest := voters - va;
    assert |rest| == |voters| - m by { assert voters == va + rest; }
    if m <= |rest| {
      vb := SubsetOfSize(rest, m);
      assert va * vb == {};
    } else {
      var shared := SubsetOfSize(va, m - |rest|);
      vb := rest + shared;
      assert va * vb == shared;
    }
  }

  lemma Differs(va: set<PeerId>, vb: set<PeerId>) returns (q: set<PeerId>)
    requires |va * vb| < |vb|
    ensures q <= vb - va && |q| == 1
  {
    assert vb == va * vb + (vb - va);
    q := SubsetOfSize(vb - va, 1);
  }

  /** Below the bound there are two acceptable lists that accept different hashes; the peer
      `pa` supports the first hash and `pb` the second one. With three parties or more these are
      two peers, and neither is recorded with different hashes. */
  lemma DisagreementWitness(voters: set<PeerId>, n: nat, f: nat, x: Hash, y: Hash)
      returns (a: Ballots, b: Ballots, pa: PeerId, pb: PeerId)
    requires |voters| == n - 1 && f <= n - 1
    requires !QuorumsIntersect(n, f) && x != y
    ensures Accepts(a, voters, Threshold(n), x)
    ensures Accepts(b, voters, Threshold(n), y)
    ensures |Conflicts(a, b)| <= f
    ensures pa in a && a[pa] == x
    ensures pb in b && b[pb] == y
    ensures n >= 3 ==> pa != pb && pa !in Conflicts(a, b) && pb !in Conflicts(a, b)
  {
    var m := Max(Threshold(n) - 1, 1);
    var va, vb := TwoQuorums(voters, m);
    var qa, qb := Tips(voters, va, vb);
    pa :| pa in if n >= 3 then qa else va;
    pb :| pb in if n >= 3 then qb else vb;
    assert va * vb == vb * va;
    a, b := Split(va, qb, x, y), Split(vb, qa, y, x);
    SplitAccepts(voters, Threshold(n), va, vb, qb, x, y);
    SplitAccepts(voters, Threshold(n), vb, va, qa, y, x);
    SplitConflicts(va, vb, qa, qb, x, y);
  }

  /** One voter of each quorum that is outside the other, when there is more than one voter. */
  lemma Tips(voters: set<PeerId>, va: set<PeerId>, vb: set<PeerId>) returns (qa: set<PeerId>, qb: set<PeerId>)
    requires va <= voters && vb <= voters && va != {} && |va| == |vb|
    requires |va * vb| < |va| || |voters| == 1
    ensures qa <= va - vb && qb <= vb - va
    ensures |voters| > 1 ==> |qa| == |qb| == 1
    ensures |qa| <= 1 && |qb| <= 1
  {
    qa, qb := {}, {};
    if |voters| > 1 {
      qb := Differs(va, vb);
      assert va * vb == vb * va;
      qa := Differs(vb, va);
    }
  }

  lemma SplitAccepts(voters: set<PeerId>, t: int, mine: set<PeerId>, other: set<PeerId>, extra: set<PeerId>,
                     h: Hash, g: Hash)
    requires mine <= voters && mine != {} && extra <= other - mine && other <= voters && h != g
    requires |extra| <= 1 && |mine| >= t - 1 && |mine| + |extra| >= t
    ensures Accepts(Split(mine, extra, h, g), voters, t, h)
  {
    assert extra - mine == extra;
    SplitCounts(mine, extra, h, g);
  }

  lemma SplitConflicts(va: set<PeerId>, vb: set<PeerId>, qa: set<PeerId>, qb: set<PeerId>, x: Hash, y: Hash)
    requires qa <= va - vb && qb <= vb - va && x != y
    ensures Conflicts(Split(va, qb, x, y), Split(vb, qa, y, x)) == va * vb
  {
  }

  /** Agreement on broadcast shares holds exactly when the quorums are forced to intersect. */
  lemma AgreementIff(voters: set<PeerId>, n: nat, f: nat)
    requires |voters| == n - 1 && f <= n - 1
    ensures Agreement(voters, Threshold(n), f) <==> QuorumsIntersect(n, f)
  {
    if QuorumsIntersect(n, f) {
      forall a, b, ha, hb |
        Accepts(a, voters, Threshold(n), ha) && Accepts(b, voters, Threshold(n), hb) && |Conflicts(a, b)| <= f
        ensures ha == hb
      {
        QuorumIntersection(voters, n, f, a, b, ha, hb);
      }
    } else {
      var a, b, pa, pb := DisagreementWitness(voters, n, f, "x", "y");
    }
  }

  /** The least number of parties that forces agreement, per residue modulo 3. */
  lemma LeastParties(n: nat, f: nat)
    requires 1 <= n && f <= n - 1
    ensures QuorumsIntersect(n, f) <==>
      || (n <= 2 && f == 0)
      || (n % 3 == 0 && n >= 12 + 3 * f)
      || (n % 3 == 1 && n >= 10 + 3 * f)
      || (n % 3 == 2 && n >= 8 + 3 * f)
  {
    var k := n / 3;
    assert n == 3 * k + n % 3;
    if n % 3 == 0 {
      assert Threshold(n) == 2 * k - 1;
    } else if n % 3 == 1 {
      assert Threshold(n) == 2 * k;
    } else {
      assert Threshold(n) == 2 * k + 1;
    }
  }
}
