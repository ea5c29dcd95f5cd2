/**
 How many seeds each custody peer receives, how many recoded pieces it owes, and which peer a seed goes to.
 */
module SeedingPlan {
  import opened Division
  import opened CustodyMap
  import opened CustodyRoles
  import SeedEncoder

  datatype Plan = Plan(totalSeeds: nat, seedsPerPeer: nat, recodesPerPeer: nat)

  /** Division rounded up, for numbers that are not negative. */
  function CeilDiv(a: nat, m: nat): nat
    requires m > 0
  {
    (a + m - 1) / m
  }

  function ComputeSeedingPlan(numCustodyPeers: int, kPiece: int): Plan {
    var k: nat := if kPiece <= 0 then 4 else kPiece;
    var m: nat := if numCustodyPeers <= 0 then 2 else numCustodyPeers;
    var total := 2 * k;
    var share := CeilDiv(total, m);
    var atLeastTwo := if share < 2 then 2 else share;
    var perPeer := if atLeastTwo > total then total else atLeastTwo;
    var quota := CeilDiv(k, m);
    var atLeastOne := if quota < 1 then 1 else quota;
    Plan(total, perPeer, atLeastOne + 1)
  }

  lemma CeilDivBounds(a: nat, m: nat)
    requires m > 0
    ensures m * CeilDiv(a, m) >= a
    ensures CeilDiv(a, m) > 0 ==> m * (CeilDiv(a, m) - 1) < a
  {
    var x := a + m - 1;
    assert x == m * (x / m) + x % m;
    assert m * (x / m - 1) == m * (x / m) - m;
  }

  /** The shares cover the pool and the recode quotas cover the cell with one piece per peer to spare,
      and no share is larger than coverage or the floor of two requires. Two peers are reckoned with when no number is
      known, and four pieces. */
  lemma PlanCovers(numCustodyPeers: int, kPiece: int)
    ensures var p := ComputeSeedingPlan(numCustodyPeers, kPiece);
            var m := if numCustodyPeers >= 1 then numCustodyPeers else 2;
            var k := if kPiece >= 1 then kPiece else 4;
            && p.totalSeeds == 2 * k
            && m * p.seedsPerPeer >= 2 * k && 2 <= p.seedsPerPeer <= 2 * k
            && (p.seedsPerPeer == 2 || m * (p.seedsPerPeer - 1) < 2 * k)
            && m * p.recodesPerPeer >= k + m
            && (p.recodesPerPeer == 2 || m * (p.recodesPerPeer - 2) < k)
  {
    hide CeilDiv;
    var m: nat := if numCustodyPeers >= 1 then numCustodyPeers else 2;
    var k: nat := if kPiece >= 1 then kPiece else 4;
    ShareCovers(k, m);
    QuotaCovers(k, m);
  }

  lemma ShareCovers(k: nat, m: nat)
    requires k >= 1 && m >= 1
    ensures var share := CeilDiv(2 * k, m);
            var perPeer := if share < 2 then 2 else share;
            && m * perPeer >= 2 * k && perPeer <= 2 * k
            && (perPeer == 2 || m * (perPeer - 1) < 2 * k)
  {
    hide CeilDiv;
    CeilDivBounds(2 * k, m);
    CeilDivMonotone(2 * k, m);
    var share := CeilDiv(2 * k, m);
    assert share < 2 ==> m * 2 >= m * share;
  }

  lemma QuotaCovers(k: nat, m: nat)
    requires k >= 1 && m >= 1
    ensures var quota := CeilDiv(k, m);
            quota >= 1 && m * (quota + 1) >= k + m && (quota == 1 || m * (quota - 1) < k)
  {
    hide CeilDiv;
    CeilDivBounds(k, m);
    var quota := CeilDiv(k, m);
    assert quota == 0 ==> m * quota == 0;
    assert m * (quota + 1) == m * quota + m;
  }

  lemma CeilDivMonotone(a: nat, m: nat)
    requires m > 0
    ensures CeilDiv(a, m) <= a
  {
    CeilDivBounds(a, m);
    var d := CeilDiv(a, m) - 1;
    assert d >= 0 ==> m * d >= d;
  }

  // Which peer a seed goes to.

  /** The place among the cell's custody peers of the one that receives the piece. */
  function PeerSlot(pieceIdx: nat, peers: nat, k: int): (slot: nat)
    requires peers > 0
    ensures slot < peers
  {
    var share := ComputeSeedingPlan(peers, k).seedsPerPeer;
    var perPeer := if share > 0 then share else if k > 0 then k else 4;
    pieceIdx / perPeer % peers
  }

  /** The custody peers of a data row, from a snapshot of the registered peers. */
  function CustodyPeers(peers: seq<PeerInfo>, netRows: int, row: int): seq<PeerInfo> {
    Lookup(CustodyTable(Active(peers), netRows), NetRow(row, EffectiveRows(netRows)))
  }

  function GetPeersForCell(peers: seq<PeerInfo>, netRows: int, row: int, pieceIdx: nat, k: int): seq<PeerInfo> {
    var holders := CustodyPeers(peers, netRows, row);
    if holders == [] then [] else [holders[PeerSlot(pieceIdx, |holders|, k)]]
  }

  /** A row has custody peers as soon as the column has an active store, and they are distinct. */
  lemma CustodyPeersFacts(peers: seq<PeerInfo>, netRows: int, row: int)
    ensures CustodyPeers(peers, netRows, row) == [] <==> Active(peers) == []
    ensures DistinctIDs(CustodyPeers(peers, netRows, row))
  {
    hide Active, Holders, InRow, NetRow;
    ActiveIdempotent(peers);
    if Active(peers) == [] {
      EmptyDistinct();
    } else {
      ActiveDistinct(peers);
      NoOrphans(Active(peers), EffectiveRows(netRows), NetRow(row, EffectiveRows(netRows)));
      NonEmpty(Active(peers));
    }
  }

  lemma NonEmpty(active: seq<PeerInfo>)
    requires active != []
    ensures |active| == 1 || |active| >= 2
  {
  }

  lemma QuotientBlock(i: nat, d: nat, s: nat)
    requires d > 0
    ensures i / d == s <==> d * s <= i < d * s + d
  {
    var q, r := i / d, i % d;
    assert i == d * q + r;
    if d * s <= i < d * s + d {
      QuotientUnique(d, q, r, s, i - d * s);
    }
  }

  lemma NoWrap(i: nat, d: nat, m: nat)
    requires d > 0 && m > 0 && i < m * d
    ensures i / d < m && i / d % m == i / d
  {
    QuotientBelow(i, d, m);
    SmallRemainder(i / d, m);
  }

  lemma SlotOfPiece(pieceIdx: nat, m: nat, k: nat)
    requires m >= 1 && k >= 1 && pieceIdx < 2 * k
    ensures var d := ComputeSeedingPlan(m, k).seedsPerPeer;
            && d > 0 && PeerSlot(pieceIdx, m, k) == pieceIdx / d < m
            && forall s: nat :: PeerSlot(pieceIdx, m, k) == s <==> d * s <= pieceIdx < d * s + d
  {
    hide ComputeSeedingPlan;
    PlanCovers(m, k);
    var d := ComputeSeedingPlan(m, k).seedsPerPeer;
    NoWrap(pieceIdx, d, m);
    forall s: nat ensures pieceIdx / d == s <==> d * s <= pieceIdx < d * s + d {
      QuotientBlock(pieceIdx, d, s);
    }
  }

  lemma SamePlace(hs: seq<PeerInfo>, i: nat, j: nat)
    requires DistinctIDs(hs) && i < |hs| && j < |hs| && hs[i] == hs[j]
    ensures i == j
  {
  }

  /** The piece goes to the peer in whose block of d pieces it lies, and to no other. */
  ghost predicate GoesByBlock(out: seq<PeerInfo>, hs: seq<PeerInfo>, pieceIdx: nat, d: nat) {
    && d > 0 && 0 <= pieceIdx / d < |hs| && out == [hs[pieceIdx / d]]
    && forall s: nat :: s < |hs| ==> (out == [hs[s]] <==> d * s <= pieceIdx < d * s + d)
  }

  /** The pool of 2k pieces is handed out in consecutive blocks of one share each, to the custody peers in their
      order and without wrapping around. Without an active store nobody gets anything. */
  lemma BlocksConsecutive(peers: seq<PeerInfo>, netRows: int, row: int, pieceIdx: nat, k: nat)
    requires k >= 1 && pieceIdx < 2 * k
    ensures Active(peers) == [] ==> GetPeersForCell(peers, netRows, row, pieceIdx, k) == []
    ensures Active(peers) != [] ==>
              var hs := CustodyPeers(peers, netRows, row);
              GoesByBlock(GetPeersForCell(peers, netRows, row, pieceIdx, k), hs, pieceIdx,
                          ComputeSeedingPlan(|hs|, k).seedsPerPeer)
  {
    hide Active, CustodyPeers, ComputeSeedingPlan, PeerSlot;
    CustodyPeersFacts(peers, netRows, row);
    if Active(peers) != [] {
      var hs := CustodyPeers(peers, netRows, row);
      SlotOfPiece(pieceIdx, |hs|, k);
      var slot := PeerSlot(pieceIdx, |hs|, k);
      forall s: nat | s < |hs| ensures [hs[slot]] == [hs[s]] <==> slot == s {
        if hs[slot] == hs[s] {
          SamePlace(hs, slot, s);
        }
        assert [hs[slot]] == [hs[s]] ==> [hs[slot]][0] == [hs[s]][0];
      }
    }
  }

  /** With two custody peers and k of at least two, the first of them gets the first k seeds of the pool and the
      second the others; each share is one whole group of the encoder and has full rank. */
  lemma TwoPeersFullRank(peers: seq<PeerInfo>, netRows: int, row: int, k: nat, draws: seq<SeedEncoder.Draw>)
    requires k >= 2 && SeedEncoder.Fits(draws, k)
    requires |CustodyPeers(peers, netRows, row)| == 2
    requires SeedEncoder.Seeds(2 * k, k, draws).Finished?
    ensures forall i: nat :: i < 2 * k ==>
                               GetPeersForCell(peers, netRows, row, i, k) ==
                               [CustodyPeers(peers, netRows, row)[if i < k then 0 else 1]]
    ensures SeedEncoder.FullRank(SeedEncoder.GroupAt(SeedEncoder.Seeds(2 * k, k, draws).seeds, 0, k), k)
    ensures SeedEncoder.FullRank(SeedEncoder.GroupAt(SeedEncoder.Seeds(2 * k, k, draws).seeds, k, k), k)
  {
    hide *;
    forall i: nat | i < 2 * k
      ensures GetPeersForCell(peers, netRows, row, i, k) ==
              [CustodyPeers(peers, netRows, row)[if i < k then 0 else 1]]
    {
      TwoPeersShare(peers, netRows, row, i, k);
    }
    OwnMultiple(k);
    SeedEncoder.GroupIndependent(2 * k, k, draws, 0);
    SeedEncoder.GroupIndependent(2 * k, k, draws, k);
  }

  lemma OwnMultiple(k: nat)
    requires k > 0
    ensures 0 % k == 0 && k % k == 0
  {
  }

  lemma TwoPeersShare(peers: seq<PeerInfo>, netRows: int, row: int, i: nat, k: nat)
    requires k >= 2 && i < 2 * k && |CustodyPeers(peers, netRows, row)| == 2
    ensures GetPeersForCell(peers, netRows, row, i, k) == [CustodyPeers(peers, netRows, row)[if i < k then 0 else 1]]
  {
    hide CustodyPeers, PeerSlot;
    SlotOfPiece(i, 2, k);
  }
}
