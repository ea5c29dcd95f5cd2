/**
 Custody assignment in one column: which stores hold which network row.
 */
module CustodyMap {
  import opened Division

  datatype PeerInfo = PeerInfo(peerID: string, multiaddrs: seq<string>, row: int, col: int)

  // The order on stores: by row, then by identifier.

  predicate LexLess(a: string, b: string) {
    && b != []
    && (a == [] || a[0] < b[0] || (a[0] == b[0] && LexLess(a[1..], b[1..])))
  }

  predicate Less(p: PeerInfo, q: PeerInfo) {
    p.row < q.row || (p.row == q.row && LexLess(p.peerID, q.peerID))
  }

  lemma {:induction false} LexOrder(a: string, b: string, c: string)
    ensures !LexLess(a, a)
    ensures LexLess(a, b) || a == b || LexLess(b, a)
    ensures LexLess(a, b) && LexLess(b, c) ==> LexLess(a, c)
    decreases |a| + |b| + |c|
  {
    if a != [] && b != [] {
      var c' := if c == [] then c else c[1..];
      LexOrder(a[1..], b[1..], c');
      if a[1..] == b[1..] && a[0] == b[0] {
        assert a == [a[0]] + a[1..] && b == [b[0]] + b[1..];
      }
    } else if a != [] {
      LexOrder(a[1..], [], []);
    }
  }

  lemma LessOrder(p: PeerInfo, q: PeerInfo, r: PeerInfo)
    ensures !Less(p, p)
    ensures p.peerID != q.peerID ==> Less(p, q) || Less(q, p)
    ensures Less(p, q) && Less(q, r) ==> Less(p, r)
  {
    LexOrder(p.peerID, q.peerID, r.peerID);
  }

  predicate StrictlySorted(ps: seq<PeerInfo>) {
    forall i, j :: 0 <= i < j < |ps| ==> Less(ps[i], ps[j])
  }

  predicate DistinctIDs(ps: seq<PeerInfo>) {
    forall i, j :: 0 <= i < j < |ps| ==> ps[i].peerID != ps[j].peerID
  }

  /** A strictly sorted list is determined by its elements, so the choice of sorting algorithm cannot show. */
  lemma {:induction false} SortedUnique(xs: seq<PeerInfo>, ys: seq<PeerInfo>)
    requires StrictlySorted(xs) && StrictlySorted(ys)
    requires forall p :: p in xs <==> p in ys
    ensures xs == ys
    decreases |xs|
  {
    hide Less;
    assert ys != [] ==> ys[0] in xs;
    assert xs != [] ==> xs[0] in ys;
    if xs != [] && ys != [] {
      var i :| 0 <= i < |ys| && ys[i] == xs[0];
      var j :| 0 <= j < |xs| && xs[j] == ys[0];
      LessOrder(xs[0], ys[0], xs[0]);
      assert xs[0] == ys[0];
      forall p ensures p in xs[1..] <==> p in ys[1..] {
        HeadNotInTail(xs, p);
        HeadNotInTail(ys, p);
      }
      SortedUnique(xs[1..], ys[1..]);
      assert xs == [xs[0]] + xs[1..] && ys == [ys[0]] + ys[1..];
    }
  }

  lemma HeadNotInTail(xs: seq<PeerInfo>, p: PeerInfo)
    requires xs != [] && StrictlySorted(xs)
    ensures p in xs[1..] <==> p in xs && p != xs[0]
  {
    LessOrder(xs[0], xs[0], xs[0]);
  }

  // GetActiveColumnStores

  predicate IsStore(p: PeerInfo) {
    p.row >= 0 && p.peerID != ""
  }

  function IDs(ps: seq<PeerInfo>): set<string> {
    set i | 0 <= i < |ps| :: ps[i].peerID
  }

  /** The stores in order of first appearance, one per identifier. */
  function FirstStores(ps: seq<PeerInfo>): seq<PeerInfo> {
    if ps == [] then []
    else
      var n := |ps| - 1;
      var out := FirstStores(ps[..n]);
      if IsStore(ps[n]) && ps[n].peerID !in IDs(out) then out + [ps[n]] else out
  }

  function Insert(p: PeerInfo, ps: seq<PeerInfo>): seq<PeerInfo> {
    if ps == [] || Less(p, ps[0]) then [p] + ps
    else [ps[0]] + Insert(p, ps[1..])
  }

  function Sort(ps: seq<PeerInfo>): seq<PeerInfo> {
    if ps == [] then [] else Insert(ps[|ps| - 1], Sort(ps[..|ps| - 1]))
  }

  lemma IDsMember(ps: seq<PeerInfo>, id: string)
    ensures id in IDs(ps) <==> exists p :: p in ps && p.peerID == id
  {
    if p :| p in ps && p.peerID == id {
      var i :| 0 <= i < |ps| && ps[i] == p;
      assert ps[i].peerID == id;
    }
    if i :| 0 <= i < |ps| && ps[i].peerID == id {
      assert ps[i] in ps;
    }
  }

  lemma IDsAppend(ps: seq<PeerInfo>, p: PeerInfo)
    ensures IDs(ps + [p]) == IDs(ps) + {p.peerID}
  {
    forall id ensures id in IDs(ps + [p]) <==> id in IDs(ps) + {p.peerID} {
      IDsMember(ps + [p], id);
      IDsMember(ps, id);
    }
  }

  lemma {:induction false} IDsCount(ps: seq<PeerInfo>)
    requires DistinctIDs(ps)
    ensures |IDs(ps)| == |ps|
  {
    if ps != [] {
      var n := |ps| - 1;
      IDsCount(ps[..n]);
      IDsAppend(ps[..n], ps[n]);
      assert ps == ps[..n] + [ps[n]];
      assert ps[n].peerID !in IDs(ps[..n]);
    }
  }

  lemma {:induction false} FirstStoresFacts(ps: seq<PeerInfo>)
    ensures DistinctIDs(FirstStores(ps))
    ensures forall p :: p in FirstStores(ps) ==> p in ps && IsStore(p)
    ensures forall p :: p in ps && IsStore(p) ==> p.peerID in IDs(FirstStores(ps))
  {
    hide IDs;
    if ps != [] {
      var n := |ps| - 1;
      var out := FirstStores(ps[..n]);
      FirstStoresFacts(ps[..n]);
      assert ps == ps[..n] + [ps[n]];
      IDsAppend(out, ps[n]);
      forall i | 0 <= i < |out| ensures out[i].peerID in IDs(out) {
        IDsMember(out, out[i].peerID);
      }
    }
  }

  lemma {:induction false} InsertFacts(p: PeerInfo, ps: seq<PeerInfo>)
    requires StrictlySorted(ps) && forall q :: q in ps ==> q.peerID != p.peerID
    ensures StrictlySorted(Insert(p, ps))
    ensures forall q :: q in Insert(p, ps) <==> q in ps || q == p
    ensures |Insert(p, ps)| == |ps| + 1
  {
    hide Less;
    if ps != [] {
      assert ps == [ps[0]] + ps[1..];
      if Less(p, ps[0]) {
        forall i | 0 <= i < |ps| ensures Less(p, ps[i]) {
          LessOrder(p, ps[0], ps[i]);
        }
      } else {
        InsertFacts(p, ps[1..]);
        LessOrder(p, ps[0], p);
        forall q | q in Insert(p, ps[1..]) ensures Less(ps[0], q) {
          if q != p {
            var i :| 0 <= i < |ps| - 1 && ps[1..][i] == q;
            assert ps[i + 1] == q;
          }
        }
      }
    }
  }

  lemma {:induction false} SortFacts(ps: seq<PeerInfo>)
    requires DistinctIDs(ps)
    ensures StrictlySorted(Sort(ps))
    ensures forall q :: q in Sort(ps) <==> q in ps
    ensures |Sort(ps)| == |ps|
  {
    hide Insert, Less;
    if ps != [] {
      var n := |ps| - 1;
      SortFacts(ps[..n]);
      assert ps == ps[..n] + [ps[n]];
      InsertFacts(ps[n], Sort(ps[..n]));
    }
  }

  function Active(ps: seq<PeerInfo>): (out: seq<PeerInfo>)
    ensures StrictlySorted(out)
  {
    FirstStoresFacts(ps);
    SortFacts(FirstStores(ps));
    Sort(FirstStores(ps))
  }

  method GetActiveColumnStores(colPeers: seq<PeerInfo>) returns (active: seq<PeerInfo>)
    ensures active == Active(colPeers)
  {
    hide Sort;
    var seen: set<string>, found: seq<PeerInfo> := {}, [];
    for i := 0 to |colPeers|
      invariant found == FirstStores(colPeers[..i]) && seen == IDs(found)
    {
      var p := colPeers[i];
      assert colPeers[..i + 1][..i] == colPeers[..i];
      if p.row >= 0 && p.peerID != "" && p.peerID !in seen {
        IDsAppend(found, p);
        seen, found := seen + {p.peerID}, found + [p];
      }
    }
    assert colPeers[..|colPeers|] == colPeers;
    active := Sort(found);
  }

  lemma ActiveDistinct(ps: seq<PeerInfo>)
    ensures DistinctIDs(Active(ps))
    ensures forall p :: p in Active(ps) ==> p in ps && IsStore(p)
  {
    hide Sort, FirstStores, Less;
    var first, active := FirstStores(ps), Active(ps);
    FirstStoresFacts(ps);
    SortFacts(first);
    forall i, j | 0 <= i < j < |active| ensures active[i].peerID != active[j].peerID {
      assert active[i] in first && active[j] in first;
      LessOrder(active[i], active[j], active[i]);
      if active[i].peerID == active[j].peerID {
        SameIDSamePeer(first, active[i], active[j]);
      }
    }
  }

  lemma SameIDSamePeer(ps: seq<PeerInfo>, p: PeerInfo, q: PeerInfo)
    requires DistinctIDs(ps) && p in ps && q in ps && p.peerID == q.peerID
    ensures p == q
  {
    var i :| 0 <= i < |ps| && ps[i] == p;
    var j :| 0 <= j < |ps| && ps[j] == q;
    assert i == j;
  }

  lemma ActiveMembers(ps: seq<PeerInfo>, p: PeerInfo)
    requires DistinctIDs(ps)
    ensures p in Active(ps) <==> p in ps && IsStore(p)
  {
    hide Sort, FirstStores;
    var first := FirstStores(ps);
    FirstStoresFacts(ps);
    SortFacts(first);
    if p in ps && IsStore(p) {
      IDsMember(first, p.peerID);
      var q :| q in first && q.peerID == p.peerID;
      SameIDSamePeer(ps, q, p);
    }
  }

  /** Of peer lists with distinct identifiers only the set matters, not the order. */
  lemma ActiveIgnoresOrder(xs: seq<PeerInfo>, ys: seq<PeerInfo>)
    requires DistinctIDs(xs) && DistinctIDs(ys) && forall p :: p in xs <==> p in ys
    ensures Active(xs) == Active(ys)
  {
    hide Active;
    forall p ensures p in Active(xs) <==> p in Active(ys) {
      ActiveMembers(xs, p);
      ActiveMembers(ys, p);
    }
    SortedUnique(Active(xs), Active(ys));
  }

  /** Filtering and sorting twice is the same as once. */
  lemma ActiveIdempotent(ps: seq<PeerInfo>)
    ensures Active(Active(ps)) == Active(ps)
  {
    hide Active;
    var active := Active(ps);
    ActiveDistinct(ps);
    forall p ensures p in Active(active) <==> p in active {
      ActiveMembers(active, p);
    }
    SortedUnique(Active(active), active);
  }

  // ComputeColumnCustodyMap

  /** The members of one network row, in the order of the store list. */
  function InRow(active: seq<PeerInfo>, netRows: nat, r: nat): (out: seq<PeerInfo>)
    requires netRows > 0
    ensures forall p :: p in out <==> p in active && p.row % netRows == r
  {
    if active == [] then []
    else
      var n := |active| - 1;
      assert active == active[..n] + [active[n]];
      InRow(active[..n], netRows, r) + if active[n].row % netRows == r then [active[n]] else []
  }

  /** The row `offset` places after row t, around the column. */
  function RowAfter(t: nat, offset: nat, netRows: nat): (r: nat)
    requires netRows > 0
    ensures r < netRows
  {
    (t + offset) % netRows
  }

  /** All stores of the rows after row t, in the order those rows follow it. */
  function Following(active: seq<PeerInfo>, netRows: nat, t: nat, offset: nat): seq<PeerInfo>
    requires netRows > 0
    decreases netRows - offset
  {
    if offset >= netRows then []
    else InRow(active, netRows, RowAfter(t, offset, netRows)) + Following(active, netRows, t, offset + 1)
  }

  /** The holder borrowed for a row with one member: from the first non-empty row that follows,
      its first store, or the one at the row's own place when it has several. */
  function Borrowed(active: seq<PeerInfo>, netRows: nat, t: nat, offset: nat): seq<PeerInfo>
    requires netRows > 0
    decreases netRows - offset
  {
    if offset >= netRows then []
    else
      var cand := InRow(active, netRows, RowAfter(t, offset, netRows));
      if cand == [] then Borrowed(active, netRows, t, offset + 1)
      else [cand[Pick(t + offset, |cand|)]]
  }

  /** Which of several stores is borrowed. */
  function Pick(place: nat, count: nat): (i: nat)
    requires count > 0
    ensures i < count
  {
    if count > 1 then place % count else 0
  }

  /** The holders of row t. */
  function Holders(active: seq<PeerInfo>, netRows: nat, t: nat): seq<PeerInfo>
    requires netRows > 0
  {
    var cell := InRow(active, netRows, t);
    if |cell| >= 2 then cell
    else if |cell| == 1 then cell + Borrowed(active, netRows, t, 1)
    else
      var rest := Following(active, netRows, t, 1);
      if |rest| <= 2 then rest else rest[..2]
  }

  function EffectiveRows(netRows: int): (n: nat)
    ensures n > 0
  {
    if netRows <= 0 then 8 else netRows
  }

  /** A missing key reads as the empty list. */
  function Lookup(m: map<int, seq<PeerInfo>>, r: int): seq<PeerInfo> {
    if r in m then m[r] else []
  }

  lemma {:induction false} InRowDistinct(active: seq<PeerInfo>, netRows: nat, r: nat)
    requires netRows > 0 && DistinctIDs(active)
    ensures DistinctIDs(InRow(active, netRows, r))
  {
    if active != [] {
      var n := |active| - 1;
      InRowDistinct(active[..n], netRows, r);
      var rest := InRow(active[..n], netRows, r);
      forall i | 0 <= i < |rest| ensures rest[i].peerID != active[n].peerID {
        assert rest[i] in active[..n];
      }
    }
  }

  lemma RowsDisjoint(active: seq<PeerInfo>, netRows: nat, r: nat, s: nat, p: PeerInfo, q: PeerInfo)
    requires netRows > 0 && DistinctIDs(active) && r != s
    requires p in InRow(active, netRows, r) && q in InRow(active, netRows, s)
    ensures p.peerID != q.peerID
  {
    if p.peerID == q.peerID {
      SameIDSamePeer(active, p, q);
    }
  }

  lemma RowAfterDiffers(t: nat, a: nat, b: nat, netRows: nat)
    requires netRows > 0 && a < b < a + netRows
    ensures RowAfter(t, a, netRows) != RowAfter(t, b, netRows)
  {
    if RowAfter(t, a, netRows) == RowAfter(t, b, netRows) {
      SameRemainder(t + a, t + b, netRows);
    }
  }

  lemma RowAfterReaches(t: nat, r: nat, netRows: nat) returns (offset: nat)
    requires t < netRows && r < netRows
    ensures offset < netRows && RowAfter(t, offset, netRows) == r
    ensures offset == 0 <==> r == t
  {
    offset := if r >= t then r - t else netRows - t + r;
    var q := if r >= t then 0 else 1;
    var x := t + offset;
    QuotientUnique(netRows, q, r, x / netRows, x % netRows);
  }

  lemma {:induction false} FollowingMembers(active: seq<PeerInfo>, netRows: nat, t: nat, offset: nat, p: PeerInfo)
    requires netRows > 0
    ensures p in Following(active, netRows, t, offset) <==>
            exists o: nat :: offset <= o < netRows && p in InRow(active, netRows, RowAfter(t, o, netRows))
    decreases netRows - offset
  {
    hide InRow, RowAfter;
    if offset < netRows {
      FollowingMembers(active, netRows, t, offset + 1, p);
    }
  }

  lemma DistinctConcat(xs: seq<PeerInfo>, ys: seq<PeerInfo>)
    requires DistinctIDs(xs) && DistinctIDs(ys)
    requires forall p, q :: p in xs && q in ys ==> p.peerID != q.peerID
    ensures DistinctIDs(xs + ys)
  {
    var all := xs + ys;
    forall i, j | 0 <= i < j < |all| ensures all[i].peerID != all[j].peerID {
      if i < |xs| <= j {
        assert all[i] in xs && all[j] in ys;
      }
    }
  }

  lemma {:induction false} FollowingDistinct(active: seq<PeerInfo>, netRows: nat, t: nat, offset: nat)
    requires netRows > 0 && DistinctIDs(active)
    ensures DistinctIDs(Following(active, netRows, t, offset))
    decreases netRows - offset
  {
    hide InRow, RowAfter, DistinctIDs;
    if offset < netRows {
      var r := RowAfter(t, offset, netRows);
      var cand, rest := InRow(active, netRows, r), Following(active, netRows, t, offset + 1);
      FollowingDistinct(active, netRows, t, offset + 1);
      InRowDistinct(active, netRows, r);
      forall p, q | p in cand && q in rest ensures p.peerID != q.peerID {
        FollowingMembers(active, netRows, t, offset + 1, q);
        var o: nat :| offset + 1 <= o < netRows && q in InRow(active, netRows, RowAfter(t, o, netRows));
        RowAfterDiffers(t, offset, o, netRows);
        RowsDisjoint(active, netRows, r, RowAfter(t, o, netRows), p, q);
      }
      DistinctConcat(cand, rest);
    } else {
      assert DistinctIDs([]) by { EmptyDistinct(); }
    }
  }

  lemma EmptyDistinct()
    ensures DistinctIDs([])
  {
  }

  /** Outside the row itself, every store follows it. */
  lemma FollowsOrMember(active: seq<PeerInfo>, netRows: nat, t: nat, p: PeerInfo)
    requires t < netRows && p in active
    ensures p in InRow(active, netRows, t) || p in Following(active, netRows, t, 1)
  {
    var offset := RowAfterReaches(t, p.row % netRows, netRows);
    FollowingMembers(active, netRows, t, 1, p);
  }

  lemma {:induction false} BorrowedFacts(active: seq<PeerInfo>, netRows: nat, t: nat, offset: nat)
    requires netRows > 0
    ensures Following(active, netRows, t, offset) == [] ==> Borrowed(active, netRows, t, offset) == []
    ensures Following(active, netRows, t, offset) != [] ==>
              && |Borrowed(active, netRows, t, offset)| == 1
              && Borrowed(active, netRows, t, offset)[0] in Following(active, netRows, t, offset)
    decreases netRows - offset
  {
    hide InRow, RowAfter;
    if offset < netRows {
      BorrowedFacts(active, netRows, t, offset + 1);
      var cand := InRow(active, netRows, RowAfter(t, offset, netRows));
      if cand != [] {
        var i := Pick(t + offset, |cand|);
        assert cand[i] in cand;
      }
    }
  }

  /** The borrowed holder sits in the nearest non-empty row. */
  lemma {:induction false} BorrowedNearest(active: seq<PeerInfo>, netRows: nat, t: nat, offset: nat) returns (o: nat)
    requires netRows > 0 && Borrowed(active, netRows, t, offset) != []
    ensures offset <= o < netRows
    ensures Borrowed(active, netRows, t, offset)[0] in InRow(active, netRows, RowAfter(t, o, netRows))
    ensures forall e: nat :: offset <= e < o ==> InRow(active, netRows, RowAfter(t, e, netRows)) == []
    decreases netRows - offset
  {
    hide InRow, RowAfter;
    if InRow(active, netRows, RowAfter(t, offset, netRows)) == [] {
      o := BorrowedNearest(active, netRows, t, offset + 1);
    } else {
      o := offset;
    }
  }

  lemma FollowingElsewhere(active: seq<PeerInfo>, netRows: nat, t: nat)
    requires t < netRows
    ensures forall p :: p in Following(active, netRows, t, 1) ==> p in active && p !in InRow(active, netRows, t)
  {
    hide Following, RowAfter;
    forall p | p in Following(active, netRows, t, 1) ensures p in active && p !in InRow(active, netRows, t) {
      FollowingMembers(active, netRows, t, 1, p);
      var o: nat :| 1 <= o < netRows && p in InRow(active, netRows, RowAfter(t, o, netRows));
      RowAfterDiffers(t, 0, o, netRows);
      RowAfterSelf(t, netRows);
    }
  }

  lemma RowAfterSelf(t: nat, netRows: nat)
    requires t < netRows
    ensures RowAfter(t, 0, netRows) == t
  {
  }

  /** No row is orphaned: its holders are active and distinct, they are its own members when it has two
      or more, and otherwise exactly two, the row's own member first; with one active store it is that store. */
  lemma NoOrphans(active: seq<PeerInfo>, netRows: nat, t: nat)
    requires t < netRows && DistinctIDs(active) && active != []
    ensures var hs, cell := Holders(active, netRows, t), InRow(active, netRows, t);
            && DistinctIDs(hs)
            && (forall p :: p in hs ==> p in active)
            && (forall p :: p in cell ==> p in hs)
            && (cell != [] ==> hs[0] == cell[0])
            && (|active| >= 2 ==> |hs| == if |cell| >= 2 then |cell| else 2)
            && (|active| == 1 ==> hs == active)
  {
    hide InRow, Following, Borrowed, DistinctIDs, RowAfter;
    var hs, cell := Holders(active, netRows, t), InRow(active, netRows, t);
    var rest := Following(active, netRows, t, 1);
    InRowDistinct(active, netRows, t);
    FollowingDistinct(active, netRows, t, 1);
    BorrowedFacts(active, netRows, t, 1);
    FollowingElsewhere(active, netRows, t);
    RestCount(active, cell, rest, netRows, t);
    HoldersDistinct(active, cell, rest, hs, netRows, t);
  }

  lemma RestCount(active: seq<PeerInfo>, cell: seq<PeerInfo>, rest: seq<PeerInfo>, netRows: nat, t: nat)
    requires t < netRows && DistinctIDs(active) && active != []
    requires cell == InRow(active, netRows, t) && rest == Following(active, netRows, t, 1)
    requires forall p :: p in rest ==> p in active && p !in cell
    requires DistinctIDs(cell) && DistinctIDs(rest)
    ensures |active| >= 2 && |cell| == 1 ==> rest != []
    ensures |active| >= 2 && |cell| == 0 ==> |rest| >= 2
    ensures |active| == 1 ==> cell + rest == active
  {
    hide InRow, Following;
    FollowsOrMember(active, netRows, t, active[0]);
    if |active| >= 2 {
      assert active[0] != active[1];
      FollowsOrMember(active, netRows, t, active[1]);
    } else {
      assert forall i :: 0 <= i < |cell| ==> cell[i] in active;
      assert forall i :: 0 <= i < |rest| ==> rest[i] in active;
      OnlyOne(cell, active[0]);
      OnlyOne(rest, active[0]);
    }
  }

  lemma OnlyOne(ps: seq<PeerInfo>, p: PeerInfo)
    requires DistinctIDs(ps) && forall i :: 0 <= i < |ps| ==> ps[i] == p
    ensures ps == [] || ps == [p]
  {
    IDsCount(ps);
    if ps != [] {
      assert IDs(ps) == {ps[0].peerID};
    }
  }

  lemma HoldersDistinct(active: seq<PeerInfo>, cell: seq<PeerInfo>, rest: seq<PeerInfo>, hs: seq<PeerInfo>,
                        netRows: nat, t: nat)
    requires t < netRows && DistinctIDs(active) && hs == Holders(active, netRows, t)
    requires cell == InRow(active, netRows, t) && rest == Following(active, netRows, t, 1)
    requires forall p :: p in rest ==> p in active && p !in cell
    requires DistinctIDs(cell) && DistinctIDs(rest)
    ensures DistinctIDs(hs)
  {
    hide InRow, Following, Borrowed;
    BorrowedFacts(active, netRows, t, 1);
    if |cell| == 1 && rest != [] {
      var b := Borrowed(active, netRows, t, 1)[0];
      assert hs == [cell[0], b];
      assert cell[0] in cell;
      if b.peerID == cell[0].peerID {
        SameIDSamePeer(active, b, cell[0]);
      }
    }
  }

  /** Groups the stores by network row. */
  method GroupByRow(active: seq<PeerInfo>, netRows: nat) returns (grouped: map<int, seq<PeerInfo>>)
    requires netRows > 0 && forall p :: p in active ==> p.row >= 0
    ensures forall r: nat :: r < netRows ==> Lookup(grouped, r) == InRow(active, netRows, r)
  {
    grouped := map[];
    for i := 0 to |active|
      invariant forall r: nat :: r < netRows ==> Lookup(grouped, r) == InRow(active[..i], netRows, r)
    {
      assert active[..i + 1][..i] == active[..i];
      assert active[i] in active;
      var r := active[i].row % netRows;
      grouped := grouped[r := Lookup(grouped, r) + [active[i]]];
    }
    assert active[..|active|] == active;
  }

  lemma BorrowedAvoidsOwner(active: seq<PeerInfo>, netRows: nat, t: nat, offset: nat, own: PeerInfo)
    requires t < netRows && 1 <= offset < netRows && DistinctIDs(active) && own in InRow(active, netRows, t)
    ensures forall p :: p in InRow(active, netRows, RowAfter(t, offset, netRows)) ==> p.peerID != own.peerID
  {
    hide InRow, DistinctIDs;
    RowAfterDiffers(t, 0, offset, netRows);
    RowAfterSelf(t, netRows);
    forall p | p in InRow(active, netRows, RowAfter(t, offset, netRows)) ensures p.peerID != own.peerID {
      RowsDisjoint(active, netRows, t, RowAfter(t, offset, netRows), own, p);
    }
  }

  /** The borrowing loop of a row with one member. */
  method BorrowOne(active: seq<PeerInfo>, grouped: map<int, seq<PeerInfo>>, netRows: nat, t: nat)
    returns (holders: seq<PeerInfo>)
    requires t < netRows && DistinctIDs(active) && |InRow(active, netRows, t)| == 1
    requires forall r: nat :: r < netRows ==> Lookup(grouped, r) == InRow(active, netRows, r)
    ensures holders == Holders(active, netRows, t)
  {
    hide InRow, DistinctIDs, RowAfter, Pick, Lookup;
    ghost var cell := InRow(active, netRows, t);
    holders := [Lookup(grouped, t)[0]];
    assert cell == [cell[0]];
    for offset := 1 to netRows
      invariant holders == cell
      invariant Borrowed(active, netRows, t, offset) == Borrowed(active, netRows, t, 1)
    {
      var candRow := RowAfter(t, offset, netRows);
      var candPeers := Lookup(grouped, candRow);
      if |candPeers| > 0 {
        var pickIdx := Pick(t + offset, |candPeers|);
        assert candPeers[pickIdx] in candPeers;
        BorrowedAvoidsOwner(active, netRows, t, offset, holders[0]);
        if candPeers[pickIdx].peerID != holders[0].peerID {
          return holders + [candPeers[pickIdx]];
        }
      }
    }
  }

  /** The inner loop of the borrowing for an empty row: take unused stores until there are two. */
  method TakeUnused(before: seq<PeerInfo>, usedBefore: set<string>, cand: seq<PeerInfo>)
    returns (holders: seq<PeerInfo>, used: set<string>)
    requires |before| < 2 && usedBefore == IDs(before) && DistinctIDs(before + cand)
    ensures holders == FirstTwo(before + cand) && used == IDs(holders)
  {
    hide IDs, DistinctIDs;
    holders, used := before, usedBefore;
    for i := 0 to |cand|
      invariant |holders| < 2 && holders == before + cand[..i] && used == IDs(holders)
    {
      var p := cand[i];
      assert p == (before + cand)[|before| + i];
      assert holders == (before + cand)[..|before| + i];
      NotYetUsed(before + cand, holders, p);
      if p.peerID !in used {
        IDsAppend(holders, p);
        used := used + {p.peerID};
        holders := holders + [p];
        if |holders| >= 2 {
          assert holders == FirstTwo(before + cand);
          break;
        }
      }
    }
  }

  /** The borrowing loops of an empty row: up to two distinct stores from the rows that follow. */
  method BorrowTwo(active: seq<PeerInfo>, grouped: map<int, seq<PeerInfo>>, netRows: nat, t: nat)
    returns (holders: seq<PeerInfo>)
    requires t < netRows && DistinctIDs(active) && InRow(active, netRows, t) == []
    requires forall r: nat :: r < netRows ==> Lookup(grouped, r) == InRow(active, netRows, r)
    ensures holders == Holders(active, netRows, t)
  {
    hide InRow, DistinctIDs, RowAfter, Lookup, IDs;
    ghost var rest := Following(active, netRows, t, 1);
    FollowingDistinct(active, netRows, t, 1);
    holders := [];
    var used: set<string> := {};
    assert used == IDs([]) by { NoIDs(); }
    var offset := 1;
    ghost var passed: seq<PeerInfo> := [];
    while offset < netRows && |holders| < 2
      invariant 1 <= offset <= netRows
      invariant rest == passed + Following(active, netRows, t, offset)
      invariant holders == FirstTwo(passed) && used == IDs(holders)
      decreases netRows - offset
    {
      var cand := Lookup(grouped, RowAfter(t, offset, netRows));
      assert rest == passed + cand + Following(active, netRows, t, offset + 1);
      DistinctPrefix(passed + cand, rest);
      holders, used := TakeUnused(holders, used, cand);
      passed := passed + cand;
      offset := offset + 1;
    }
    assert holders == FirstTwo(rest);
  }

  lemma NoIDs()
    ensures IDs([]) == {}
  {
  }

  lemma DistinctPrefix(ps: seq<PeerInfo>, all: seq<PeerInfo>)
    requires ps <= all && DistinctIDs(all)
    ensures DistinctIDs(ps)
  {
  }

  function FirstTwo(ps: seq<PeerInfo>): seq<PeerInfo> {
    if |ps| <= 2 then ps else ps[..2]
  }

  lemma NotYetUsed(rest: seq<PeerInfo>, holders: seq<PeerInfo>, p: PeerInfo)
    requires DistinctIDs(rest) && |holders| < |rest| && holders == rest[..|holders|] && p == rest[|holders|]
    ensures p.peerID !in IDs(holders)
  {
  }

  /** The holders of every row; empty when the column has no active store. */
  function CustodyTable(colPeers: seq<PeerInfo>, netRows: int): map<int, seq<PeerInfo>> {
    var active, n := Active(colPeers), EffectiveRows(netRows);
    if active == [] then map[] else map r: nat | r < n :: Holders(active, n, r)
  }

  method ComputeColumnCustodyMap(colPeers: seq<PeerInfo>, netRows: int) returns (custody: map<int, seq<PeerInfo>>)
    ensures custody == CustodyTable(colPeers, netRows)
  {
    hide InRow, Active, Holders;
    var rows := EffectiveRows(netRows);
    var active := GetActiveColumnStores(colPeers);
    custody := map[];
    if |active| == 0 {
      return;
    }
    ActiveDistinct(colPeers);
    var grouped := GroupByRow(active, rows);
    for t := 0 to rows
      invariant custody == map r: nat | r < t :: Holders(active, rows, r)
    {
      var cellPeers := Lookup(grouped, t);
      var holders;
      if |cellPeers| >= 2 {
        holders := cellPeers;
        BigCell(active, rows, t);
      } else if |cellPeers| == 1 {
        holders := BorrowOne(active, grouped, rows, t);
      } else {
        holders := BorrowTwo(active, grouped, rows, t);
      }
      custody := custody[t := holders];
    }
  }

  /** The bootstrap's snapshot filters the peers and then computes the map, which filters again;
      neither the repetition nor the order in which the peers are listed can be seen in the result. */
  lemma SnapshotCanonical(xs: seq<PeerInfo>, ys: seq<PeerInfo>, netRows: int)
    ensures CustodyTable(Active(xs), netRows) == CustodyTable(xs, netRows)
    ensures DistinctIDs(xs) && DistinctIDs(ys) && (forall p :: p in xs <==> p in ys) ==>
              CustodyTable(xs, netRows) == CustodyTable(ys, netRows)
  {
    hide Active, Holders;
    ActiveIdempotent(xs);
    if DistinctIDs(xs) && DistinctIDs(ys) && (forall p :: p in xs <==> p in ys) {
      ActiveIgnoresOrder(xs, ys);
    }
  }

  lemma BigCell(active: seq<PeerInfo>, netRows: nat, t: nat)
    requires netRows > 0 && |InRow(active, netRows, t)| >= 2
    ensures Holders(active, netRows, t) == InRow(active, netRows, t)
  {
  }
}
