/**
 The custody map said of the stores themselves: which peers count as stores, in what order, and which stores hold a
 row, whether it has several members, one or none.
 */
module CustodyHolders {
  import opened Division
  import opened CustodyMap

  // The active stores.

  /** A peer is an active store exactly when it is the first in the list with its identifier that has a row and an
      identifier at all. */
  lemma ActiveFirsts(ps: seq<PeerInfo>, p: PeerInfo)
    ensures p in Active(ps) <==> exists i :: FirstAt(ps, i, p)
  {
    hide FirstStores, Sort, FirstAt;
    FirstStoresFacts(ps);
    SortFacts(FirstStores(ps));
    FirstsInOrder(ps, p);
  }

  ghost predicate FirstAt(ps: seq<PeerInfo>, i: int, p: PeerInfo) {
    && 0 <= i < |ps| && ps[i] == p && p.row >= 0 && |p.peerID| > 0
    && forall j :: 0 <= j < i ==> ps[j].peerID != p.peerID || ps[j].row < 0
  }

  lemma {:induction false} FirstsInOrder(ps: seq<PeerInfo>, p: PeerInfo)
    ensures p in FirstStores(ps) <==> exists i :: FirstAt(ps, i, p)
  {
    if ps != [] {
      var n := |ps| - 1;
      var out := FirstStores(ps[..n]);
      FirstsInOrder(ps[..n], p);
      FirstStoresFacts(ps[..n]);
      forall i | 0 <= i < n ensures FirstAt(ps, i, p) <==> FirstAt(ps[..n], i, p) {
      }
      IDsMember(out, p.peerID);
      if p.peerID in IDs(out) {
        var q :| q in out && q.peerID == p.peerID;
        var j :| 0 <= j < n && ps[..n][j] == q;
        assert q.row >= 0 && ps[j] == q;
        assert !FirstAt(ps, n, p);
      }
      if p in out {
        var i :| FirstAt(ps[..n], i, p);
        assert FirstAt(ps, i, p);
      }
      if ps[n] == p && IsStore(p) && p.peerID !in IDs(out) {
        forall j | 0 <= j < n ensures ps[j].peerID != p.peerID || ps[j].row < 0 {
          assert ps[..n][j] in ps[..n];
        }
        assert FirstAt(ps, n, p);
      }
    }
  }

  /** One string comes before another when it is a proper prefix, or smaller in the first place where they differ. */
  lemma {:induction false} LexInWords(a: string, b: string)
    ensures LexLess(a, b) <==> exists n :: DifferAt(a, b, n)
  {
    if a == [] {
      assert b != [] ==> DifferAt(a, b, 0);
    } else if b != [] {
      LexInWords(a[1..], b[1..]);
      if a[0] != b[0] {
        assert a[0] < b[0] ==> DifferAt(a, b, 0);
      } else {
        if n :| DifferAt(a, b, n) {
          DifferLater(a, b, n - 1);
        }
        if n :| DifferAt(a[1..], b[1..], n) {
          DifferLater(a, b, n);
        }
      }
    }
  }

  predicate DifferAt(a: string, b: string, n: int) {
    0 <= n <= |a| && n < |b| && a[..n] == b[..n] && (n == |a| || a[n] < b[n])
  }

  lemma DifferLater(a: string, b: string, n: int)
    requires a != [] && b != [] && a[0] == b[0]
    ensures DifferAt(a, b, n + 1) <==> DifferAt(a[1..], b[1..], n)
  {
    if 0 <= n < |a| && n + 1 < |b| {
      assert a[..n + 1] == [a[0]] + a[1..][..n] && b[..n + 1] == [b[0]] + b[1..][..n];
      assert a[1..][..n] == a[..n + 1][1..] && b[1..][..n] == b[..n + 1][1..];
    }
  }

  /** The stores come in the order of their rows, within a row in the order of their identifiers. */
  lemma ActiveInOrder(ps: seq<PeerInfo>, i: nat, j: nat)
    requires i < j < |Active(ps)|
    ensures var p, q := Active(ps)[i], Active(ps)[j];
            p.row < q.row || (p.row == q.row && exists n :: DifferAt(p.peerID, q.peerID, n))
  {
    hide Active, LexLess, DifferAt;
    LexInWords(Active(ps)[i].peerID, Active(ps)[j].peerID);
  }

  // The holders of a row.

  /** The stores of row r in their order. */
  ghost predicate Members(ms: seq<PeerInfo>, active: seq<PeerInfo>, n: nat, r: nat)
    requires n > 0
  {
    StrictlySorted(ms) && forall p :: p in ms <==> p in active && p.row % n == r
  }

  /** No store is in the row `offset` places after row t. */
  ghost predicate NoneAfter(active: seq<PeerInfo>, n: nat, t: nat, offset: nat)
    requires n > 0
  {
    forall p :: p in active ==> p.row % n != (t + offset) % n
  }

  lemma {:induction false} InRowSorted(active: seq<PeerInfo>, n: nat, r: nat)
    requires n > 0 && StrictlySorted(active)
    ensures StrictlySorted(InRow(active, n, r))
  {
    hide Less;
    if active != [] {
      var m := |active| - 1;
      InRowSorted(active[..m], n, r);
      var rest := InRow(active[..m], n, r);
      forall i | 0 <= i < |rest| ensures Less(rest[i], active[m]) {
        assert rest[i] in active[..m];
      }
    }
  }

  lemma MembersInRow(ms: seq<PeerInfo>, active: seq<PeerInfo>, n: nat, r: nat)
    requires n > 0 && StrictlySorted(active) && Members(ms, active, n, r)
    ensures ms == InRow(active, n, r)
  {
    hide StrictlySorted;
    InRowSorted(active, n, r);
    SortedUnique(ms, InRow(active, n, r));
  }

  /** The map has the rows from 0 on, 8 of them when no number is given, and none when there is no store. */
  lemma TableRows(ps: seq<PeerInfo>, netRows: int, n: nat)
    requires n == if netRows > 0 then netRows else 8
    ensures forall t: int :: t in CustodyTable(ps, netRows) <==> 0 <= t < n && Active(ps) != []
    ensures Active(ps) != [] ==>
              forall t: nat :: t < n ==> CustodyTable(ps, netRows)[t] == Holders(Active(ps), n, t)
  {
    hide Active, Holders;
  }

  /** A row with two or more members is held by all of them. */
  lemma ManyHold(ps: seq<PeerInfo>, netRows: int, n: nat, t: nat, members: seq<PeerInfo>)
    requires n == (if netRows > 0 then netRows else 8) && t < n && Members(members, Active(ps), n, t) && |members| >= 2
    ensures t in CustodyTable(ps, netRows) && CustodyTable(ps, netRows)[t] == members
  {
    hide Active, InRow;
    MembersInRow(members, Active(ps), n, t);
    assert members[0] in Active(ps);
    TableRows(ps, netRows, n);
  }

  lemma {:induction false} BorrowedAt(active: seq<PeerInfo>, n: nat, t: nat, from: nat, o: nat)
    requires n > 0 && from <= o < n && forall e: nat :: from <= e < o ==> NoneAfter(active, n, t, e)
    requires InRow(active, n, (t + o) % n) != []
    ensures var lenders := InRow(active, n, (t + o) % n);
            Borrowed(active, n, t, from) == [lenders[(t + o) % |lenders|]]
    decreases o - from
  {
    hide InRow;
    if from < o {
      assert NoneAfter(active, n, t, from);
      assert InRow(active, n, (t + from) % n) == [] by {
        NobodyInRow(active, n, (t + from) % n);
      }
      BorrowedAt(active, n, t, from + 1, o);
    }
  }

  lemma {:induction false} NobodyInRow(active: seq<PeerInfo>, n: nat, r: nat)
    requires n > 0 && forall p :: p in active ==> p.row % n != r
    ensures InRow(active, n, r) == []
  {
    if active != [] {
      NobodyInRow(active[..|active| - 1], n, r);
    }
  }

  /** A row with one member is held by it and by one store of the nearest row after it that has any: of its stores in
      their order, the one at the place t + o, o being the distance of the two rows. */
  lemma OneBorrows(ps: seq<PeerInfo>, netRows: int, n: nat, t: nat, own: PeerInfo, o: nat, lenders: seq<PeerInfo>)
    requires n == (if netRows > 0 then netRows else 8) && t < n && Members([own], Active(ps), n, t)
    requires 1 <= o < n && Members(lenders, Active(ps), n, (t + o) % n) && lenders != []
    requires forall e: nat :: 1 <= e < o ==> NoneAfter(Active(ps), n, t, e)
    ensures t in CustodyTable(ps, netRows)
    ensures CustodyTable(ps, netRows)[t] == [own, lenders[(t + o) % |lenders|]]
  {
    hide Active, InRow, Borrowed, Members, NoneAfter;
    var active := Active(ps);
    MembersInRow([own], active, n, t);
    MembersInRow(lenders, active, n, (t + o) % n);
    BorrowedAt(active, n, t, 1, o);
    assert own in active by {
      OwnIsActive(own, active, n, t);
    }
    TableRows(ps, netRows, n);
  }

  lemma OwnIsActive(own: PeerInfo, active: seq<PeerInfo>, n: nat, t: nat)
    requires n > 0 && Members([own], active, n, t)
    ensures own in active
  {
    assert own in [own];
  }

  /** So the load is spread: two rows with one member each that borrow from the same row get different stores of it,
      unless their places agree modulo the number of its stores. */
  lemma LoadIsSpread(ps: seq<PeerInfo>, netRows: int, n: nat, lenders: seq<PeerInfo>,
                     t: nat, own: PeerInfo, o: nat, t': nat, own': PeerInfo, o': nat)
    requires n == (if netRows > 0 then netRows else 8) && lenders != []
    requires t < n && Members([own], Active(ps), n, t) && t' < n && Members([own'], Active(ps), n, t')
    requires 1 <= o < n && forall e: nat :: 1 <= e < o ==> NoneAfter(Active(ps), n, t, e)
    requires 1 <= o' < n && forall e: nat :: 1 <= e < o' ==> NoneAfter(Active(ps), n, t', e)
    requires (t + o) % n == (t' + o') % n && Members(lenders, Active(ps), n, (t + o) % n)
    ensures t in CustodyTable(ps, netRows) && |CustodyTable(ps, netRows)[t]| == 2
    ensures t' in CustodyTable(ps, netRows) && |CustodyTable(ps, netRows)[t']| == 2
    ensures CustodyTable(ps, netRows)[t][1] == CustodyTable(ps, netRows)[t'][1] <==>
            (t + o) % |lenders| == (t' + o') % |lenders|
  {
    hide Active, CustodyTable, NoneAfter;
    OneBorrows(ps, netRows, n, t, own, o, lenders);
    OneBorrows(ps, netRows, n, t', own', o', lenders);
    SortedDistinct(lenders, (t + o) % |lenders|, (t' + o') % |lenders|);
  }

  lemma SortedDistinct(ms: seq<PeerInfo>, i: nat, j: nat)
    requires StrictlySorted(ms) && i < |ms| && j < |ms|
    ensures ms[i] == ms[j] <==> i == j
  {
    hide Less;
    LessOrder(ms[i], ms[j], ms[i]);
  }

  // An empty row.

  /** Store p comes before store q when one looks from row t onwards: its row is nearer, or they share a row and p comes
      first there. */
  predicate Nearer(p: PeerInfo, q: PeerInfo, n: nat, t: nat)
    requires n > 0
  {
    var a, b := (p.row - t) % n, (q.row - t) % n;
    a < b || (a == b && Less(p, q))
  }

  ghost predicate ByDistance(ps: seq<PeerInfo>, n: nat, t: nat)
    requires n > 0
  {
    forall i, j :: 0 <= i < j < |ps| ==> Nearer(ps[i], ps[j], n, t)
  }

  lemma DistanceIs(row: int, n: nat, t: nat, o: nat)
    requires o < n && row >= 0
    ensures row % n == (t + o) % n <==> (row - t) % n == o
  {
    var a, b := row / n, (t + o) / n;
    if row % n == (t + o) % n {
      assert row - t == n * (a - b) + o;
      QuotientUnique(n, a - b, o, (row - t) / n, (row - t) % n);
    }
    if (row - t) % n == o {
      var c := (row - t) / n;
      assert row == n * c + (t + o) == n * (b + c) + (t + o) % n;
      QuotientUnique(n, b + c, (t + o) % n, row / n, row % n);
    }
  }

  lemma {:induction false} FollowingByDistance(active: seq<PeerInfo>, n: nat, t: nat, offset: nat)
    requires n > 0 && StrictlySorted(active) && forall p :: p in active ==> p.row >= 0
    ensures ByDistance(Following(active, n, t, offset), n, t)
    ensures forall p :: p in Following(active, n, t, offset) <==> p in active && (p.row - t) % n >= offset
    decreases n - offset
  {
    hide Less, InRow, StrictlySorted;
    if offset < n {
      var here, later := InRow(active, n, RowAfter(t, offset, n)), Following(active, n, t, offset + 1);
      FollowingByDistance(active, n, t, offset + 1);
      forall p | p in active ensures p in here <==> (p.row - t) % n == offset {
        DistanceIs(p.row, n, t, offset);
      }
      InRowSorted(active, n, RowAfter(t, offset, n));
      JoinedByDistance(here, later, n, t, offset);
    }
  }

  lemma JoinedByDistance(here: seq<PeerInfo>, later: seq<PeerInfo>, n: nat, t: nat, offset: nat)
    requires n > 0 && StrictlySorted(here) && ByDistance(later, n, t)
    requires forall p :: p in here ==> (p.row - t) % n == offset
    requires forall p :: p in later ==> (p.row - t) % n >= offset + 1
    ensures ByDistance(here + later, n, t)
  {
    hide Less;
    var all := here + later;
    forall i, j | 0 <= i < j < |all| ensures Nearer(all[i], all[j], n, t) {
      if i < |here| {
        assert all[i] in here;
        assert if j < |here| then all[j] in here else all[j] in later;
      }
    }
  }

  /** A row without members is held by the two nearest stores after it, or by the only one there is. */
  lemma EmptyRowBorrows(ps: seq<PeerInfo>, netRows: int, n: nat, t: nat)
    requires n == (if netRows > 0 then netRows else 8) && t < n && Active(ps) != []
    requires forall p :: p in Active(ps) ==> p.row % n != t
    ensures t in CustodyTable(ps, netRows)
    ensures var hs, active := CustodyTable(ps, netRows)[t], Active(ps);
            && |hs| == (if |active| >= 2 then 2 else 1) && ByDistance(hs, n, t)
            && (forall p :: p in hs ==> p in active)
            && forall p, q :: p in hs && q in active && q !in hs ==> Nearer(p, q, n, t)
  {
    hide Active, Holders, Nearer, ByDistance, CustodyTable, StrictlySorted;
    ActiveDistinct(ps);
    TableRows(ps, netRows, n);
    NearestHold(Active(ps), n, t);
  }

  lemma NearestHold(active: seq<PeerInfo>, n: nat, t: nat)
    requires t < n && active != [] && StrictlySorted(active) && DistinctIDs(active)
    requires forall p :: p in active ==> p.row >= 0 && p.row % n != t
    ensures var hs := Holders(active, n, t);
            && |hs| == (if |active| >= 2 then 2 else 1) && ByDistance(hs, n, t)
            && (forall p :: p in hs ==> p in active)
            && forall p, q :: p in hs && q in active && q !in hs ==> Nearer(p, q, n, t)
  {
    hide Following, Nearer, InRow, ByDistance, StrictlySorted, DistinctIDs;
    NoOrphans(active, n, t);
    NobodyInRow(active, n, t);
    FollowingByDistance(active, n, t, 1);
    forall p | p in active ensures p in Following(active, n, t, 1) {
      DistanceIs(p.row, n, t, 0);
    }
    FirstTwoNearest(Following(active, n, t, 1), n, t);
  }

  lemma FirstTwoNearest(all: seq<PeerInfo>, n: nat, t: nat)
    requires n > 0 && ByDistance(all, n, t)
    ensures var hs := if |all| <= 2 then all else all[..2];
            ByDistance(hs, n, t) && forall p, q :: p in hs && q in all && q !in hs ==> Nearer(p, q, n, t)
  {
    hide Nearer;
    var hs := if |all| <= 2 then all else all[..2];
    forall p, q | p in hs && q in all && q !in hs ensures Nearer(p, q, n, t) {
      var i :| 0 <= i < |hs| && hs[i] == p;
      var j :| 0 <= j < |all| && all[j] == q;
      assert forall m {:trigger all[m]} :: 0 <= m < |hs| ==> all[m] == hs[m] && all[m] in hs;
    }
  }
}
