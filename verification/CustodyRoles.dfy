/**
 The role one store plays for a data row: custodian or not, native retention or borrowed backup.
 */
module CustodyRoles {
  import opened Division
  import opened CustodyMap

  /** The remainder of division toward zero: its sign follows the dividend. */
  function GoMod(a: int, b: int): int
    requires b > 0
  {
    if a >= 0 then a % b else -(-a % b)
  }

  datatype Role = Role(isCustody: bool, isNative: bool, custodians: nat)

  /** The network row of a data row. */
  function NetRow(dataRow: int, netRows: int): (r: nat)
    requires netRows > 0
    ensures r < netRows
  {
    var r := GoMod(dataRow, netRows);
    if r < 0 then r + netRows else r
  }

  predicate Holds(self: string, holders: seq<PeerInfo>) {
    exists i :: 0 <= i < |holders| && holders[i].peerID == self
  }

  /** The first position of the store in the list. */
  function IndexOf(self: string, holders: seq<PeerInfo>): (i: nat)
    requires Holds(self, holders)
    ensures i < |holders| && holders[i].peerID == self
    ensures forall j :: 0 <= j < i ==> holders[j].peerID != self
  {
    if holders[0].peerID == self then 0
    else
      var k :| 0 <= k < |holders| && holders[k].peerID == self;
      assert holders[1..][k - 1].peerID == self;
      1 + IndexOf(self, holders[1..])
  }

  function Evaluate(self: string, selfRow: int, dataRow: int, netRows: int, custody: map<int, seq<PeerInfo>>): Role {
    var n := EffectiveRows(netRows);
    var t := NetRow(dataRow, n);
    if custody != map[] then
      var holders := Lookup(custody, t);
      if Holds(self, holders) then
        var i := IndexOf(self, holders);
        Role(true, GoMod(holders[i].row, n) == t || i == 0, |holders|)
      else Role(false, false, |holders|)
    else
      var own := GoMod(selfRow, n);
      Role(t == own || (t + 1) % n == own, t == own, 2)
  }

  method EvaluateNodeCustodyForRow(self: string, selfRow: int, dataRow: int, netRows: int,
                                   custody: map<int, seq<PeerInfo>>)
    returns (isCustody: bool, isNative: bool, custodians: nat)
    ensures Role(isCustody, isNative, custodians) == Evaluate(self, selfRow, dataRow, netRows, custody)
  {
    var n := EffectiveRows(netRows);
    var t := NetRow(dataRow, n);
    if |custody| > 0 {
      assert custody != map[];
      var holders := Lookup(custody, t);
      for i := 0 to |holders|
        invariant forall j :: 0 <= j < i ==> holders[j].peerID != self
      {
        if holders[i].peerID == self {
          assert Holds(self, holders) && IndexOf(self, holders) == i;
          return true, GoMod(holders[i].row, n) == t || i == 0, |holders|;
        }
      }
      return false, false, |holders|;
    }
    var own := GoMod(selfRow, n);
    return t == own || (t + 1) % n == own, t == own, 2;
  }

  /** The remainder of a toward zero is t, for a place t that is not negative. */
  lemma GoModIs(a: int, n: int, t: int)
    requires 0 <= t < n
    ensures GoMod(a, n) == t <==> a % n == t && (a >= 0 || t == 0)
  {
    if a < 0 {
      var q, r := -a / n, -a % n;
      assert -a == n * q + r;
      if r == 0 {
        assert a == n * -q + 0;
        QuotientUnique(n, -q, 0, a / n, a % n);
      }
      if a % n == 0 {
        assert -a == n * -(a / n) + 0;
        QuotientUnique(n, -(a / n), 0, q, r);
      }
    }
  }

  /** The network row of a data row is its remainder, counted upwards for negative rows too. */
  lemma NetRowIs(dataRow: int, netRows: int)
    requires netRows > 0
    ensures NetRow(dataRow, netRows) == dataRow % netRows
  {
    var n := netRows;
    if dataRow < 0 {
      var q, r := -dataRow / n, -dataRow % n;
      assert -dataRow == n * q + r;
      assert dataRow == n * -q - r;
      if r == 0 {
        QuotientUnique(n, -q, 0, dataRow / n, dataRow % n);
      } else {
        assert n * -q - r == n * (-q - 1) + (n - r);
        QuotientUnique(n, -q - 1, n - r, dataRow / n, dataRow % n);
      }
    }
  }

  /** The role in a row t held as the map says: a custodian is on its list; native retention is for the first on the list
      and for members of the row, and the list's length is the number of custodians. */
  lemma RoleInMap(self: string, selfRow: int, dataRow: int, netRows: int, n: nat, custody: map<int, seq<PeerInfo>>)
    requires n == (if netRows > 0 then netRows else 8) && custody != map[]
    ensures var t := dataRow % n;
            var holders := if t in custody then custody[t] else [];
            var role := Evaluate(self, selfRow, dataRow, netRows, custody);
            && role.custodians == |holders|
            && (role.isCustody <==> exists i :: 0 <= i < |holders| && holders[i].peerID == self)
            && forall i :: 0 <= i < |holders| && holders[i].peerID == self
                           && (forall j :: 0 <= j < i ==> holders[j].peerID != self) ==>
                             (role.isNative <==>
                              i == 0 || (holders[i].row % n == t && (holders[i].row >= 0 || t == 0)))
    ensures Evaluate(self, selfRow, dataRow, netRows, custody).isNative ==>
              Evaluate(self, selfRow, dataRow, netRows, custody).isCustody
  {
    hide GoMod, NetRow;
    NetRowIs(dataRow, n);
    var t := dataRow % n;
    var holders := if t in custody then custody[t] else [];
    if Holds(self, holders) {
      GoModIs(holders[IndexOf(self, holders)].row, n, t);
    }
  }

  /** Without a map a store keeps its own row in full and backs up the one before. */
  lemma RoleWithoutMap(self: string, selfRow: int, dataRow: int, netRows: int, n: nat)
    requires n == if netRows > 0 then netRows else 8
    ensures var t, role := dataRow % n, Evaluate(self, selfRow, dataRow, netRows, map[]);
            && role.custodians == 2
            && (role.isNative <==> selfRow % n == t && (selfRow >= 0 || t == 0))
            && (role.isCustody <==>
                role.isNative || (selfRow % n == (t + 1) % n && (selfRow >= 0 || (t + 1) % n == 0)))
  {
    hide GoMod, NetRow;
    NetRowIs(dataRow, n);
    var t := dataRow % n;
    GoModIs(selfRow, n, t);
    NextRowRange(t, n);
    GoModIs(selfRow, n, (t + 1) % n);
  }

  /** The rows below n that the store holds, in increasing order. */
  function RowsHeld(self: string, custody: map<int, seq<PeerInfo>>, n: nat): (rows: seq<int>)
    ensures forall r :: r in rows <==> 0 <= r < n && Holds(self, Lookup(custody, r))
  {
    if n == 0 then []
    else RowsHeld(self, custody, n - 1) + if Holds(self, Lookup(custody, n - 1)) then [n - 1] else []
  }

  function CustodyRows(self: string, selfRow: int, netRows: int, custody: map<int, seq<PeerInfo>>): seq<int> {
    var n := EffectiveRows(netRows);
    if custody != map[] then RowsHeld(self, custody, n)
    else
      var own := GoMod(selfRow, n);
      var prev := GoMod(own - 1 + n, n);
      if prev != own then [own, prev] else [own]
  }

  method GetNodeCustodyNetRows(self: string, selfRow: int, netRows: int, custody: map<int, seq<PeerInfo>>)
    returns (rows: seq<int>)
    ensures rows == CustodyRows(self, selfRow, netRows, custody)
  {
    var n := EffectiveRows(netRows);
    rows := [];
    if |custody| > 0 {
      assert custody != map[];
      for r := 0 to n
        invariant rows == RowsHeld(self, custody, r)
      {
        var holders := Lookup(custody, r);
        var held := false;
        for i := 0 to |holders|
          invariant held ==> Holds(self, holders)
          invariant !held ==> forall j :: 0 <= j < i ==> holders[j].peerID != self
        {
          if holders[i].peerID == self {
            held := true;
            break;
          }
        }
        if held {
          rows := rows + [r];
        }
      }
      return;
    }
    var own := GoMod(selfRow, n);
    rows := [own];
    var prev := GoMod(own - 1 + n, n);
    if prev != own {
      rows := rows + [prev];
    }
  }

  lemma NetRowOfRow(r: int, n: int)
    requires 0 <= r < n
    ensures NetRow(r, n) == r
  {
  }

  lemma GoModRange(a: int, n: int)
    requires n > 0
    ensures -n < GoMod(a, n) < n
  {
    var m: nat := if a >= 0 then a else -a;
    assert 0 <= m % n < n;
  }

  lemma GoModSmall(a: int, n: int)
    requires 0 <= a < n
    ensures GoMod(a, n) == a
  {
  }

  lemma GoModWrap(a: int, n: int)
    requires 0 < n <= a < 2 * n
    ensures GoMod(a, n) == a - n
  {
    QuotientUnique(n, 1, a - n, a / n, a % n);
  }

  /** A store is custodian of a data row exactly when the row's network row is among its custody rows:
      always with a custody map, and without one exactly for stores whose own row has a remainder that is not
      negative when divided by the number of rows, as every row from zero up and every multiple of it does. */
  lemma CustodianOfItsRows(self: string, selfRow: int, netRows: int, custody: map<int, seq<PeerInfo>>)
    ensures (forall d: int :: Evaluate(self, selfRow, d, netRows, custody).isCustody <==>
                                NetRow(d, EffectiveRows(netRows)) in CustodyRows(self, selfRow, netRows, custody))
            <==> custody != map[] || GoMod(selfRow, EffectiveRows(netRows)) >= 0
  {
    hide GoMod, NetRow;
    var n := EffectiveRows(netRows);
    if custody == map[] {
      var own := GoMod(selfRow, n);
      GoModRange(selfRow, n);
      if own >= 0 {
        forall d: int ensures Evaluate(self, selfRow, d, netRows, custody).isCustody <==>
                              NetRow(d, n) in CustodyRows(self, selfRow, netRows, custody)
        {
          FallbackRow(NetRow(d, n), own, n);
        }
      } else {
        var prev := own - 1 + n;
        GoModSmall(prev, n);
        NetRowOfRow(prev, n);
        assert prev in CustodyRows(self, selfRow, netRows, custody);
        assert !Evaluate(self, selfRow, prev, netRows, custody).isCustody by { NextRowRange(prev, n); }
      }
    }
  }

  lemma NextRowRange(t: nat, n: nat)
    requires n > 0
    ensures 0 <= (t + 1) % n < n
  {
  }

  lemma FallbackRow(t: nat, own: int, n: nat)
    requires t < n && 0 <= own < n
    ensures (t + 1) % n == own <==> t == GoMod(own - 1 + n, n)
  {
    if own == 0 {
      GoModSmall(own - 1 + n, n);
    } else {
      GoModWrap(own - 1 + n, n);
    }
    if t + 1 < n {
      QuotientUnique(n, 0, t + 1, (t + 1) / n, (t + 1) % n);
    } else {
      QuotientUnique(n, 1, 0, (t + 1) / n, (t + 1) % n);
    }
  }

  // Native retention.

  /** The identifiers of the active stores that keep row t in full. */
  ghost function NativeIDs(active: seq<PeerInfo>, netRows: nat, t: int, custody: map<int, seq<PeerInfo>>): set<string> {
    set i | 0 <= i < |active| && Evaluate(active[i].peerID, active[i].row, t, netRows, custody).isNative
      :: active[i].peerID
  }

  /** The members of the row, or the first borrowed holder of an empty one. */
  function Retainers(active: seq<PeerInfo>, netRows: nat, t: nat): seq<PeerInfo>
    requires netRows > 0
  {
    var cell, hs := InRow(active, netRows, t), Holders(active, netRows, t);
    if cell != [] then cell else if hs != [] then [hs[0]] else []
  }

  lemma NativeExactly(colPeers: seq<PeerInfo>, netRows: nat, t: nat, p: PeerInfo)
    requires t < netRows && p in Active(colPeers)
    ensures Evaluate(p.peerID, p.row, t, netRows, CustodyTable(colPeers, netRows)).isNative <==>
            p in Retainers(Active(colPeers), netRows, t)
  {
    hide InRow, Active, Holders, DistinctIDs;
    var active := Active(colPeers);
    ActiveDistinct(colPeers);
    NoOrphans(active, netRows, t);
    var cell, hs := InRow(active, netRows, t), Holders(active, netRows, t);
    assert active != [];
    var table := CustodyTable(colPeers, netRows);
    assert t in table && table[t] == hs;
    NetRowOfRow(t, netRows);
    HoldsMember(active, hs, p);
    if Holds(p.peerID, hs) {
      var i := IndexOf(p.peerID, hs);
      assert hs[i] in hs;
      SameIDSamePeer(active, hs[i], p);
      assert p.row >= 0;
    }
  }

  lemma HoldsMember(active: seq<PeerInfo>, hs: seq<PeerInfo>, p: PeerInfo)
    requires DistinctIDs(active) && p in active && forall q :: q in hs ==> q in active
    ensures Holds(p.peerID, hs) <==> p in hs
  {
    if Holds(p.peerID, hs) {
      var i := IndexOf(p.peerID, hs);
      assert hs[i] in hs;
      SameIDSamePeer(active, hs[i], p);
    }
  }

  /** Every row of a computed map is retained in full by exactly max(1, cell size) stores. */
  lemma NativeCount(colPeers: seq<PeerInfo>, netRows: nat, t: nat)
    requires t < netRows && Active(colPeers) != []
    ensures var active := Active(colPeers);
            var cell := InRow(active, netRows, t);
            |NativeIDs(active, netRows, t, CustodyTable(colPeers, netRows))| == if cell == [] then 1 else |cell|
  {
    hide InRow, Active, Holders, Evaluate, CustodyTable;
    var active := Active(colPeers);
    ActiveDistinct(colPeers);
    NoOrphans(active, netRows, t);
    var cell, hs := InRow(active, netRows, t), Holders(active, netRows, t);
    var table := CustodyTable(colPeers, netRows);
    var natives := Retainers(active, netRows, t);
    forall id ensures id in NativeIDs(active, netRows, t, table) <==> id in IDs(natives) {
      if id in NativeIDs(active, netRows, t, table) {
        var i :| 0 <= i < |active| && Evaluate(active[i].peerID, active[i].row, t, netRows, table).isNative &&
                 active[i].peerID == id;
        NativeExactly(colPeers, netRows, t, active[i]);
        IDsMember(natives, id);
      }
      if id in IDs(natives) {
        IDsMember(natives, id);
        var p :| p in natives && p.peerID == id;
        assert p in active;
        NativeExactly(colPeers, netRows, t, p);
        var i :| 0 <= i < |active| && active[i] == p;
      }
    }
    assert NativeIDs(active, netRows, t, table) == IDs(natives);
    InRowDistinct(active, netRows, t);
    IDsCount(natives);
  }

  // The legacy layout: one store per row.

  lemma OnePerRow(active: seq<PeerInfo>, netRows: nat, t: nat)
    requires 2 <= netRows && t < netRows
    requires forall r: nat :: r < netRows ==> |InRow(active, netRows, r)| == 1
    ensures Holders(active, netRows, t) ==
            InRow(active, netRows, t) + InRow(active, netRows, RowAfter(t, 1, netRows))
  {
    hide InRow, RowAfter;
  }

  /** With exactly one store in each of two or more rows, the fallback used before the map arrives gives
      every store the same role for every data row as the map does. */
  lemma FallbackMatchesMap(colPeers: seq<PeerInfo>, netRows: nat, p: PeerInfo, d: int)
    requires 2 <= netRows && p in Active(colPeers)
    requires forall r: nat :: r < netRows ==> |InRow(Active(colPeers), netRows, r)| == 1
    ensures Evaluate(p.peerID, p.row, d, netRows, CustodyTable(colPeers, netRows)) ==
            Evaluate(p.peerID, p.row, d, netRows, map[])
  {
    hide InRow, Active, Holders, NetRow;
    var active, t := Active(colPeers), NetRow(d, netRows);
    ActiveDistinct(colPeers);
    OnePerRow(active, netRows, t);
    var next := RowAfter(t, 1, netRows);
    var a, b := InRow(active, netRows, t)[0], InRow(active, netRows, next)[0];
    assert a in InRow(active, netRows, t) && b in InRow(active, netRows, next);
    var hs := Holders(active, netRows, t);
    assert hs == [a, b];
    var table := CustodyTable(colPeers, netRows);
    assert t in table && table[t] == hs;
    RowAfterDiffers(t, 0, 1, netRows);
    RowAfterSelf(t, netRows);
    RoleInPair(active, netRows, t, next, a, b, p);
  }

  lemma RoleInPair(active: seq<PeerInfo>, netRows: nat, t: nat, next: nat, a: PeerInfo, b: PeerInfo, p: PeerInfo)
    requires 2 <= netRows && t < netRows && next == RowAfter(t, 1, netRows) != t && DistinctIDs(active)
    requires InRow(active, netRows, t) == [a] && InRow(active, netRows, next) == [b]
    requires p in active && a in active && b in active && p.row >= 0 && a.row >= 0 && b.row >= 0
    ensures p.peerID == a.peerID <==> GoMod(p.row, netRows) == t
    ensures p.peerID == b.peerID <==> GoMod(p.row, netRows) == (t + 1) % netRows
    ensures GoMod(b.row, netRows) != t
    ensures Holds(p.peerID, [a, b]) <==> p.peerID == a.peerID || p.peerID == b.peerID
    ensures Holds(p.peerID, [a, b]) ==> IndexOf(p.peerID, [a, b]) == if p.peerID == a.peerID then 0 else 1
  {
    if p.peerID == a.peerID {
      SameIDSamePeer(active, p, a);
    }
    if p.peerID == b.peerID {
      SameIDSamePeer(active, p, b);
    }
    assert a in InRow(active, netRows, t) && b in InRow(active, netRows, next);
    assert p.row % netRows == t ==> p in InRow(active, netRows, t);
    assert p.row % netRows == next ==> p in InRow(active, netRows, next);
    assert [a, b][0] == a && [a, b][1] == b;
  }
}
