/**
 The store node's receiver: the methods that run under the cell locks and flag mutexes.
 Each is proved to take its cell through the steps of the cell machine and to leave all others alone.
 */
module Receiver {
  import opened Division
  import opened Independence
  import opened CellMachine
  import opened SectionEffects
  import opened CustodyStore
  import opened CustodyMap
  import opened CustodyRoles

  /** The routing state, fixed during a run. */
  datatype Routing = Routing(self: string, selfRow: int, netRows: int, custody: map<int, seq<PeerInfo>>,
                             activePeersInCol: int, colPeers: nat, numCols: int, netCol: int)

  /** How many stores are active in the column: as last announced, or else as many as are known. */
  function ActiveInCol(routing: Routing): int {
    if routing.activePeersInCol <= 0 then routing.colPeers else routing.activePeersInCol
  }

  /** evalCustody: in a column of at most k active stores every custodian keeps its cells in full; in any other, and where
      no store is known to be active, the role is the usual one. */
  function EvalCustody(routing: Routing, k: nat, row: int): (role: Role)
    ensures role.isNative ==> role.isCustody
    ensures var usual := Evaluate(routing.self, routing.selfRow, row, routing.netRows, routing.custody);
            var active := if routing.activePeersInCol > 0 then routing.activePeersInCol else routing.colPeers;
            if 1 <= active <= k then role == Role(usual.isCustody, usual.isCustody, usual.custodians)
            else role == usual
  {
    var role := Evaluate(routing.self, routing.selfRow, row, routing.netRows, routing.custody);
    if role.isCustody && 0 < ActiveInCol(routing) <= k then role.(isNative := true) else role
  }

  function KindOf(role: Role): Kind {
    if !role.isCustody then Outsider else if role.isNative then Native else Backup
  }

  function CountOf(m: map<CellKey, nat>, key: CellKey): nat {
    if key in m then m[key] else 0
  }

  function SourcesOf(m: map<CellKey, set<string>>, key: CellKey): set<string> {
    if key in m then m[key] else {}
  }

  /** The cell lies in the columns first..end of the extended block. */
  predicate InColumns(key: CellKey, block: string, n: nat, first: int, end: int) {
    key.block == block && 0 <= key.row < n && first <= key.col < end
  }

  /** The data columns of a network column in a block extended to n columns. */
  function OwnColumns(n: nat, numCols: int, netCol: int): (int, int) {
    var width := ColumnWidth(n, numCols);
    var end := netCol * width + width;
    (netCol * width, if end > n then n else end)
  }

  function ColumnWidth(n: nat, numCols: int): (width: nat)
    ensures width > 0
  {
    var width := n / if numCols <= 0 then 8 else numCols;
    if width == 0 then 1 else width
  }

  /** The cells of a block that a node looks after: every row of the data columns that make up its network column, which
      are its share of the columns, or one when there are fewer of them. So every data column belongs to exactly one
      network column. */
  lemma OneOwner(key: CellKey, block: string, n: nat, numCols: int, netCol: int, width: nat)
    requires var share := n / (if numCols > 0 then numCols else 8); width == if share >= 1 then share else 1
    ensures var (first, end) := OwnColumns(n, numCols, netCol);
            InColumns(key, block, n, first, end) <==>
            key.block == block && 0 <= key.row < n && key.col < n && key.col / width == netCol
  {
    hide ColumnWidth;
    WidthIs(n, numCols, width);
    InShare(key.col, width, netCol);
  }

  lemma WidthIs(n: nat, numCols: int, width: nat)
    requires var share := n / (if numCols > 0 then numCols else 8); width == if share >= 1 then share else 1
    ensures ColumnWidth(n, numCols) == width > 0
  {
  }

  lemma InShare(x: int, width: nat, c: int)
    requires width > 0
    ensures c * width <= x < c * width + width <==> x / width == c
  {
    var q, r := x / width, x % width;
    assert x == width * q + r;
    if c * width <= x < c * width + width {
      QuotientUnique(width, q, r, c, x - c * width);
    }
  }

  /** The cell comes before (row, col) in a sweep that goes down each column in turn. */
  predicate Before(key: CellKey, block: string, n: nat, first: int, col: int, row: nat) {
    InColumns(key, block, n, first, col) || (key.block == block && key.col == col && 0 <= key.row < row)
  }

  class StoreNode {
    const cache: Store
    const k: nat
    const routing: Routing
    var nonCustodyLocked: set<CellKey>
    var nonCustodyPending: set<CellKey>
    var prunedCells: set<CellKey>
    var cellLastActivity: set<CellKey>
    var pulledCells: set<CellKey>
    var cellBroadcastCount: map<CellKey, nat>
    var peerContributions: map<CellKey, set<string>>

    constructor (k: nat, routing: Routing)
      requires k > 0
      ensures this.k == k && this.routing == routing && fresh(cache)
      ensures Valid() && forall key :: CellOf(key) == EmptyCell
    {
      this.k, this.routing := k, routing;
      cache := new Store();
      nonCustodyLocked, nonCustodyPending, prunedCells, cellLastActivity, pulledCells := {}, {}, {}, {}, {};
      cellBroadcastCount, peerContributions := map[], map[];
      new;
      hide Inv, Kind;
      forall key ensures Inv(Kind(key), k, CellOf(key)) {
        EmptyInv(Kind(key), k);
      }
    }

    /** What holds in the middle of a section too. */
    ghost predicate Wired()
      reads this, cache
    {
      k > 0 && cache.Valid()
    }

    ghost predicate CellsInv()
      reads this, cache
    {
      forall key :: Inv(Kind(key), k, CellOf(key))
    }

    /** Between two sections every cell keeps the invariant of the cell machine. */
    ghost predicate Valid()
      reads this, cache
    {
      Wired() && CellsInv()
    }

    function RoleIn(row: int): Role {
      EvalCustody(routing, k, row)
    }

    lemma NativeIsCustody(row: int)
      ensures RoleIn(row).isNative ==> RoleIn(row).isCustody
    {
    }

    function Kind(key: CellKey): Kind {
      KindOf(RoleIn(key.row))
    }

    /** The cell as the machine sees it between two sections. */
    function CellOf(key: CellKey): Cell
      reads this, cache
    {
      Cell(cache.Raw(key), cache.RecodedOf(key), None, key in nonCustodyLocked, key in nonCustodyPending,
           key in prunedCells, key in cellLastActivity, key in pulledCells, CountOf(cellBroadcastCount, key),
           SourcesOf(peerContributions, key))
    }

    twostate predicate OthersKept(key: CellKey)
      reads this, cache
    {
      forall o :: o != key ==> CellOf(o) == old(CellOf(o))
    }

    /** A section that keeps the invariant of its cell, and all other cells, keeps the node valid. */
    twostate lemma StaysValid(key: CellKey)
      requires old(CellsInv())
      requires OthersKept(key)
      requires Inv(Kind(key), k, CellOf(key))
      ensures CellsInv()
    {
      hide Inv, Kind, CellOf;
      forall o ensures Inv(Kind(o), k, CellOf(o)) {
        assert o != key ==> CellOf(o) == old(CellOf(o));
      }
    }

    lemma InvOf(key: CellKey)
      requires CellsInv()
      ensures Inv(Kind(key), k, CellOf(key))
    {
    }

    lemma Closed(key: CellKey)
      ensures CellOf(key).raw == cache.Raw(key) && CellOf(key).view == None
      ensures CellOf(key).pruned <==> key in prunedCells
    {
    }

    // Storing pieces.

    method OfferPiece(key: CellKey, existing: seq<Piece>, item: Item, capped: bool) returns (after: seq<Piece>)
      requires Wired() && !(capped && Kind(key) == Native && |existing| >= k)
      modifies this`peerContributions, cache
      ensures Wired() && OthersKept(key)
      ensures CellOf(key).(view := Some(after)) ==
              Step(Kind(key), k, old(CellOf(key)).(view := Some(existing)), Offer(item.piece, item.source, capped))
      ensures |after| >= |existing| && (existing == old(cache.Raw(key)) ==> after == cache.Raw(key))
    {
      hide StoreAnswer, Kind, Step, Coeffs;
      ghost var c := CellOf(key).(view := Some(existing));
      Offered(Kind(key), k, c, item.piece, item.source, capped);
      var coeffs := Coeffs(existing);
      var independent := StoreIsIndependent(coeffs, item.piece.coeffs, k);
      if !independent {
        return existing;
      }
      cache.StorePiece(key, item.piece);
      if item.source.Some? {
        peerContributions := peerContributions[key := SourcesOf(peerContributions, key) + {item.source.value}];
      }
      after := existing + [item.piece];
    }

    /** The inner loop shared by every storing path: keep what is independent of the pieces in hand. */
    method StoreIndependent(key: CellKey, items: seq<Item>, capped: bool) returns (existing: seq<Piece>)
      requires Wired()
      modifies this`peerContributions, cache
      ensures Wired() && OthersKept(key) && existing == cache.Raw(key) && |existing| >= |old(cache.Raw(key))|
      ensures CellOf(key).(view := Some(existing)) ==
              Offers(Kind(key), k, Step(Kind(key), k, old(CellOf(key)), Open), items, capped)
    {
      hide Step, Kind, CellOf, Offers;
      ghost var kind := Kind(key);
      ghost var start := Step(kind, k, CellOf(key), Open);
      existing := cache.GetPieces(key);
      Closed(key);
      Opened(kind, k, CellOf(key));
      NoOffers(kind, k, start, items[..0], capped);
      for i := 0 to |items|
        invariant Wired() && existing == cache.Raw(key) && |existing| >= |old(cache.Raw(key))|
        invariant Offers(kind, k, start, items[..i], capped) == CellOf(key).(view := Some(existing))
        invariant OthersKept(key)
      {
        OneOffer(kind, k, start, items, i, capped);
        if capped && Kind(key) == Native && |existing| >= k {
          StopsHere(kind, k, start, items, i, capped);
          return;
        }
        existing := OfferPiece(key, existing, items[i], capped);
      }
      assert items[..|items|] == items;
    }

    /** Ingest of a verified batch into a cell outside our custody. Returns the pieces to recode when the cell
        was locked just now. */
    method IngestOutsider(key: CellKey, items: seq<Item>, fast: bool, custodians: nat) returns (toRecode: seq<Piece>)
      requires Wired() && Kind(key) == Outsider
      modifies this, cache
      ensures Wired() && OthersKept(key)
      ensures CellOf(key) == Ingest(Outsider, k, old(CellOf(key)), items, fast, custodians, true)
      ensures toRecode != [] <==> CellOf(key).locked && !old(CellOf(key)).locked
      ensures toRecode != [] ==> toRecode == cache.Raw(key)
    {
      hide Kind, Offers, Step;
      if key in nonCustodyLocked {
        return [];
      }
      var before := cache.GetPieces(key);
      var existing := StoreIndependent(key, items, true);
      if |existing| == |before| {
        ClosedAgain(Outsider, k, CellOf(key).(view := Some(existing)));
        return [];
      }
      var lockNow := LockOrPend(key, existing, fast, custodians);
      toRecode := if lockNow then existing else [];
    }

    method CanLockNow(numPieces: nat, numSources: nat, fast: bool, custodians: nat) returns (canLock: bool)
      requires k > 0
      ensures canLock <==> (fast && numPieces >= 1)
                           || (numPieces >= (if k == 1 then 1 else 2)
                               && numSources >= (if k == 1 || custodians == 1 then 1 else 2))
    {
      var minPieces := if k < 2 then k else 2;
      var minSources := if k < 2 then k else 2;
      if 0 < custodians < minSources {
        minSources := custodians;
      }
      canLock := false;
      if fast && numPieces >= 1 {
        canLock := true;
      } else if numPieces >= minPieces && numSources >= minSources {
        canLock := true;
      }
    }

    /** The end of an outsider's ingest: lock the cell when enough pieces from enough peers are in,
        or else note that it waits. */
    method LockOrPend(key: CellKey, existing: seq<Piece>, fast: bool, custodians: nat) returns (lockNow: bool)
      requires Wired() && existing == cache.Raw(key) != [] && key !in nonCustodyLocked
      modifies this`nonCustodyLocked, this`nonCustodyPending
      ensures Wired() && OthersKept(key)
      ensures CellOf(key) == Step(Outsider, k, old(CellOf(key)).(view := Some(existing)), Settle(fast, custodians))
      ensures lockNow == CellOf(key).locked && cache.Raw(key) == existing
      ensures var numSources := |SourcesOf(peerContributions, key)|;
              lockNow <==> fast || (|existing| >= (if k == 1 then 1 else 2)
                                    && numSources >= (if k == 1 || custodians == 1 then 1 else 2))
      ensures nonCustodyLocked == old(nonCustodyLocked) + if lockNow then {key} else {}
      ensures key in nonCustodyPending <==> !lockNow
    {
      hide Step;
      SettleLocks(k, CellOf(key).(view := Some(existing)), fast, custodians);
      lockNow := CanLockNow(|existing|, |SourcesOf(peerContributions, key)|, fast, custodians);
      if lockNow {
        nonCustodyLocked := nonCustodyLocked + {key};
        nonCustodyPending := nonCustodyPending - {key};
      } else {
        nonCustodyPending := nonCustodyPending + {key};
      }
    }

    /** Ingest of a verified batch into a cell of our custody. */
    method IngestCustody(key: CellKey, items: seq<Item>, isNative: bool, touch: bool)
      requires Wired() && Kind(key) == if isNative then Native else Backup
      modifies this, cache
      ensures Wired() && OthersKept(key)
      ensures CellOf(key) == Ingest(Kind(key), k, old(CellOf(key)), items, false, 0, touch)
    {
      hide Kind, Offers, Step, CellOf;
      Closed(key);
      if !isNative && key in prunedCells {
        return;
      }
      var before := cache.GetPieces(key);
      if isNative && |before| >= k {
        return;
      }
      var existing := StoreIndependent(key, items, true);
      Closed(key);
      ghost var c := CellOf(key).(view := Some(existing));
      ClosedTouched(Kind(key), k, c, touch && |existing| > |before|);
      if |existing| > |before| && touch {
        TouchCell(key);
      }
    }

    method TouchCell(key: CellKey)
      requires Wired()
      modifies this`cellLastActivity
      ensures Wired() && OthersKept(key)
      ensures CellOf(key) == old(CellOf(key)).(active := old(CellOf(key)).active || !old(CellOf(key)).pruned)
    {
      if key !in prunedCells {
        cellLastActivity := cellLastActivity + {key};
      }
    }

    /** One cell of a verified batch. */
    method IngestCell(key: CellKey, items: seq<Item>, fast: bool, pruneEnable: bool) returns (toRecode: seq<Piece>)
      requires Valid()
      modifies this, cache
      ensures Valid() && OthersKept(key)
      ensures CellOf(key) ==
              Ingest(Kind(key), k, old(CellOf(key)), items, fast, RoleIn(key.row).custodians, pruneEnable)
      ensures toRecode != [] <==> Kind(key) == Outsider && CellOf(key).locked && !old(CellOf(key)).locked
      ensures toRecode != [] ==> toRecode == cache.Raw(key)
    {
      hide CellsInv, Inv, Run, IngestEvents, Offers, Step, RoleIn, CellOf;
      InvOf(key);
      var role := RoleIn(key.row);
      ghost var events := IngestEvents(Kind(key), k, CellOf(key), items, fast, role.custodians, pruneEnable);
      SectionsAreRuns(Kind(key), k, CellOf(key), items, fast, role.custodians, pruneEnable, OneByte);
      toRecode := [];
      if !role.isCustody {
        toRecode := IngestOutsider(key, items, fast, role.custodians);
      } else {
        IngestCustody(key, items, role.isNative, pruneEnable);
      }
      RunKeepsInv(Kind(key), k, old(CellOf(key)), events);
      StaysValid(key);
    }

    /** What a batch fetch returned for one cell. */
    method FetchCell(key: CellKey, items: seq<Item>)
      requires Valid()
      modifies this, cache
      ensures Valid() && OthersKept(key)
      ensures CellOf(key) == BatchFetch(Kind(key), k, old(CellOf(key)), items)
    {
      hide CellsInv, Inv, Offers, Step, RoleIn, Run;
      InvOf(key);
      SectionsAreRuns(Kind(key), k, CellOf(key), items, false, 0, false, OneByte);
      ghost var events := FetchEvents(Kind(key), CellOf(key), items);
      var role := RoleIn(key.row);
      if !role.isCustody {
        if key in nonCustodyLocked {
          return;
        }
      } else if !role.isNative {
        if CountOf(cellBroadcastCount, key) >= 1 || key in prunedCells {
          return;
        }
      }
      var existing := StoreIndependent(key, items, true);
      ClosedAgain(Kind(key), k, CellOf(key).(view := Some(existing)));
      RunKeepsInv(Kind(key), k, old(CellOf(key)), events);
      StaysValid(key);
    }

    /** One piece of an active pull; neither flag nor count is looked at. */
    method PullPiece(key: CellKey, piece: Piece) returns (held: seq<Piece>)
      requires Valid()
      modifies this, cache
      ensures Valid() && OthersKept(key) && held == cache.Raw(key)
      ensures CellOf(key) == PullStore(Kind(key), k, old(CellOf(key)), piece)
    {
      hide CellsInv, Inv, Run, Offers, Step, Kind;
      InvOf(key);
      SectionsAreRuns(Kind(key), k, CellOf(key), [], false, 0, false, piece);
      var item := Item(piece, None);
      held := StoreIndependent(key, [item], false);
      OneOffer(Kind(key), k, Step(Kind(key), k, old(CellOf(key)), Open), [item], 0, false);
      assert [item][..1] == [item] && [item][..0] == [];
      NoOffers(Kind(key), k, Step(Kind(key), k, old(CellOf(key)), Open), [], false);
      ClosedAgain(Kind(key), k, CellOf(key).(view := Some(held)));
      RunKeepsInv(Kind(key), k, old(CellOf(key)), [Open, Offer(piece, None, false), Close(false)]);
      StaysValid(key);
    }

    // Recoding, publishing and pruning.

    method PruneCell(key: CellKey, recode: Recode) returns (deleted: nat)
      requires Wired()
      modifies cache
      ensures Wired() && OthersKept(key) && deleted == |old(cache.Raw(key))|
      ensures CellOf(key) == PruneRaw(old(CellOf(key)), recode)
    {
      deleted := cache.PruneRawPieces(key, recode);
    }

    method ReplaceByRecoded(key: CellKey, chosen: Piece)
      requires Wired()
      modifies cache
      ensures Wired() && OthersKept(key)
      ensures CellOf(key) == old(CellOf(key)).(raw := [], recoded := [chosen])
    {
      cache.StoreRecodedPiece(key, chosen);
      var _ := cache.PruneRawPieces(key, RecodeFailed);
    }

    /** An outsider's recoded piece takes the place of its raw ones; the lock flag is set by then or right after. */
    method FlushRecoded(key: CellKey, chosen: Piece, mode: LockMode)
      requires Valid() && Kind(key) == Outsider
      modifies this, cache
      ensures Valid() && OthersKept(key)
      ensures CellOf(key) == Step(Outsider, k, old(CellOf(key)), Flush(chosen, mode))
      ensures cache.Raw(key) == [] && cache.RecodedOf(key) == [chosen] && key in prunedCells
      ensures key in nonCustodyLocked <==> key in old(nonCustodyLocked) || mode != AlreadyLocked
      ensures key in nonCustodyPending <==> key in old(nonCustodyPending) && mode != LockAndForget
    {
      hide CellsInv, Inv, Kind;
      InvOf(key);
      ReplaceByRecoded(key, chosen);
      if mode != AlreadyLocked {
        nonCustodyLocked := nonCustodyLocked + {key};
      }
      if mode == LockAndForget {
        nonCustodyPending := nonCustodyPending - {key};
      }
      prunedCells := prunedCells + {key};
      StepInv(Kind(key), k, old(CellOf(key)), Flush(chosen, mode));
      StaysValid(key);
    }

    method CountBroadcasts(key: CellKey, count: nat)
      requires Valid() && Kind(key) != Outsider
      modifies this`cellBroadcastCount
      ensures Valid() && OthersKept(key)
      ensures CellOf(key) == Step(Kind(key), k, old(CellOf(key)), Broadcast(count))
      ensures CountOf(cellBroadcastCount, key) == CountOf(old(cellBroadcastCount), key) + count
    {
      hide CellsInv, Inv, Kind;
      InvOf(key);
      cellBroadcastCount := cellBroadcastCount[key := CountOf(cellBroadcastCount, key) + count];
      StepInv(Kind(key), k, old(CellOf(key)), Broadcast(count));
      StaysValid(key);
    }

    /** A backup cell retains one recoded piece. */
    method RetainPiece(key: CellKey, chosen: Piece, pull: bool)
      requires Valid() && Kind(key) == Backup
      modifies this`pulledCells, cache
      ensures Valid() && OthersKept(key)
      ensures CellOf(key) == Step(Backup, k, old(CellOf(key)), Retain(chosen, pull))
      ensures cache.Raw(key) == old(cache.Raw(key)) && cache.RecodedOf(key) == [chosen]
      ensures key in pulledCells <==> key in old(pulledCells) || pull
    {
      hide CellsInv, Inv, Kind;
      InvOf(key);
      cache.StoreRecodedPiece(key, chosen);
      if pull {
        pulledCells := pulledCells + {key};
      }
      StepInv(Kind(key), k, old(CellOf(key)), Retain(chosen, pull));
      StaysValid(key);
    }

    /** The end of an active pull on a backup cell. */
    method FinishPull(key: CellKey, recode: Recode)
      requires Valid() && Kind(key) == Backup && key in pulledCells
      modifies this, cache
      ensures Valid() && OthersKept(key)
      ensures CellOf(key) == Step(Backup, k, old(CellOf(key)), PullPrune(recode))
      ensures cache.Raw(key) == [] && key in prunedCells && key !in pulledCells
    {
      hide CellsInv, Inv, Kind;
      InvOf(key);
      var _ := PruneCell(key, recode);
      pulledCells := pulledCells - {key};
      prunedCells := prunedCells + {key};
      StepInv(Kind(key), k, old(CellOf(key)), PullPrune(recode));
      StaysValid(key);
    }

    /** The fallback sweep over all waiting cells: those that are due are locked and handed on to be recoded. */
    method SweepPending(due: set<CellKey>) returns (expired: set<CellKey>)
      requires Valid()
      modifies this`nonCustodyLocked, this`nonCustodyPending
      ensures Valid()
      ensures forall key :: CellOf(key) ==
                            if key in old(nonCustodyLocked) || key in due
                            then Step(Kind(key), k, old(CellOf(key)), Expire) else old(CellOf(key))
      ensures expired == old(nonCustodyPending) * due - old(nonCustodyLocked)
      ensures nonCustodyLocked == old(nonCustodyLocked) + expired
      ensures nonCustodyPending == old(nonCustodyPending) - old(nonCustodyLocked) - due
    {
      hide Kind, Inv;
      expired := {};
      var rest := nonCustodyPending;
      while rest != {}
        invariant rest <= nonCustodyPending <= old(nonCustodyPending)
        invariant forall key :: key in old(nonCustodyPending) && key !in rest ==>
                                  (key in nonCustodyPending <==> key !in old(nonCustodyLocked) && key !in due)
        invariant expired == (old(nonCustodyPending) - rest) * due - old(nonCustodyLocked)
        invariant nonCustodyLocked == old(nonCustodyLocked) + expired
      {
        var key :| key in rest;
        rest := rest - {key};
        if key in nonCustodyLocked {
          nonCustodyPending := nonCustodyPending - {key};
        } else if key in due {
          nonCustodyLocked := nonCustodyLocked + {key};
          nonCustodyPending := nonCustodyPending - {key};
          expired := expired + {key};
        }
      }
      forall key ensures Inv(Kind(key), k, CellOf(key)) {
        assert old(Inv(Kind(key), k, CellOf(key)));
        StepInv(Kind(key), k, old(CellOf(key)), Expire);
      }
    }

    /** The pruner finds the cell idle. */
    method PruneIdle(key: CellKey, recode: Recode)
      requires Valid() && key in cellLastActivity
      modifies this`cellLastActivity, this`prunedCells, cache
      ensures Valid() && OthersKept(key)
      ensures CellOf(key) == Step(Kind(key), k, old(CellOf(key)), Prune(recode))
      ensures key !in cellLastActivity
      ensures key in prunedCells <==> key in old(prunedCells) || Kind(key) != Native
      ensures cache.Raw(key) == if Kind(key) == Native || key in old(prunedCells) then old(cache.Raw(key)) else []
    {
      hide CellsInv, Inv, RoleIn, Step, PruneRaw;
      InvOf(key);
      NativeIsCustody(key.row);
      Idle(Kind(key), k, CellOf(key), recode);
      cellLastActivity := cellLastActivity - {key};
      if !RoleIn(key.row).isNative && key !in prunedCells {
        prunedCells := prunedCells + {key};
        PruneEmpties(CellOf(key), recode);
        var _ := PruneCell(key, recode);
      }
      StepInv(Kind(key), k, old(CellOf(key)), Prune(recode));
      StaysValid(key);
    }

    // The completion check and the final sweep, over the node's columns of a block.

    method CountOfRaw(key: CellKey) returns (count: nat)
      requires Wired()
      modifies cache
      ensures Wired() && count == |CellOf(key).raw|
      ensures forall o :: CellOf(o) == old(CellOf(o))
    {
      count := cache.GetPieceCount(key);
    }

    method TotalOf(key: CellKey) returns (total: nat)
      requires Wired()
      modifies cache
      ensures Wired() && total == Total(CellOf(key))
      ensures forall o :: CellOf(o) == old(CellOf(o))
    {
      total := cache.GetTotalPiecesForCell(key);
    }

    /** The completion check of one cell. */
    method DiagnoseCell(key: CellKey, recode: Recode) returns (ok: bool)
      requires Wired()
      modifies cache
      ensures Wired() && OthersKept(key)
      ensures CellOf(key) == Step(Kind(key), k, old(CellOf(key)), Diagnose(recode))
      ensures ok <==> Reports(Kind(key), k, old(CellOf(key)))
    {
      hide RoleIn, Step, PruneRaw, Reports;
      Diagnosed(Kind(key), k, CellOf(key), recode);
      ReportsAnyRecode(Kind(key), k, CellOf(key), recode);
      var role := RoleIn(key.row);
      if role.isCustody && role.isNative {
        var count := CountOfRaw(key);
        ok := count >= k && CountOf(cellBroadcastCount, key) >= 1;
      } else if role.isCustody {
        var total := TotalOf(key);
        ok := !(total == 0 || (CountOf(cellBroadcastCount, key) < 1 && (key !in prunedCells || total != 1)));
      } else {
        var total := TotalOf(key);
        if key in nonCustodyLocked && total > 1 {
          var _ := PruneCell(key, recode);
          total := TotalOf(key);
        }
        ok := key in nonCustodyLocked && total == 1;
      }
    }

    /** The final sweep over one cell. */
    method CleanCell(key: CellKey, recode: Recode)
      requires Wired()
      modifies this`prunedCells, cache
      ensures Wired() && OthersKept(key)
      ensures CellOf(key) == Step(Kind(key), k, old(CellOf(key)), Cleanup(recode))
    {
      hide RoleIn;
      NativeIsCustody(key.row);
      if RoleIn(key.row).isNative {
        cache.DeleteRecodedPieces(key);
      } else {
        var total := TotalOf(key);
        if total > 0 {
          var _ := PruneCell(key, recode);
          prunedCells := prunedCells + {key};
        }
      }
    }

    predicate InOwnColumns(key: CellKey, block: string, n: nat) {
      var (first, end) := OwnColumns(n, routing.numCols, routing.netCol);
      InColumns(key, block, n, first, end)
    }

    /** The completion check of the node's columns of a block: it reports the block exactly when every cell
        is reported, and all it changes is to prune the locked outsiders. */
    method DiagnoseCompletion(block: string, n: nat, recode: CellKey -> Recode)
      returns (complete: bool)
      requires Valid()
      modifies cache
      ensures Valid()
      ensures complete <==> forall key :: InOwnColumns(key, block, n) ==>
                                            Reports(Kind(key), k, old(CellOf(key)))
      ensures forall key :: CellOf(key) ==
                            if InOwnColumns(key, block, n)
                            then Step(Kind(key), k, old(CellOf(key)), Diagnose(recode(key))) else old(CellOf(key))
    {
      hide Inv, Step, Kind, Reports, CellOf;
      complete := true;
      var (first, end) := OwnColumns(n, routing.numCols, routing.netCol);
      var c := first;
      while c < end
        invariant Wired() && (first <= c <= end || c == first > end)
        invariant complete <==> forall key :: Before(key, block, n, first, c, 0) ==>
                                                Reports(Kind(key), k, old(CellOf(key)))
        invariant forall key :: CellOf(key) ==
                                if Before(key, block, n, first, c, 0)
                                then Step(Kind(key), k, old(CellOf(key)), Diagnose(recode(key))) else old(CellOf(key))
      {
        for r := 0 to n
          invariant Wired()
          invariant complete <==> forall key :: Before(key, block, n, first, c, r) ==>
                                                  Reports(Kind(key), k, old(CellOf(key)))
          invariant forall key :: CellOf(key) ==
                                  if Before(key, block, n, first, c, r)
                                  then Step(Kind(key), k, old(CellOf(key)), Diagnose(recode(key))) else old(CellOf(key))
        {
          var key := CellKey(block, r, c);
          var ok := DiagnoseCell(key, recode(key));
          complete := complete && ok;
        }
        c := c + 1;
      }
      forall key ensures Inv(Kind(key), k, CellOf(key)) {
        assert old(Inv(Kind(key), k, CellOf(key)));
        StepInv(Kind(key), k, old(CellOf(key)), Diagnose(recode(key)));
      }
    }

    /** The final sweep over the node's columns of a completed block. */
    method CleanUpBlock(block: string, n: nat, recode: CellKey -> Recode)
      requires Valid()
      modifies this`prunedCells, cache
      ensures Valid()
      ensures forall key :: CellOf(key) ==
                            if InOwnColumns(key, block, n)
                            then Step(Kind(key), k, old(CellOf(key)), Cleanup(recode(key))) else old(CellOf(key))
    {
      hide Inv, Step, Kind, CellOf;
      var (first, end) := OwnColumns(n, routing.numCols, routing.netCol);
      var c := first;
      while c < end
        invariant Wired() && (first <= c <= end || c == first > end)
        invariant forall key :: CellOf(key) ==
                                if Before(key, block, n, first, c, 0)
                                then Step(Kind(key), k, old(CellOf(key)), Cleanup(recode(key))) else old(CellOf(key))
      {
        for r := 0 to n
          invariant Wired()
          invariant forall key :: CellOf(key) ==
                                  if Before(key, block, n, first, c, r)
                                  then Step(Kind(key), k, old(CellOf(key)), Cleanup(recode(key))) else old(CellOf(key))
        {
          var key := CellKey(block, r, c);
          CleanCell(key, recode(key));
        }
        c := c + 1;
      }
      forall key ensures Inv(Kind(key), k, CellOf(key)) {
        assert old(Inv(Kind(key), k, CellOf(key)));
        StepInv(Kind(key), k, old(CellOf(key)), Cleanup(recode(key)));
      }
    }
  }

  lemma Offered(kind: Kind, k: nat, c: Cell, piece: Piece, source: Option<string>, capped: bool)
    requires c.view.Some? && !(capped && kind == Native && |c.view.value| >= k)
    ensures Step(kind, k, c, Offer(piece, source, capped)) ==
            if StoreAnswer(Coeffs(c.view.value), piece.coeffs, k) then
              c.(raw := c.raw + [piece], view := Some(c.view.value + [piece]),
              sources := if source.Some? then c.sources + {source.value} else c.sources)
            else c
  {
    hide StoreAnswer;
  }

  lemma Idle(kind: Kind, k: nat, c: Cell, recode: Recode)
    requires c.active
    ensures Step(kind, k, c, Prune(recode)) ==
            if kind == Native || c.pruned then c.(active := false)
            else PruneRaw(c.(active := false, pruned := true), recode)
  {
  }

  lemma PruneEmpties(c: Cell, recode: Recode)
    ensures PruneRaw(c, recode).raw == []
  {
  }

  lemma Diagnosed(kind: Kind, k: nat, c: Cell, recode: Recode)
    ensures Step(kind, k, c, Diagnose(recode)) ==
            if kind == Outsider && c.locked && Total(c) > 1 then PruneRaw(c, recode) else c
  {
  }

  lemma ClosedAgain(kind: Kind, k: nat, c: Cell)
    requires c.view.Some?
    ensures Step(kind, k, c, Close(false)) == c.(view := None)
  {
  }

  lemma ClosedTouched(kind: Kind, k: nat, c: Cell, touch: bool)
    requires c.view.Some? && kind != Outsider && (touch ==> c.view.value != [])
    ensures Step(kind, k, c, Close(touch)) == c.(view := None, active := c.active || (touch && !c.pruned))
  {
  }

  lemma Opened(kind: Kind, k: nat, c: Cell)
    requires c.view.None?
    ensures Step(kind, k, c, Open) == c.(view := Some(c.raw))
  {
  }

  lemma NoOffers(kind: Kind, k: nat, c: Cell, items: seq<Item>, capped: bool)
    requires items == []
    ensures Offers(kind, k, c, items, capped) == c
  {
  }

  lemma OneOffer(kind: Kind, k: nat, c: Cell, items: seq<Item>, i: nat, capped: bool)
    requires i < |items|
    ensures Offers(kind, k, c, items[..i + 1], capped) ==
            Step(kind, k, Offers(kind, k, c, items[..i], capped), Offer(items[i].piece, items[i].source, capped))
  {
    hide Step;
    assert items[..i + 1][..i] == items[..i];
  }

  /** Once a native cell is full, the rest of the batch changes nothing. */
  lemma {:induction false} StopsHere(kind: Kind, k: nat, c: Cell, items: seq<Item>, i: nat, capped: bool)
    requires i <= |items| && capped && kind == Native
    requires var c' := Offers(kind, k, c, items[..i], capped); c'.view.Some? && |c'.view.value| >= k
    ensures Offers(kind, k, c, items, capped) == Offers(kind, k, c, items[..i], capped)
    decreases |items|
  {
    if i == |items| {
      assert items[..i] == items;
    } else {
      var n := |items| - 1;
      assert items[..n][..i] == items[..i];
      StopsHere(kind, k, c, items[..n], i, capped);
    }
  }

  // Every storing method above is a run of the cell machine.

  ghost function OfferEvents(items: seq<Item>, capped: bool): seq<Event> {
    seq(|items|, i requires 0 <= i < |items| => Offer(items[i].piece, items[i].source, capped))
  }

  ghost function IngestEvents(kind: Kind, k: nat, c: Cell, items: seq<Item>, fast: bool, peers: nat, touch: bool)
    : seq<Event>
  {
    if (kind == Outsider && c.locked) || (kind == Backup && c.pruned) || (kind == Native && |c.raw| >= k) then []
    else
      var grew := |Offers(kind, k, Step(kind, k, c, Open), items, true).raw| > |c.raw|;
      [Open] + OfferEvents(items, true)
      + [if kind == Outsider && grew then Settle(fast, peers) else Close(touch && grew)]
  }

  ghost function FetchEvents(kind: Kind, c: Cell, items: seq<Item>): seq<Event> {
    if (kind == Outsider && c.locked) || (kind == Backup && (c.pruned || c.broadcasts >= 1)) then []
    else [Open] + OfferEvents(items, true) + [Close(false)]
  }

  lemma {:induction false} OffersAreRun(kind: Kind, k: nat, c: Cell, items: seq<Item>, capped: bool)
    ensures Run(kind, k, c, [Open] + OfferEvents(items, capped)) ==
            Offers(kind, k, Step(kind, k, c, Open), items, capped)
    decreases |items|
  {
    hide Step;
    if items == [] {
      assert [Open] + OfferEvents(items, capped) == [] + [Open];
      RunOneMore(kind, k, c, [], Open);
    } else {
      var n := |items| - 1;
      var last := Offer(items[n].piece, items[n].source, capped);
      OffersAreRun(kind, k, c, items[..n], capped);
      assert [Open] + OfferEvents(items, capped) == [Open] + OfferEvents(items[..n], capped) + [last];
      RunOneMore(kind, k, c, [Open] + OfferEvents(items[..n], capped), last);
    }
  }

  lemma SectionsAreRuns(kind: Kind, k: nat, c: Cell, items: seq<Item>, fast: bool, peers: nat, touch: bool,
                        piece: Piece)
    ensures Ingest(kind, k, c, items, fast, peers, touch) ==
            Run(kind, k, c, IngestEvents(kind, k, c, items, fast, peers, touch))
    ensures BatchFetch(kind, k, c, items) == Run(kind, k, c, FetchEvents(kind, c, items))
    ensures PullStore(kind, k, c, piece) == Run(kind, k, c, [Open, Offer(piece, None, false), Close(false)])
  {
    hide Step, OfferEvents, Offers;
    OffersAreRun(kind, k, c, items, true);
    var grew := |Offers(kind, k, Step(kind, k, c, Open), items, true).raw| > |c.raw|;
    var last := if kind == Outsider && grew then Settle(fast, peers) else Close(touch && grew);
    RunOneMore(kind, k, c, [Open] + OfferEvents(items, true), last);
    RunOneMore(kind, k, c, [Open] + OfferEvents(items, true), Close(false));
    PullIsRun(kind, k, c, piece);
  }

  lemma PullIsRun(kind: Kind, k: nat, c: Cell, piece: Piece)
    ensures PullStore(kind, k, c, piece) == Run(kind, k, c, [Open, Offer(piece, None, false), Close(false)])
  {
    hide Step;
    var one: seq<Event> := [Open];
    assert [] + one == one;
    RunOneMore(kind, k, c, [], Open);
    RunOneMore(kind, k, c, one, Offer(piece, None, false));
    RunOneMore(kind, k, c, one + [Offer(piece, None, false)], Close(false));
    assert one + [Offer(piece, None, false)] + [Close(false)] == [Open, Offer(piece, None, false), Close(false)];
  }
}
