/**
 The store node's in-memory custody store: raw pieces, recoded pieces and a cache of raw counts per cell.
 */
module CustodyStore {
  import opened CellMachine

  datatype CellKey = CellKey(block: string, row: int, col: int)

  function Lookup(m: map<CellKey, seq<Piece>>, key: CellKey): seq<Piece> {
    if key in m then m[key] else []
  }

  // Totals over all cells.

  ghost function SumSizes(m: map<CellKey, seq<Piece>>): nat {
    if m == map[] then 0
    else
      var key :| key in m;
      |m[key]| + SumSizes(m - {key})
  }

  lemma {:induction false} SumOfPart(m: map<CellKey, seq<Piece>>, key: CellKey)
    requires key in m
    ensures SumSizes(m) == |m[key]| + SumSizes(m - {key})
    decreases |m|
  {
    var first :| first in m && SumSizes(m) == |m[first]| + SumSizes(m - {first});
    if first != key {
      SumOfPart(m - {first}, key);
      SumOfPart(m - {key}, first);
      assert m - {first} - {key} == m - {key} - {first};
    }
  }

  /** Changing one cell changes the total by the difference of its sizes. */
  lemma SumReplaced(m: map<CellKey, seq<Piece>>, key: CellKey, ps: seq<Piece>)
    ensures SumSizes(m[key := ps]) + |Lookup(m, key)| == SumSizes(m) + |ps|
  {
    SumOfPart(m[key := ps], key);
    assert m[key := ps] - {key} == m - {key};
    if key in m {
      SumOfPart(m, key);
    } else {
      assert m - {key} == m;
    }
  }

  lemma SumRemoved(m: map<CellKey, seq<Piece>>, key: CellKey)
    ensures SumSizes(m - {key}) + |Lookup(m, key)| == SumSizes(m)
  {
    if key in m {
      SumOfPart(m, key);
    } else {
      assert m - {key} == m;
    }
  }

  method CountAll(m: map<CellKey, seq<Piece>>) returns (count: nat)
    ensures count == SumSizes(m)
  {
    count := 0;
    var rest := m;
    while |rest| > 0
      invariant count + SumSizes(rest) == SumSizes(m)
    {
      var key :| key in rest;
      SumOfPart(rest, key);
      count := count + |rest[key]|;
      rest := rest - {key};
    }
    assert rest == map[];
  }

  class Store {
    var piecesCache: map<CellKey, seq<Piece>>
    var recodedCache: map<CellKey, seq<Piece>>
    var pieceCountCache: map<CellKey, nat>

    function Raw(key: CellKey): seq<Piece>
      reads this
    {
      Lookup(piecesCache, key)
    }

    function RecodedOf(key: CellKey): seq<Piece>
      reads this
    {
      Lookup(recodedCache, key)
    }

    /** Every cached count is the number of raw pieces, and no cell keeps two recoded pieces. */
    ghost predicate Valid()
      reads this
    {
      && (forall key :: key in pieceCountCache ==> pieceCountCache[key] == |Lookup(piecesCache, key)|)
      && (forall key :: key in recodedCache ==> |recodedCache[key]| <= 1)
    }

    ghost function Pieces(): nat
      reads this
    {
      SumSizes(piecesCache) + SumSizes(recodedCache)
    }

    constructor ()
      ensures Valid() && Pieces() == 0 && forall key :: Raw(key) == RecodedOf(key) == []
    {
      piecesCache, recodedCache, pieceCountCache := map[], map[], map[];
    }

    method StorePiece(key: CellKey, piece: Piece)
      requires Valid()
      modifies this
      ensures Valid() && Pieces() == old(Pieces()) + 1
      ensures forall c :: Raw(c) == if c == key then old(Raw(key)) + [piece] else old(Raw(c))
      ensures forall c :: RecodedOf(c) == old(RecodedOf(c))
    {
      var pieces := Lookup(piecesCache, key) + [piece];
      SumReplaced(piecesCache, key, pieces);
      piecesCache := piecesCache[key := pieces];
      pieceCountCache := pieceCountCache[key := |pieces|];
    }

    method GetPieces(key: CellKey) returns (pieces: seq<Piece>)
      ensures pieces == Raw(key)
    {
      pieces := Lookup(piecesCache, key);
    }

    // A look-up of the count has three sections; others may come in between.

    method CachedCount(key: CellKey) returns (found: bool, count: nat)
      ensures found <==> key in pieceCountCache
      ensures count == if found then pieceCountCache[key] else 0
    {
      found := key in pieceCountCache;
      count := if found then pieceCountCache[key] else 0;
    }

    method CountPieces(key: CellKey) returns (held: bool, count: nat)
      ensures held <==> key in piecesCache
      ensures count == |Raw(key)|
    {
      held := key in piecesCache;
      count := if held then |piecesCache[key]| else 0;
    }

    method CacheCount(key: CellKey, count: nat)
      modifies this`pieceCountCache
      ensures pieceCountCache == old(pieceCountCache)[key := count]
      ensures old(Valid()) ==> (Valid() <==> count == |Raw(key)|)
    {
      pieceCountCache := pieceCountCache[key := count];
      assert pieceCountCache[key] == count;
    }

    /** The number a look-up gives when nothing comes in between. */
    function SeenCount(key: CellKey): nat
      reads this
    {
      if key in pieceCountCache then pieceCountCache[key] else |Raw(key)|
    }

    /** Answers from the count cache, filling it when it can. */
    method GetPieceCount(key: CellKey) returns (count: nat)
      modifies this`pieceCountCache
      ensures count == old(SeenCount(key)) && forall c :: SeenCount(c) == old(SeenCount(c))
      ensures old(Valid()) ==> Valid() && count == |Raw(key)|
    {
      var found;
      found, count := CachedCount(key);
      if found {
        return;
      }
      var held;
      held, count := CountPieces(key);
      if held {
        CacheCount(key, count);
      }
    }

    method StoreRecodedPiece(key: CellKey, piece: Piece)
      requires Valid()
      modifies this`recodedCache
      ensures Valid() && Pieces() + |old(RecodedOf(key))| == old(Pieces()) + 1
      ensures forall c :: RecodedOf(c) == if c == key then [piece] else old(RecodedOf(c))
    {
      SumReplaced(recodedCache, key, [piece]);
      recodedCache := recodedCache[key := [piece]];
    }

    method DeleteRecodedPieces(key: CellKey)
      requires Valid()
      modifies this`recodedCache
      ensures Valid() && Pieces() + |old(RecodedOf(key))| == old(Pieces())
      ensures forall c :: RecodedOf(c) == if c == key then [] else old(RecodedOf(c))
    {
      SumRemoved(recodedCache, key);
      recodedCache := recodedCache - {key};
    }

    method GetTotalPiecesForCell(key: CellKey) returns (total: nat)
      requires Valid()
      modifies this`pieceCountCache
      ensures Valid() && total == |Raw(key)| + |RecodedOf(key)|
    {
      var raw := GetPieceCount(key);
      total := raw + |Lookup(recodedCache, key)|;
    }

    /** The number of all stored pieces. */
    method GetTotalPieceCount() returns (total: nat)
      ensures total == Pieces()
    {
      var raw := CountAll(piecesCache);
      var recoded := CountAll(recodedCache);
      total := raw + recoded;
    }

    /** Drops the raw pieces of the cell; when it has no recoded piece yet, one recoded from them,
        or failing that the first of them, takes their place. */
    method PruneRawPieces(key: CellKey, recode: Recode) returns (deleted: nat)
      requires Valid()
      modifies this
      ensures Valid() && deleted == |old(Raw(key))|
      ensures forall c :: Raw(c) == if c == key then [] else old(Raw(c))
      ensures forall c :: RecodedOf(c) ==
                          if c == key && old(RecodedOf(key)) == [] && old(Raw(key)) != []
                          then [Compressed(old(Raw(key)), recode)] else old(RecodedOf(c))
      ensures Pieces() + deleted ==
              old(Pieces()) + if old(RecodedOf(key)) == [] && old(Raw(key)) != [] then 1 else 0
    {
      var rawPieces := Lookup(piecesCache, key);
      var hasRecoded := |Lookup(recodedCache, key)| > 0;
      SumRemoved(piecesCache, key);
      piecesCache := piecesCache - {key};
      pieceCountCache := pieceCountCache[key := 0];
      deleted := |rawPieces|;
      if deleted == 0 && hasRecoded {
        return;
      }
      if !hasRecoded && |rawPieces| > 0 {
        var compressed := rawPieces[0];
        if |rawPieces| >= 2 && recode.Recoded? {
          compressed := recode.piece;
        }
        SumReplaced(recodedCache, key, [compressed]);
        recodedCache := recodedCache[key := [compressed]];
      }
    }
  }
}
