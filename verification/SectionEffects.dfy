/**
 What whole sections do to a cell: which pieces and sources come in, when an outsider's cell is locked, what the
 completion check reports; in numbers and flags alone.
 */
module SectionEffects {
  import Basics
  import opened Bytes
  import opened Echelon
  import opened LinearSpan
  import opened Independence
  import opened CellMachine

  // Which pieces come in.

  /** The cell has gained pieces at the end, all from the batch, and just their sources. */
  ghost predicate Gained(c: Cell, c': Cell, items: seq<Item>) {
    && c.raw <= c'.raw && c.sources <= c'.sources
    && (forall i :: |c.raw| <= i < |c'.raw| ==> CameFrom(c'.raw[i], items, c'.sources))
    && (forall s :: s in c'.sources - c.sources ==> Brought(s, items, c'.raw[|c.raw|..]))
    && c' == c.(raw := c'.raw, view := c'.view, sources := c'.sources)
  }

  /** The piece is in the batch, its source on record if it names one. */
  ghost predicate CameFrom(piece: Piece, items: seq<Item>, sources: set<string>) {
    exists it :: it in items && it.piece == piece && (it.source.Some? ==> it.source.value in sources)
  }

  ghost predicate Brought(source: string, items: seq<Item>, pieces: seq<Piece>) {
    exists it :: it in items && it.source == Some(source) && it.piece in pieces
  }

  /** No piece of the batch is independent of the pieces held. */
  ghost predicate NothingLeft(k: nat, held: seq<Piece>, items: seq<Item>) {
    forall it :: it in items ==> !StoreAnswer(Coeffs(held), it.piece.coeffs, k)
  }

  lemma GainedOneMore(c: Cell, c': Cell, items: seq<Item>, item: Item)
    requires Gained(c, c', items)
    ensures Gained(c, c', items + [item])
    ensures var c'' := c'.(raw := c'.raw + [item.piece],
                           view := Some(c'.raw + [item.piece]),
                           sources := if item.source.Some? then c'.sources + {item.source.value} else c'.sources);
            Gained(c, c'', items + [item])
  {
    var all, sources := items + [item], if item.source.Some? then c'.sources + {item.source.value} else c'.sources;
    var raw := c'.raw + [item.piece];
    assert item in all && item.piece in raw[|c.raw|..] by {
      assert all[|items|] == item && raw[|c'.raw|] == item.piece;
    }
    forall i | |c.raw| <= i < |c'.raw| ensures CameFrom(c'.raw[i], all, c'.sources) && CameFrom(c'.raw[i], all, sources)
    {
      var it :| it in items && it.piece == c'.raw[i] && (it.source.Some? ==> it.source.value in c'.sources);
      assert it in all;
    }
    assert raw[|c.raw|..] == c'.raw[|c.raw|..] + [item.piece];
    forall s | s in c'.sources - c.sources
      ensures Brought(s, all, c'.raw[|c.raw|..]) && Brought(s, all, raw[|c.raw|..])
    {
      var it :| it in items && it.source == Some(s) && it.piece in c'.raw[|c.raw|..];
      assert it in all;
    }
  }

  /** A piece refused stays refused as the pieces held grow, and a piece held is refused. */
  lemma RefusedLater(held: seq<Piece>, more: seq<Piece>, coeffs: seq<byte>, k: nat)
    requires !StoreAnswer(Coeffs(held), coeffs, k) && held <= more
    ensures !StoreAnswer(Coeffs(more), coeffs, k)
  {
    hide Outside, HasNonzeroByte;
    if StoreAnswer(Coeffs(more), coeffs, k) {
      if held != [] {
        forall x | x in Coeffs(held) ensures x in Coeffs(more) {
          var j :| 0 <= j < |held| && Coeffs(held)[j] == x;
          assert Coeffs(more)[j] == x;
        }
        OutsideFewer(Coeffs(held), Coeffs(more), coeffs, k);
      } else if more != [] {
        OutsideNonzero(Coeffs(more), coeffs, k);
      }
    }
  }

  lemma RefusedOnceHeld(held: seq<Piece>, piece: Piece, k: nat)
    ensures !StoreAnswer(Coeffs(held + [piece]), piece.coeffs, k)
  {
    hide InSpan, Parse;
    var all := Coeffs(held + [piece]);
    if WellFormed(piece.coeffs, k) {
      var rows := Parsed(all, k);
      assert all[|held|] == piece.coeffs;
      ParsedSet(all, k, Parse(piece.coeffs, k));
      var i :| 0 <= i < |rows| && rows[i] == Parse(piece.coeffs, k);
      SpanMember(rows, i);
    }
  }

  lemma OfferGains(kind: Kind, k: nat, c: Cell, item: Item, capped: bool)
    requires c.view == Some(c.raw)
    ensures var c' := Step(kind, k, c, Offer(item.piece, item.source, capped));
            && (c' == c
                || c' == c.(raw := c.raw + [item.piece], view := Some(c.raw + [item.piece]),
                         sources := if item.source.Some? then c.sources + {item.source.value} else c.sources))
            && (!StoreAnswer(Coeffs(c'.raw), item.piece.coeffs, k) || (capped && kind == Native && |c'.raw| >= k))
            && (capped && kind == Native ==> |c'.raw| <= |c.raw| || |c'.raw| <= k)
  {
    hide StoreAnswer;
    RefusedOnceHeld(c.raw, item.piece, k);
  }

  /** Offering a batch keeps its pieces as they are independent of those held, records their sources, and drops nothing
      useful unless the cell is native and full. */
  lemma {:induction false} OffersGain(kind: Kind, k: nat, c: Cell, items: seq<Item>, capped: bool)
    requires c.view == Some(c.raw)
    ensures var c' := Offers(kind, k, c, items, capped);
            && Gained(c, c', items) && c'.view == Some(c'.raw)
            && (NothingLeft(k, c'.raw, items) || (capped && kind == Native && |c'.raw| >= k))
            && (capped && kind == Native ==> |c'.raw| <= |c.raw| || |c'.raw| <= k)
  {
    hide StoreAnswer, Step, Gained, NothingLeft;
    if items == [] {
      NothingGained(k, c);
    } else {
      var n := |items| - 1;
      OffersGain(kind, k, c, items[..n], capped);
      var c1 := Offers(kind, k, c, items[..n], capped);
      OfferGains(kind, k, c1, items[n], capped);
      GainedOneMore(c, c1, items[..n], items[n]);
      assert items[..n] + [items[n]] == items;
      var c2 := Step(kind, k, c1, Offer(items[n].piece, items[n].source, capped));
      if NothingLeft(k, c1.raw, items[..n]) && !StoreAnswer(Coeffs(c2.raw), items[n].piece.coeffs, k) {
        NothingLeftLater(k, c1.raw, c2.raw, items[..n], items[n]);
      }
    }
  }

  lemma NothingGained(k: nat, c: Cell)
    ensures Gained(c, c, []) && NothingLeft(k, c.raw, [])
  {
  }

  lemma NothingLeftLater(k: nat, held: seq<Piece>, more: seq<Piece>, items: seq<Item>, item: Item)
    requires NothingLeft(k, held, items) && held <= more && !StoreAnswer(Coeffs(more), item.piece.coeffs, k)
    ensures NothingLeft(k, more, items + [item])
  {
    hide StoreAnswer;
    forall it | it in items + [item] ensures !StoreAnswer(Coeffs(more), it.piece.coeffs, k) {
      if it in items {
        RefusedLater(held, more, it.piece.coeffs, k);
      }
    }
  }

  // Ingest.

  lemma GainedSameSources(c: Cell, c': Cell, items: seq<Item>)
    requires Gained(c.(view := Some(c.raw)), c', items)
    ensures Gained(c, c.(raw := c'.raw, sources := c'.sources), items)
  {
  }

  lemma OnlyGained(c: Cell, c': Cell, items: seq<Item>)
    requires Gained(c, c', items)
    ensures c' == c.(raw := c'.raw, view := c'.view, sources := c'.sources) && c.raw <= c'.raw
  {
  }

  /** Ingest passes by a locked outsider, a pruned backup and a full native cell. Any other cell gains from the batch,
      a native one up to k pieces, and is left with nothing of use in the batch. */
  lemma IngestGains(kind: Kind, k: nat, c: Cell, items: seq<Item>, fast: bool, peers: nat, touch: bool)
    requires c.view == None
    ensures var c' := Ingest(kind, k, c, items, fast, peers, touch);
            if (kind == Outsider && c.locked) || (kind == Backup && c.pruned) || (kind == Native && |c.raw| >= k)
            then c' == c
            else
              && Gained(c, c.(raw := c'.raw, sources := c'.sources), items) && c'.view == None
              && (kind == Native ==> |c'.raw| <= k)
              && (NothingLeft(k, c'.raw, items) || (kind == Native && |c'.raw| == k))
  {
    hide Gained, NothingLeft, Offers, CanLock;
    var v := c.(view := Some(c.raw));
    OffersGain(kind, k, v, items, true);
    GainedSameSources(c, Offers(kind, k, v, items, true), items);
  }

  /** A batch fetch passes by a locked outsider and a backup that was pruned or has published. */
  lemma FetchGains(kind: Kind, k: nat, c: Cell, items: seq<Item>)
    requires c.view == None
    ensures var c' := BatchFetch(kind, k, c, items);
            if (kind == Outsider && c.locked) || (kind == Backup && (c.pruned || c.broadcasts >= 1)) then c' == c
            else
              && Gained(c, c', items) && c' == c.(raw := c'.raw, sources := c'.sources)
              && (kind == Native ==> |c'.raw| <= |c.raw| || |c'.raw| <= k)
              && (NothingLeft(k, c'.raw, items) || (kind == Native && |c'.raw| >= k))
  {
    hide Gained, NothingLeft, Offers;
    var v := c.(view := Some(c.raw));
    OffersGain(kind, k, v, items, true);
    GainedSameSources(c, Offers(kind, k, v, items, true), items);
    OnlyGained(v, Offers(kind, k, v, items, true), items);
  }

  /** The end of an outsider's ingest locks the cell on any piece when the fast way is on, and else on two pieces from
      two sources; one piece is enough when a cell has one, and one source when a cell has one piece or only one store
      keeps it. Otherwise a cell with pieces waits. */
  lemma SettleLocks(k: nat, c: Cell, fast: bool, peers: nat)
    requires k > 0 && c.view.Some? && !c.locked
    ensures var c', held := Step(Outsider, k, c, Settle(fast, peers)), |c.view.value|;
            var enough := held >= (if k == 1 then 1 else 2) && |c.sources| >= (if k == 1 || peers == 1 then 1 else 2);
            && (c'.locked <==> held >= 1 && (fast || enough))
            && (c'.pending <==> !c'.locked && (c.pending || held >= 1))
            && c' == c.(view := None, locked := c'.locked, pending := c'.pending)
  {
  }

  /** So does a batch that adds to the cell, with the pieces and sources that it leaves there. */
  lemma IngestLocks(k: nat, c: Cell, items: seq<Item>, fast: bool, peers: nat, touch: bool)
    requires k > 0 && c.view == None && !c.locked
    ensures var c' := Ingest(Outsider, k, c, items, fast, peers, touch);
            var grew := |c'.raw| > |c.raw|;
            var enough := |c'.raw| >= (if k == 1 then 1 else 2)
                          && |c'.sources| >= (if k == 1 || peers == 1 then 1 else 2);
            && (c'.locked <==> grew && (fast || enough))
            && (c'.pending <==> !c'.locked && (c.pending || grew))
            && c' == c.(raw := c'.raw, sources := c'.sources, locked := c'.locked, pending := c'.pending)
  {
    hide Gained, NothingLeft, Offers, CanLock, Step;
    var v := Step(Outsider, k, c, Open);
    OpenReads(Outsider, k, c);
    OffersGain(Outsider, k, v, items, true);
    var c' := Offers(Outsider, k, v, items, true);
    OnlyGained(v, c', items);
    SettleLocks(k, c', fast, peers);
    ClosingForgets(Outsider, k, c');
  }

  lemma OpenReads(kind: Kind, k: nat, c: Cell)
    requires c.view == None
    ensures Step(kind, k, c, Open) == c.(view := Some(c.raw))
  {
  }

  lemma ClosingForgets(kind: Kind, k: nat, c: Cell)
    requires c.view.Some?
    ensures Step(kind, k, c, Close(false)) == c.(view := None)
  {
  }

  /** In particular, pieces of a single source never lock a cell that several stores keep: it waits. */
  lemma OneSourceWaits(k: nat, c: Cell, items: seq<Item>, peers: nat, touch: bool, source: string)
    requires k >= 2 && peers != 1 && c.view == None && !c.locked
    requires c.sources <= {source} && forall it :: it in items && it.source.Some? ==> it.source.value == source
    ensures var c' := Ingest(Outsider, k, c, items, false, peers, touch);
            !c'.locked && (|c'.raw| > |c.raw| ==> c'.pending)
  {
    hide Ingest, StoreAnswer, NothingLeft;
    var c' := Ingest(Outsider, k, c, items, false, peers, touch);
    IngestLocks(k, c, items, false, peers, touch);
    IngestGains(Outsider, k, c, items, false, peers, touch);
    forall s | s in c'.sources ensures s in {source} {
      if s !in c.sources {
        assert s in c'.sources - c.sources;
      }
    }
    if c'.sources != {} {
      assert c'.sources == {source};
    }
  }

  /** And two sources lock it: when pieces of two sources are among those held or taken in, the cell is locked as soon as
      the batch adds a piece. */
  lemma TwoSourcesLock(k: nat, c: Cell, items: seq<Item>, fast: bool, peers: nat, touch: bool, a: string, b: string)
    requires k > 0 && c.view == None && !c.locked && a != b
    requires var c' := Ingest(Outsider, k, c, items, fast, peers, touch);
             |c'.raw| > |c.raw| && |c'.raw| >= 2 && a in c'.sources && b in c'.sources
    ensures Ingest(Outsider, k, c, items, fast, peers, touch).locked
  {
    hide Ingest;
    var c' := Ingest(Outsider, k, c, items, fast, peers, touch);
    IngestLocks(k, c, items, fast, peers, touch);
    assert |c'.sources| >= 2 by {
      Basics.SubsetSize({a, b}, c'.sources);
    }
  }

  /** A cell of our custody becomes active with a batch that adds to it, unless it was pruned, and no other flag moves. */
  lemma IngestTouches(kind: Kind, k: nat, c: Cell, items: seq<Item>, peers: nat, touch: bool)
    requires kind != Outsider && c.view == None
    ensures var c' := Ingest(kind, k, c, items, false, peers, touch);
            && (c'.active <==> c.active || (touch && |c'.raw| > |c.raw| && !c.pruned))
            && c' == c.(raw := c'.raw, sources := c'.sources, active := c'.active)
  {
    hide StoreAnswer;
    OffersGain(kind, k, c.(view := Some(c.raw)), items, true);
  }

  /** An active pull stores its piece when it is independent of those held, whatever the flags say. */
  lemma PullStores(kind: Kind, k: nat, c: Cell, piece: Piece)
    requires c.view == None
    ensures PullStore(kind, k, c, piece) ==
            if StoreAnswer(Coeffs(c.raw), piece.coeffs, k) then c.(raw := c.raw + [piece]) else c
  {
    hide StoreAnswer;
  }

  // The completion check.

  /** What the check reports: a native cell with k pieces that has published, a backup that holds a piece and has
      published or has been pruned to just one, an outsider that is locked. */
  lemma ReportsInWords(kind: Kind, k: nat, c: Cell)
    requires FlagsInv(kind, c)
    ensures kind == Native ==> (Reports(kind, k, c) <==> |c.raw| >= k && c.broadcasts >= 1)
    ensures kind == Backup ==>
              (Reports(kind, k, c) <==>
               |c.raw| + |c.recoded| >= 1 && (c.broadcasts >= 1 || (c.pruned && |c.raw| + |c.recoded| == 1)))
    ensures kind == Outsider ==> (Reports(kind, k, c) <==> c.locked)
  {
  }
}
