/**
 The life of one cell on one store node, as a state machine over the sections the goroutines run
 under their locks. Any interleaving of sections is a list of events; an event that does not apply
 leaves the cell as it is.
 */
module CellMachine {
  import opened Basics
  import opened Bytes
  import opened LinearSpan
  import opened Echelon
  import opened Independence

  datatype Option<T> = None | Some(value: T)

  datatype Piece = Piece(row: int, col: int, data: seq<byte>, coeffs: seq<byte>, proof: seq<byte>)

  /** How the node relates to the cell: keeps it in full, backs it up, or only holds one recoded piece. */
  datatype Kind = Native | Backup | Outsider

  /** The outcome of a recoding attempt, which is not ours to predict. */
  datatype Recode = RecodeFailed | Recoded(piece: Piece)

  /** What the node's maps say about one cell.
      view: the pieces as the goroutine that holds the cell lock sees them, while it stores.
      pulled: an active pull has stored its recoded piece and has yet to prune. */
  datatype Cell = Cell(
    raw: seq<Piece>, recoded: seq<Piece>, view: Option<seq<Piece>>,
    locked: bool, pending: bool, pruned: bool, active: bool, pulled: bool,
    broadcasts: nat, sources: set<string>)

  const EmptyCell := Cell([], [], None, false, false, false, false, false, 0, {})

  function Total(c: Cell): nat {
    |c.raw| + |c.recoded|
  }

  function Coeffs(ps: seq<Piece>): (cs: seq<seq<byte>>)
    ensures |cs| == |ps|
  {
    seq(|ps|, i requires 0 <= i < |ps| => ps[i].coeffs)
  }

  /** What a flush does to the lock flag: ingest and the sweep have set it before, a pull sets it,
      a batch fetch sets it and forgets that the cell was pending. */
  datatype LockMode = AlreadyLocked | Lock | LockAndForget

  datatype Event =
    | Open                                                           // take the cell lock and read the raw pieces
    | Offer(piece: Piece, source: Option<string>, capped: bool)      // test one piece and store it if independent
    | Settle(fast: bool, peers: nat)                                 // outsider ingest: lock the cell or mark it pending
    | Close(touch: bool)                                             // release the cell lock
    | Flush(chosen: Piece, mode: LockMode)                           // outsider: store one recoded piece, drop the raw ones
    | Expire                                                         // the fallback sweep finds the cell waiting
    | Retain(chosen: Piece, pull: bool)                              // backup: store the retained recoded piece
    | Broadcast(count: nat)                                          // recoded pieces published
    | Prune(recode: Recode)                                          // the activity timeout of a non-native cell
    | PullPrune(recode: Recode)                                      // the end of an active pull on a backup cell
    | Diagnose(recode: Recode)                                       // the completion check
    | Cleanup(recode: Recode)                                        // the final sweep over a completed block

  // The steps.

  function Compressed(raw: seq<Piece>, recode: Recode): Piece
    requires raw != []
  {
    if |raw| >= 2 && recode.Recoded? then recode.piece else raw[0]
  }

  /** PruneRawPieces: drop the raw pieces, keeping one recoded piece in their stead. */
  function PruneRaw(c: Cell, recode: Recode): Cell {
    c.(raw := [],
    recoded := if c.recoded == [] && c.raw != [] then [Compressed(c.raw, recode)] else c.recoded)
  }

  /** How many distinct sources an outsider waits for before it recodes. */
  function MinSources(k: nat, peers: nat): nat {
    if 0 < peers < Min(2, k) then peers else Min(2, k)
  }

  predicate CanLock(c: Cell, view: seq<Piece>, k: nat, fast: bool, peers: nat) {
    (fast && |view| >= 1) || (|view| >= Min(2, k) && |c.sources| >= MinSources(k, peers))
  }

  ghost predicate Accepts(kind: Kind, k: nat, c: Cell, piece: Piece, capped: bool) {
    && c.view.Some?
    && !(capped && kind == Native && |c.view.value| >= k)
    && StoreAnswer(Coeffs(c.view.value), piece.coeffs, k)
  }

  ghost function Step(kind: Kind, k: nat, c: Cell, e: Event): Cell {
    match e
    case Open => if c.view.None? then c.(view := Some(c.raw)) else c
    case Offer(piece, source, capped) =>
      if Accepts(kind, k, c, piece, capped) then
        c.(raw := c.raw + [piece], view := Some(c.view.value + [piece]),
        sources := if source.Some? then c.sources + {source.value} else c.sources)
      else c
    case Settle(fast, peers) =>
      if kind != Outsider || c.view.None? then c
      else
        var view, c' := c.view.value, c.(view := None);
        if CanLock(c, view, k, fast, peers) then
          if c.locked then c' else c'.(locked := true, pending := false)
        else if |view| >= 1 && !c.locked then c'.(pending := true)
        else c'
    case Close(touch) =>
      if c.view.None? then c
      else c.(view := None, active := c.active || (touch && kind != Outsider && c.view.value != [] && !c.pruned))
    case Flush(chosen, mode) =>
      if kind != Outsider then c
      else
        c.(raw := [], recoded := [chosen], pruned := true,
        locked := c.locked || mode != AlreadyLocked, pending := c.pending && mode != LockAndForget)
    case Expire =>
      if !c.pending then c else c.(locked := true, pending := false)
    case Retain(chosen, pull) =>
      if kind == Backup then c.(recoded := [chosen], pulled := c.pulled || pull) else c
    case Broadcast(count) =>
      if kind == Outsider then c else c.(broadcasts := c.broadcasts + count)
    case Prune(recode) =>
      if !c.active then c
      else if kind == Native || c.pruned then c.(active := false)
      else PruneRaw(c, recode).(active := false, pruned := true)
    case PullPrune(recode) =>
      if kind != Backup || !c.pulled then c else PruneRaw(c, recode).(pulled := false, pruned := true)
    case Diagnose(recode) =>
      if kind == Outsider && c.locked && Total(c) > 1 then PruneRaw(c, recode) else c
    case Cleanup(recode) =>
      if kind == Native then c.(recoded := [])
      else if Total(c) > 0 then PruneRaw(c, recode).(pruned := true)
      else c
  }

  /** What the completion check asks of the cell, after its own pruning. */
  predicate Satisfied(kind: Kind, k: nat, c: Cell) {
    match kind
    case Native => |c.raw| >= k && c.broadcasts >= 1
    case Backup => Total(c) > 0 && (c.broadcasts >= 1 || (c.pruned && Total(c) == 1))
    case Outsider => c.locked && Total(c) == 1
  }

  /** What the completion check reports for the cell. */
  ghost predicate Reports(kind: Kind, k: nat, c: Cell) {
    Satisfied(kind, k, Step(kind, k, c, Diagnose(RecodeFailed)))
  }

  /** The check's own recoding has no say in the report. */
  lemma ReportsAnyRecode(kind: Kind, k: nat, c: Cell, recode: Recode)
    ensures Reports(kind, k, c) <==> Satisfied(kind, k, Step(kind, k, c, Diagnose(recode)))
  {
  }

  ghost function Run(kind: Kind, k: nat, c: Cell, events: seq<Event>): Cell {
    if events == [] then c
    else Step(kind, k, Run(kind, k, c, events[..|events| - 1]), events[|events| - 1])
  }

  // Independence of the stored pieces.

  /** Every piece passed the store's test against the ones before it. */
  ghost predicate Admissible(ps: seq<Piece>, k: nat) {
    forall i :: 0 <= i < |ps| ==> StoreAnswer(Coeffs(ps[..i]), ps[i].coeffs, k)
  }

  lemma AdmissibleAppend(ps: seq<Piece>, p: Piece, k: nat)
    requires Admissible(ps, k) && StoreAnswer(Coeffs(ps), p.coeffs, k)
    ensures Admissible(ps + [p], k)
  {
    hide StoreAnswer;
    var all := ps + [p];
    forall i | 0 <= i < |all| ensures StoreAnswer(Coeffs(all[..i]), all[i].coeffs, k) {
      if i < |ps| {
        assert all[..i] == ps[..i];
      } else {
        assert all[..i] == ps;
      }
    }
  }

  lemma OutsideFewer(xs: seq<seq<byte>>, ys: seq<seq<byte>>, raw: seq<byte>, k: nat)
    requires Outside(ys, raw, k) && forall x :: x in xs ==> x in ys
    ensures Outside(xs, raw, k)
  {
    hide InSpan;
    var v := Parse(raw, k);
    if InSpan(v, Parsed(xs, k)) {
      forall x | x in Parsed(xs, k) ensures x in Parsed(ys, k) {
        ParsedSet(xs, k, x);
        ParsedSet(ys, k, x);
      }
      SpanGrows(v, Parsed(xs, k), Parsed(ys, k));
    }
  }

  lemma OutsideNonzero(existing: seq<seq<byte>>, raw: seq<byte>, k: nat)
    requires Outside(existing, raw, k)
    ensures HasNonzeroByte(raw)
  {
    hide InSpan;
    NonzeroBytes(raw, k);
    SpanZero(Parsed(existing, k), k);
  }

  /** Dropping pieces from the front, as a concurrent prune does, keeps the list admissible. */
  lemma SuffixAdmissible(ps: seq<Piece>, n: nat, k: nat)
    requires Admissible(ps, k) && n <= |ps|
    ensures Admissible(ps[n..], k)
  {
    hide Outside, HasNonzeroByte;
    var tail := ps[n..];
    forall i | 0 <= i < |tail| ensures StoreAnswer(Coeffs(tail[..i]), tail[i].coeffs, k) {
      assert tail[i] == ps[n + i];
      assert StoreAnswer(Coeffs(ps[..n + i]), ps[n + i].coeffs, k);
      if n > 0 {
        if i == 0 {
          assert Coeffs(tail[..0]) == [];
          OutsideNonzero(Coeffs(ps[..n]), ps[n].coeffs, k);
        } else {
          CoeffsOfPart(ps, n, i);
          OutsideFewer(Coeffs(tail[..i]), Coeffs(ps[..n + i]), ps[n + i].coeffs, k);
        }
      }
    }
  }

  lemma CoeffsOfPart(ps: seq<Piece>, n: nat, i: nat)
    requires n + i <= |ps|
    ensures forall x :: x in Coeffs(ps[n..][..i]) ==> x in Coeffs(ps[..n + i])
  {
    var small, big := Coeffs(ps[n..][..i]), Coeffs(ps[..n + i]);
    forall x | x in small ensures x in big {
      var j :| 0 <= j < i && small[j] == x;
      assert big[n + j] == x;
    }
  }

  /** The number of malformed first pieces: the store's shortcut lets one in. */
  function Excess(ps: seq<Piece>, k: nat): nat {
    if ps == [] || WellFormed(ps[0].coeffs, k) then 0 else 1
  }

  lemma AcceptedGrows(front: seq<seq<byte>>, raw: seq<byte>, k: nat)
    requires StoreAnswer(front, raw, k)
    ensures var one := if front == [] && !WellFormed(raw, k) then 0 else 1;
            && Rank(front + [raw], k) == Rank(front, k) + one
            && |Parsed(front + [raw], k)| == |Parsed(front, k)| + one
  {
    hide InSpan, IsEchelon, Added, Feed, Parse;
    assert (front + [raw])[..|front|] == front;
    AddedDecides(Feed(front, k), k, raw);
    AddedGrowsByOne(Feed(front, k), k, raw);
    FeedSpan(front, k);
    FeedLast(front, raw, k);
    if front == [] && WellFormed(raw, k) {
      NonzeroBytes(raw, k);
      EmptyFeed(k);
      SpanOfNothing(Parse(raw, k));
    }
  }

  lemma {:induction false} AdmissibleRank(ps: seq<Piece>, k: nat)
    requires Admissible(ps, k)
    ensures |Parsed(Coeffs(ps), k)| == Rank(Coeffs(ps), k) == |ps| - Excess(ps, k)
    decreases |ps|
  {
    hide InSpan, IsEchelon, Added, Feed, Parse, StoreAnswer, Rank, Parsed;
    if ps == [] {
      assert Coeffs(ps) == [];
      NothingCounted(k);
    } else {
      var n := |ps| - 1;
      var front := Coeffs(ps[..n]);
      forall i | 0 <= i < n ensures StoreAnswer(Coeffs(ps[..n][..i]), ps[..n][i].coeffs, k) {
        assert ps[..n][..i] == ps[..i];
      }
      AdmissibleRank(ps[..n], k);
      assert Coeffs(ps) == front + [ps[n].coeffs];
      AcceptedGrows(front, ps[n].coeffs, k);
    }
  }

  lemma NothingCounted(k: nat)
    ensures Rank([], k) == |Parsed([], k)| == 0
  {
  }

  lemma SpanOfNothing(v: Row)
    ensures InSpan(v, []) <==> v == Zero(|v|)
  {
  }

  /** The count of stored raw pieces is their rank, they are independent and at most k, and k of them decode
      the cell: all of this exactly when the first of them is well-formed. */
  lemma CountIsRank(ps: seq<Piece>, k: nat)
    requires Admissible(ps, k)
    ensures Rank(Coeffs(ps), k) == |ps| <==> ps == [] || WellFormed(ps[0].coeffs, k)
    ensures ps == [] || WellFormed(ps[0].coeffs, k) ==>
              && Independent(Parsed(Coeffs(ps), k), k) && |Parsed(Coeffs(ps), k)| == |ps| <= k
              && (|ps| >= k <==> forall v: Row :: |v| == k ==> InSpan(v, Parsed(Coeffs(ps), k)))
    ensures !(ps == [] || WellFormed(ps[0].coeffs, k)) ==> |ps| <= k + 1
  {
    hide InSpan, Independent, Rank, Parsed;
    AdmissibleRank(ps, k);
    FullCountIsIndependence(Coeffs(ps), k);
    RankBounded(Coeffs(ps), k);
  }

  // The invariant.

  predicate IsSuffix(ps: seq<Piece>, all: seq<Piece>) {
    |ps| <= |all| && ps == all[|all| - |ps|..]
  }

  /** The stored pieces are admissible, and so are those the lock holder sees, of which they are the end. */
  ghost predicate PiecesInv(kind: Kind, k: nat, c: Cell) {
    && Admissible(c.raw, k)
    && (c.view.Some? ==> Admissible(c.view.value, k) && IsSuffix(c.raw, c.view.value))
    && (kind == Native ==> c.view.Some? ==> c.raw == c.view.value)
  }

  /** What the flags promise about a cell that is not kept in full. */
  predicate FlagsInv(kind: Kind, c: Cell) {
    && |c.recoded| <= 1
    && (kind != Native ==>
          && (c.view.Some? && c.view.value != [] ==> Total(c) > 0)
          && (c.locked || c.pending || c.active ==> Total(c) > 0)
          && (c.pruned || c.pulled ==> c.recoded != []))
  }

  ghost predicate Inv(kind: Kind, k: nat, c: Cell) {
    PiecesInv(kind, k, c) && FlagsInv(kind, c)
  }

  lemma EmptyInv(kind: Kind, k: nat)
    ensures Inv(kind, k, EmptyCell)
  {
  }

  lemma EmptySuffix(all: seq<Piece>)
    ensures IsSuffix([], all) && IsSuffix(all, all)
  {
  }

  lemma OfferPieces(kind: Kind, k: nat, c: Cell, piece: Piece, source: Option<string>, capped: bool)
    requires PiecesInv(kind, k, c)
    ensures PiecesInv(kind, k, Step(kind, k, c, Offer(piece, source, capped)))
  {
    hide StoreAnswer, Admissible;
    if Accepts(kind, k, c, piece, capped) {
      var view := c.view.value;
      AdmissibleAppend(view, piece, k);
      var view', raw' := view + [piece], c.raw + [piece];
      assert raw' == view'[|view'| - |raw'|..];
      SuffixAdmissible(view', |view'| - |raw'|, k);
    }
  }

  predicate Drops(e: Event) {
    e.Flush? || e.Prune? || e.PullPrune? || e.Diagnose? || e.Cleanup?
  }

  lemma DropPieces(kind: Kind, k: nat, c: Cell, e: Event)
    requires PiecesInv(kind, k, c) && Drops(e)
    ensures PiecesInv(kind, k, Step(kind, k, c, e))
  {
    hide Admissible, IsSuffix, Compressed;
    NoPieces(k);
    if c.view.Some? {
      EmptySuffix(c.view.value);
    }
  }

  lemma KeepPieces(kind: Kind, k: nat, c: Cell, e: Event)
    requires PiecesInv(kind, k, c) && !e.Offer? && !Drops(e)
    ensures PiecesInv(kind, k, Step(kind, k, c, e))
  {
    hide Admissible, IsSuffix, CanLock;
    EmptySuffix(c.raw);
  }

  lemma StepPieces(kind: Kind, k: nat, c: Cell, e: Event)
    requires PiecesInv(kind, k, c)
    ensures PiecesInv(kind, k, Step(kind, k, c, e))
  {
    hide PiecesInv, Step;
    if e.Offer? {
      OfferPieces(kind, k, c, e.piece, e.source, e.capped);
    } else if Drops(e) {
      DropPieces(kind, k, c, e);
    } else {
      KeepPieces(kind, k, c, e);
    }
  }

  lemma StepFlags(kind: Kind, k: nat, c: Cell, e: Event)
    requires k > 0 && FlagsInv(kind, c)
    ensures FlagsInv(kind, Step(kind, k, c, e))
  {
    hide Accepts;
  }

  /** Every section keeps the invariant, whatever ran before it. */
  lemma StepInv(kind: Kind, k: nat, c: Cell, e: Event)
    requires k > 0 && Inv(kind, k, c)
    ensures Inv(kind, k, Step(kind, k, c, e))
  {
    hide PiecesInv, FlagsInv, Step;
    StepPieces(kind, k, c, e);
    StepFlags(kind, k, c, e);
  }

  lemma NoPieces(k: nat)
    ensures Admissible([], k)
  {
  }

  /** The invariant holds after any events from a state in which it holds. */
  lemma {:induction false} RunKeepsInv(kind: Kind, k: nat, c: Cell, events: seq<Event>)
    requires k > 0 && Inv(kind, k, c)
    ensures Inv(kind, k, Run(kind, k, c, events))
  {
    hide Inv, Step;
    if events != [] {
      var n := |events| - 1;
      RunKeepsInv(kind, k, c, events[..n]);
      StepInv(kind, k, Run(kind, k, c, events[..n]), events[n]);
    }
  }

  /** The invariant holds in every reachable state and interleaving. */
  lemma RunInv(kind: Kind, k: nat, events: seq<Event>)
    requires k > 0
    ensures Inv(kind, k, Run(kind, k, EmptyCell, events))
  {
    hide Inv, Run;
    EmptyInv(kind, k);
    RunKeepsInv(kind, k, EmptyCell, events);
  }

  // What follows for every reachable state.

  /** A locked outsider cell holds a piece, and the completion check brings it to exactly one. */
  lemma LockedHoldsOne(k: nat, events: seq<Event>, recode: Recode)
    requires k > 0
    ensures var c := Run(Outsider, k, EmptyCell, events);
            c.locked ==> Total(c) >= 1 && Total(Step(Outsider, k, c, Diagnose(recode))) == 1
    ensures var c := Run(Outsider, k, EmptyCell, events);
            Reports(Outsider, k, c) <==> c.locked
  {
    RunInv(Outsider, k, events);
  }

  /** Pruning never empties a non-empty cell and leaves no raw and one recoded piece: the one that was there, or else
      what two or more raw pieces recode to, or else the first of them. */
  lemma PruneLeavesOne(c: Cell, recode: Recode)
    requires |c.recoded| <= 1 && Total(c) > 0
    ensures PruneRaw(c, recode).raw == [] && |PruneRaw(c, recode).recoded| == 1
    ensures |c.recoded| == 1 ==> PruneRaw(c, recode).recoded == c.recoded
    ensures |c.recoded| == 0 && recode.Recoded? && |c.raw| >= 2 ==> PruneRaw(c, recode).recoded == [recode.piece]
    ensures |c.recoded| == 0 && !(recode.Recoded? && |c.raw| >= 2) ==> PruneRaw(c, recode).recoded == [c.raw[0]]
  {
  }

  /** In every reachable state the raw pieces count as their rank exactly when the first is well-formed. */
  lemma RawRank(kind: Kind, k: nat, events: seq<Event>)
    requires k > 0
    ensures var raw := Run(kind, k, EmptyCell, events).raw;
            && Admissible(raw, k)
            && (Rank(Coeffs(raw), k) == |raw| <==> raw == [] || WellFormed(raw[0].coeffs, k))
            && (raw == [] || WellFormed(raw[0].coeffs, k) ==>
                  && Independent(Parsed(Coeffs(raw), k), k) && |raw| <= k
                  && (|raw| >= k <==> forall v: Row :: |v| == k ==> InSpan(v, Parsed(Coeffs(raw), k))))
  {
    hide Rank, Independent, Parsed, InSpan, Admissible;
    RunInv(kind, k, events);
    CountIsRank(Run(kind, k, EmptyCell, events).raw, k);
  }

  // Stability of completion.

  /** A piece accepted, on whatever path, into a backup cell that has published nothing: the one event that takes
      back a completed cell. */
  ghost predicate StrayStore(kind: Kind, k: nat, c: Cell, e: Event) {
    kind == Backup && c.broadcasts == 0 && e.Offer? && Accepts(kind, k, c, e.piece, e.capped)
  }

  /** Once the check reports a cell satisfied it does so after the next section too,
      unless and only unless that section is a stray store. */
  lemma ReportStable(kind: Kind, k: nat, c: Cell, e: Event)
    requires k > 0 && Inv(kind, k, c) && Reports(kind, k, c)
    ensures Reports(kind, k, Step(kind, k, c, e)) <==> !StrayStore(kind, k, c, e)
  {
    hide PiecesInv;
    match kind
    case Native => NativeStable(k, c, e);
    case Backup => BackupStable(k, c, e);
    case Outsider => OutsiderStable(k, c, e);
  }

  lemma NativeStable(k: nat, c: Cell, e: Event)
    requires Satisfied(Native, k, c)
    ensures Satisfied(Native, k, Step(Native, k, c, e))
  {
    hide Accepts;
  }

  lemma BackupStable(k: nat, c: Cell, e: Event)
    requires FlagsInv(Backup, c) && Satisfied(Backup, k, c)
    ensures Satisfied(Backup, k, Step(Backup, k, c, e)) <==> !StrayStore(Backup, k, c, e)
  {
    hide Accepts;
  }

  lemma LockedIsReported(k: nat, c: Cell)
    requires FlagsInv(Outsider, c) && c.locked
    ensures Reports(Outsider, k, c)
  {
  }

  lemma StepKeepsLock(k: nat, c: Cell, e: Event)
    requires c.locked
    ensures Step(Outsider, k, c, e).locked
  {
    hide Accepts, CanLock;
  }

  lemma OutsiderStable(k: nat, c: Cell, e: Event)
    requires k > 0 && FlagsInv(Outsider, c) && c.locked
    ensures Reports(Outsider, k, Step(Outsider, k, c, e))
  {
    hide Step, FlagsInv, Reports;
    StepFlags(Outsider, k, c, e);
    StepKeepsLock(k, c, e);
    LockedIsReported(k, Step(Outsider, k, c, e));
  }

  // Whole sections: what one pass of each path does to a cell when nothing comes in between.

  datatype Item = Item(piece: Piece, source: Option<string>)

  ghost function Offers(kind: Kind, k: nat, c: Cell, items: seq<Item>, capped: bool): Cell {
    if items == [] then c
    else
      var n := |items| - 1;
      Step(kind, k, Offers(kind, k, c, items[..n], capped), Offer(items[n].piece, items[n].source, capped))
  }

  /** Ingesting a verified batch: locked outsiders, pruned backups and full native cells are skipped. */
  ghost function Ingest(kind: Kind, k: nat, c: Cell, items: seq<Item>, fast: bool, peers: nat, touch: bool): Cell {
    if (kind == Outsider && c.locked) || (kind == Backup && c.pruned) || (kind == Native && |c.raw| >= k) then c
    else
      var c' := Offers(kind, k, Step(kind, k, c, Open), items, true);
      var grew := |c'.raw| > |c.raw|;
      Step(kind, k, c', if kind == Outsider && grew then Settle(fast, peers) else Close(touch && grew))
  }

  /** Storing what a batch fetch returned: backups that have published or were pruned are skipped too. */
  ghost function BatchFetch(kind: Kind, k: nat, c: Cell, items: seq<Item>): Cell {
    if (kind == Outsider && c.locked) || (kind == Backup && (c.pruned || c.broadcasts >= 1)) then c
    else Step(kind, k, Offers(kind, k, Step(kind, k, c, Open), items, true), Close(false))
  }

  /** Storing one piece of an active pull; no flag is consulted. */
  ghost function PullStore(kind: Kind, k: nat, c: Cell, piece: Piece): Cell {
    Step(kind, k, Step(kind, k, Step(kind, k, c, Open), Offer(piece, None, false)), Close(false))
  }

  lemma {:induction false} OffersKeep(kind: Kind, k: nat, c: Cell, items: seq<Item>, capped: bool)
    requires k > 0 && Inv(kind, k, c) && Reports(kind, k, c) && (kind == Backup ==> c.broadcasts >= 1)
    ensures var c' := Offers(kind, k, c, items, capped);
            Inv(kind, k, c') && Reports(kind, k, c') && c'.broadcasts == c.broadcasts
  {
    hide Inv, Reports, Accepts;
    if items != [] {
      var n := |items| - 1;
      OffersKeep(kind, k, c, items[..n], capped);
      var c', e := Offers(kind, k, c, items[..n], capped), Offer(items[n].piece, items[n].source, capped);
      StepInv(kind, k, c', e);
      ReportStable(kind, k, c', e);
    }
  }

  /** Taken as one section each, ingest and batch fetch never take back a reported cell;
      an active pull does exactly when it stores its piece in a backup cell that has published nothing. */
  lemma SectionsKeepReport(kind: Kind, k: nat, c: Cell, items: seq<Item>, fast: bool, peers: nat, touch: bool,
                           piece: Piece)
    requires k > 0 && Inv(kind, k, c) && c.view.None? && Reports(kind, k, c)
    ensures Reports(kind, k, Ingest(kind, k, c, items, fast, peers, touch))
    ensures Reports(kind, k, BatchFetch(kind, k, c, items))
    ensures Reports(kind, k, PullStore(kind, k, c, piece)) <==>
            !(kind == Backup && c.broadcasts == 0 && StoreAnswer(Coeffs(c.raw), piece.coeffs, k))
  {
    IngestKeepsReport(kind, k, c, items, fast, peers, touch);
    BatchKeepsReport(kind, k, c, items);
    PullKeepsReport(kind, k, c, piece);
  }

  lemma ClosingKeeps(kind: Kind, k: nat, c: Cell, e: Event)
    requires k > 0 && Inv(kind, k, c) && Reports(kind, k, c) && !e.Offer?
    ensures Inv(kind, k, Step(kind, k, c, e)) && Reports(kind, k, Step(kind, k, c, e))
  {
    hide Inv, Reports, Step, Accepts;
    StepInv(kind, k, c, e);
    ReportStable(kind, k, c, e);
  }

  lemma BackupReported(k: nat, c: Cell)
    requires Reports(Backup, k, c) && !c.pruned
    ensures c.broadcasts >= 1
  {
  }

  lemma OpenKeeps(kind: Kind, k: nat, c: Cell)
    ensures Step(kind, k, c, Open).broadcasts == c.broadcasts
  {
  }

  lemma IngestKeepsReport(kind: Kind, k: nat, c: Cell, items: seq<Item>, fast: bool, peers: nat, touch: bool)
    requires k > 0 && Inv(kind, k, c) && Reports(kind, k, c)
    ensures Reports(kind, k, Ingest(kind, k, c, items, fast, peers, touch))
  {
    hide Inv, Reports, Step, Offers;
    if !((kind == Outsider && c.locked) || (kind == Backup && c.pruned) || (kind == Native && |c.raw| >= k)) {
      ClosingKeeps(kind, k, c, Open);
      OpenKeeps(kind, k, c);
      if kind == Backup {
        BackupReported(k, c);
      }
      OffersKeep(kind, k, Step(kind, k, c, Open), items, true);
      var c' := Offers(kind, k, Step(kind, k, c, Open), items, true);
      var grew := |c'.raw| > |c.raw|;
      ClosingKeeps(kind, k, c', if kind == Outsider && grew then Settle(fast, peers) else Close(touch && grew));
    }
  }

  lemma BatchKeepsReport(kind: Kind, k: nat, c: Cell, items: seq<Item>)
    requires k > 0 && Inv(kind, k, c) && Reports(kind, k, c)
    ensures Reports(kind, k, BatchFetch(kind, k, c, items))
  {
    hide Inv, Reports, Step, Offers;
    if !((kind == Outsider && c.locked) || (kind == Backup && (c.pruned || c.broadcasts >= 1))) {
      ClosingKeeps(kind, k, c, Open);
      OpenKeeps(kind, k, c);
      if kind == Backup {
        BackupReported(k, c);
      }
      OffersKeep(kind, k, Step(kind, k, c, Open), items, true);
      ClosingKeeps(kind, k, Offers(kind, k, Step(kind, k, c, Open), items, true), Close(false));
    }
  }

  lemma PullKeepsReport(kind: Kind, k: nat, c: Cell, piece: Piece)
    requires k > 0 && Inv(kind, k, c) && c.view.None? && Reports(kind, k, c)
    ensures Reports(kind, k, PullStore(kind, k, c, piece)) <==>
            !(kind == Backup && c.broadcasts == 0 && StoreAnswer(Coeffs(c.raw), piece.coeffs, k))
  {
    hide Inv, Reports, StoreAnswer;
    var c1, e := Step(kind, k, c, Open), Offer(piece, None, false);
    var c2 := Step(kind, k, c1, e);
    ClosingKeeps(kind, k, c, Open);
    StepInv(kind, k, c1, e);
    ReportStable(kind, k, c1, e);
    ClosingIsInvisible(kind, k, c2);
  }

  lemma ClosingIsInvisible(kind: Kind, k: nat, c: Cell)
    ensures Reports(kind, k, Step(kind, k, c, Close(false))) <==> Reports(kind, k, c)
  {
  }

  // Two inputs on which the expected properties fail.

  const OneByte := Piece(0, 0, [], [7], [])
  const FirstUnit := Piece(0, 0, [], [1, 0], [])
  const SecondUnit := Piece(0, 0, [], [0, 1], [])

  lemma FirstPieceTaken(p: Piece, k: nat)
    requires HasNonzeroByte(p.coeffs)
    ensures StoreAnswer(Coeffs([]), p.coeffs, k)
  {
    assert Coeffs([]) == [];
  }

  lemma RunOneMore(kind: Kind, k: nat, c: Cell, events: seq<Event>, e: Event)
    ensures Run(kind, k, c, events + [e]) == Step(kind, k, Run(kind, k, c, events), e)
  {
    assert (events + [e])[..|events|] == events;
  }

  /** A first piece with a nonzero byte enters an empty cell whatever its length. */
  lemma FirstOffer(kind: Kind, k: nat, p: Piece)
    requires k > 0 && HasNonzeroByte(p.coeffs)
    ensures Run(kind, k, EmptyCell, [Open, Offer(p, None, true)]) == EmptyCell.(raw := [p], view := Some([p]))
  {
    hide StoreAnswer;
    var open: seq<Event> := [Open];
    RunOneMore(kind, k, EmptyCell, [], Open);
    assert [] + open == open;
    RunOneMore(kind, k, EmptyCell, open, Offer(p, None, true));
    assert open + [Offer(p, None, true)] == [Open, Offer(p, None, true)];
    FirstPieceTaken(p, k);
    assert [] + [p] == [p];
  }

  lemma SecondAnswer()
    ensures StoreAnswer(Coeffs([OneByte]), FirstUnit.coeffs, 2)
  {
    hide InSpan;
    assert Coeffs([OneByte]) == [[7]];
    assert [[7]][..0] == [];
    assert Parsed([[7]], 2) == [];
    assert FirstUnit.coeffs[0] != 0;
    NonzeroBytes(FirstUnit.coeffs, 2);
    SpanOfNothing(Parse(FirstUnit.coeffs, 2));
  }

  /** A malformed first piece is stored, and a native cell then counts k pieces that do not decode. */
  lemma MalformedFirstPiece()
    ensures var c := Run(Native, 2, EmptyCell, [Open, Offer(OneByte, None, true), Offer(FirstUnit, None, true)]);
            |c.raw| == 2 && Rank(Coeffs(c.raw), 2) == 1
  {
    hide InSpan, IsEchelon, Rank, StoreAnswer;
    var first, e := [Open, Offer(OneByte, None, true)], Offer(FirstUnit, None, true);
    assert OneByte.coeffs[0] != 0;
    FirstOffer(Native, 2, OneByte);
    RunOneMore(Native, 2, EmptyCell, first, e);
    assert first + [e] == [Open, Offer(OneByte, None, true), Offer(FirstUnit, None, true)];
    SecondAnswer();
    RunInv(Native, 2, first + [e]);
    AdmissibleRank(Run(Native, 2, EmptyCell, first + [e]).raw, 2);
  }

  /** A backup cell that was pruned before it published anything is reported, and an active pull then
      takes the report back. */
  lemma StrayStoreReachable()
    ensures var c := Run(Backup, 2, EmptyCell,
                         [Open, Offer(FirstUnit, None, true), Close(true), Prune(RecodeFailed)]);
            Reports(Backup, 2, c) && !Reports(Backup, 2, PullStore(Backup, 2, c, SecondUnit))
  {
    hide StoreAnswer;
    var first := [Open, Offer(FirstUnit, None, true)];
    assert FirstUnit.coeffs[0] != 0 && SecondUnit.coeffs[1] != 0;
    FirstOffer(Backup, 2, FirstUnit);
    RunOneMore(Backup, 2, EmptyCell, first, Close(true));
    RunOneMore(Backup, 2, EmptyCell, first + [Close(true)], Prune(RecodeFailed));
    assert first + [Close(true)] + [Prune(RecodeFailed)] ==
           [Open, Offer(FirstUnit, None, true), Close(true), Prune(RecodeFailed)];
    FirstPieceTaken(SecondUnit, 2);
  }

  lemma SpanOfFirstUnit(v: Row)
    requires |v| == 2 && InSpan(v, [[1, 0]])
    ensures v[1] == 0
  {
    SpanVanishes(v, [[1, 0]], 1);
  }

  lemma FirstUnitParsed()
    ensures Parsed(Coeffs([FirstUnit]), 2) == [[1, 0]]
  {
    hide InSpan;
    assert Coeffs([FirstUnit]) == [[1, 0]];
    assert [[1, 0]][..0] == [];
    assert Parse([1, 0], 2) == [1, 0];
  }

  lemma SecondIndependent()
    ensures StoreAnswer(Coeffs([FirstUnit]), SecondUnit.coeffs, 2)
  {
    hide InSpan, Parsed, Coeffs;
    assert |Coeffs([FirstUnit])| == 1;
    FirstUnitParsed();
    if InSpan(Parse(SecondUnit.coeffs, 2), [[1, 0]]) {
      SpanOfFirstUnit(Parse(SecondUnit.coeffs, 2));
      assert false;
    }
  }

  /** An ingest or a batch fetch that has looked at the pruned flag, and has the pieces in hand when the pruner
      comes, takes the report back as well. */
  lemma OvertakenIngest()
    ensures var c := Run(Backup, 2, EmptyCell,
                         [Open, Offer(FirstUnit, None, true), Close(true), Open, Prune(RecodeFailed)]);
            Reports(Backup, 2, c) && !Reports(Backup, 2, Step(Backup, 2, c, Offer(SecondUnit, None, true)))
  {
    hide StoreAnswer;
    var first := [Open, Offer(FirstUnit, None, true)];
    assert FirstUnit.coeffs[0] != 0;
    FirstOffer(Backup, 2, FirstUnit);
    RunOneMore(Backup, 2, EmptyCell, first, Close(true));
    RunOneMore(Backup, 2, EmptyCell, first + [Close(true)], Open);
    RunOneMore(Backup, 2, EmptyCell, first + [Close(true)] + [Open], Prune(RecodeFailed));
    assert first + [Close(true)] + [Open] + [Prune(RecodeFailed)] ==
           [Open, Offer(FirstUnit, None, true), Close(true), Open, Prune(RecodeFailed)];
    SecondIndependent();
  }

  // A whole block.

  /** The cells of one block on one node, under a fixed routing. */
  type Cells<!I> = map<I, Cell>

  ghost predicate AllInv<I>(kinds: map<I, Kind>, k: nat, cells: Cells<I>)
    requires cells.Keys == kinds.Keys
  {
    forall i :: i in cells ==> Inv(kinds[i], k, cells[i])
  }

  /** The completion check reports the block. */
  ghost predicate BlockReported<I>(kinds: map<I, Kind>, k: nat, cells: Cells<I>)
    requires cells.Keys == kinds.Keys
  {
    forall i :: i in cells ==> Reports(kinds[i], k, cells[i])
  }

  ghost function BlockStep<I>(kinds: map<I, Kind>, k: nat, cells: Cells<I>, i: I, e: Event): (out: Cells<I>)
    requires cells.Keys == kinds.Keys
    ensures out.Keys == kinds.Keys
  {
    if i in cells then cells[i := Step(kinds[i], k, cells[i], e)] else cells
  }

  ghost function BlockRun<I>(kinds: map<I, Kind>, k: nat, cells: Cells<I>, events: seq<(I, Event)>): (out: Cells<I>)
    requires cells.Keys == kinds.Keys
    ensures out.Keys == kinds.Keys
    decreases |events|
  {
    if events == [] then cells
    else BlockRun(kinds, k, BlockStep(kinds, k, cells, events[0].0, events[0].1), events[1..])
  }

  /** No event of the run is a stray store. */
  ghost predicate StrayFree<I>(kinds: map<I, Kind>, k: nat, cells: Cells<I>, events: seq<(I, Event)>)
    requires cells.Keys == kinds.Keys
    decreases |events|
  {
    events != [] ==>
      var (i, e) := events[0];
      && (i in cells ==> !StrayStore(kinds[i], k, cells[i], e))
      && StrayFree(kinds, k, BlockStep(kinds, k, cells, i, e), events[1..])
  }

  /** The block stays reported after every event of the run. */
  ghost predicate ReportedThroughout<I>(kinds: map<I, Kind>, k: nat, cells: Cells<I>, events: seq<(I, Event)>)
    requires cells.Keys == kinds.Keys
    decreases |events|
  {
    && BlockReported(kinds, k, cells)
    && (events != [] ==>
          ReportedThroughout(kinds, k, BlockStep(kinds, k, cells, events[0].0, events[0].1), events[1..]))
  }

  lemma BlockStepInv<I>(kinds: map<I, Kind>, k: nat, cells: Cells<I>, i: I, e: Event)
    requires k > 0 && cells.Keys == kinds.Keys && AllInv(kinds, k, cells)
    ensures AllInv(kinds, k, BlockStep(kinds, k, cells, i, e))
  {
    hide Inv, Step;
    if i in cells {
      StepInv(kinds[i], k, cells[i], e);
    }
  }

  lemma BlockStepStable<I>(kinds: map<I, Kind>, k: nat, cells: Cells<I>, i: I, e: Event)
    requires k > 0 && cells.Keys == kinds.Keys && AllInv(kinds, k, cells) && BlockReported(kinds, k, cells)
    ensures BlockReported(kinds, k, BlockStep(kinds, k, cells, i, e)) <==>
            (i in cells ==> !StrayStore(kinds[i], k, cells[i], e))
  {
    hide Inv, Reports, Step, StrayStore;
    if i in cells {
      ReportStable(kinds[i], k, cells[i], e);
      var after := BlockStep(kinds, k, cells, i, e);
      assert after[i] == Step(kinds[i], k, cells[i], e);
    }
  }

  /** The block before anything has arrived. */
  function EmptyBlock<I>(kinds: map<I, Kind>): (cells: Cells<I>)
    ensures cells.Keys == kinds.Keys
  {
    map i | i in kinds :: EmptyCell
  }

  lemma EmptyBlockInv<I>(kinds: map<I, Kind>, k: nat)
    ensures AllInv(kinds, k, EmptyBlock(kinds))
  {
    hide Inv;
    forall i | i in kinds ensures Inv(kinds[i], k, EmptyBlock(kinds)[i]) {
      EmptyInv(kinds[i], k);
    }
  }

  /** Every state that a block reaches keeps the invariant in each of its cells. */
  lemma {:induction false} BlockRunInv<I>(kinds: map<I, Kind>, k: nat, cells: Cells<I>, events: seq<(I, Event)>)
    requires k > 0 && cells.Keys == kinds.Keys && AllInv(kinds, k, cells)
    ensures AllInv(kinds, k, BlockRun(kinds, k, cells, events))
    decreases |events|
  {
    hide AllInv, BlockStep;
    if events != [] {
      var (i, e) := events[0];
      BlockStepInv(kinds, k, cells, i, e);
      BlockRunInv(kinds, k, BlockStep(kinds, k, cells, i, e), events[1..]);
    }
  }

  lemma {:induction false} StableFrom<I>(kinds: map<I, Kind>, k: nat, cells: Cells<I>, events: seq<(I, Event)>)
    requires k > 0 && cells.Keys == kinds.Keys && AllInv(kinds, k, cells) && BlockReported(kinds, k, cells)
    ensures ReportedThroughout(kinds, k, cells, events) <==> StrayFree(kinds, k, cells, events)
    decreases |events|
  {
    hide AllInv, BlockReported, BlockStep, StrayStore;
    if events != [] {
      var (i, e) := events[0];
      BlockStepInv(kinds, k, cells, i, e);
      BlockStepStable(kinds, k, cells, i, e);
      var after := BlockStep(kinds, k, cells, i, e);
      if BlockReported(kinds, k, after) {
        StableFrom(kinds, k, after, events[1..]);
      }
    }
  }

  /** Whatever has happened to a block: once it is reported, it stays reported throughout all that follows exactly
      when nothing that follows is a stray store. */
  lemma CompletionStable<I>(kinds: map<I, Kind>, k: nat, past: seq<(I, Event)>, events: seq<(I, Event)>)
    requires k > 0 && BlockReported(kinds, k, BlockRun(kinds, k, EmptyBlock(kinds), past))
    ensures var cells := BlockRun(kinds, k, EmptyBlock(kinds), past);
            ReportedThroughout(kinds, k, cells, events) <==> StrayFree(kinds, k, cells, events)
  {
    hide AllInv, BlockReported, EmptyBlock, StrayFree, ReportedThroughout;
    EmptyBlockInv(kinds, k);
    BlockRunInv(kinds, k, EmptyBlock(kinds), past);
    StableFrom(kinds, k, BlockRun(kinds, k, EmptyBlock(kinds), past), events);
  }

  /** The final sweep leaves every reported cell in its steady state: native cells with raw pieces only,
      all others with exactly one recoded piece and nothing raw. */
  lemma CleanupSteady(kind: Kind, k: nat, c: Cell, recode: Recode)
    requires k > 0 && Inv(kind, k, c) && Reports(kind, k, c)
    ensures var c' := Step(kind, k, c, Cleanup(recode));
            && Reports(kind, k, c')
            && (kind == Native ==> c'.recoded == [] && c'.raw == c.raw)
            && (kind != Native ==> c'.raw == [] && |c'.recoded| == 1 && c'.pruned)
  {
    hide PiecesInv;
    ReportStable(kind, k, c, Cleanup(recode));
  }
}
