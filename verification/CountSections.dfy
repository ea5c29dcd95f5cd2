/**
 The cached count of raw pieces, by which the completion check judges a cell. A look-up that finds no count reads the
 pieces in a second section and caches their number in a third, so the number may be out of date by then.
 */
module CountSections {
  import opened Basics
  import opened CellMachine
  import opened Independence
  import opened Echelon
  import opened LinearSpan
  import opened PruneSections

  /** A cell with its cached count.
      missed: look-ups that found none and have yet to read the pieces; writes: the numbers read and yet to be cached. */
  datatype Counted = Counted(cell: Cell, cached: Option<nat>, missed: nat, writes: seq<nat>)

  datatype Tick =
    | Act(event: Event)          // a section of the cell machine
    | Miss                       // a look-up finds no count
    | Read                       // one that missed reads the pieces; with none there it answers zero and caches nothing
    | Write(i: nat)              // one that read caches its number

  const Fresh := Counted(EmptyCell, None, 0, [])

  /** The number a look-up gives. */
  function Seen(s: Counted): nat {
    if s.cached.Some? then s.cached.value else |s.cell.raw|
  }

  function SeenTotal(s: Counted): nat {
    Seen(s) + |s.cell.recoded|
  }

  /** Every section that stores or drops raw pieces caches their new number. */
  ghost function SectionStep(kind: Kind, k: nat, s: Counted, e: Event): Counted {
    if Prunes(e) then
      var f := EffectOf(kind, s.cell, SeenTotal(s), e);
      s.(cell := Apply(s.cell, f), cached := if f.Take? then Some(0) else s.cached)
    else
      var c := Step(kind, k, s.cell, e);
      s.(cell := c, cached := if Stores(kind, k, s.cell, e) then Some(|c.raw|) else s.cached)
  }

  ghost predicate Stores(kind: Kind, k: nat, c: Cell, e: Event) {
    (e.Offer? && Accepts(kind, k, c, e.piece, e.capped)) || (e.Flush? && kind == Outsider)
  }

  ghost function TickStep(kind: Kind, k: nat, s: Counted, t: Tick): Counted {
    match t
    case Act(e) => SectionStep(kind, k, s, e)
    case Miss => if s.cached.None? then s.(missed := s.missed + 1) else s
    case Read =>
      if s.missed == 0 then s
      else s.(missed := s.missed - 1, writes := if s.cell.raw == [] then s.writes else s.writes + [|s.cell.raw|])
    case Write(i) =>
      if i >= |s.writes| then s
      else s.(cached := Some(s.writes[i]), writes := s.writes[..i] + s.writes[i + 1..])
  }

  ghost function RunTicks(kind: Kind, k: nat, ticks: seq<Tick>): Counted {
    if ticks == [] then Fresh
    else TickStep(kind, k, RunTicks(kind, k, ticks[..|ticks| - 1]), ticks[|ticks| - 1])
  }

  // The invariant.

  predicate NumbersInv(kind: Kind, s: Counted) {
    && (s.cached.None? ==> s.cell.raw == [] && s.writes == [])
    && (forall i :: 0 <= i < |s.writes| ==> s.writes[i] >= 1)
    && (kind == Native ==> Seen(s) <= |s.cell.raw| && forall i :: 0 <= i < |s.writes| ==> s.writes[i] <= |s.cell.raw|)
    && (kind != Native ==> Seen(s) > 0 || s.writes != [] ==> Total(s.cell) > 0)
  }

  ghost predicate CountInv(kind: Kind, k: nat, s: Counted) {
    Inv(kind, k, s.cell) && NumbersInv(kind, s)
  }

  lemma FreshInv(kind: Kind, k: nat)
    ensures CountInv(kind, k, Fresh)
  {
  }

  lemma TakePieces(kind: Kind, k: nat, c: Cell, f: Effect)
    requires PiecesInv(kind, k, c) && (f.Take? ==> kind != Native)
    ensures PiecesInv(kind, k, Apply(c, f))
  {
    hide Admissible, IsSuffix, Compressed;
    NoPieces(k);
    if c.view.Some? {
      EmptySuffix(c.view.value);
    }
  }

  lemma TakeFlags(kind: Kind, c: Cell, total: nat, e: Event)
    requires Prunes(e) && FlagsInv(kind, c) && (kind != Native ==> total > 0 ==> Total(c) > 0)
    ensures FlagsInv(kind, Apply(c, EffectOf(kind, c, total, e)))
  {
    hide Compressed;
  }

  lemma SectionKeepsInv(kind: Kind, k: nat, s: Counted, e: Event)
    requires k > 0 && CountInv(kind, k, s)
    ensures Inv(kind, k, SectionStep(kind, k, s, e).cell)
  {
    hide PiecesInv, FlagsInv, EffectOf, Apply, Step;
    if Prunes(e) {
      EffectKinds(kind, s.cell, SeenTotal(s), e);
      TakePieces(kind, k, s.cell, EffectOf(kind, s.cell, SeenTotal(s), e));
      TakeFlags(kind, s.cell, SeenTotal(s), e);
    } else {
      StepInv(kind, k, s.cell, e);
    }
  }

  lemma PruneNumbers(kind: Kind, k: nat, s: Counted, e: Event)
    requires Prunes(e) && CountInv(kind, k, s)
    ensures NumbersInv(kind, SectionStep(kind, k, s, e))
  {
    hide PiecesInv, Compressed;
  }

  /** What a section that does not prune does to the pieces. */
  lemma PiecesOf(kind: Kind, k: nat, c: Cell, e: Event)
    requires !Prunes(e)
    ensures var c' := Step(kind, k, c, e);
            && (Stores(kind, k, c, e) && e.Offer? ==> |c'.raw| == |c.raw| + 1 && c'.recoded == c.recoded)
            && (Stores(kind, k, c, e) && e.Flush? ==> c'.raw == [] && |c'.recoded| == 1)
            && (!Stores(kind, k, c, e) ==>
                  c'.raw == c.raw && (c'.recoded == c.recoded || (e.Retain? && |c'.recoded| == 1)))
  {
    hide Accepts, CanLock;
  }

  lemma StoreNumbers(kind: Kind, k: nat, s: Counted, e: Event)
    requires !Prunes(e) && NumbersInv(kind, s)
    ensures NumbersInv(kind, SectionStep(kind, k, s, e))
  {
    hide Step, Stores, Prunes;
    PiecesOf(kind, k, s.cell, e);
    NativeNeverFlushed(kind, k, s.cell, e);
  }

  lemma NativeNeverFlushed(kind: Kind, k: nat, c: Cell, e: Event)
    ensures Stores(kind, k, c, e) ==> e.Offer? || (e.Flush? && kind == Outsider)
  {
  }

  lemma TickInv(kind: Kind, k: nat, s: Counted, t: Tick)
    requires k > 0 && CountInv(kind, k, s)
    ensures CountInv(kind, k, TickStep(kind, k, s, t))
  {
    hide Inv, SectionStep;
    if t.Act? {
      SectionKeepsInv(kind, k, s, t.event);
      if Prunes(t.event) {
        PruneNumbers(kind, k, s, t.event);
      } else {
        StoreNumbers(kind, k, s, t.event);
      }
    } else {
      LookUpNumbers(kind, k, s, t);
    }
  }

  lemma LookUpNumbers(kind: Kind, k: nat, s: Counted, t: Tick)
    requires !t.Act? && NumbersInv(kind, s)
    ensures NumbersInv(kind, TickStep(kind, k, s, t))
  {
  }

  lemma {:induction false} RunTicksInv(kind: Kind, k: nat, ticks: seq<Tick>)
    requires k > 0
    ensures CountInv(kind, k, RunTicks(kind, k, ticks))
  {
    hide CountInv, TickStep;
    if ticks == [] {
      FreshInv(kind, k);
    } else {
      var n := |ticks| - 1;
      RunTicksInv(kind, k, ticks[..n]);
      TickInv(kind, k, RunTicks(kind, k, ticks[..n]), ticks[n]);
    }
  }

  // When the cached count is right.

  predicate Right(s: Counted) {
    s.cached.Some? ==> s.cached.value == |s.cell.raw|
  }

  /** A late look-up caches a number that is no longer that of the pieces. */
  predicate StaleWrite(s: Counted, t: Tick) {
    t.Write? && t.i < |s.writes| && s.writes[t.i] != |s.cell.raw|
  }

  /** A section that changes the number of pieces caches it. */
  lemma SectionCounts(kind: Kind, k: nat, s: Counted, e: Event)
    ensures var s' := SectionStep(kind, k, s, e);
            && s'.missed == s.missed && s'.writes == s.writes
            && (Right(s) ==> Right(s'))
            && (s'.cached != s.cached ==> s'.cached == Some(|s'.cell.raw|))
            && (|s'.cell.raw| != |s.cell.raw| ==> s'.cached == Some(|s'.cell.raw|))
  {
    hide Step, Stores, Prunes, PruneRaw;
    if Prunes(e) {
      PruneCounts(kind, s, e);
    } else {
      PiecesOf(kind, k, s.cell, e);
      NativeNeverFlushed(kind, k, s.cell, e);
    }
  }

  lemma PruneCounts(kind: Kind, s: Counted, e: Event)
    requires Prunes(e)
    ensures var f := EffectOf(kind, s.cell, SeenTotal(s), e);
            Apply(s.cell, f).raw == if f.Take? then [] else s.cell.raw
  {
    hide Compressed;
  }

  /** Once the count is right, the next event leaves it so exactly when it is no stale write. */
  lemma TickRight(kind: Kind, k: nat, s: Counted, t: Tick)
    requires Right(s)
    ensures Right(TickStep(kind, k, s, t)) <==> !StaleWrite(s, t)
  {
    hide SectionStep;
    if t.Act? {
      SectionCounts(kind, k, s, t.event);
    }
  }

  /** A number read is stale only after a section that came between the reading and the writing has cached another:
      what is read is right, and stays right while the number of pieces is not cached anew. */
  lemma ReadIsRight(kind: Kind, k: nat, s: Counted, t: Tick, i: nat)
    requires i < |TickStep(kind, k, s, t).writes|
    ensures t.Read? && i == |s.writes| ==> TickStep(kind, k, s, t).writes[i] == |s.cell.raw|
    ensures t.Act? && i < |s.writes| ==>
              && TickStep(kind, k, s, t).writes[i] == s.writes[i]
              && (s.writes[i] == |s.cell.raw| ==>
                    || s.writes[i] == |TickStep(kind, k, s, t).cell.raw|
                    || TickStep(kind, k, s, t).cached == Some(|TickStep(kind, k, s, t).cell.raw|))
  {
    hide SectionStep;
    if t.Act? {
      SectionCounts(kind, k, s, t.event);
    }
  }

  /** Once a count is cached no look-up misses any more, so the writes to come only grow fewer. */
  lemma FewerToCome(kind: Kind, k: nat, s: Counted, t: Tick)
    requires s.cached.Some?
    ensures var s' := TickStep(kind, k, s, t);
            s'.cached.Some? && s'.missed + |s'.writes| <= s.missed + |s.writes|
  {
    hide SectionStep;
    if t.Act? {
      SectionCounts(kind, k, s, t.event);
      StaysCached(kind, k, s, t.event);
    }
  }

  lemma StaysCached(kind: Kind, k: nat, s: Counted, e: Event)
    ensures s.cached.Some? ==> SectionStep(kind, k, s, e).cached.Some?
  {
    hide Step, EffectOf, Apply;
  }

  ghost predicate RightAlways(kind: Kind, k: nat, ticks: seq<Tick>) {
    forall n :: 0 <= n <= |ticks| ==> Right(RunTicks(kind, k, ticks[..n]))
  }

  /** Over a whole run the count is right at all times exactly when there is no stale write. */
  lemma {:induction false} CountRight(kind: Kind, k: nat, ticks: seq<Tick>)
    ensures RightAlways(kind, k, ticks) <==>
            forall n :: 0 <= n < |ticks| ==> !StaleWrite(RunTicks(kind, k, ticks[..n]), ticks[n])
  {
    hide TickStep, StaleWrite, Right, RunTicks;
    if ticks == [] {
      assert ticks[..0] == [];
      FreshRight(kind, k);
    } else {
      var n := |ticks| - 1;
      var front := ticks[..n];
      CountRight(kind, k, front);
      OneMoreTick(kind, k, front, ticks[n]);
      assert front + [ticks[n]] == ticks;
      assert forall m :: 0 <= m <= n ==> front[..m] == ticks[..m];
      assert ticks[..n + 1] == ticks && front[..n] == front;
      if Right(RunTicks(kind, k, front)) {
        TickRight(kind, k, RunTicks(kind, k, front), ticks[n]);
      }
      assert RightAlways(kind, k, ticks) <==> RightAlways(kind, k, front) && Right(RunTicks(kind, k, ticks));
    }
  }

  lemma OneMoreTick(kind: Kind, k: nat, ticks: seq<Tick>, t: Tick)
    ensures RunTicks(kind, k, ticks + [t]) == TickStep(kind, k, RunTicks(kind, k, ticks), t)
  {
    hide TickStep;
    assert (ticks + [t])[..|ticks|] == ticks;
  }

  lemma FreshRight(kind: Kind, k: nat)
    ensures Right(RunTicks(kind, k, []))
  {
  }

  // What the completion check reports.

  /** The report on a cell by the count it sees. A locked outsider with more than one piece in its eyes is pruned
      first, and then judged by what is left. */
  predicate SeenReports(kind: Kind, k: nat, s: Counted) {
    match kind
    case Native => Seen(s) >= k && s.cell.broadcasts >= 1
    case Backup => SeenTotal(s) > 0 && (s.cell.broadcasts >= 1 || (s.cell.pruned && SeenTotal(s) == 1))
    case Outsider =>
      && s.cell.locked
      && (if SeenTotal(s) > 1 then |PruneRaw(s.cell, RecodeFailed).recoded| == 1 else SeenTotal(s) == 1)
  }

  /** With a right count it is the report on the cell itself. */
  lemma RightReports(kind: Kind, k: nat, s: Counted)
    requires Right(s) && |s.cell.recoded| <= 1
    ensures SeenReports(kind, k, s) <==> Reports(kind, k, s.cell)
  {
    hide Compressed;
  }

  /** The writes that take back a report: of a number below k on a native cell, and any at all on a backup cell that
      has published nothing. */
  predicate LosingWrite(kind: Kind, k: nat, s: Counted, t: Tick) {
    && t.Write? && t.i < |s.writes|
    && ((kind == Native && s.writes[t.i] < k) || (kind == Backup && s.cell.broadcasts == 0))
  }

  ghost predicate Loses(kind: Kind, k: nat, s: Counted, t: Tick) {
    (t.Act? && StrayStore(kind, k, s.cell, t.event)) || LosingWrite(kind, k, s, t)
  }

  lemma WriteStable(kind: Kind, k: nat, s: Counted, t: Tick)
    requires !t.Act? && CountInv(kind, k, s) && SeenReports(kind, k, s)
    ensures SeenReports(kind, k, TickStep(kind, k, s, t)) <==> !LosingWrite(kind, k, s, t)
  {
    hide PiecesInv, Compressed;
  }

  lemma PruneStable(kind: Kind, k: nat, s: Counted, e: Event)
    requires Prunes(e) && CountInv(kind, k, s) && SeenReports(kind, k, s)
    ensures SeenReports(kind, k, SectionStep(kind, k, s, e))
  {
    hide PiecesInv, Compressed;
  }

  /** What a section that does not prune does to the flags. */
  lemma FlagsOf(kind: Kind, k: nat, c: Cell, e: Event)
    requires !Prunes(e)
    ensures var c' := Step(kind, k, c, e);
            && c'.broadcasts >= c.broadcasts && (e.Offer? ==> c'.broadcasts == c.broadcasts)
            && (c.pruned ==> c'.pruned) && (e.Offer? ==> c'.pruned == c.pruned) && (c.locked ==> c'.locked)
  {
    hide Accepts, CanLock;
  }

  lemma SectionStable(kind: Kind, k: nat, s: Counted, e: Event)
    requires !Prunes(e) && CountInv(kind, k, s) && SeenReports(kind, k, s)
    ensures SeenReports(kind, k, SectionStep(kind, k, s, e)) <==> !StrayStore(kind, k, s.cell, e)
  {
    hide PiecesInv, Compressed, Step, Accepts, Prunes;
    PiecesOf(kind, k, s.cell, e);
    FlagsOf(kind, k, s.cell, e);
  }

  /** Whatever the cached count: a reported cell is reported after the next event too, unless and only unless that is
      a stray store or a losing write. */
  lemma TickStable(kind: Kind, k: nat, s: Counted, t: Tick)
    requires CountInv(kind, k, s) && SeenReports(kind, k, s)
    ensures SeenReports(kind, k, TickStep(kind, k, s, t)) <==> !Loses(kind, k, s, t)
  {
    hide CountInv, SeenReports, SectionStep;
    if !t.Act? {
      WriteStable(kind, k, s, t);
    } else if Prunes(t.event) {
      PruneStable(kind, k, s, t.event);
    } else {
      SectionStable(kind, k, s, t.event);
    }
  }

  // A whole block.

  ghost function CountedAfter<I>(kinds: map<I, Kind>, k: nat, ticks: seq<(I, Tick)>, i: I): Counted
    requires i in kinds
  {
    RunTicks(kinds[i], k, Projected(ticks, i))
  }

  ghost predicate BlockSeen<I>(kinds: map<I, Kind>, k: nat, ticks: seq<(I, Tick)>) {
    forall i :: i in kinds ==> SeenReports(kinds[i], k, CountedAfter(kinds, k, ticks, i))
  }

  /** The event takes back the report on its cell. */
  ghost predicate BlockLoses<I>(kinds: map<I, Kind>, k: nat, ticks: seq<(I, Tick)>, i: I, t: Tick) {
    i in kinds && Loses(kinds[i], k, CountedAfter(kinds, k, ticks, i), t)
  }

  lemma OneMoreProjected<I>(ticks: seq<(I, Tick)>, i: I, t: Tick, j: I)
    ensures Projected(ticks + [(i, t)], j) == if i == j then Projected(ticks, j) + [t] else Projected(ticks, j)
  {
    ProjectedConcat(ticks, [(i, t)], j);
    assert [(i, t)][..0] == [];
  }

  lemma BlockTickStable<I>(kinds: map<I, Kind>, k: nat, ticks: seq<(I, Tick)>, i: I, t: Tick)
    requires k > 0 && BlockSeen(kinds, k, ticks)
    ensures BlockSeen(kinds, k, ticks + [(i, t)]) <==> !BlockLoses(kinds, k, ticks, i, t)
  {
    hide RunTicks, TickStep, SeenReports, Loses, Projected;
    forall j | j in kinds && j != i
      ensures CountedAfter(kinds, k, ticks + [(i, t)], j) == CountedAfter(kinds, k, ticks, j)
    {
      OneMoreProjected(ticks, i, t, j);
    }
    if i in kinds {
      OneMoreProjected(ticks, i, t, i);
      OneMoreTick(kinds[i], k, Projected(ticks, i), t);
      RunTicksInv(kinds[i], k, Projected(ticks, i));
      TickStable(kinds[i], k, CountedAfter(kinds, k, ticks, i), t);
    }
  }

  ghost predicate SeenThroughout<I>(kinds: map<I, Kind>, k: nat, past: seq<(I, Tick)>, ticks: seq<(I, Tick)>) {
    forall n :: 0 <= n <= |ticks| ==> BlockSeen(kinds, k, past + ticks[..n])
  }

  ghost predicate NothingLost<I>(kinds: map<I, Kind>, k: nat, past: seq<(I, Tick)>, ticks: seq<(I, Tick)>) {
    forall n :: 0 <= n < |ticks| ==> !BlockLoses(kinds, k, past + ticks[..n], ticks[n].0, ticks[n].1)
  }

  /** With the look-ups of the count taken apart: a reported block stays reported throughout exactly when nothing that
      follows is a stray store or a losing write. */
  lemma {:induction false} CountedCompletionStable<I>(kinds: map<I, Kind>, k: nat, past: seq<(I, Tick)>,
                                                      ticks: seq<(I, Tick)>)
    requires k > 0 && BlockSeen(kinds, k, past)
    ensures SeenThroughout(kinds, k, past, ticks) <==> NothingLost(kinds, k, past, ticks)
    decreases |ticks|
  {
    hide BlockSeen, BlockLoses;
    if ticks == [] {
      assert past + ticks[..0] == past;
    } else {
      var n := |ticks| - 1;
      var front := ticks[..n];
      CountedCompletionStable(kinds, k, past, front);
      assert forall m :: 0 <= m <= n ==> front[..m] == ticks[..m];
      assert front[..n] == front;
      var (i, t) := ticks[n];
      assert past + ticks[..n + 1] == past + front + [(i, t)];
      if BlockSeen(kinds, k, past + front) {
        BlockTickStable(kinds, k, past + front, i, t);
      }
      SplitSeen(kinds, k, past, ticks);
      SplitLost(kinds, k, past, ticks);
    }
  }

  lemma SplitSeen<I>(kinds: map<I, Kind>, k: nat, past: seq<(I, Tick)>, ticks: seq<(I, Tick)>)
    requires ticks != []
    ensures var n := |ticks| - 1;
            SeenThroughout(kinds, k, past, ticks) <==>
            SeenThroughout(kinds, k, past, ticks[..n]) && BlockSeen(kinds, k, past + ticks)
  {
    hide BlockSeen;
    var n := |ticks| - 1;
    assert forall m :: 0 <= m <= n ==> ticks[..n][..m] == ticks[..m];
    assert ticks[..n + 1] == ticks;
  }

  lemma SplitLost<I>(kinds: map<I, Kind>, k: nat, past: seq<(I, Tick)>, ticks: seq<(I, Tick)>)
    requires ticks != []
    ensures var n := |ticks| - 1;
            NothingLost(kinds, k, past, ticks) <==>
            NothingLost(kinds, k, past, ticks[..n])
            && !BlockLoses(kinds, k, past + ticks[..n], ticks[n].0, ticks[n].1)
  {
    hide BlockLoses;
    var n := |ticks| - 1;
    assert forall m :: 0 <= m <= n ==> ticks[..n][..m] == ticks[..m];
  }

  // A native cell whose count has been overtaken.

  lemma FullRefuses(k: nat, c: Cell, piece: Piece, capped: bool)
    requires k > 0 && PiecesInv(Native, k, c) && |c.raw| >= k && WellFormed(c.raw[0].coeffs, k)
    ensures !Accepts(Native, k, c, piece, capped)
  {
    hide InSpan, Independent, Rank, Parsed, Admissible;
    if c.view.Some? {
      assert c.view.value == c.raw;
      CountIsRank(c.raw, k);
      if WellFormed(piece.coeffs, k) {
        assert InSpan(Parse(piece.coeffs, k), Parsed(Coeffs(c.raw), k));
      }
    }
  }

  /** The cell decodes, but the count says that it does not, and no look-up is on its way. */
  ghost predicate Stuck(k: nat, s: Counted) {
    && s.cell.raw != [] && |s.cell.raw| >= k && WellFormed(s.cell.raw[0].coeffs, k)
    && s.cached.Some? && s.cached.value < k && s.missed == 0 && s.writes == []
  }

  lemma TickStuck(k: nat, s: Counted, t: Tick)
    requires k > 0 && CountInv(Native, k, s) && Stuck(k, s)
    ensures Stuck(k, TickStep(Native, k, s, t)) && !SeenReports(Native, k, TickStep(Native, k, s, t))
  {
    hide Inv, WellFormed, PiecesInv, FlagsInv, Step, EffectOf, Apply, StoreAnswer;
    if t.Act? {
      var e := t.event;
      if Prunes(e) {
        EffectKinds(Native, s.cell, SeenTotal(s), e);
        PruneCounts(Native, s, e);
      } else {
        if e.Offer? {
          PiecesFrom(Native, k, s);
          FullRefuses(k, s.cell, e.piece, e.capped);
        }
        PiecesOf(Native, k, s.cell, e);
      }
    }
  }

  lemma PiecesFrom(kind: Kind, k: nat, s: Counted)
    requires CountInv(kind, k, s)
    ensures PiecesInv(kind, k, s.cell)
  {
    hide PiecesInv, FlagsInv, NumbersInv;
  }

  /** Nothing corrects it: such a cell is not reported ever after. */
  lemma {:induction false} NeverCorrected(k: nat, past: seq<Tick>, ticks: seq<Tick>)
    requires k > 0 && Stuck(k, RunTicks(Native, k, past))
    ensures var s := RunTicks(Native, k, past + ticks); Stuck(k, s) && !SeenReports(Native, k, s)
    decreases |ticks|
  {
    hide Stuck, TickStep, SeenReports, RunTicks, CountInv;
    if ticks == [] {
      assert past + ticks == past;
      StuckUnseen(k, RunTicks(Native, k, past));
    } else {
      var n := |ticks| - 1;
      NeverCorrected(k, past, ticks[..n]);
      RunTicksInv(Native, k, past + ticks[..n]);
      OneMoreTick(Native, k, past + ticks[..n], ticks[n]);
      assert past + ticks == past + ticks[..n] + [ticks[n]];
      TickStuck(k, RunTicks(Native, k, past + ticks[..n]), ticks[n]);
    }
  }

  lemma StuckUnseen(k: nat, s: Counted)
    requires Stuck(k, s)
    ensures !SeenReports(Native, k, s)
  {
  }

  const TwoPieces := EmptyCell.(raw := [FirstUnit, SecondUnit], view := Some([FirstUnit, SecondUnit]), broadcasts := 1)

  lemma StoredBetween()
    ensures var begun := TickStep(Native, 2, TickStep(Native, 2, Fresh, Miss), Act(Open));
            var one := TickStep(Native, 2, begun, Act(Offer(FirstUnit, None, true)));
            var two := TickStep(Native, 2, TickStep(Native, 2, one, Read), Act(Offer(SecondUnit, None, true)));
            TickStep(Native, 2, two, Act(Broadcast(1))) == Counted(TwoPieces, Some(2), 0, [1])
  {
    hide StoreAnswer;
    assert FirstUnit.coeffs[0] != 0;
    FirstPieceTaken(FirstUnit, 2);
    SecondIndependent();
    assert [] + [FirstUnit] == [FirstUnit] && [FirstUnit] + [SecondUnit] == [FirstUnit, SecondUnit];
  }

  lemma Overtaken()
    ensures SeenReports(Native, 2, Counted(TwoPieces, Some(2), 0, [1]))
    ensures var s := TickStep(Native, 2, Counted(TwoPieces, Some(2), 0, [1]), Write(0));
            s == Counted(TwoPieces, Some(1), 0, []) && Stuck(2, s) && Reports(Native, 2, s.cell)
  {
  }

  /** A look-up that read one piece and caches its number after the second is stored takes the report back for good. */
  lemma StaleCountReachable()
    ensures var ticks := [Miss, Act(Open), Act(Offer(FirstUnit, None, true)), Read, Act(Offer(SecondUnit, None, true)),
                          Act(Broadcast(1))];
            var before, after := RunTicks(Native, 2, ticks), RunTicks(Native, 2, ticks + [Write(0)]);
            && SeenReports(Native, 2, before)
            && Reports(Native, 2, after.cell) && !SeenReports(Native, 2, after) && Stuck(2, after)
  {
    hide TickStep, SeenReports, Stuck, Reports;
    var ts: seq<Tick> := [];
    var a, b, c, d := Miss, Act(Open), Act(Offer(FirstUnit, None, true)), Read;
    var e, f := Act(Offer(SecondUnit, None, true)), Act(Broadcast(1));
    OneMoreTick(Native, 2, ts, a);
    OneMoreTick(Native, 2, ts + [a], b);
    OneMoreTick(Native, 2, ts + [a] + [b], c);
    OneMoreTick(Native, 2, ts + [a] + [b] + [c], d);
    OneMoreTick(Native, 2, ts + [a] + [b] + [c] + [d], e);
    OneMoreTick(Native, 2, ts + [a] + [b] + [c] + [d] + [e], f);
    assert ts + [a] + [b] + [c] + [d] + [e] + [f] == [a, b, c, d, e, f];
    OneMoreTick(Native, 2, [a, b, c, d, e, f], Write(0));
    StoredBetween();
    Overtaken();
    StuckUnseen(2, TickStep(Native, 2, Counted(TwoPieces, Some(2), 0, [1]), Write(0)));
  }
}
