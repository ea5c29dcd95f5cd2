/**
 PruneRawPieces lets go of the store's mutex between dropping the raw pieces and keeping one recoded piece.
 Here its two sections are separate steps of the cell machine: any number of prunes may be between theirs at once,
 and every other section, the completion check among them, may come in between. That is more than can happen: two
 completion checks exclude each other, and prunes of a cell that hold its lock do so too.
 */
module PruneSections {
  import opened Basics
  import opened CellMachine
  import opened Independence

  /** A cell, and what the prunes under way are about to put back. */
  datatype Halfway = Halfway(cell: Cell, inHand: seq<Piece>)

  datatype Part =
    | Section(event: Event)       // any section; of a pruning one, its first half
    | Give(i: nat)                // the second half of one of the prunes under way

  predicate Prunes(e: Event) {
    e.Prune? || e.PullPrune? || e.Diagnose? || e.Cleanup?
  }

  /** A piece that a prune has made of raw ones, and not one that was kept before, is in hand after the first half. */
  ghost function PartStep(kind: Kind, k: nat, h: Halfway, p: Part): Halfway {
    match p
    case Section(e) =>
      var c := Step(kind, k, h.cell, e);
      if Prunes(e) && h.cell.recoded == [] && c.recoded != [] then
        Halfway(c.(recoded := []), h.inHand + c.recoded)
      else h.(cell := c)
    case Give(i) =>
      if i >= |h.inHand| then h
      else
        Halfway(if h.cell.recoded == [] then h.cell.(recoded := [h.inHand[i]]) else h.cell,
                h.inHand[..i] + h.inHand[i + 1..])
  }

  ghost function RunParts(kind: Kind, k: nat, parts: seq<Part>): Halfway {
    if parts == [] then Halfway(EmptyCell, [])
    else PartStep(kind, k, RunParts(kind, k, parts[..|parts| - 1]), parts[|parts| - 1])
  }

  // The run that takes every prune whole.

  /** A check or sweep that finds too few pieces, one being in hand, passes the cell by. */
  predicate PassesBy(kind: Kind, c: Cell, e: Event) {
    (e.Diagnose? && Total(c) <= 1) || (e.Cleanup? && kind != Native && Total(c) == 0)
  }

  ghost function WholeEvents(kind: Kind, k: nat, parts: seq<Part>): seq<Event> {
    if parts == [] then []
    else
      var n := |parts| - 1;
      WholeEvents(kind, k, parts[..n])
      + if parts[n].Section? && !PassesBy(kind, RunParts(kind, k, parts[..n]).cell, parts[n].event)
        then [parts[n].event] else []
  }

  /** The cells are the same but for the recoded piece: one is kept, or in hand, exactly when one is kept there. */
  predicate Agree(kind: Kind, h: Halfway, c: Cell) {
    && h.cell.(recoded := []) == c.(recoded := []) && |h.cell.recoded| <= 1
    && |c.recoded| == (if h.cell.recoded == [] && h.inHand == [] then 0 else 1)
    && (kind == Native ==> h.inHand == [])
  }

  lemma GiveAgrees(kind: Kind, k: nat, h: Halfway, c: Cell, i: nat)
    requires Agree(kind, h, c)
    ensures Agree(kind, PartStep(kind, k, h, Give(i)), c)
  {
  }

  /** The first half of PruneRaw. */
  function TakeRaw(h: Halfway, recode: Recode): Halfway {
    var c := PruneRaw(h.cell, recode);
    if h.cell.recoded == [] && c.recoded != [] then Halfway(c.(recoded := []), h.inHand + c.recoded) else h.(cell := c)
  }

  lemma TakeAgrees(kind: Kind, h: Halfway, c: Cell, recode: Recode)
    requires Agree(kind, h, c) && kind != Native
    ensures Agree(kind, TakeRaw(h, recode), PruneRaw(c, recode))
  {
    hide Compressed;
  }

  /** The flags that go with a prune. */
  function Marked(c: Cell, active: bool, pruned: bool, pulled: bool): Cell {
    c.(active := active, pruned := pruned, pulled := pulled)
  }

  lemma MarkAgrees(kind: Kind, h: Halfway, c: Cell, active: bool, pruned: bool, pulled: bool)
    requires Agree(kind, h, c)
    ensures Agree(kind, h.(cell := Marked(h.cell, active, pruned, pulled)), Marked(c, active, pruned, pulled))
  {
  }

  lemma SameFlags(kind: Kind, h: Halfway, c: Cell)
    requires Agree(kind, h, c)
    ensures h.cell.raw == c.raw && h.cell.view == c.view && h.cell.locked == c.locked && h.cell.pending == c.pending
    ensures h.cell.pruned == c.pruned && h.cell.active == c.active && h.cell.pulled == c.pulled
    ensures h.cell.broadcasts == c.broadcasts && h.cell.sources == c.sources
    ensures Total(c) == Total(h.cell) + if h.cell.recoded == [] && h.inHand != [] then 1 else 0
  {
    var d := h.cell.(recoded := []);
    assert d == c.(recoded := []);
  }

  /** What a pruning section does: prune and mark, only mark, or nothing. */
  datatype Effect = Nothing | OnlyMark(active: bool, pruned: bool, pulled: bool) | Forget
                  | Take(recode: Recode, active: bool, pruned: bool, pulled: bool)

  /** The effect on a cell of which the section believes that it holds so many pieces. */
  function EffectOf(kind: Kind, c: Cell, total: nat, e: Event): Effect
    requires Prunes(e)
  {
    match e
    case Prune(recode) =>
      if !c.active then Nothing
      else if kind == Native || c.pruned then OnlyMark(false, c.pruned, c.pulled)
      else Take(recode, false, true, c.pulled)
    case PullPrune(recode) =>
      if kind == Backup && c.pulled then Take(recode, c.active, true, false) else Nothing
    case Diagnose(recode) =>
      if kind == Outsider && c.locked && total > 1 then Take(recode, c.active, c.pruned, c.pulled) else Nothing
    case Cleanup(recode) =>
      if kind == Native then Forget
      else if total > 0 then Take(recode, c.active, true, c.pulled) else Nothing
  }

  function Apply(c: Cell, f: Effect): Cell {
    match f
    case Nothing => c
    case OnlyMark(active, pruned, pulled) => Marked(c, active, pruned, pulled)
    case Forget => c.(recoded := [])
    case Take(recode, active, pruned, pulled) => Marked(PruneRaw(c, recode), active, pruned, pulled)
  }

  lemma StepByEffect(kind: Kind, k: nat, c: Cell, e: Event)
    requires Prunes(e)
    ensures Step(kind, k, c, e) == Apply(c, EffectOf(kind, c, Total(c), e))
  {
    hide Compressed;
  }

  lemma SameEffect(kind: Kind, h: Halfway, c: Cell, e: Event)
    requires Agree(kind, h, c) && Prunes(e) && !PassesBy(kind, h.cell, e)
    ensures EffectOf(kind, h.cell, Total(h.cell), e) == EffectOf(kind, c, Total(c), e)
  {
    hide Agree, Total;
    SameFlags(kind, h, c);
  }

  function PartApply(h: Halfway, f: Effect): Halfway {
    if f.Take? then
      var t := TakeRaw(h, f.recode);
      t.(cell := Marked(t.cell, f.active, f.pruned, f.pulled))
    else h.(cell := Apply(h.cell, f))
  }

  lemma PartByEffect(kind: Kind, k: nat, h: Halfway, e: Event)
    requires Prunes(e)
    ensures PartStep(kind, k, h, Section(e)) == PartApply(h, EffectOf(kind, h.cell, Total(h.cell), e))
  {
    hide Step, EffectOf, PruneRaw;
    StepByEffect(kind, k, h.cell, e);
  }

  lemma ForgetAgrees(h: Halfway, c: Cell)
    requires Agree(Native, h, c)
    ensures Agree(Native, h.(cell := h.cell.(recoded := [])), c.(recoded := []))
  {
    assert h.cell.(recoded := []).(recoded := []) == h.cell.(recoded := []);
  }

  lemma EffectKinds(kind: Kind, c: Cell, total: nat, e: Event)
    requires Prunes(e)
    ensures EffectOf(kind, c, total, e).Take? ==> kind != Native
    ensures EffectOf(kind, c, total, e).Forget? ==> kind == Native
  {
  }

  lemma PruneAgrees(kind: Kind, k: nat, h: Halfway, c: Cell, e: Event)
    requires Agree(kind, h, c) && Prunes(e) && !PassesBy(kind, h.cell, e)
    ensures Agree(kind, PartStep(kind, k, h, Section(e)), Step(kind, k, c, e))
  {
    hide Step, EffectOf, PruneRaw, TakeRaw, Agree, Marked, PartStep, PassesBy, Prunes;
    SameEffect(kind, h, c, e);
    StepByEffect(kind, k, c, e);
    PartByEffect(kind, k, h, e);
    EffectKinds(kind, c, Total(c), e);
    var f := EffectOf(kind, c, Total(c), e);
    match f {
      case Nothing =>
      case OnlyMark(active, pruned, pulled) => MarkAgrees(kind, h, c, active, pruned, pulled);
      case Forget => ForgetAgrees(h, c);
      case Take(recode, active, pruned, pulled) =>
        TakeAgrees(kind, h, c, recode);
        MarkAgrees(kind, TakeRaw(h, recode), PruneRaw(c, recode), active, pruned, pulled);
    }
  }

  // The other sections look at neither the recoded piece nor what is in hand.

  lemma PassedBy(kind: Kind, k: nat, h: Halfway, e: Event)
    requires PassesBy(kind, h.cell, e)
    ensures PartStep(kind, k, h, Section(e)) == h
  {
  }

  lemma BlindOffer(kind: Kind, k: nat, c: Cell, e: Event, recoded: seq<Piece>)
    requires e.Offer?
    ensures Step(kind, k, c.(recoded := recoded), e) == Step(kind, k, c, e).(recoded := recoded)
  {
    hide StoreAnswer;
  }

  lemma BlindSettle(kind: Kind, k: nat, c: Cell, e: Event, recoded: seq<Piece>)
    requires e.Settle?
    ensures Step(kind, k, c.(recoded := recoded), e) == Step(kind, k, c, e).(recoded := recoded)
  {
    hide MinSources;
  }

  lemma BlindView(kind: Kind, k: nat, c: Cell, e: Event, recoded: seq<Piece>)
    requires e.Open? || e.Close?
    ensures Step(kind, k, c.(recoded := recoded), e) == Step(kind, k, c, e).(recoded := recoded)
  {
  }

  lemma BlindFlags(kind: Kind, k: nat, c: Cell, e: Event, recoded: seq<Piece>)
    requires e.Expire? || e.Broadcast?
    ensures Step(kind, k, c.(recoded := recoded), e) == Step(kind, k, c, e).(recoded := recoded)
  {
  }

  /** Sections that store no recoded piece do the same to a cell whatever its recoded piece. */
  lemma BlindToRecoded(kind: Kind, k: nat, c: Cell, e: Event, recoded: seq<Piece>)
    requires !Prunes(e) && !e.Flush? && !e.Retain?
    ensures Step(kind, k, c.(recoded := recoded), e) == Step(kind, k, c, e).(recoded := recoded)
  {
    hide Step;
    if e.Offer? {
      BlindOffer(kind, k, c, e, recoded);
    } else if e.Settle? {
      BlindSettle(kind, k, c, e, recoded);
    } else if e.Open? || e.Close? {
      BlindView(kind, k, c, e, recoded);
    } else {
      BlindFlags(kind, k, c, e, recoded);
    }
  }

  lemma OtherAgrees(kind: Kind, k: nat, h: Halfway, c: Cell, e: Event)
    requires Agree(kind, h, c) && !Prunes(e)
    ensures Agree(kind, PartStep(kind, k, h, Section(e)), Step(kind, k, c, e))
  {
    hide Step, Agree, PartStep;
    if e.Flush? {
      FlushAgrees(kind, k, h, c, e);
    } else if e.Retain? {
      RetainAgrees(kind, k, h, c, e);
    } else {
      BlindAgrees(kind, k, h, c, e);
    }
  }

  lemma FlushAgrees(kind: Kind, k: nat, h: Halfway, c: Cell, e: Event)
    requires Agree(kind, h, c) && e.Flush?
    ensures Agree(kind, PartStep(kind, k, h, Section(e)), Step(kind, k, c, e))
  {
    SameFlags(kind, h, c);
  }

  lemma KeptAgrees(kind: Kind, h: Halfway, c: Cell, chosen: Piece, pulled: bool)
    requires Agree(kind, h, c)
    ensures Agree(kind, h.(cell := h.cell.(recoded := [chosen], pulled := pulled)),
                  c.(recoded := [chosen], pulled := pulled))
  {
  }

  lemma RetainAgrees(kind: Kind, k: nat, h: Halfway, c: Cell, e: Event)
    requires Agree(kind, h, c) && e.Retain?
    ensures Agree(kind, PartStep(kind, k, h, Section(e)), Step(kind, k, c, e))
  {
    hide Agree;
    SameFlags(kind, h, c);
    KeptAgrees(kind, h, c, e.chosen, c.pulled || e.pull);
  }

  lemma BlindAgrees(kind: Kind, k: nat, h: Halfway, c: Cell, e: Event)
    requires Agree(kind, h, c) && !Prunes(e) && !e.Flush? && !e.Retain?
    ensures Agree(kind, PartStep(kind, k, h, Section(e)), Step(kind, k, c, e))
  {
    hide Step, Prunes;
    var d := h.cell.(recoded := []);
    assert h.cell == d.(recoded := h.cell.recoded) && c == d.(recoded := c.recoded);
    BlindToRecoded(kind, k, d, e, h.cell.recoded);
    BlindToRecoded(kind, k, d, e, c.recoded);
  }

  // Whole runs.

  lemma StartAgrees(kind: Kind)
    ensures Agree(kind, Halfway(EmptyCell, []), EmptyCell)
  {
  }

  lemma PartAgrees(kind: Kind, k: nat, h: Halfway, c: Cell, p: Part)
    requires Agree(kind, h, c)
    ensures Agree(kind, PartStep(kind, k, h, p),
                  if p.Section? && !PassesBy(kind, h.cell, p.event) then Step(kind, k, c, p.event) else c)
  {
    hide Agree, PartStep, Step, PassesBy, Prunes;
    match p {
      case Give(i) => GiveAgrees(kind, k, h, c, i);
      case Section(e) =>
        if PassesBy(kind, h.cell, e) {
          PassedBy(kind, k, h, e);
        } else if Prunes(e) {
          PruneAgrees(kind, k, h, c, e);
        } else {
          OtherAgrees(kind, k, h, c, e);
        }
    }
  }

  lemma {:induction false} AllAgree(kind: Kind, k: nat, parts: seq<Part>)
    ensures Agree(kind, RunParts(kind, k, parts), Run(kind, k, EmptyCell, WholeEvents(kind, k, parts)))
  {
    hide Agree, PartStep, Step, PassesBy;
    if parts == [] {
      StartAgrees(kind);
    } else {
      var n := |parts| - 1;
      AllAgree(kind, k, parts[..n]);
      var h, c := RunParts(kind, k, parts[..n]), Run(kind, k, EmptyCell, WholeEvents(kind, k, parts[..n]));
      PartAgrees(kind, k, h, c, parts[n]);
      if parts[n].Section? && !PassesBy(kind, h.cell, parts[n].event) {
        RunOneMore(kind, k, EmptyCell, WholeEvents(kind, k, parts[..n]), parts[n].event);
      } else {
        assert WholeEvents(kind, k, parts[..n]) + [] == WholeEvents(kind, k, parts[..n]);
      }
    }
  }

  /** The cell's only recoded piece is in hand. */
  predicate Lacking(h: Halfway) {
    h.cell.recoded == [] && h.inHand != []
  }

  /** What the completion check finds while the only recoded piece is in hand. */
  predicate ReportsLacking(kind: Kind, c: Cell) {
    match kind
    case Native => false
    case Backup => c.raw != [] && (c.broadcasts >= 1 || (c.pruned && |c.raw| == 1))
    case Outsider => c.raw != [] && c.locked
  }

  lemma SameReport(kind: Kind, k: nat, h: Halfway, c: Cell)
    requires Agree(kind, h, c) && !Lacking(h)
    ensures Reports(kind, k, h.cell) <==> Reports(kind, k, c)
  {
    hide Compressed;
    SameFlags(kind, h, c);
  }

  lemma ReportWhileLacking(kind: Kind, k: nat, h: Halfway, c: Cell)
    requires Agree(kind, h, c) && Lacking(h)
    ensures Reports(kind, k, h.cell) <==> ReportsLacking(kind, h.cell)
  {
    hide Compressed;
  }

  /** With prunes in two halves, in any interleaving with each other and with all other sections: the raw pieces and
      flags are those of the run that takes each prune whole, and so is what the completion check reports, but while
      the cell's only recoded piece is in hand. Then the cell has one piece less, and the check finds a backup or
      locked outsider cell wanting if nothing raw has come in since. */
  lemma SectionsRefineWhole(kind: Kind, k: nat, parts: seq<Part>)
    ensures var h, c := RunParts(kind, k, parts), Run(kind, k, EmptyCell, WholeEvents(kind, k, parts));
            && h.cell.(recoded := []) == c.(recoded := [])
            && Total(h.cell) == Total(c) - (if Lacking(h) then 1 else 0)
            && (Reports(kind, k, h.cell) <==>
                if Lacking(h) then ReportsLacking(kind, h.cell) else Reports(kind, k, c))
  {
    hide RunParts, Run, WholeEvents, Reports, ReportsLacking;
    AllAgree(kind, k, parts);
    var h, c := RunParts(kind, k, parts), Run(kind, k, EmptyCell, WholeEvents(kind, k, parts));
    SameFlags(kind, h, c);
    if Lacking(h) {
      ReportWhileLacking(kind, k, h, c);
    } else {
      SameReport(kind, k, h, c);
    }
  }

  /** No event of the list from the n-th on is a stray store when its turn comes. */
  ghost predicate StrayFreeFrom(kind: Kind, k: nat, events: seq<Event>, n: nat) {
    forall m :: n <= m < |events| ==> !StrayStore(kind, k, Run(kind, k, EmptyCell, events[..m]), events[m])
  }

  lemma ReportedStays(kind: Kind, k: nat, events: seq<Event>, e: Event, n: nat)
    requires k > 0 && n <= |events| && Reports(kind, k, Run(kind, k, EmptyCell, events))
    requires StrayFreeFrom(kind, k, events + [e], n)
    ensures Reports(kind, k, Run(kind, k, EmptyCell, events + [e]))
  {
    hide Reports, Step, StrayStore;
    var all := events + [e];
    assert all[..|events|] == events && all[|events|] == e;
    RunInv(kind, k, events);
    RunOneMore(kind, k, EmptyCell, events, e);
    ReportStable(kind, k, Run(kind, k, EmptyCell, events), e);
  }

  lemma FewerStrayFree(kind: Kind, k: nat, events: seq<Event>, e: Event, n: nat)
    requires StrayFreeFrom(kind, k, events + [e], n)
    ensures StrayFreeFrom(kind, k, events, n)
  {
    hide StrayStore;
    var all := events + [e];
    forall m | n <= m < |events| ensures !StrayStore(kind, k, Run(kind, k, EmptyCell, events[..m]), events[m]) {
      assert all[..m] == events[..m] && all[m] == events[m];
    }
  }

  lemma {:induction false} WholeStays(kind: Kind, k: nat, past: seq<Part>, parts: seq<Part>)
    requires k > 0 && Reports(kind, k, Run(kind, k, EmptyCell, WholeEvents(kind, k, past)))
    requires StrayFreeFrom(kind, k, WholeEvents(kind, k, past + parts), |WholeEvents(kind, k, past)|)
    ensures |WholeEvents(kind, k, past)| <= |WholeEvents(kind, k, past + parts)|
    ensures Reports(kind, k, Run(kind, k, EmptyCell, WholeEvents(kind, k, past + parts)))
    decreases |parts|
  {
    hide Reports, Step, StrayFreeFrom, Run, PassesBy, PartStep;
    if parts == [] {
      assert past + parts == past;
    } else {
      var n := |parts| - 1;
      var front := past + parts[..n];
      assert (past + parts)[..|past + parts| - 1] == front && (past + parts)[|past + parts| - 1] == parts[n];
      var events, p := WholeEvents(kind, k, front), parts[n];
      if p.Section? && !PassesBy(kind, RunParts(kind, k, front).cell, p.event) {
        FewerStrayFree(kind, k, events, p.event, |WholeEvents(kind, k, past)|);
        WholeStays(kind, k, past, parts[..n]);
        ReportedStays(kind, k, events, p.event, |WholeEvents(kind, k, past)|);
      } else {
        assert events + [] == events;
        WholeStays(kind, k, past, parts[..n]);
      }
    }
  }

  /** So with prunes in two halves as well: without a stray store, a cell once reported is reported at every later
      moment but while its only recoded piece is in hand, and then exactly as far as pieces have come in since. */
  lemma ReportOutlivesPrunes(kind: Kind, k: nat, past: seq<Part>, parts: seq<Part>)
    requires k > 0 && Reports(kind, k, RunParts(kind, k, past).cell) && !Lacking(RunParts(kind, k, past))
    requires StrayFreeFrom(kind, k, WholeEvents(kind, k, past + parts), |WholeEvents(kind, k, past)|)
    ensures var h := RunParts(kind, k, past + parts);
            Reports(kind, k, h.cell) <==> !Lacking(h) || ReportsLacking(kind, h.cell)
  {
    hide Reports, RunParts, WholeEvents, Run, StrayFreeFrom, Lacking, ReportsLacking;
    SectionsRefineWhole(kind, k, past);
    WholeStays(kind, k, past, parts);
    SectionsRefineWhole(kind, k, past + parts);
  }

  // A whole block: each of its cells sees the parts of its own.

  ghost function CellAfter<I>(kinds: map<I, Kind>, k: nat, parts: seq<(I, Part)>, i: I): Halfway
    requires i in kinds
  {
    RunParts(kinds[i], k, Projected(parts, i))
  }

  ghost predicate NoStrayAfter<I>(kinds: map<I, Kind>, k: nat, past: seq<(I, Part)>, parts: seq<(I, Part)>) {
    forall i :: i in kinds ==>
                  StrayFreeFrom(kinds[i], k, WholeEvents(kinds[i], k, Projected(past + parts, i)),
                                |WholeEvents(kinds[i], k, Projected(past, i))|)
  }

  /** A block once reported, with no piece alone in hand, and spared by stray stores, is reported again at exactly the
      moments at which each of its cells either has its recoded piece or is reported without it. */
  lemma BlockOutlivesPrunes<I>(kinds: map<I, Kind>, k: nat, past: seq<(I, Part)>, parts: seq<(I, Part)>)
    requires k > 0 && NoStrayAfter(kinds, k, past, parts)
    requires forall i :: i in kinds ==>
                           && Reports(kinds[i], k, CellAfter(kinds, k, past, i).cell)
                           && !Lacking(CellAfter(kinds, k, past, i))
    ensures (forall i :: i in kinds ==> Reports(kinds[i], k, CellAfter(kinds, k, past + parts, i).cell)) <==>
            (forall i :: i in kinds ==>
                           var h := CellAfter(kinds, k, past + parts, i);
                           !Lacking(h) || ReportsLacking(kinds[i], h.cell))
  {
    hide Reports, RunParts, WholeEvents, StrayFreeFrom, Lacking, ReportsLacking;
    forall i | i in kinds
      ensures var h := CellAfter(kinds, k, past + parts, i);
              Reports(kinds[i], k, h.cell) <==> !Lacking(h) || ReportsLacking(kinds[i], h.cell)
    {
      ProjectedConcat(past, parts, i);
      assert !Lacking(CellAfter(kinds, k, past, i));
      ReportOutlivesPrunes(kinds[i], k, Projected(past, i), Projected(parts, i));
    }
  }

  /** A locked outsider cell holds a piece at every moment, or a prune has it in hand. */
  lemma LockedHoldsOrInHand(k: nat, parts: seq<Part>)
    requires k > 0
    ensures var h := RunParts(Outsider, k, parts); h.cell.locked ==> Total(h.cell) >= 1 || h.inHand != []
  {
    hide RunParts, Run, WholeEvents;
    var h, c := RunParts(Outsider, k, parts), Run(Outsider, k, EmptyCell, WholeEvents(Outsider, k, parts));
    AllAgree(Outsider, k, parts);
    SameFlags(Outsider, h, c);
    LockedHoldsOne(k, WholeEvents(Outsider, k, parts), RecodeFailed);
  }

  lemma OneMorePart(kind: Kind, k: nat, parts: seq<Part>, p: Part)
    ensures RunParts(kind, k, parts + [p]) == PartStep(kind, k, RunParts(kind, k, parts), p)
  {
    hide PartStep;
    assert (parts + [p])[..|parts|] == parts;
  }

  lemma WaitingAndLocked(k: nat)
    requires k == 2
    ensures var one := PartStep(Outsider, k, PartStep(Outsider, k, Halfway(EmptyCell, []), Section(Open)),
                                Section(Offer(FirstUnit, None, true)));
            PartStep(Outsider, k, PartStep(Outsider, k, one, Section(Settle(false, 0))), Section(Expire)) ==
            Halfway(EmptyCell.(raw := [FirstUnit], locked := true), [])
  {
    hide StoreAnswer;
    assert FirstUnit.coeffs[0] != 0;
    FirstPieceTaken(FirstUnit, k);
    assert [] + [FirstUnit] == [FirstUnit];
  }

  lemma SweptAway()
    ensures var h := Halfway(EmptyCell.(raw := [FirstUnit], locked := true), []);
            && Reports(Outsider, 2, h.cell)
            && PartStep(Outsider, 2, h, Section(Cleanup(RecodeFailed))) ==
               Halfway(EmptyCell.(locked := true, pruned := true), [FirstUnit])
  {
  }

  /** The fallback sweep has locked a cell that still holds its raw piece; a completion check finds it in order, but
      one that comes between the halves of the final sweep's prune finds it empty. */
  lemma LockedSeenEmpty()
    ensures var parts := [Section(Open), Section(Offer(FirstUnit, None, true)), Section(Settle(false, 0)),
                          Section(Expire)];
            var before, after := RunParts(Outsider, 2, parts),
                                 RunParts(Outsider, 2, parts + [Section(Cleanup(RecodeFailed))]);
            && Reports(Outsider, 2, before.cell)
            && after.cell.locked && Total(after.cell) == 0 && !Reports(Outsider, 2, after.cell)
  {
    hide PartStep;
    var ps: seq<Part> := [];
    var a, b, c, d := Section(Open), Section(Offer(FirstUnit, None, true)), Section(Settle(false, 0)), Section(Expire);
    OneMorePart(Outsider, 2, ps, a);
    OneMorePart(Outsider, 2, ps + [a], b);
    OneMorePart(Outsider, 2, ps + [a] + [b], c);
    OneMorePart(Outsider, 2, ps + [a] + [b] + [c], d);
    assert ps + [a] + [b] + [c] + [d] == [a, b, c, d];
    OneMorePart(Outsider, 2, [a, b, c, d], Section(Cleanup(RecodeFailed)));
    WaitingAndLocked(2);
    SweptAway();
  }

  /** A prune that nothing interrupts leaves the very cell of the one-step prune. */
  lemma AloneIsWhole(kind: Kind, k: nat, c: Cell, e: Event)
    requires Prunes(e)
    ensures PartStep(kind, k, PartStep(kind, k, Halfway(c, []), Section(e)), Give(0)).inHand == []
    ensures var h := PartStep(kind, k, PartStep(kind, k, Halfway(c, []), Section(e)), Give(0));
            |c.recoded| <= 1 ==> h.cell == Step(kind, k, c, e)
  {
    hide Compressed;
  }
}
