/**
 The bootstrap node's aggregator barrier: columns of a block wait in a batch until enough have come or a timer
 fires, and are then processed together. Sections under the barrier's and the batch's mutex are steps, which
 goroutines, timers and the delayed removal may interleave in any order.
 */
module BlockBarrier {

  /** A batch object; armed tells whether its timer is running. */
  datatype Batch = Batch(block: string, expected: int, columns: map<int, nat>, dispatched: bool, armed: bool)

  /** The batches made so far, and the one that stands for each block. */
  datatype Core = Core(pending: map<string, nat>, batches: seq<Batch>)

  /** The goroutines under way and what has been processed. A column that arrives is known by its token. */
  datatype State = State(
    core: Core, next: nat,
    arriving: map<nat, (nat, int)>,     // columns that have their batch and are not yet in it
    wanted: multiset<string>,           // flushes about to look up their batch
    held: multiset<nat>,                // flushes that have it
    removals: multiset<string>,         // delayed removals
    runs: seq<map<int, nat>>,           // calls of the second phase
    replaced: set<nat>)                 // columns overwritten by a later one of the same index

  datatype Event =
    | Arrive(block: string, col: int, expected: int)
    | Store(token: nat)
    | Fire(id: nat)
    | LookUp(block: string)
    | Flush(id: nat)
    | Remove(block: string)

  const Start := State(Core(map[], []), 0, map[], multiset{}, multiset{}, multiset{}, [], {})

  // What the sections do to the batches.

  /** The batch of a block, made when there is none; its timer starts again. */
  function Joined(c: Core, block: string, expected: int): Core {
    if block !in c.pending then
      Core(c.pending[block := |c.batches|], c.batches + [Batch(block, expected, map[], false, true)])
    else
      var id := c.pending[block];
      if id < |c.batches| && !c.batches[id].dispatched then With(c, id, c.batches[id].(armed := true)) else c
  }

  function With(c: Core, id: nat, b: Batch): Core
    requires id < |c.batches|
  {
    c.(batches := c.batches[id := b])
  }

  function Put(b: Batch, col: int, token: nat): Batch {
    var columns := b.columns[col := token];
    b.(columns := columns, armed := b.armed && |columns| < b.expected)
  }

  predicate Full(b: Batch) {
    |b.columns| >= b.expected
  }

  predicate CanFlush(b: Batch) {
    !b.dispatched && |b.columns| > 0
  }

  function Dispatched(b: Batch): Batch {
    b.(dispatched := true, armed := false)
  }

  // The steps.

  function StoreStep(s: State, token: nat): State
    requires token in s.arriving && s.arriving[token].0 < |s.core.batches|
  {
    var (id, col) := s.arriving[token];
    var b, rest := s.core.batches[id], s.(arriving := s.arriving - {token});
    if b.dispatched then rest.(runs := s.runs + [map[col := token]])
    else
      rest.(core := With(s.core, id, Put(b, col, token)),
      replaced := s.replaced + if col in b.columns then {b.columns[col]} else {},
      wanted := s.wanted + if Full(Put(b, col, token)) then multiset{b.block} else multiset{})
  }

  function FlushStep(s: State, id: nat): State
    requires id in s.held && id < |s.core.batches|
  {
    var b, rest := s.core.batches[id], s.(held := s.held - multiset{id});
    if !CanFlush(b) then rest
    else
      rest.(core := With(s.core, id, Dispatched(b)), removals := s.removals + multiset{b.block},
      runs := s.runs + [b.columns])
  }

  function ArriveStep(s: State, block: string, col: int, expected: int): State {
    var core := Joined(s.core, block, expected);
    s.(core := core, next := s.next + 1, arriving := s.arriving[s.next := (core.pending[block], col)])
  }

  function FireStep(s: State, id: nat): State
    requires id < |s.core.batches|
  {
    var b := s.core.batches[id];
    if b.armed then s.(core := With(s.core, id, b.(armed := false)), wanted := s.wanted + multiset{b.block}) else s
  }

  function LookUpStep(s: State, block: string): State
    requires block in s.wanted
  {
    s.(wanted := s.wanted - multiset{block},
    held := s.held + if block in s.core.pending then multiset{s.core.pending[block]} else multiset{})
  }

  function RemoveStep(s: State, block: string): State
    requires block in s.removals
  {
    s.(removals := s.removals - multiset{block}, core := s.core.(pending := s.core.pending - {block}))
  }

  predicate Enabled(s: State, e: Event) {
    match e
    case Arrive(_, _, _) => true
    case Store(token) => token in s.arriving && s.arriving[token].0 < |s.core.batches|
    case Fire(id) => id < |s.core.batches|
    case LookUp(block) => block in s.wanted
    case Flush(id) => id in s.held && id < |s.core.batches|
    case Remove(block) => block in s.removals
  }

  function Step(s: State, e: Event): State {
    if !Enabled(s, e) then s
    else
      match e
      case Arrive(block, col, expected) => ArriveStep(s, block, col, expected)
      case Store(token) => StoreStep(s, token)
      case Fire(id) => FireStep(s, id)
      case LookUp(block) => LookUpStep(s, block)
      case Flush(id) => FlushStep(s, id)
      case Remove(block) => RemoveStep(s, block)
  }

  ghost function Run(events: seq<Event>): State {
    if events == [] then Start else Step(Run(events[..|events| - 1]), events[|events| - 1])
  }

  // Batches are never orphaned.

  /** Every batch that has not been dispatched stands for its block, a removal is due for a block exactly when
      its batch has been dispatched, and the timer of a dispatched batch is off. */
  ghost predicate PendingInv(c: Core, removals: multiset<string>) {
    && (forall b :: b in c.pending ==> c.pending[b] < |c.batches| && c.batches[c.pending[b]].block == b)
    && (forall id :: 0 <= id < |c.batches| && !c.batches[id].dispatched ==>
                       c.batches[id].block in c.pending && c.pending[c.batches[id].block] == id)
    && (forall b :: b in removals ==> removals[b] == 1)
    && (forall b :: b in removals <==>
                      b in c.pending && c.pending[b] < |c.batches| && c.batches[c.pending[b]].dispatched)
    && (forall id :: 0 <= id < |c.batches| && c.batches[id].dispatched ==> !c.batches[id].armed)
  }

  ghost predicate IdsInv(s: State) {
    && (forall t :: t in s.arriving ==> s.arriving[t].0 < |s.core.batches| && t < s.next)
    && (forall id :: id in s.held ==> id < |s.core.batches|)
  }

  ghost predicate CoreInv(s: State) {
    PendingInv(s.core, s.removals) && IdsInv(s)
  }

  lemma JoinedInv(c: Core, removals: multiset<string>, block: string, expected: int)
    requires PendingInv(c, removals)
    ensures PendingInv(Joined(c, block, expected), removals)
    ensures Joined(c, block, expected).pending[block] < |Joined(c, block, expected).batches|
    ensures |c.batches| <= |Joined(c, block, expected).batches|
  {
    hide With;
    if block in c.pending {
      var id := c.pending[block];
      if !c.batches[id].dispatched {
        WithInv(c, removals, id, c.batches[id].(armed := true));
      }
      Sizes(c, id, c.batches[id].(armed := true));
    }
  }

  lemma WithInv(c: Core, removals: multiset<string>, id: nat, b: Batch)
    requires PendingInv(c, removals) && id < |c.batches|
    requires b.block == c.batches[id].block && b.dispatched == c.batches[id].dispatched && !(b.dispatched && b.armed)
    ensures PendingInv(With(c, id, b), removals)
  {
  }

  lemma DispatchInv(c: Core, removals: multiset<string>, id: nat)
    requires PendingInv(c, removals) && id < |c.batches| && !c.batches[id].dispatched
    ensures PendingInv(With(c, id, Dispatched(c.batches[id])), removals + multiset{c.batches[id].block})
  {
  }

  /** The removal takes away the dispatched batch that asked for it, never one that still waits. */
  lemma RemovalIsSafe(c: Core, removals: multiset<string>, block: string)
    requires PendingInv(c, removals) && block in removals
    ensures block in c.pending && c.batches[c.pending[block]].dispatched
    ensures PendingInv(c.(pending := c.pending - {block}), removals - multiset{block})
  {
  }

  lemma StoreCore(s: State, token: nat)
    requires CoreInv(s) && token in s.arriving
    ensures CoreInv(StoreStep(s, token))
  {
    hide PendingInv, With, Put, Full;
    var (id, col) := s.arriving[token];
    Sizes(s.core, id, Put(s.core.batches[id], col, token));
    PutKeeps(s.core.batches[id], col, token);
    if !s.core.batches[id].dispatched {
      WithInv(s.core, s.removals, id, Put(s.core.batches[id], col, token));
    }
  }

  lemma FlushCore(s: State, id: nat)
    requires CoreInv(s) && id in s.held
    ensures CoreInv(FlushStep(s, id))
  {
    hide PendingInv, With, Dispatched;
    if CanFlush(s.core.batches[id]) {
      Sizes(s.core, id, Dispatched(s.core.batches[id]));
      DispatchInv(s.core, s.removals, id);
    }
  }

  lemma ArriveCore(s: State, block: string, col: int, expected: int)
    requires CoreInv(s)
    ensures CoreInv(ArriveStep(s, block, col, expected))
  {
    hide PendingInv, Joined;
    JoinedInv(s.core, s.removals, block, expected);
  }

  lemma FireCore(s: State, id: nat)
    requires CoreInv(s) && id < |s.core.batches|
    ensures CoreInv(FireStep(s, id))
  {
    hide PendingInv, With;
    Sizes(s.core, id, s.core.batches[id].(armed := false));
    WithInv(s.core, s.removals, id, s.core.batches[id].(armed := false));
  }

  lemma LookUpCore(s: State, block: string)
    requires CoreInv(s) && block in s.wanted
    ensures CoreInv(LookUpStep(s, block))
  {
    hide PendingInv;
    HeldInRange(s.core, s.removals);
  }

  lemma RemoveCore(s: State, block: string)
    requires CoreInv(s) && block in s.removals
    ensures CoreInv(RemoveStep(s, block))
  {
    hide PendingInv;
    RemovalIsSafe(s.core, s.removals, block);
  }

  lemma StepCore(s: State, e: Event)
    requires CoreInv(s)
    ensures CoreInv(Step(s, e))
  {
    hide CoreInv, ArriveStep, StoreStep, FireStep, LookUpStep, FlushStep, RemoveStep;
    if Enabled(s, e) {
      match e {
        case Arrive(block, col, expected) => ArriveCore(s, block, col, expected);
        case Store(token) => StoreCore(s, token);
        case Fire(id) => FireCore(s, id);
        case LookUp(block) => LookUpCore(s, block);
        case Flush(id) => FlushCore(s, id);
        case Remove(block) => RemoveCore(s, block);
      }
    }
  }

  lemma Sizes(c: Core, id: nat, b: Batch)
    requires id < |c.batches|
    ensures |With(c, id, b).batches| == |c.batches| && With(c, id, b).pending == c.pending
  {
  }

  lemma PutKeeps(b: Batch, col: int, token: nat)
    ensures Put(b, col, token).block == b.block && Put(b, col, token).dispatched == b.dispatched
  {
  }

  lemma HeldInRange(c: Core, removals: multiset<string>)
    requires PendingInv(c, removals)
    ensures forall b :: b in c.pending ==> c.pending[b] < |c.batches|
  {
  }

  // Every column is processed once.

  /** Where a stored column can be. */
  datatype Place = InRun(i: int, col: int) | Waiting(id: int, col: int) | Overwritten

  predicate At(s: State, token: nat, p: Place) {
    match p
    case InRun(i, col) => 0 <= i < |s.runs| && col in s.runs[i] && s.runs[i][col] == token
    case Waiting(id, col) =>
      && 0 <= id < |s.core.batches| && !s.core.batches[id].dispatched
      && col in s.core.batches[id].columns && s.core.batches[id].columns[col] == token
    case Overwritten => token in s.replaced
  }

  predicate Stored(s: State, token: nat) {
    token < s.next && token !in s.arriving
  }

  /** Where the column goes in a step. */
  function Next(s: State, e: Event, p: Place): Place {
    match (p, e)
    case (Waiting(id, col), Flush(f)) =>
      if Enabled(s, e) && f == id && CanFlush(s.core.batches[f]) then InRun(|s.runs|, col) else p
    case (Waiting(id, col), Store(other)) =>
      if Enabled(s, e) && s.arriving[other] == (id, col) && !s.core.batches[id].dispatched then Overwritten else p
    case _ => p
  }

  /** Where a column is put when its second section runs. */
  function Entry(s: State, token: nat): Place
    requires Enabled(s, Store(token))
  {
    var (id, col) := s.arriving[token];
    if s.core.batches[id].dispatched then InRun(|s.runs|, col) else Waiting(id, col)
  }

  /** Arrivals, timers, look-ups and removals move no stored column. */
  lemma QuietArrive(s: State, block: string, col: int, expected: int, token: nat, p: Place)
    requires PendingInv(s.core, s.removals)
    ensures At(ArriveStep(s, block, col, expected), token, p) <==> At(s, token, p)
  {
  }

  lemma QuietFire(s: State, id: nat, token: nat, p: Place)
    requires id < |s.core.batches|
    ensures At(FireStep(s, id), token, p) <==> At(s, token, p)
  {
  }

  lemma QuietOthers(s: State, block: string, token: nat, p: Place)
    ensures block in s.wanted ==> (At(LookUpStep(s, block), token, p) <==> At(s, token, p))
    ensures block in s.removals ==> (At(RemoveStep(s, block), token, p) <==> At(s, token, p))
  {
  }

  lemma FlushMoves(s: State, id: nat, token: nat, p: Place)
    requires Enabled(s, Flush(id)) && At(s, token, p)
    ensures At(FlushStep(s, id), token, Next(s, Flush(id), p))
  {
  }

  lemma FlushOrigins(s: State, id: nat, token: nat, q: Place) returns (p: Place)
    requires Enabled(s, Flush(id)) && At(FlushStep(s, id), token, q)
    ensures At(s, token, p) && q == Next(s, Flush(id), p)
  {
    p := if q.InRun? && q.i == |s.runs| then Waiting(id, q.col) else q;
  }

  lemma StoreMoves(s: State, other: nat, token: nat, p: Place)
    requires Enabled(s, Store(other)) && At(s, token, p)
    ensures At(StoreStep(s, other), token, Next(s, Store(other), p))
  {
  }

  lemma StoreEnters(s: State, token: nat)
    requires Enabled(s, Store(token))
    ensures At(StoreStep(s, token), token, Entry(s, token))
  {
  }

  lemma LateOrigins(s: State, other: nat, token: nat, q: Place)
    requires Enabled(s, Store(other)) && At(StoreStep(s, other), token, q)
    requires s.core.batches[s.arriving[other].0].dispatched
    ensures (token == other && q == Entry(s, other)) || (At(s, token, q) && q == Next(s, Store(other), q))
  {
  }

  lemma EarlyOrigins(s: State, other: nat, token: nat, q: Place) returns (p: Place)
    requires Enabled(s, Store(other)) && At(StoreStep(s, other), token, q)
    requires !s.core.batches[s.arriving[other].0].dispatched
    ensures (token == other && q == Entry(s, other)) || (At(s, token, p) && q == Next(s, Store(other), p))
  {
    hide Full;
    var (id, col) := s.arriving[other];
    p := if q.Overwritten? && token !in s.replaced then Waiting(id, col) else q;
  }

  lemma StoreOrigins(s: State, other: nat, token: nat, q: Place) returns (p: Place)
    requires Enabled(s, Store(other)) && At(StoreStep(s, other), token, q)
    ensures (token == other && q == Entry(s, other)) || (At(s, token, p) && q == Next(s, Store(other), p))
  {
    hide At, StoreStep, Next;
    if s.core.batches[s.arriving[other].0].dispatched {
      LateOrigins(s, other, token, q);
      p := q;
    } else {
      p := EarlyOrigins(s, other, token, q);
    }
  }

  /** A stored column stays where it is, or goes from its batch to the batch's run or, when overwritten, away. */
  lemma StepMoves(s: State, e: Event, token: nat, p: Place)
    requires CoreInv(s) && At(s, token, p)
    ensures At(Step(s, e), token, Next(s, e, p))
  {
    hide At, PendingInv, ArriveStep, FireStep, LookUpStep, RemoveStep, StoreStep, FlushStep;
    if Enabled(s, e) {
      match e {
        case Arrive(block, col, expected) => QuietArrive(s, block, col, expected, token, p);
        case Store(other) => StoreMoves(s, other, token, p);
        case Fire(id) => QuietFire(s, id, token, p);
        case LookUp(block) => QuietOthers(s, block, token, p);
        case Flush(id) => FlushMoves(s, id, token, p);
        case Remove(block) => QuietOthers(s, block, token, p);
      }
    }
  }

  /** Every place a column has after a step it has from a place before, unless the step stored it. */
  lemma StepOrigins(s: State, e: Event, token: nat, q: Place) returns (p: Place)
    requires CoreInv(s) && At(Step(s, e), token, q)
    ensures (Enabled(s, e) && e == Store(token) && q == Entry(s, token)) || (At(s, token, p) && q == Next(s, e, p))
  {
    hide At, PendingInv, ArriveStep, FireStep, LookUpStep, RemoveStep, StoreStep, FlushStep, Entry;
    p := q;
    if Enabled(s, e) {
      match e {
        case Arrive(block, col, expected) => QuietArrive(s, block, col, expected, token, q);
        case Store(other) => p := StoreOrigins(s, other, token, q);
        case Fire(id) => QuietFire(s, id, token, q);
        case LookUp(block) => QuietOthers(s, block, token, q);
        case Flush(id) => p := FlushOrigins(s, id, token, q);
        case Remove(block) => QuietOthers(s, block, token, q);
      }
    }
  }

  /** Exactly the stored columns have a place, and each has just one. */
  ghost predicate PlacesInv(s: State) {
    && (forall token, p :: At(s, token, p) ==> Stored(s, token))
    && (forall token, p, q :: At(s, token, p) && At(s, token, q) ==> p == q)
    && (forall token :: Stored(s, token) ==> exists p :: At(s, token, p))
  }

  lemma StepStores(s: State, e: Event, token: nat)
    requires CoreInv(s)
    ensures Stored(Step(s, e), token) <==> Stored(s, token) || (Enabled(s, e) && e == Store(token))
  {
    hide PendingInv, Joined, With, Put, Dispatched;
  }

  lemma StepPlaces(s: State, e: Event)
    requires CoreInv(s) && PlacesInv(s)
    ensures PlacesInv(Step(s, e))
  {
    hide At, CoreInv, Step, Stored, Next, Entry;
    var s' := Step(s, e);
    forall token, p | At(s', token, p) ensures Stored(s', token) {
      var _ := StepOrigins(s, e, token, p);
      StepStores(s, e, token);
    }
    forall token, p, q | At(s', token, p) && At(s', token, q) ensures p == q {
      var p0 := StepOrigins(s, e, token, p);
      var q0 := StepOrigins(s, e, token, q);
      StoredIsNew(s, e, token);
    }
    forall token | Stored(s', token) ensures exists p :: At(s', token, p) {
      StepStores(s, e, token);
      if Stored(s, token) {
        var p :| At(s, token, p);
        StepMoves(s, e, token, p);
      } else {
        StepEnters(s, token);
      }
    }
  }

  lemma StoredIsNew(s: State, e: Event, token: nat)
    ensures Enabled(s, e) && e == Store(token) ==> !Stored(s, token)
  {
  }

  lemma StepEnters(s: State, token: nat)
    requires Enabled(s, Store(token))
    ensures At(Step(s, Store(token)), token, Entry(s, token))
  {
    hide At, StoreStep;
    StoreEnters(s, token);
  }

  /** Over every run each stored column is at exactly one place: once in one run of the second phase, waiting in
      one batch not yet dispatched, or overwritten there by a later column of the same index. */
  lemma {:induction false} ProcessedOnce(events: seq<Event>)
    ensures CoreInv(Run(events)) && PlacesInv(Run(events))
  {
    hide CoreInv, PlacesInv, Step;
    if events == [] {
      StartInv();
    } else {
      var n := |events| - 1;
      ProcessedOnce(events[..n]);
      StepCore(Run(events[..n]), events[n]);
      StepPlaces(Run(events[..n]), events[n]);
    }
  }

  lemma StartInv()
    ensures CoreInv(Start) && PlacesInv(Start)
  {
  }

  // Waiting batches and what will dispatch them.

  predicate Undispatched(s: State, id: nat) {
    id < |s.core.batches| && !s.core.batches[id].dispatched
  }

  /** A running timer or a flush under way will see to the batch. */
  predicate Driven(s: State, id: nat)
    requires id < |s.core.batches|
  {
    s.core.batches[id].armed || s.core.batches[id].block in s.wanted || id in s.held
  }

  /** The last flush of the batch finds it empty: its timer ran out before its first column was stored. */
  predicate LosesDrive(s: State, e: Event, id: nat)
    requires id < |s.core.batches|
  {
    var b := s.core.batches[id];
    e == Flush(id) && s.held[id] == 1 && !b.dispatched && |b.columns| == 0 && !b.armed && b.block !in s.wanted
  }

  /** A column joins the block, or fills its batch. */
  predicate Rouses(s: State, e: Event, id: nat)
    requires id < |s.core.batches|
  {
    match e
    case Arrive(block, _, _) => block == s.core.batches[id].block
    case Store(token) =>
      && Enabled(s, e) && s.arriving[token].0 == id
      && Full(Put(s.core.batches[id], s.arriving[token].1, token))
    case _ => false
  }

  /** A waiting batch is left undriven exactly by a flush that finds it empty. */
  lemma DriveLost(s: State, e: Event, id: nat)
    requires CoreInv(s) && Undispatched(s, id) && Driven(s, id) && Undispatched(Step(s, e), id)
    ensures Driven(Step(s, e), id) <==> !LosesDrive(s, e, id)
  {
    if Enabled(s, e) {
      match e {
        case Arrive(block, col, expected) => DriveArrive(s, block, col, expected, id);
        case Store(token) => DriveStore(s, token, id);
        case Fire(other) => DriveFire(s, other, id);
        case LookUp(block) => DriveLookUp(s, block, id);
        case Flush(other) => DriveFlush(s, other, id);
        case Remove(block) =>
      }
    }
  }

  lemma DriveArrive(s: State, block: string, col: int, expected: int, id: nat)
    requires CoreInv(s) && Undispatched(s, id)
    ensures var s' := ArriveStep(s, block, col, expected);
            Undispatched(s', id) && (Driven(s', id) <==> Driven(s, id) || s.core.batches[id].block == block)
  {
  }

  lemma DriveStore(s: State, token: nat, id: nat)
    requires Enabled(s, Store(token)) && Undispatched(s, id)
    ensures var s' := StoreStep(s, token);
            && Undispatched(s', id)
            && (Rouses(s, Store(token), id) ==> Driven(s', id))
            && (Driven(s, id) ==> Driven(s', id))
            && (!Driven(s, id) && CoreInv(s) ==> (Driven(s', id) <==> Rouses(s, Store(token), id)))
  {
  }

  lemma DriveFire(s: State, other: nat, id: nat)
    requires other < |s.core.batches| && CoreInv(s) && Undispatched(s, id)
    ensures Undispatched(FireStep(s, other), id) && (Driven(FireStep(s, other), id) <==> Driven(s, id))
  {
  }

  lemma DriveLookUp(s: State, block: string, id: nat)
    requires block in s.wanted && CoreInv(s) && Undispatched(s, id)
    ensures Undispatched(LookUpStep(s, block), id) && (Driven(LookUpStep(s, block), id) <==> Driven(s, id))
  {
  }

  lemma DriveFlush(s: State, other: nat, id: nat)
    requires Enabled(s, Flush(other)) && Undispatched(s, id)
    requires Undispatched(FlushStep(s, other), id)
    ensures Driven(FlushStep(s, other), id) <==> Driven(s, id) && !LosesDrive(s, Flush(other), id)
  {
  }

  /** A batch left undriven waits until another column joins its block or fills it, whatever else happens. */
  lemma StrandedStays(s: State, e: Event, id: nat)
    requires CoreInv(s) && Undispatched(s, id) && !Driven(s, id)
    ensures Undispatched(Step(s, e), id) && (Driven(Step(s, e), id) <==> Rouses(s, e, id))
  {
    if Enabled(s, e) {
      match e {
        case Arrive(block, col, expected) => DriveArrive(s, block, col, expected, id);
        case Store(token) => DriveStore(s, token, id);
        case Fire(other) => DriveFire(s, other, id);
        case LookUp(block) => DriveLookUp(s, block, id);
        case Flush(other) =>
          FlushSpares(s, other, id);
          DriveFlush(s, other, id);
        case Remove(block) =>
      }
    }
  }

  lemma FlushSpares(s: State, other: nat, id: nat)
    requires Enabled(s, Flush(other)) && Undispatched(s, id) && other != id
    ensures Undispatched(FlushStep(s, other), id)
  {
  }

  predicate AllDriven(s: State) {
    forall id :: 0 <= id < |s.core.batches| && Undispatched(s, id) ==> Driven(s, id)
  }

  /** Every waiting batch is driven, after every event of the run. */
  ghost predicate DrivenAlways(events: seq<Event>) {
    forall n :: 0 <= n <= |events| ==> AllDriven(Run(events[..n]))
  }

  /** The event makes some waiting batch lose what drives it. */
  ghost predicate SomeLoss(s: State, e: Event) {
    exists id :: 0 <= id < |s.core.batches| && LosesDrive(s, e, id)
  }

  lemma LossLeavesUndriven(s: State, e: Event)
    requires CoreInv(s) && AllDriven(s) && SomeLoss(s, e)
    ensures !AllDriven(Step(s, e))
  {
    hide PendingInv, Driven;
    var id :| 0 <= id < |s.core.batches| && LosesDrive(s, e, id);
    assert Undispatched(s, id);
    DriveLost(s, e, id);
    assert Step(s, e).core == s.core;
    assert Undispatched(Step(s, e), id);
  }

  lemma NoLossKeepsDriven(s: State, e: Event)
    requires CoreInv(s) && AllDriven(s) && !SomeLoss(s, e)
    ensures AllDriven(Step(s, e))
  {
    hide CoreInv, Driven, LosesDrive, Step;
    var s' := Step(s, e);
    forall id | 0 <= id < |s'.core.batches| && Undispatched(s', id) ensures Driven(s', id) {
      NewIsDriven(s, e, id);
      if Undispatched(s, id) {
        DriveLost(s, e, id);
      }
    }
  }

  /** Over a whole run, every waiting batch is driven at all times exactly when no flush finds its batch empty with
      nothing else to drive it. */
  lemma {:induction false} DrivenThroughout(events: seq<Event>)
    ensures DrivenAlways(events) <==> forall n :: 0 <= n < |events| ==> !SomeLoss(Run(events[..n]), events[n])
  {
    hide CoreInv, PlacesInv, Step, SomeLoss, AllDriven;
    if events == [] {
      assert events[..0] == [];
      StartDriven();
    } else {
      var n := |events| - 1;
      var front := events[..n];
      DrivenThroughout(front);
      ProcessedOnce(front);
      assert forall m :: 0 <= m <= n ==> front[..m] == events[..m];
      assert events[..n + 1] == events;
      assert front[..n] == front;
      if AllDriven(Run(front)) {
        if SomeLoss(Run(front), events[n]) {
          LossLeavesUndriven(Run(front), events[n]);
        } else {
          NoLossKeepsDriven(Run(front), events[n]);
        }
      }
      assert DrivenAlways(events) <==> DrivenAlways(front) && AllDriven(Run(events));
    }
  }

  lemma StartDriven()
    ensures AllDriven(Start)
  {
  }

  lemma NewArrival(s: State, block: string, col: int, expected: int, id: nat)
    requires CoreInv(s) && Undispatched(ArriveStep(s, block, col, expected), id)
    ensures Undispatched(s, id) || Driven(ArriveStep(s, block, col, expected), id)
  {
  }

  lemma NoneNew(s: State, e: Event, id: nat)
    requires Enabled(s, e)
    ensures e.Store? && Undispatched(StoreStep(s, e.token), id) ==> Undispatched(s, id)
    ensures e.Fire? && Undispatched(FireStep(s, e.id), id) ==> Undispatched(s, id)
    ensures e.Flush? && Undispatched(FlushStep(s, e.id), id) ==> Undispatched(s, id)
  {
  }

  lemma NewIsDriven(s: State, e: Event, id: nat)
    requires CoreInv(s) && Undispatched(Step(s, e), id)
    ensures Undispatched(s, id) || Driven(Step(s, e), id)
  {
    hide CoreInv, ArriveStep, StoreStep, FireStep, FlushStep, Driven;
    if Enabled(s, e) {
      NoneNew(s, e, id);
      match e {
        case Arrive(block, col, expected) => NewArrival(s, block, col, expected, id);
        case _ =>
      }
    }
  }

  // A run that strands its first column.

  const Armed := Start.(core := Core(map["b" := 0], [Batch("b", 2, map[], false, true)]), next := 1,
                        arriving := map[0 := (0, 0)])
  const Empty := Armed.(core := Core(map["b" := 0], [Batch("b", 2, map[], false, false)]))

  lemma FirstArrival()
    ensures Step(Start, Arrive("b", 0, 2)) == Armed
  {
  }

  lemma EmptyFlush()
    ensures Step(Armed, Fire(0)) == Empty.(wanted := multiset{"b"})
    ensures Step(Empty.(wanted := multiset{"b"}), LookUp("b")) == Empty.(held := multiset{0})
    ensures Step(Empty.(held := multiset{0}), Flush(0)) == Empty
  {
  }

  lemma LateStore()
    ensures Step(Empty, Store(0)) ==
            Empty.(core := Core(map["b" := 0], [Batch("b", 2, map[0 := 0], false, false)]), arriving := map[])
  {
  }

  lemma RunOneMore(events: seq<Event>, e: Event)
    ensures Run(events + [e]) == Step(Run(events), e)
  {
    assert (events + [e])[..|events|] == events;
  }

  /** A timer that runs out between the two sections of a block's first column leaves that column waiting with
      nothing to dispatch it. */
  lemma FirstColumnStranded()
    ensures var s := Run([Arrive("b", 0, 2), Fire(0), LookUp("b"), Flush(0), Store(0)]);
            && At(s, 0, Waiting(0, 0)) && Undispatched(s, 0) && !Driven(s, 0)
            && s.arriving == map[] && s.wanted == multiset{} && s.held == multiset{}
  {
    hide Step;
    var es: seq<Event> := [];
    RunOneMore(es, Arrive("b", 0, 2));
    RunOneMore(es + [Arrive("b", 0, 2)], Fire(0));
    RunOneMore(es + [Arrive("b", 0, 2)] + [Fire(0)], LookUp("b"));
    RunOneMore(es + [Arrive("b", 0, 2)] + [Fire(0)] + [LookUp("b")], Flush(0));
    RunOneMore(es + [Arrive("b", 0, 2)] + [Fire(0)] + [LookUp("b")] + [Flush(0)], Store(0));
    assert es + [Arrive("b", 0, 2)] + [Fire(0)] + [LookUp("b")] + [Flush(0)] + [Store(0)] ==
           [Arrive("b", 0, 2), Fire(0), LookUp("b"), Flush(0), Store(0)];
    FirstArrival();
    EmptyFlush();
    LateStore();
  }

  // The objects themselves.

  class PendingBatch {
    ghost const id: nat
    const block: string
    const expectedCols: int
    var columns: map<int, nat>
    var dispatched: bool
    var timerArmed: bool

    constructor (ghost id: nat, block: string, expectedCols: int)
      ensures this.id == id && Contents() == Batch(block, expectedCols, map[], false, true)
    {
      this.id, this.block, this.expectedCols := id, block, expectedCols;
      columns, dispatched, timerArmed := map[], false, true;
    }

    ghost function Contents(): Batch
      reads this
    {
      Batch(block, expectedCols, columns, dispatched, timerArmed)
    }

    /** The second section of an arriving column. */
    method StoreColumn(col: int, token: nat) returns (late: bool, full: bool)
      modifies this
      ensures late == old(dispatched)
      ensures Contents() == if late then old(Contents()) else Put(old(Contents()), col, token)
      ensures full <==> !late && |old(columns)[col := token]| >= expectedCols
      ensures columns == if late then old(columns) else old(columns)[col := token]
      ensures timerArmed <==> old(timerArmed) && !full
    {
      late, full := dispatched, false;
      if late {
        return;
      }
      columns := columns[col := token];
      full := |columns| >= expectedCols;
      if full {
        timerArmed := false;
      }
    }

    /** The second section of a flush: the columns to run, once. */
    method Take() returns (taken: bool, run: map<int, nat>)
      modifies this
      ensures taken <==> CanFlush(old(Contents()))
      ensures taken <==> !old(dispatched) && |old(columns)| > 0
      ensures taken ==> dispatched && !timerArmed
      ensures Contents() == if taken then Dispatched(old(Contents())) else old(Contents())
      ensures run == if taken then old(columns) else map[]
    {
      if dispatched || |columns| == 0 {
        return false, map[];
      }
      dispatched, timerArmed := true, false;
      return true, columns;
    }
  }

  class Aggregator {
    var pendingBatches: map<string, PendingBatch>
    ghost var made: seq<PendingBatch>

    ghost predicate Valid()
      reads this
    {
      && (forall i :: 0 <= i < |made| ==> made[i].id == i)
      && (forall b :: b in pendingBatches ==> pendingBatches[b] in made)
    }

    ghost function Contents(): Core
      reads this, made
    {
      Core(map b | b in pendingBatches :: pendingBatches[b].id,
           seq(|made|, i requires 0 <= i < |made| reads this, made => made[i].Contents()))
    }

    constructor ()
      ensures Valid() && Contents() == Start.core
    {
      pendingBatches, made := map[], [];
    }

    /** The first section of an arriving column: its batch, new or with its timer started again. */
    method BeginColumn(block: string, expectedCols: int) returns (batch: PendingBatch)
      requires Valid()
      modifies this, made
      ensures Valid() && Contents() == Joined(old(Contents()), block, expectedCols)
      ensures batch in made && batch.id == Contents().pending[block]
      ensures block !in old(pendingBatches) ==>
                fresh(batch) && batch.expectedCols == expectedCols && batch.columns == map[] && !batch.dispatched
      ensures block in old(pendingBatches) ==>
                batch == old(pendingBatches)[block] && unchanged(batch`columns, batch`dispatched)
      ensures batch.timerArmed || batch.dispatched
    {
      if block !in pendingBatches {
        batch := new PendingBatch(|made|, block, expectedCols);
        pendingBatches := pendingBatches[block := batch];
        made := made + [batch];
      } else {
        batch := pendingBatches[block];
        if !batch.dispatched {
          batch.timerArmed := true;
        }
      }
    }

    /** The second section of an arriving column. */
    method StoreColumn(batch: PendingBatch, col: int, token: nat) returns (late: bool, full: bool)
      requires Valid() && batch in made
      modifies batch
      ensures Valid() && batch.id < |made|
      ensures var c, b := old(Contents()), old(batch.Contents());
              && late == b.dispatched && (full <==> !late && |b.columns[col := token]| >= b.expected)
              && batch.id < |c.batches| && c.batches[batch.id] == b
              && Contents() == if late then c else With(c, batch.id, Put(b, col, token))
    {
      late, full := batch.StoreColumn(col, token);
    }

    /** The first section of a flush. */
    method FindBatch(block: string) returns (batch: PendingBatch?)
      requires Valid()
      ensures batch == null <==> block !in Contents().pending
      ensures batch != null ==> batch in made && Contents().pending[block] == batch.id
    {
      batch := if block in pendingBatches then pendingBatches[block] else null;
    }

    /** The second section of a flush. */
    method DispatchBatch(batch: PendingBatch) returns (taken: bool, run: map<int, nat>)
      requires Valid() && batch in made
      modifies batch
      ensures Valid() && batch.id < |made|
      ensures var c, b := old(Contents()), old(batch.Contents());
              && (taken <==> CanFlush(b)) && (taken ==> run == b.columns)
              && batch.id < |c.batches| && c.batches[batch.id] == b
              && Contents() == if taken then With(c, batch.id, Dispatched(b)) else c
    {
      taken, run := batch.Take();
    }

    /** The delayed removal. */
    method RemoveBatch(block: string)
      requires Valid()
      modifies this`pendingBatches
      ensures Valid() && Contents() == old(Contents()).(pending := old(Contents()).pending - {block})
    {
      pendingBatches := pendingBatches - {block};
    }
  }
}
