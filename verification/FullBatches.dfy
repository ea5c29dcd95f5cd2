/**
 Whether the barrier holds: whether a batch is flushed with fewer than its expected columns, and whether a full one is
 flushed at all.
 */
module FullBatches {
  import opened BlockBarrier

  /** No batch that a flush is about to look up, or has in hand, or has dispatched, lacks an expected column. */
  ghost predicate OnTime(c: Core, wanted: multiset<string>, held: multiset<nat>) {
    && (forall b :: b in wanted && b in c.pending && c.pending[b] < |c.batches| ==>
                      |c.batches[c.pending[b]].columns| >= c.batches[c.pending[b]].expected)
    && (forall id :: 0 <= id < |c.batches| && (id in held || c.batches[id].dispatched) ==>
                       |c.batches[id].columns| >= c.batches[id].expected)
  }

  /** A timer runs out before the batch is full, or a block whose batch is gone gets a new one while a flush of the block
      has yet to look it up. */
  predicate TooEarly(s: State, e: Event) {
    match e
    case Arrive(block, _, expected) => block in s.wanted && block !in s.core.pending && expected >= 1
    case Fire(id) =>
      && id < |s.core.batches| && s.core.batches[id].armed
      && |s.core.batches[id].columns| < s.core.batches[id].expected
    case _ => false
  }

  lemma JoinedNew(c: Core, wanted: multiset<string>, held: multiset<nat>, block: string, expected: int)
    requires block !in c.pending && OnTime(c, wanted, held) && forall id :: id in held ==> id < |c.batches|
    requires forall b :: b in c.pending ==> c.pending[b] < |c.batches|
    ensures OnTime(Joined(c, block, expected), wanted, held) <==> !(block in wanted && expected >= 1)
  {
    var c', id := Joined(c, block, expected), |c.batches|;
    assert c'.pending[block] == id && c'.batches[id] == Batch(block, expected, map[], false, true);
    assert forall i :: 0 <= i < |c.batches| ==> c'.batches[i] == c.batches[i];
  }

  lemma JoinedKnown(c: Core, wanted: multiset<string>, held: multiset<nat>, block: string, expected: int)
    requires block in c.pending && OnTime(c, wanted, held)
    ensures OnTime(Joined(c, block, expected), wanted, held)
  {
    var c' := Joined(c, block, expected);
    assert c'.pending == c.pending && |c'.batches| == |c.batches|;
    assert forall i :: 0 <= i < |c.batches| ==>
                         c'.batches[i] == c.batches[i] || c'.batches[i] == c.batches[i].(armed := true);
  }

  lemma InRange(s: State)
    requires CoreInv(s)
    ensures forall b :: b in s.core.pending ==> s.core.pending[b] < |s.core.batches|
    ensures forall id :: id in s.held ==> id < |s.core.batches|
  {
  }

  lemma ArriveOnTime(s: State, block: string, col: int, expected: int)
    requires CoreInv(s) && OnTime(s.core, s.wanted, s.held)
    ensures var s' := ArriveStep(s, block, col, expected);
            OnTime(s'.core, s'.wanted, s'.held) <==> !TooEarly(s, Arrive(block, col, expected))
  {
    hide CoreInv, OnTime, Joined;
    InRange(s);
    if block in s.core.pending {
      JoinedKnown(s.core, s.wanted, s.held, block, expected);
    } else {
      JoinedNew(s.core, s.wanted, s.held, block, expected);
    }
  }

  lemma PutGrows(b: Batch, col: int, token: nat)
    ensures |Put(b, col, token).columns| == |b.columns| + if col in b.columns then 0 else 1
    ensures Put(b, col, token).expected == b.expected && Put(b, col, token).dispatched == b.dispatched
    ensures Put(b, col, token).block == b.block
  {
    assert Put(b, col, token).columns.Keys == b.columns.Keys + {col};
    assert |Put(b, col, token).columns| == |b.columns.Keys + {col}|;
  }

  lemma StoreOnTime(s: State, token: nat)
    requires CoreInv(s) && Enabled(s, Store(token)) && OnTime(s.core, s.wanted, s.held)
    ensures OnTime(StoreStep(s, token).core, StoreStep(s, token).wanted, StoreStep(s, token).held)
  {
    hide Put;
    var (id, col) := s.arriving[token];
    PutGrows(s.core.batches[id], col, token);
  }

  lemma DisarmedOnTime(c: Core, wanted: multiset<string>, held: multiset<nat>, id: nat)
    requires id < |c.batches| && OnTime(c, wanted, held)
    ensures OnTime(With(c, id, c.batches[id].(armed := false)), wanted, held)
  {
    var c' := With(c, id, c.batches[id].(armed := false));
    assert forall i :: 0 <= i < |c.batches| ==>
                         c'.batches[i] == if i == id then c.batches[id].(armed := false) else c.batches[i];
  }

  lemma WantedOnTime(c: Core, wanted: multiset<string>, held: multiset<nat>, block: string)
    requires block in c.pending && c.pending[block] < |c.batches| && OnTime(c, wanted, held)
    ensures OnTime(c, wanted + multiset{block}, held) <==>
            |c.batches[c.pending[block]].columns| >= c.batches[c.pending[block]].expected
  {
    assert block in wanted + multiset{block};
  }

  lemma FireOnTime(s: State, id: nat)
    requires CoreInv(s) && id < |s.core.batches| && OnTime(s.core, s.wanted, s.held)
    ensures var s' := FireStep(s, id);
            OnTime(s'.core, s'.wanted, s'.held) <==> !TooEarly(s, Fire(id))
  {
    hide OnTime;
    var b := s.core.batches[id];
    if b.armed {
      var c' := With(s.core, id, b.(armed := false));
      DisarmedOnTime(s.core, s.wanted, s.held, id);
      assert b.block in c'.pending && c'.pending[b.block] == id && c'.batches[id] == b.(armed := false);
      WantedOnTime(c', s.wanted, s.held, b.block);
    }
  }

  lemma LookUpOnTime(s: State, block: string)
    requires CoreInv(s) && block in s.wanted && OnTime(s.core, s.wanted, s.held)
    ensures OnTime(LookUpStep(s, block).core, LookUpStep(s, block).wanted, LookUpStep(s, block).held)
  {
  }

  lemma DispatchOnTime(c: Core, wanted: multiset<string>, held: multiset<nat>, id: nat)
    requires id in held && id < |c.batches| && OnTime(c, wanted, held)
    ensures OnTime(With(c, id, Dispatched(c.batches[id])), wanted, held)
  {
    var c' := With(c, id, Dispatched(c.batches[id]));
    assert forall i :: 0 <= i < |c.batches| ==>
                         c'.batches[i] == if i == id then Dispatched(c.batches[id]) else c.batches[i];
  }

  lemma FewerHeld(c: Core, wanted: multiset<string>, held: multiset<nat>, id: nat)
    requires id in held && OnTime(c, wanted, held)
    ensures OnTime(c, wanted, held - multiset{id})
  {
  }

  lemma FlushOnTime(s: State, id: nat)
    requires Enabled(s, Flush(id)) && OnTime(s.core, s.wanted, s.held)
    ensures OnTime(FlushStep(s, id).core, FlushStep(s, id).wanted, FlushStep(s, id).held)
  {
    hide CanFlush, OnTime, With, Dispatched;
    DispatchOnTime(s.core, s.wanted, s.held, id);
    FewerHeld(FlushStep(s, id).core, s.wanted, s.held, id);
  }

  lemma RemoveOnTime(s: State, block: string)
    requires CoreInv(s) && block in s.removals && OnTime(s.core, s.wanted, s.held)
    ensures OnTime(RemoveStep(s, block).core, RemoveStep(s, block).wanted, RemoveStep(s, block).held)
  {
  }

  lemma StepOnTime(s: State, e: Event)
    requires CoreInv(s) && OnTime(s.core, s.wanted, s.held)
    ensures OnTime(Step(s, e).core, Step(s, e).wanted, Step(s, e).held) <==> !TooEarly(s, e)
  {
    hide CoreInv, OnTime, ArriveStep, StoreStep, FireStep, LookUpStep, FlushStep, RemoveStep;
    if Enabled(s, e) {
      match e {
        case Arrive(block, col, expected) => ArriveOnTime(s, block, col, expected);
        case Store(token) => StoreOnTime(s, token);
        case Fire(id) => FireOnTime(s, id);
        case LookUp(block) => LookUpOnTime(s, block);
        case Flush(id) => FlushOnTime(s, id);
        case Remove(block) => RemoveOnTime(s, block);
      }
    }
  }

  /** No batch lacks a column when it is wanted, held or dispatched, after every event of the run. */
  ghost predicate HoldsThroughout(events: seq<Event>) {
    forall n :: 0 <= n <= |events| ==> HoldsAt(events, n)
  }

  ghost predicate HoldsAt(events: seq<Event>, n: nat)
    requires n <= |events|
  {
    var s := Run(events[..n]);
    OnTime(s.core, s.wanted, s.held)
  }

  ghost predicate NoneTooEarly(events: seq<Event>) {
    forall n :: 0 <= n < |events| ==> !TooEarly(Run(events[..n]), events[n])
  }

  lemma ThroughoutLast(events: seq<Event>)
    requires events != []
    ensures HoldsThroughout(events) <==> HoldsThroughout(events[..|events| - 1]) && HoldsAt(events, |events|)
  {
    hide Run, OnTime;
    var n := |events| - 1;
    assert forall m :: 0 <= m <= n ==> events[..n][..m] == events[..m];
    forall m | 0 <= m <= n ensures HoldsAt(events[..n], m) <==> HoldsAt(events, m) {
    }
  }

  lemma NoneEarlyLast(events: seq<Event>)
    requires events != []
    ensures var n := |events| - 1;
            NoneTooEarly(events) <==> NoneTooEarly(events[..n]) && !TooEarly(Run(events[..n]), events[n])
  {
    hide Run, TooEarly;
    var n := |events| - 1;
    assert forall m :: 0 <= m <= n ==> events[..n][..m] == events[..m];
  }

  lemma ThroughoutHoldsLast(events: seq<Event>)
    requires HoldsThroughout(events)
    ensures OnTime(Run(events).core, Run(events).wanted, Run(events).held)
  {
    hide Run, OnTime;
    assert HoldsAt(events, |events|) && events[..|events|] == events;
  }

  /** Over a whole run, no batch with fewer than its expected columns is ever flushed, or about to be, exactly when no
      timer runs out early and no block gets a new batch while an old flush of it is still to come. */
  lemma {:induction false} BarrierHolds(events: seq<Event>)
    ensures HoldsThroughout(events) <==> NoneTooEarly(events)
  {
    hide CoreInv, PlacesInv, Step, TooEarly, OnTime, HoldsThroughout, NoneTooEarly;
    if events == [] {
      NothingHeld();
    } else {
      var n := |events| - 1;
      var front := events[..n];
      BarrierHolds(front);
      ThroughoutLast(events);
      NoneEarlyLast(events);
      if HoldsThroughout(front) {
        ThroughoutHoldsLast(front);
        ProcessedOnce(front);
        StepOnTime(Run(front), events[n]);
        assert events[..n + 1] == events;
      }
    }
  }

  lemma NothingHeld()
    ensures HoldsThroughout([]) && NoneTooEarly([])
  {
    hide OnTime;
    var none: seq<Event> := [];
    assert none[..0] == none;
    StartOnTime();
  }

  lemma StartOnTime()
    ensures OnTime(Start.core, Start.wanted, Start.held)
  {
  }

  /** The flushes to come of a block whose batch is gone. */
  ghost predicate NoneStale(s: State) {
    forall b :: b in s.wanted ==> b in s.core.pending
  }

  lemma StoreNoneStale(s: State, token: nat)
    requires CoreInv(s) && NoneStale(s) && Enabled(s, Store(token))
    ensures NoneStale(StoreStep(s, token))
  {
    hide Put, Full;
  }

  lemma FireNoneStale(s: State, id: nat)
    requires CoreInv(s) && NoneStale(s) && id < |s.core.batches|
    ensures NoneStale(FireStep(s, id))
  {
  }

  lemma StepNoneStale(s: State, e: Event)
    requires CoreInv(s) && NoneStale(s) && !e.Remove?
    ensures NoneStale(Step(s, e))
  {
    hide CoreInv, StoreStep, FireStep, CanFlush;
    if Enabled(s, e) {
      match e {
        case Store(token) => StoreNoneStale(s, token);
        case Fire(id) => FireNoneStale(s, id);
        case _ =>
      }
    }
  }

  lemma {:induction false} RunNoneStale(events: seq<Event>)
    requires forall e :: e in events ==> !e.Remove?
    ensures NoneStale(Run(events))
  {
    hide NoneStale, CoreInv, PlacesInv, Step;
    if events == [] {
      assert NoneStale(Start) by { NoneYet(); }
    } else {
      var n := |events| - 1;
      RunNoneStale(events[..n]);
      ProcessedOnce(events[..n]);
      StepNoneStale(Run(events[..n]), events[n]);
    }
  }

  lemma NoneYet()
    ensures NoneStale(Start)
  {
  }

  /** So in a run in which no timer runs out, for the 30 seconds until the first removal, whatever is flushed is full. */
  lemma FullUntilRemoved(events: seq<Event>)
    requires forall e :: e in events ==> !e.Fire? && !e.Remove?
    ensures HoldsThroughout(events)
  {
    hide HoldsThroughout, NoneStale, Run, TooEarly;
    BarrierHolds(events);
    forall n | 0 <= n < |events| ensures !TooEarly(Run(events[..n]), events[n]) {
      RunNoneStale(events[..n]);
      NotStale(Run(events[..n]), events[n]);
    }
  }

  lemma NotStale(s: State, e: Event)
    requires NoneStale(s) && !e.Fire?
    ensures !TooEarly(s, e)
  {
  }

  // Full batches are flushed.

  /** Every batch that waits with its expected columns, or more, is wanted or held by a flush. */
  ghost predicate FullIsWanted(s: State) {
    forall id :: 0 <= id < |s.core.batches| && !s.core.batches[id].dispatched && |s.core.batches[id].columns| > 0
                 && |s.core.batches[id].columns| >= s.core.batches[id].expected ==>
                   s.core.batches[id].block in s.wanted || id in s.held
  }

  lemma ArriveFull(s: State, block: string, col: int, expected: int)
    requires CoreInv(s) && FullIsWanted(s)
    ensures FullIsWanted(ArriveStep(s, block, col, expected))
  {
  }

  lemma StoreFull(s: State, token: nat)
    requires CoreInv(s) && Enabled(s, Store(token)) && FullIsWanted(s)
    ensures FullIsWanted(StoreStep(s, token))
  {
    hide Put;
    var (id, col) := s.arriving[token];
    PutGrows(s.core.batches[id], col, token);
  }

  lemma FireFull(s: State, id: nat)
    requires id < |s.core.batches| && FullIsWanted(s)
    ensures FullIsWanted(FireStep(s, id))
  {
  }

  lemma LookUpFull(s: State, block: string)
    requires CoreInv(s) && block in s.wanted && FullIsWanted(s)
    ensures FullIsWanted(LookUpStep(s, block))
  {
  }

  lemma FlushFull(s: State, id: nat)
    requires Enabled(s, Flush(id)) && FullIsWanted(s)
    ensures FullIsWanted(FlushStep(s, id))
  {
    assert forall other :: other != id ==> FlushStep(s, id).held[other] == s.held[other];
  }

  lemma RemoveFull(s: State, block: string)
    requires block in s.removals && FullIsWanted(s)
    ensures FullIsWanted(RemoveStep(s, block))
  {
  }

  /** In every run a full batch is wanted or held by a flush until it is dispatched. */
  lemma {:induction false} FullIsFlushed(events: seq<Event>)
    ensures FullIsWanted(Run(events))
  {
    hide FullIsWanted, CoreInv, PlacesInv, ArriveStep, StoreStep, FireStep, LookUpStep, FlushStep, RemoveStep;
    if events == [] {
      assert FullIsWanted(Start) by { NoneFull(); }
    } else {
      var n := |events| - 1;
      var s, e := Run(events[..n]), events[n];
      FullIsFlushed(events[..n]);
      ProcessedOnce(events[..n]);
      if Enabled(s, e) {
        match e {
          case Arrive(block, col, expected) => ArriveFull(s, block, col, expected);
          case Store(token) => StoreFull(s, token);
          case Fire(id) => FireFull(s, id);
          case LookUp(block) => LookUpFull(s, block);
          case Flush(id) => FlushFull(s, id);
          case Remove(block) => RemoveFull(s, block);
        }
      }
    }
  }

  lemma NoneFull()
    ensures FullIsWanted(Start)
  {
  }

  // A run without a timer that flushes a batch too early.

  lemma RunThreeMore(events: seq<Event>, a: Event, b: Event, c: Event)
    ensures Run(events + [a, b, c]) == Step(Step(Step(Run(events), a), b), c)
  {
    hide Step;
    RunOneMore(events, a);
    RunOneMore(events + [a], b);
    RunOneMore(events + [a] + [b], c);
    assert events + [a] + [b] + [c] == events + [a, b, c];
  }

  const Coming := Start.(core := Core(map["b" := 0], [Batch("b", 2, map[], false, true)]), next := 3,
                         arriving := map[0 := (0, 0), 1 := (0, 1), 2 := (0, 2)])
  const Whole := map[0 := 0, 1 := 1, 2 := 2]
  const Twice := Start.(core := Core(map["b" := 0], [Batch("b", 2, Whole, false, false)]), next := 3,
                        wanted := multiset{"b", "b"})
  const Gone := Start.(core := Core(map[], [Batch("b", 2, Whole, true, false)]), next := 3, wanted := multiset{"b"},
                       runs := [Whole])

  lemma ThreeArrive()
    ensures Step(Step(Step(Start, Arrive("b", 0, 2)), Arrive("b", 1, 2)), Arrive("b", 2, 2)) == Coming
  {
    var s1 := Step(Start, Arrive("b", 0, 2));
    assert s1 == Start.(core := Coming.core, next := 1, arriving := map[0 := (0, 0)]);
    assert Step(s1, Arrive("b", 1, 2)) == s1.(next := 2, arriving := map[0 := (0, 0), 1 := (0, 1)]);
  }

  const One := Coming.(core := Core(map["b" := 0], [Batch("b", 2, map[0 := 0], false, true)]),
                       arriving := map[1 := (0, 1), 2 := (0, 2)])
  const Two := One.(core := Core(map["b" := 0], [Batch("b", 2, map[0 := 0, 1 := 1], false, false)]),
                    arriving := map[2 := (0, 2)], wanted := multiset{"b"})

  lemma StoreFirst()
    ensures Step(Coming, Store(0)) == One
  {
    var b := Coming.core.batches[0];
    assert Put(b, 0, 0) == One.core.batches[0] by { assert |map[0 := 0]| == 1; }
    assert Coming.arriving - {0} == One.arriving;
  }

  lemma StoreSecond()
    ensures Step(One, Store(1)) == Two
  {
    var b := One.core.batches[0];
    assert Put(b, 1, 1) == Two.core.batches[0] by { assert |map[0 := 0, 1 := 1]| == 2; }
    assert One.arriving - {1} == Two.arriving;
  }

  lemma StoreThird()
    ensures Step(Two, Store(2)) == Twice
  {
    var b := Two.core.batches[0];
    assert Put(b, 2, 2) == Twice.core.batches[0] by { assert |Whole| == 3; }
    assert Two.arriving - {2} == Twice.arriving;
  }

  lemma ThreeStored()
    ensures Step(Step(Step(Coming, Store(0)), Store(1)), Store(2)) == Twice
  {
    hide Step;
    StoreFirst();
    StoreSecond();
    StoreThird();
  }

  lemma FlushTwice()
    ensures Step(Twice.(wanted := multiset{"b"}, held := multiset{0}), Flush(0)) ==
            Gone.(core := Core(map["b" := 0], Gone.core.batches), removals := multiset{"b"})
  {
    var b := Twice.core.batches[0];
    assert CanFlush(b) by { assert |Whole| > 0; }
    assert Twice.core.batches[0 := Dispatched(b)] == Gone.core.batches;
  }

  lemma FirstFlush()
    ensures Step(Step(Step(Twice, LookUp("b")), Flush(0)), Remove("b")) == Gone
  {
    hide FlushStep;
    assert Step(Twice, LookUp("b")) == Twice.(wanted := multiset{"b"}, held := multiset{0});
    FlushTwice();
    assert map["b" := 0] - {"b"} == map[];
  }

  const Again := Gone.(core := Core(map["b" := 1], Gone.core.batches + [Batch("b", 2, map[], false, true)]), next := 4,
                       arriving := map[3 := (1, 3)])
  const Alone := Again.(core := Core(map["b" := 1], Gone.core.batches + [Batch("b", 2, map[3 := 3], false, true)]),
                        arriving := map[])

  lemma StoreAlone()
    ensures Step(Again, Store(3)) == Alone
  {
    var b := Again.core.batches[1];
    assert Put(b, 3, 3) == Alone.core.batches[1] by { assert |map[3 := 3]| == 1; }
    assert Again.arriving - {3} == Alone.arriving;
    assert Again.core.batches[1 := Put(b, 3, 3)] == Alone.core.batches;
  }

  lemma FlushAlone()
    ensures Step(Alone.(wanted := multiset{}, held := multiset{1}), Flush(1)).core ==
            Core(map["b" := 1], Gone.core.batches + [Batch("b", 2, map[3 := 3], true, false)])
  {
    var b := Alone.core.batches[1];
    assert CanFlush(b) by { assert |map[3 := 3]| == 1; }
    assert Alone.core.batches[1 := Dispatched(b)] == Gone.core.batches + [Dispatched(b)];
  }

  lemma SecondFlush()
    ensures Step(Step(Step(Step(Gone, Arrive("b", 3, 2)), Store(3)), LookUp("b")), Flush(1)).core ==
            Core(map["b" := 1], Gone.core.batches + [Batch("b", 2, map[3 := 3], true, false)])
  {
    hide StoreStep, FlushStep;
    assert Step(Gone, Arrive("b", 3, 2)) == Again;
    StoreAlone();
    assert Step(Alone, LookUp("b")) == Alone.(wanted := multiset{}, held := multiset{1});
    FlushAlone();
  }

  /** Three columns make a batch of two wanted twice. The second flush outlives the batch and its removal, and takes the
      next column of the block alone. */
  lemma StaleFlush()
    ensures var s := Run([Arrive("b", 0, 2), Arrive("b", 1, 2), Arrive("b", 2, 2), Store(0), Store(1), Store(2),
                          LookUp("b"), Flush(0), Remove("b"), Arrive("b", 3, 2), Store(3), LookUp("b"), Flush(1)]);
            |s.core.batches| == 2 && s.core.batches[1] == Batch("b", 2, map[3 := 3], true, false)
  {
    hide Step;
    var first: seq<Event> := [Arrive("b", 0, 2), Arrive("b", 1, 2), Arrive("b", 2, 2)];
    var second := first + [Store(0), Store(1), Store(2)];
    var third := second + [LookUp("b"), Flush(0), Remove("b")];
    var fourth := third + [Arrive("b", 3, 2), Store(3), LookUp("b")];
    RunThreeMore([], Arrive("b", 0, 2), Arrive("b", 1, 2), Arrive("b", 2, 2));
    assert [] + first == first;
    RunThreeMore(first, Store(0), Store(1), Store(2));
    RunThreeMore(second, LookUp("b"), Flush(0), Remove("b"));
    RunThreeMore(third, Arrive("b", 3, 2), Store(3), LookUp("b"));
    RunOneMore(fourth, Flush(1));
    assert fourth + [Flush(1)] ==
           [Arrive("b", 0, 2), Arrive("b", 1, 2), Arrive("b", 2, 2), Store(0), Store(1), Store(2),
            LookUp("b"), Flush(0), Remove("b"), Arrive("b", 3, 2), Store(3), LookUp("b"), Flush(1)];
    ThreeArrive();
    ThreeStored();
    FirstFlush();
    SecondFlush();
  }
}
