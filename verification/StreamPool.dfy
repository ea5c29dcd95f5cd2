/**
 The bootstrap node's bounded pool of streams to one store. Each event is one section under the pool's mutex or
 one operation on its channel; senders and the closing goroutine may interleave them in any order.
 */
module StreamPool {

  /** The pool object: free is the buffered channel of idle streams, of capacity max. */
  datatype Pool = Pool(max: nat, cur: int, closed: bool, free: seq<nat>)

  /** The goroutines around it. Streams are known by number, fresh ones from next on.
      failed: dials that failed and have yet to be uncounted; checking, returning: streams on their way back,
      before and after the closed flag is read; dropping: streams reset and yet to be uncounted;
      drained: streams the closing goroutine has reset. */
  datatype State = State(pool: Pool, next: nat, dialing: nat, failed: nat, held: multiset<nat>,
                         checking: multiset<nat>, returning: multiset<nat>, dropping: nat, drained: nat)

  datatype Event =
    | TakeIdle
    | Reserve
    | DialOk
    | DialFailed
    | Uncount
    | Release(stream: nat, failed: bool)
    | Check(stream: nat)
    | Send(stream: nat)
    | Drop
    | Close
    | Drain

  function Start(max: nat): State {
    State(Pool(max, 0, false, []), 0, 0, 0, multiset{}, multiset{}, multiset{}, 0, 0)
  }

  // What the sections do to the pool.

  predicate CanReserve(p: Pool) {
    p.cur < p.max
  }

  predicate HasRoom(p: Pool) {
    |p.free| < p.max
  }

  function Returned(p: Pool, stream: nat): Pool {
    if HasRoom(p) then p.(free := p.free + [stream]) else p
  }

  function Step(s: State, e: Event): State {
    var p := s.pool;
    match e
    case TakeIdle =>
      if p.free == [] then s else s.(pool := p.(free := p.free[1..]), held := s.held + multiset{p.free[0]})
    case Reserve =>
      if CanReserve(p) then s.(pool := p.(cur := p.cur + 1), dialing := s.dialing + 1) else s
    case DialOk =>
      if s.dialing == 0 then s else s.(dialing := s.dialing - 1, next := s.next + 1, held := s.held + multiset{s.next})
    case DialFailed =>
      if s.dialing == 0 then s else s.(dialing := s.dialing - 1, failed := s.failed + 1)
    case Uncount =>
      if s.failed == 0 then s else s.(pool := p.(cur := p.cur - 1), failed := s.failed - 1)
    case Release(stream, failed) =>
      if stream !in s.held then s
      else if failed then s.(held := s.held - multiset{stream}, dropping := s.dropping + 1)
      else s.(held := s.held - multiset{stream}, checking := s.checking + multiset{stream})
    case Check(stream) =>
      if stream !in s.checking then s
      else if p.closed then s.(checking := s.checking - multiset{stream}, dropping := s.dropping + 1)
      else s.(checking := s.checking - multiset{stream}, returning := s.returning + multiset{stream})
    case Send(stream) =>
      if stream !in s.returning then s
      else
        s.(pool := Returned(p, stream), returning := s.returning - multiset{stream},
        dropping := s.dropping + if HasRoom(p) then 0 else 1)
    case Drop =>
      if s.dropping == 0 then s else s.(pool := p.(cur := p.cur - 1), dropping := s.dropping - 1)
    case Close => s.(pool := p.(closed := true))
    case Drain =>
      if !p.closed || p.free == [] then s else s.(pool := p.(free := p.free[1..]), drained := s.drained + 1)
  }

  ghost function Run(max: nat, events: seq<Event>): State {
    if events == [] then Start(max) else Step(Run(max, events[..|events| - 1]), events[|events| - 1])
  }

  // The accounts.

  /** Streams that are open or being opened. */
  function Live(s: State): nat {
    |s.pool.free| + |s.held| + |s.checking| + |s.returning| + s.dropping + s.dialing + s.failed
  }

  ghost function Streams(s: State): multiset<nat> {
    multiset(s.pool.free) + s.held + s.checking + s.returning
  }

  /** The count is that of the live streams and of those drained on closing, and within the limit;
      no stream is in two places. */
  ghost predicate Inv(s: State) {
    && Balanced(s)
    && (s.drained > 0 ==> s.pool.closed)
    && (forall x :: x in Streams(s) ==> Streams(s)[x] == 1 && x < s.next)
  }

  predicate Balanced(s: State) {
    s.pool.cur == Live(s) + s.drained <= s.pool.max
  }

  lemma StepCount(s: State, e: Event)
    requires Balanced(s)
    ensures Balanced(Step(s, e))
  {
    hide Step, Balanced;
    if e.Release? || e.Check? || e.Send? {
      CountReturned(s, e);
    } else if e.Reserve? || e.DialOk? || e.DialFailed? || e.Uncount? {
      CountDialled(s, e);
    } else {
      CountIdle(s, e);
    }
  }

  lemma CountReturned(s: State, e: Event)
    requires Balanced(s) && (e.Release? || e.Check? || e.Send?)
    ensures Balanced(Step(s, e))
  {
  }

  lemma CountDialled(s: State, e: Event)
    requires Balanced(s) && (e.Reserve? || e.DialOk? || e.DialFailed? || e.Uncount?)
    ensures Balanced(Step(s, e))
  {
  }

  lemma CountIdle(s: State, e: Event)
    requires Balanced(s) && (e.TakeIdle? || e.Drop? || e.Close? || e.Drain?)
    ensures Balanced(Step(s, e))
  {
  }

  /** A stream on its way back always finds room: the overflow branch is never taken. */
  lemma NeverOverflows(s: State, stream: nat)
    requires Inv(s) && stream in s.returning
    ensures HasRoom(s.pool)
  {
    assert s.returning == s.returning - multiset{stream} + multiset{stream};
  }

  lemma TakenApart(free: seq<nat>)
    requires free != []
    ensures multiset(free) == multiset{free[0]} + multiset(free[1..])
  {
    assert free == [free[0]] + free[1..];
  }

  function Fresh(s: State, e: Event): multiset<nat> {
    if e.DialOk? && s.dialing > 0 then multiset{s.next} else multiset{}
  }

  /** A step moves streams about, resets some, and adds at most a fresh one. */
  lemma StepMoves(s: State, e: Event)
    ensures Streams(Step(s, e)) <= Streams(s) + Fresh(s, e)
  {
    hide Step, Streams, Fresh;
    if e.TakeIdle? || e.Drain? {
      MoveIdle(s, e);
    } else if e.Release? {
      MoveReleased(s, e);
    } else if e.Check? {
      MoveChecked(s, e);
    } else if e.Send? {
      MoveSent(s, e);
    } else {
      MoveNone(s, e);
    }
  }

  lemma MoveIdle(s: State, e: Event)
    requires e.TakeIdle? || e.Drain?
    ensures Streams(Step(s, e)) <= Streams(s)
  {
    if s.pool.free != [] {
      TakenApart(s.pool.free);
    }
  }

  lemma MoveReleased(s: State, e: Event)
    requires e.Release?
    ensures Streams(Step(s, e)) <= Streams(s)
  {
    Without(s.held, e.stream);
  }

  lemma MoveChecked(s: State, e: Event)
    requires e.Check?
    ensures Streams(Step(s, e)) <= Streams(s)
  {
    Without(s.checking, e.stream);
  }

  lemma MoveSent(s: State, e: Event)
    requires e.Send?
    ensures Streams(Step(s, e)) <= Streams(s)
  {
    Without(s.returning, e.stream);
  }

  lemma MoveNone(s: State, e: Event)
    requires !e.TakeIdle? && !e.Drain? && !e.Release? && !e.Check? && !e.Send?
    ensures Streams(Step(s, e)) == Streams(s) + Fresh(s, e)
  {
  }

  lemma Without(m: multiset<nat>, x: nat)
    ensures x in m ==> m == m - multiset{x} + multiset{x}
  {
  }

  lemma StepInv(s: State, e: Event)
    requires Inv(s)
    ensures Inv(Step(s, e))
  {
    hide Live, Streams, Balanced;
    StepCount(s, e);
    StepMoves(s, e);
    DrainsWhenClosed(s, e);
    var s' := Step(s, e);
    forall x | x in Streams(s') ensures Streams(s')[x] == 1 && x < s'.next {
      assert Streams(s')[x] <= (Streams(s) + Fresh(s, e))[x] == Streams(s)[x] + Fresh(s, e)[x];
    }
  }

  lemma DrainsWhenClosed(s: State, e: Event)
    requires s.drained > 0 ==> s.pool.closed
    ensures Step(s, e).drained > 0 ==> Step(s, e).pool.closed
  {
  }

  /** In every run the count stays within the limit, equals the live streams until the pool is closed and those
      plus the drained ones after, no stream is in two hands, and a returned stream finds room. */
  lemma {:induction false} RunInv(max: nat, events: seq<Event>)
    ensures var s := Run(max, events);
            && Inv(s) && s.pool.max == max
            && Live(s) <= s.pool.cur <= max
            && (!s.pool.closed ==> s.pool.cur == Live(s))
            && (forall x :: x in s.returning ==> HasRoom(s.pool))
  {
    hide Inv, Step, Live, HasRoom;
    if events == [] {
      StartInv(max);
    } else {
      var n := |events| - 1;
      RunInv(max, events[..n]);
      StepInv(Run(max, events[..n]), events[n]);
      StepMax(Run(max, events[..n]), events[n]);
    }
    Accounts(Run(max, events));
  }

  lemma Accounts(s: State)
    requires Inv(s)
    ensures Live(s) <= s.pool.cur <= s.pool.max && (!s.pool.closed ==> s.pool.cur == Live(s))
    ensures forall x :: x in s.returning ==> HasRoom(s.pool)
  {
    forall x | x in s.returning ensures HasRoom(s.pool) {
      NeverOverflows(s, x);
    }
  }

  lemma StepMax(s: State, e: Event)
    ensures Step(s, e).pool.max == s.pool.max
  {
  }

  lemma StartInv(max: nat)
    ensures Inv(Start(max)) && Start(max).pool.max == max
  {
  }

  /** The limit is used in full: until the pool is closed, a sender that finds no idle stream dials one exactly when
      fewer than the limit are open or being opened. */
  lemma DialsWhenever(max: nat, events: seq<Event>)
    requires !Run(max, events).pool.closed
    ensures var s := Run(max, events);
            var live := |s.pool.free| + |s.held| + |s.checking| + |s.returning| + s.dropping + s.dialing + s.failed;
            && (live < max ==> Step(s, Reserve).dialing == s.dialing + 1 && Step(s, Reserve).pool.cur == live + 1)
            && (live >= max ==> Step(s, Reserve) == s)
  {
    hide Run;
    RunInv(max, events);
  }

  /** A stream on its way back is the next to be idle after those that are, unless the channel is full. */
  lemma ReturnsLast(s: State, stream: nat)
    requires stream in s.returning
    ensures var s' := Step(s, Send(stream));
            && s'.returning == s.returning - multiset{stream}
            && (|s.pool.free| < s.pool.max ==> s'.pool.free == s.pool.free + [stream] && s'.dropping == s.dropping)
            && (|s.pool.free| >= s.pool.max ==> s'.pool.free == s.pool.free && s'.dropping == s.dropping + 1)
            && s'.pool.cur == s.pool.cur
  {
  }

  // The pool object.

  class PeerStreamPool {
    const maxStreams: nat
    var curStreams: int
    var closed: bool
    var freeCh: seq<nat>

    ghost function Contents(): Pool
      reads this
    {
      Pool(maxStreams, curStreams, closed, freeCh)
    }

    constructor (maxStreams: nat)
      ensures Contents() == Start(maxStreams).pool
    {
      this.maxStreams, curStreams, closed, freeCh := maxStreams, 0, false, [];
    }

    /** The non-blocking receive of an acquiring sender, and the draining one of the closer. */
    method Receive() returns (ok: bool, stream: nat)
      modifies this`freeCh
      ensures ok <==> old(freeCh) != []
      ensures ok ==> stream == old(freeCh)[0] && Contents() == old(Contents()).(free := old(freeCh)[1..])
      ensures !ok ==> Contents() == old(Contents())
    {
      ok, stream := |freeCh| > 0, 0;
      if ok {
        stream := freeCh[0];
        freeCh := freeCh[1..];
      }
    }

    /** Counts a stream about to be dialled, when there is room for one. */
    method Reserve() returns (ok: bool)
      modifies this`curStreams
      ensures ok <==> old(curStreams) < maxStreams
      ensures Contents() == old(Contents()).(cur := old(curStreams) + if ok then 1 else 0)
    {
      ok := curStreams < maxStreams;
      if ok {
        curStreams := curStreams + 1;
      }
    }

    /** Uncounts a stream that is gone. */
    method Uncount()
      modifies this`curStreams
      ensures Contents() == old(Contents()).(cur := old(curStreams) - 1)
    {
      curStreams := curStreams - 1;
    }

    /** The non-blocking send of a stream given back. */
    method GiveBack(stream: nat) returns (ok: bool)
      modifies this`freeCh
      ensures ok <==> |old(freeCh)| < maxStreams
      ensures freeCh == if ok then old(freeCh) + [stream] else old(freeCh)
      ensures Contents() == Returned(old(Contents()), stream)
    {
      ok := |freeCh| < maxStreams;
      if ok {
        freeCh := freeCh + [stream];
      }
    }

    method MarkClosed()
      modifies this`closed
      ensures Contents() == old(Contents()).(closed := true)
    {
      closed := true;
    }
  }
}
