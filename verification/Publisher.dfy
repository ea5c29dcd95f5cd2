/**
 The publisher's side of a block: counting store reports to a quorum, announcing the block once, and keeping
 the pipeline of blocks in flight short. Each event is one section under the publisher's mutex; goroutines may
 interleave them in any order.
 */
module Publisher {
  import opened Basics
  import opened Division

  /** Settings that do not change while the publisher runs. */
  datatype Config = Config(activeCols: int, numCols: int, kVal: int, storesPerCol: int, maxInFlight: int,
                           quorum: QuorumRule)

  /** What a column must reach to be ready: two thirds, a configured number where there are that many, or all. */
  datatype QuorumRule = TwoThirds | AtLeast(number: int) | Everyone

  /** A store's report, its height resolved from the message or the block's name. */
  datatype Report = Report(block: string, netCol: int, row: int, netRows: int, storesPerCol: int, activePeers: int,
                           custodyRows: seq<int>, peer: string, height: int)

  /** The decision to announce a block, made on a quorum of columns or on the timeout branch. */
  datatype Emission = Emission(block: string, height: int, byQuorum: bool)

  type Column = (string, int)

  /** What the store reports add up to. */
  datatype Tally = Tally(covered: map<Column, set<int>>, peers: map<Column, set<string>>, ready: map<string, set<int>>)

  datatype Pipeline = Pipeline(inFlight: map<string, int>, count: int, published: int, completed: int)

  /** pending: announcements decided and not yet made; sent: those made. */
  datatype State = State(tally: Tally, emitted: set<string>, blockK: map<string, int>, started: set<string>,
                         pipe: Pipeline, pending: multiset<Emission>, sent: multiset<Emission>)

  const Start := State(Tally(map[], map[], map[]), {}, map[], {}, Pipeline(map[], 0, 0, 0), multiset{}, multiset{})

  datatype Event =
    | StoreReady(report: Report)                                   // a store reports a block complete
    | Mark(block: string, netCol: int, row: nat, netRows: int)     // the monitor finds a lagging store done
    | Broadcast(emission: Emission)                                // an announcement is made
    | Reconcile(late: set<string>, dead: set<string>)              // the reconciliation tick
    | Admit(block: string, height: int)                            // a block passes the admission gate
    | Withdraw(block: string)                                      // its publication failed
    | Begin(block: string, height: int, k: int)                    // its distribution begins

  function Get<K, V>(m: map<K, set<V>>, key: K): set<V> {
    if key in m then m[key] else {}
  }

  function OrElse(x: int, other: int): int {
    if x <= 0 then other else x
  }

  function ExpectedCols(cfg: Config): (cols: int)
    ensures cols > 0
  {
    OrElse(cfg.activeCols, 8)
  }

  function ColsPerNetCol(cfg: Config, n: int): (c: int)
    requires n > 0
    ensures c > 0
  {
    var c := n / OrElse(cfg.numCols, 8);
    if c <= 0 then 1 else c
  }

  /** Division toward zero. */
  function Quotient(a: int, b: int): int
    requires b > 0
  {
    if a >= 0 then a / b else -(-a / b)
  }

  /** The side of the extended block: twice what its publication recorded, or else the configured size. */
  function ExtendedSize(cfg: Config, blockK: map<string, int>, block: string): (n: int)
    ensures n > 0
    ensures block in blockK && blockK[block] > 0 ==> n == 2 * blockK[block]
  {
    OrElse(2 * OrElse(if block in blockK then blockK[block] else 0, cfg.kVal), 32)
  }

  predicate NetColActive(cfg: Config, col: int, n: int)
    requires n > 0
  {
    var c := ColsPerNetCol(cfg, n);
    Quotient(Quotient(col, c) * c, c) < ExpectedCols(cfg)
  }

  /** The guard reads the network column as a data column: it lets in everything below the expected number
      of columns times their width. */
  lemma GuardAdmits(cfg: Config, col: int, n: int)
    requires n > 0
    ensures NetColActive(cfg, col, n) <==> col < ExpectedCols(cfg) * ColsPerNetCol(cfg, n)
  {
    hide ExpectedCols, ColsPerNetCol, Quotient;
    RoundedTwice(col, ColsPerNetCol(cfg, n));
    QuotientLess(col, ColsPerNetCol(cfg, n), ExpectedCols(cfg));
  }

  lemma RoundedTwice(a: int, b: int)
    requires b > 0
    ensures Quotient(Quotient(a, b) * b, b) == Quotient(a, b)
  {
    hide Quotient;
    var q := Quotient(a, b);
    if a >= 0 {
      assert q >= 0 by { Shape(a, b); }
      Multiple(q, b);
    } else {
      assert -q >= 0 by { Shape(a, b); }
      Multiple(-q, b);
      assert --q * b == q * b;
    }
  }

  lemma Shape(a: int, b: int)
    requires b > 0
    ensures if a >= 0 then Quotient(a, b) == a / b >= 0 else Quotient(a, b) == -(-a / b) <= 0
  {
  }

  lemma Multiple(q: int, b: int)
    requires b > 0 && q >= 0
    ensures Quotient(q * b, b) == q && Quotient(-q * b, b) == -q
  {
    Grows(0, q, b);
    QuotientUnique(b, q, 0, (q * b) / b, (q * b) % b);
    assert -q * b == -(q * b);
    Shape(q * b, b);
    Shape(-(q * b), b);
  }

  lemma QuotientLess(a: int, b: int, e: int)
    requires b > 0 && e > 0
    ensures Quotient(a, b) < e <==> a < e * b
  {
    hide Quotient;
    Shape(a, b);
    Grows(0, e, b);
    if a >= 0 {
      var q := a / b;
      assert a == b * q + a % b;
      if q < e {
        Grows(q + 1, e, b);
        assert (q + 1) * b == b * q + b;
      } else {
        Grows(e, q, b);
        assert q * b == b * q;
      }
    }
  }

  lemma Grows(a: int, b: int, c: int)
    requires a <= b && c > 0
    ensures a * c <= b * c
  {
  }

  /** It admits exactly the expected columns when and only when every network column is one data column wide. */
  lemma GuardExact(cfg: Config, n: int)
    requires n > 0
    ensures (forall col :: col >= 0 ==> (NetColActive(cfg, col, n) <==> col < ExpectedCols(cfg))) <==>
            ColsPerNetCol(cfg, n) == 1
  {
    hide NetColActive, ExpectedCols, ColsPerNetCol;
    var c, e := ColsPerNetCol(cfg, n), ExpectedCols(cfg);
    GuardAdmits(cfg, e, n);
    if c == 1 {
      forall col | col >= 0 ensures NetColActive(cfg, col, n) <==> col < e {
        GuardAdmits(cfg, col, n);
      }
    } else {
      Grows(2, c, e);
      assert e < e * c;
      assert NetColActive(cfg, e, n);
    }
  }

  // The steps.

  function NetRowsOf(r: Report): (n: int)
    ensures n > 0
  {
    OrElse(OrElse(r.netRows, r.storesPerCol), 8)
  }

  function ActiveOf(r: Report): (m: int)
    ensures m > 0
  {
    OrElse(OrElse(r.activePeers, r.storesPerCol), NetRowsOf(r))
  }

  function Digits(n: nat): string {
    if n < 10 then ["0123456789"[n]] else Digits(n / 10) + ["0123456789"[n % 10]]
  }

  function RowName(row: int): string {
    "row_" + if row >= 0 then Digits(row) else "-" + Digits(-row)
  }

  lemma {:induction false} DigitsDistinct(a: nat, b: nat)
    requires Digits(a) == Digits(b)
    ensures a == b && Digits(a)[0] != '-'
  {
    DigitsNotEmpty(a);
    DigitsNotEmpty(b);
    if a >= 10 && b >= 10 {
      var x, y := Digits(a), Digits(b);
      assert x[..|x| - 1] == Digits(a / 10) && y[..|y| - 1] == Digits(b / 10);
      assert x[|x| - 1] == "0123456789"[a % 10] && y[|y| - 1] == "0123456789"[b % 10];
      DigitsDistinct(a / 10, b / 10);
      assert x[0] == Digits(a / 10)[0] by { DigitsNotEmpty(a / 10); }
    }
  }

  lemma {:induction false} DigitsNotEmpty(n: nat)
    ensures |Digits(n)| == 1 <==> n < 10
    ensures |Digits(n)| >= 1
  {
    if n >= 10 {
      DigitsNotEmpty(n / 10);
    }
  }

  /** Reports without a peer identifier are told apart by their rows. */
  lemma RowNamesDistinct(a: int, b: int)
    requires RowName(a) == RowName(b)
    ensures a == b
  {
    var x, y := RowName(a), RowName(b);
    var da, db := Digits(if a >= 0 then a else -a), Digits(if b >= 0 then b else -b);
    DigitsDistinct(if a >= 0 then a else -a, if a >= 0 then a else -a);
    DigitsDistinct(if b >= 0 then b else -b, if b >= 0 then b else -b);
    DigitsNotEmpty(if a >= 0 then a else -a);
    DigitsNotEmpty(if b >= 0 then b else -b);
    assert x[4..] == if a >= 0 then da else "-" + da;
    assert y[4..] == if b >= 0 then db else "-" + db;
    assert a < 0 ==> x[4..][1..] == da;
    assert b < 0 ==> y[4..][1..] == db;
    if (a >= 0) == (b >= 0) {
      assert da == db;
      DigitsDistinct(if a >= 0 then a else -a, if b >= 0 then b else -b);
    }
  }

  function PeerKey(r: Report): string {
    if r.peer == "" then RowName(r.row) else r.peer
  }

  /** The network rows a report speaks for. */
  function RowsOf(r: Report): set<int> {
    var n := NetRowsOf(r);
    (if r.row >= 0 then {r.row % n} else {}) + Reduced(r.custodyRows, n)
  }

  function Reduced(rows: seq<int>, n: int): set<int>
    requires n > 0
  {
    set x | x in rows && x >= 0 :: x % n
  }

  lemma NothingReduced(n: int)
    requires n > 0
    ensures Reduced([], n) == {}
  {
  }

  lemma ReducedOneMore(rows: seq<int>, x: int, n: int)
    requires n > 0
    ensures Reduced(rows + [x], n) == Reduced(rows, n) + if x >= 0 then {x % n} else {}
  {
    forall y | y in Reduced(rows, n) + (if x >= 0 then {x % n} else {}) ensures y in Reduced(rows + [x], n) {
      if y in Reduced(rows, n) {
        var z :| z in rows && z >= 0 && z % n == y;
        assert z in rows + [x];
      } else {
        assert x in rows + [x];
      }
    }
  }

  /** Two thirds, rounded up. */
  function Supermajority(n: int): int {
    var q := (2 * n + 2) / 3;
    if q <= 0 then 1 else if q > n then n else q
  }

  function Quorum(rule: QuorumRule, n: int): int {
    match rule
    case TwoThirds => Supermajority(n)
    case AtLeast(number) => if 0 < number <= n then number else Supermajority(n)
    case Everyone => n
  }

  function Reported(t: Tally, col: Column, rows: set<int>, peer: string): Tally {
    t.(covered := t.covered[col := Get(t.covered, col) + rows], peers := t.peers[col := Get(t.peers, col) + {peer}])
  }

  predicate ColumnQuorum(rule: QuorumRule, t: Tally, col: Column, n: int, m: int) {
    |Get(t.covered, col)| >= Quorum(rule, n) && |Get(t.peers, col)| >= Quorum(rule, m)
  }

  function Counted(rule: QuorumRule, t: Tally, r: Report): Tally {
    var col := (r.block, r.netCol);
    var t' := Reported(t, col, RowsOf(r), PeerKey(r));
    var now := if ColumnQuorum(rule, t', col, NetRowsOf(r), ActiveOf(r)) then {r.netCol} else {};
    t'.(ready := t.ready[r.block := Get(t.ready, r.block) + now])
  }

  function MinStores(cfg: Config): int {
    var q := (OrElse(cfg.storesPerCol, 8) * 3) / 4;
    if q < 1 then 1 else q
  }

  function MaxOf(a: int, b: int): int {
    if a < b then b else a
  }

  /** What an announcement does to the pipeline. */
  function Completed(p: Pipeline, block: string, height: int): Pipeline {
    var left := map b | b in p.inFlight && b != block && !(0 < p.inFlight[b] <= height) :: p.inFlight[b];
    var completed := MaxOf(p.completed, height);
    var published := MaxOf(p.published, completed);
    if completed >= published > 0 then Pipeline(map[], 0, published, completed)
    else Pipeline(left, |left|, published, completed)
  }

  predicate AllDone(p: Pipeline) {
    p.completed >= p.published > 0
  }

  predicate Superseded(p: Pipeline, block: string)
    requires block in p.inFlight
  {
    0 < p.inFlight[block] <= p.completed
  }

  /** The tick announces the block on three quarters of its stores, 15 seconds after it began. */
  predicate TimedOut(cfg: Config, s: State, block: string, late: set<string>)
    requires block in s.pipe.inFlight
  {
    && !Superseded(s.pipe, block) && block in s.started && block in late
    && |Get(s.tally.covered, (block, 0))| >= MinStores(cfg) && block !in s.emitted
  }

  predicate Dropped(cfg: Config, s: State, block: string, late: set<string>, dead: set<string>)
    requires block in s.pipe.inFlight
  {
    || Superseded(s.pipe, block)
    || (block in s.started && block in late && !TimedOut(cfg, s, block, late) && block in dead)
  }

  function TickEmissions(cfg: Config, s: State, late: set<string>): set<Emission> {
    set b | b in s.pipe.inFlight && TimedOut(cfg, s, b, late) :: Emission(b, s.pipe.inFlight[b], false)
  }

  function Tick(cfg: Config, s: State, late: set<string>, dead: set<string>): State {
    if AllDone(s.pipe) then s.(pipe := s.pipe.(inFlight := map[], count := 0))
    else
      var left := map b | b in s.pipe.inFlight && !Dropped(cfg, s, b, late, dead) :: s.pipe.inFlight[b];
      s.(emitted := s.emitted + (set b | b in s.pipe.inFlight && TimedOut(cfg, s, b, late)),
      pending := s.pending + multiset(TickEmissions(cfg, s, late)),
      pipe := s.pipe.(inFlight := left, count := |left|))
  }

  function Step(cfg: Config, s: State, e: Event): State {
    match e
    case StoreReady(r) =>
      if !NetColActive(cfg, r.netCol, ExtendedSize(cfg, s.blockK, r.block)) then s
      else
        var t := Counted(cfg.quorum, s.tally, r);
        if |t.ready[r.block]| >= ExpectedCols(cfg) && r.block !in s.emitted then
          s.(tally := t, emitted := s.emitted + {r.block},
          pending := s.pending + multiset{Emission(r.block, r.height, true)})
        else s.(tally := t)
    case Mark(block, netCol, row, netRows) =>
      if netRows <= 0 then s
      else s.(tally := Reported(s.tally, (block, netCol), {row % netRows}, RowName(row)))
    case Broadcast(emission) =>
      if emission !in s.pending then s
      else
        s.(pipe := Completed(s.pipe, emission.block, emission.height),
        pending := s.pending - multiset{emission}, sent := s.sent + multiset{emission})
    case Reconcile(late, dead) => Tick(cfg, s, late, dead)
    case Admit(block, height) =>
      if |s.pipe.inFlight| >= cfg.maxInFlight then s
      else
        var inFlight := s.pipe.inFlight[block := height];
        s.(pipe := s.pipe.(inFlight := inFlight, count := |inFlight|, published := MaxOf(s.pipe.published, height)))
    case Withdraw(block) =>
      var inFlight := s.pipe.inFlight - {block};
      s.(pipe := s.pipe.(inFlight := inFlight, count := |inFlight|))
    case Begin(block, height, k) =>
      s.(pipe := s.pipe.(published := MaxOf(s.pipe.published, height)), blockK := s.blockK[block := k],
      started := s.started + {block})
  }

  ghost function Run(cfg: Config, events: seq<Event>): State {
    if events == [] then Start else Step(cfg, Run(cfg, events[..|events| - 1]), events[|events| - 1])
  }

  // The pipeline.

  predicate PipelineInv(cfg: Config, p: Pipeline) {
    p.count == |p.inFlight| <= cfg.maxInFlight && 0 <= p.completed <= p.published
  }

  lemma CompletedPipeline(cfg: Config, p: Pipeline, block: string, height: int)
    requires cfg.maxInFlight > 0 && PipelineInv(cfg, p)
    ensures PipelineInv(cfg, Completed(p, block, height))
    ensures p.completed <= Completed(p, block, height).completed && p.published <= Completed(p, block, height).published
  {
    PartIsSmaller(Completed(p, block, height).inFlight, p.inFlight);
  }

  lemma TickPipeline(cfg: Config, s: State, late: set<string>, dead: set<string>)
    requires cfg.maxInFlight > 0 && PipelineInv(cfg, s.pipe)
    ensures PipelineInv(cfg, Tick(cfg, s, late, dead).pipe)
    ensures Tick(cfg, s, late, dead).pipe.completed == s.pipe.completed
    ensures Tick(cfg, s, late, dead).pipe.published == s.pipe.published
  {
    hide TimedOut, Dropped, TickEmissions;
    PartIsSmaller(Tick(cfg, s, late, dead).pipe.inFlight, s.pipe.inFlight);
  }

  /** The count is the number of blocks in flight and within the limit, completed heights stay below published
      ones, and neither ever goes back. */
  lemma StepPipeline(cfg: Config, s: State, e: Event)
    requires cfg.maxInFlight > 0 && PipelineInv(cfg, s.pipe)
    ensures PipelineInv(cfg, Step(cfg, s, e).pipe)
    ensures s.pipe.completed <= Step(cfg, s, e).pipe.completed && s.pipe.published <= Step(cfg, s, e).pipe.published
  {
    hide NetColActive, Counted, Reported, Tick, Completed, RowName, ExpectedCols, ExtendedSize;
    match e {
      case Broadcast(emission) => CompletedPipeline(cfg, s.pipe, emission.block, emission.height);
      case Reconcile(late, dead) => TickPipeline(cfg, s, late, dead);
      case Withdraw(block) => PartIsSmaller(s.pipe.inFlight - {block}, s.pipe.inFlight);
      case _ =>
    }
  }

  lemma PartIsSmaller<K, V>(part: map<K, V>, all: map<K, V>)
    requires part.Keys <= all.Keys
    ensures |part| <= |all|
  {
    SubsetSize(part.Keys, all.Keys);
    assert |part| == |part.Keys| && |all| == |all.Keys|;
  }

  /** Neither the block nor any block of a height from 1 to the given one is in flight. */
  ghost predicate Clear(p: Pipeline, block: string, height: int) {
    block !in p.inFlight && forall b :: b in p.inFlight ==> !(1 <= p.inFlight[b] <= height)
  }

  /** A publication of the block, or of such a height, is let in again. */
  predicate Readmits(cfg: Config, s: State, e: Event, block: string, height: int) {
    e.Admit? && |s.pipe.inFlight| < cfg.maxInFlight && (e.block == block || 1 <= e.height <= height)
  }

  lemma AnnouncedLeavesPipeline(cfg: Config, s: State, emission: Emission)
    requires emission in s.pending
    ensures Clear(Step(cfg, s, Broadcast(emission)).pipe, emission.block, emission.height)
  {
  }

  lemma StepStaysClear(cfg: Config, s: State, e: Event, block: string, height: int)
    requires Clear(s.pipe, block, height)
    ensures Clear(Step(cfg, s, e).pipe, block, height) <==> !Readmits(cfg, s, e, block, height)
  {
    hide TimedOut, NetColActive, Counted, Reported, TickEmissions, RowName, ExpectedCols, ExtendedSize;
    if e.Admit? && |s.pipe.inFlight| < cfg.maxInFlight {
      assert e.block in Step(cfg, s, e).pipe.inFlight;
    }
  }

  ghost function Resume(cfg: Config, s: State, events: seq<Event>): State {
    if events == [] then s else Step(cfg, Resume(cfg, s, events[..|events| - 1]), events[|events| - 1])
  }

  /** Once announced, the block and all heights up to its own are out of the pipeline, through any further events,
      until the gate lets one of them in again. */
  lemma {:induction false} ClearUntilReadmitted(cfg: Config, s: State, emission: Emission, events: seq<Event>)
    requires emission in s.pending
    requires forall n :: 0 <= n < |events| ==>
                           !Readmits(cfg, Resume(cfg, Step(cfg, s, Broadcast(emission)), events[..n]), events[n],
                                     emission.block, emission.height)
    ensures Clear(Resume(cfg, Step(cfg, s, Broadcast(emission)), events).pipe, emission.block, emission.height)
  {
    hide Step, Clear, Readmits;
    if events == [] {
      AnnouncedLeavesPipeline(cfg, s, emission);
    } else {
      var n := |events| - 1;
      var s' := Step(cfg, s, Broadcast(emission));
      forall m | 0 <= m < n
        ensures !Readmits(cfg, Resume(cfg, s', events[..n][..m]), events[..n][m], emission.block, emission.height)
      {
        assert events[..n][..m] == events[..m];
      }
      ClearUntilReadmitted(cfg, s, emission, events[..n]);
      StepStaysClear(cfg, Resume(cfg, s', events[..n]), events[n], emission.block, emission.height);
    }
  }

  // Quorums and announcements.

  /** Every ready column has both its quorums, of the rows and stores that one of its reports has named. */
  ghost predicate Backed(rule: QuorumRule, seen: set<Report>, t: Tally) {
    forall b, c :: b in t.ready && c in t.ready[b] ==> exists r :: r in seen && Backs(rule, t, b, c, r)
  }

  predicate Backs(rule: QuorumRule, t: Tally, b: string, c: int, r: Report) {
    r.block == b && r.netCol == c && ColumnQuorum(rule, t, (b, c), NetRowsOf(r), ActiveOf(r))
  }

  ghost predicate Extends(t: Tally, t': Tally) {
    && (forall col :: Get(t.covered, col) <= Get(t'.covered, col))
    && (forall col :: Get(t.peers, col) <= Get(t'.peers, col))
    && (forall b :: Get(t.ready, b) <= Get(t'.ready, b))
  }

  /** The grounds of an announcement: enough ready columns, or enough stores of network column 0. */
  predicate Justified(cfg: Config, t: Tally, e: Emission) {
    if e.byQuorum then |Get(t.ready, e.block)| >= ExpectedCols(cfg)
    else |Get(t.covered, (e.block, 0))| >= MinStores(cfg)
  }

  function Announcements(s: State): multiset<Emission> {
    s.pending + s.sent
  }

  /** Announcements are justified, and no block has two. */
  ghost predicate AnnounceInv(cfg: Config, s: State) {
    var all := Announcements(s);
    && (forall e :: e in all ==> all[e] == 1 && e.block in s.emitted && Justified(cfg, s.tally, e))
    && (forall e, f :: e in all && f in all && e.block == f.block ==> e == f)
  }

  lemma QuorumPersists(rule: QuorumRule, t: Tally, t': Tally, col: Column, n: int, m: int)
    requires Extends(t, t') && ColumnQuorum(rule, t, col, n, m)
    ensures ColumnQuorum(rule, t', col, n, m)
  {
    SubsetSize(Get(t.covered, col), Get(t'.covered, col));
    SubsetSize(Get(t.peers, col), Get(t'.peers, col));
  }

  lemma JustifiedPersists(cfg: Config, t: Tally, t': Tally, e: Emission)
    requires Extends(t, t') && Justified(cfg, t, e)
    ensures Justified(cfg, t', e)
  {
    SubsetSize(Get(t.ready, e.block), Get(t'.ready, e.block));
    SubsetSize(Get(t.covered, (e.block, 0)), Get(t'.covered, (e.block, 0)));
  }

  lemma ReportedExtends(t: Tally, col: Column, rows: set<int>, peer: string)
    ensures Extends(t, Reported(t, col, rows, peer)) && Reported(t, col, rows, peer).ready == t.ready
  {
  }

  lemma CountedExtends(rule: QuorumRule, t: Tally, r: Report)
    ensures Extends(t, Counted(rule, t, r))
  {
    hide RowsOf, PeerKey, ColumnQuorum, Reported;
    ReportedExtends(t, (r.block, r.netCol), RowsOf(r), PeerKey(r));
  }

  lemma TickKeepsTally(cfg: Config, s: State, late: set<string>, dead: set<string>)
    ensures Tick(cfg, s, late, dead).tally == s.tally
  {
    hide Dropped, TimedOut, TickEmissions;
  }

  lemma StepExtends(cfg: Config, s: State, e: Event)
    ensures Extends(s.tally, Step(cfg, s, e).tally)
  {
    hide NetColActive, Counted, Reported, Tick, Completed, RowName;
    match e {
      case StoreReady(r) => CountedExtends(cfg.quorum, s.tally, r);
      case Mark(block, netCol, row, netRows) =>
        if netRows > 0 {
          ReportedExtends(s.tally, (block, netCol), {row % netRows}, RowName(row));
        }
      case Reconcile(late, dead) => TickKeepsTally(cfg, s, late, dead);
      case _ =>
    }
  }

  lemma BackedPersists(rule: QuorumRule, seen: set<Report>, more: set<Report>, t: Tally, t': Tally)
    requires Backed(rule, seen, t) && Extends(t, t') && t'.ready == t.ready && seen <= more
    ensures Backed(rule, more, t')
  {
    hide ColumnQuorum;
    forall b, c | b in t'.ready && c in t'.ready[b] ensures exists r :: r in more && Backs(rule, t', b, c, r) {
      var r :| r in seen && Backs(rule, t, b, c, r);
      QuorumPersists(rule, t, t', (b, c), NetRowsOf(r), ActiveOf(r));
      assert r in more && Backs(rule, t', b, c, r);
    }
  }

  lemma SameBacks(rule: QuorumRule, t: Tally, t': Tally, b: string, c: int, r: Report)
    requires t.covered == t'.covered && t.peers == t'.peers && Backs(rule, t, b, c, r)
    ensures Backs(rule, t', b, c, r)
  {
    hide NetRowsOf, ActiveOf;
  }

  lemma ReadyBacked(rule: QuorumRule, seen: set<Report>, t: Tally, b: string, now: set<int>, r: Report)
    requires Backed(rule, seen, t) && r in seen && forall c :: c in now ==> Backs(rule, t, b, c, r)
    ensures Backed(rule, seen, t.(ready := t.ready[b := Get(t.ready, b) + now]))
  {
    hide Backs;
    var t' := t.(ready := t.ready[b := Get(t.ready, b) + now]);
    forall b', c | b' in t'.ready && c in t'.ready[b'] ensures exists q :: q in seen && Backs(rule, t', b', c, q) {
      if b' == b && c in now {
        SameBacks(rule, t, t', b, c, r);
      } else {
        var q :| q in seen && Backs(rule, t, b', c, q);
        SameBacks(rule, t, t', b', c, q);
      }
    }
  }

  lemma RowsInRange(r: Report)
    ensures forall x :: x in RowsOf(r) ==> 0 <= x < NetRowsOf(r)
  {
    hide NetRowsOf;
  }

  lemma CountedBacked(rule: QuorumRule, seen: set<Report>, t: Tally, r: Report)
    requires Backed(rule, seen, t)
    ensures Backed(rule, seen + {r}, Counted(rule, t, r))
  {
    hide ColumnQuorum, Reported, Backed, NetRowsOf, ActiveOf, RowsOf;
    var col := (r.block, r.netCol);
    var t' := Reported(t, col, RowsOf(r), PeerKey(r));
    ReportedExtends(t, col, RowsOf(r), PeerKey(r));
    BackedPersists(rule, seen, seen + {r}, t, t');
    var now := if ColumnQuorum(rule, t', col, NetRowsOf(r), ActiveOf(r)) then {r.netCol} else {};
    ReadyBacked(rule, seen + {r}, t', r.block, now, r);
  }

  function ReportsIn(e: Event): set<Report> {
    if e.StoreReady? then {e.report} else {}
  }

  lemma StepBacked(cfg: Config, seen: set<Report>, s: State, e: Event)
    requires Backed(cfg.quorum, seen, s.tally)
    ensures Backed(cfg.quorum, seen + ReportsIn(e), Step(cfg, s, e).tally)
  {
    hide Backed, Counted, Reported, NetColActive, Tick, Completed, RowName, Extends;
    StepExtends(cfg, s, e);
    if e.StoreReady? {
      CountedBacked(cfg.quorum, seen, s.tally, e.report);
      ReflexiveExtends(s.tally);
      BackedPersists(cfg.quorum, seen, seen + ReportsIn(e), s.tally, s.tally);
    } else {
      KeepsReady(cfg, s, e);
      BackedPersists(cfg.quorum, seen, seen + ReportsIn(e), s.tally, Step(cfg, s, e).tally);
    }
  }

  lemma ReflexiveExtends(t: Tally)
    ensures Extends(t, t)
  {
  }

  lemma KeepsReady(cfg: Config, s: State, e: Event)
    requires !e.StoreReady?
    ensures Step(cfg, s, e).tally.ready == s.tally.ready
  {
    hide NetColActive, Counted, Reported, Tick, Completed, RowName;
    match e {
      case Reconcile(late, dead) => TickKeepsTally(cfg, s, late, dead);
      case Mark(block, netCol, row, netRows) =>
        if netRows > 0 {
          ReportedExtends(s.tally, (block, netCol), {row % netRows}, RowName(row));
        }
      case _ =>
    }
  }

  /** New announcements: one each, of blocks that had none, justified now. */
  ghost predicate Adds(cfg: Config, s: State, s': State, new': multiset<Emission>) {
    && s.emitted <= s'.emitted && Announcements(s') == Announcements(s) + new'
    && forall n :: n in new' ==>
                     new'[n] == 1 && n.block !in s.emitted && n.block in s'.emitted && Justified(cfg, s'.tally, n)
  }

  /** What a step announces. */
  function News(cfg: Config, s: State, e: Event): multiset<Emission> {
    match e
    case StoreReady(r) =>
      if NetColActive(cfg, r.netCol, ExtendedSize(cfg, s.blockK, r.block))
         && |Counted(cfg.quorum, s.tally, r).ready[r.block]| >= ExpectedCols(cfg) && r.block !in s.emitted
      then multiset{Emission(r.block, r.height, true)} else multiset{}
    case Reconcile(late, _) =>
      if AllDone(s.pipe) then multiset{} else multiset(TickEmissions(cfg, s, late))
    case _ => multiset{}
  }

  lemma ReportAnnounces(cfg: Config, s: State, r: Report)
    ensures Adds(cfg, s, Step(cfg, s, StoreReady(r)), News(cfg, s, StoreReady(r)))
  {
    hide NetColActive, Reported, ColumnQuorum, ExpectedCols, ExtendedSize;
  }

  lemma TickAnnounces(cfg: Config, s: State, late: set<string>, dead: set<string>)
    ensures Adds(cfg, s, Tick(cfg, s, late, dead), News(cfg, s, Reconcile(late, dead)))
  {
    hide Dropped, MinStores, Superseded;
  }

  lemma NothingNew(cfg: Config, s: State, s': State)
    requires s.emitted == s'.emitted && Announcements(s) == Announcements(s')
    ensures Adds(cfg, s, s', multiset{})
  {
  }

  lemma Moved(s: State, s': State, e: Emission)
    requires e in s.pending && s'.pending == s.pending - multiset{e} && s'.sent == s.sent + multiset{e}
    ensures Announcements(s) == Announcements(s')
  {
    assert s.pending == s.pending - multiset{e} + multiset{e};
  }

  lemma StepAnnounces(cfg: Config, s: State, e: Event)
    ensures Adds(cfg, s, Step(cfg, s, e), News(cfg, s, e))
  {
    hide NetColActive, Completed, Tick, Counted, RowName, Reported, TickEmissions, Adds, Announcements;
    match e {
      case StoreReady(r) => ReportAnnounces(cfg, s, r);
      case Reconcile(late, dead) => TickAnnounces(cfg, s, late, dead);
      case Broadcast(emission) =>
        if emission in s.pending {
          Moved(s, Step(cfg, s, e), emission);
        }
        NothingNew(cfg, s, Step(cfg, s, e));
      case _ =>
        SameAnnouncements(s, Step(cfg, s, e));
        NothingNew(cfg, s, Step(cfg, s, e));
    }
  }

  lemma SameAnnouncements(s: State, s': State)
    requires s.pending == s'.pending && s.sent == s'.sent
    ensures Announcements(s) == Announcements(s')
  {
  }

  lemma OnePerBlock(cfg: Config, s: State, e: Event, n: Emission, m: Emission)
    requires n in News(cfg, s, e) && m in News(cfg, s, e) && n.block == m.block
    ensures n == m
  {
    hide NetColActive, Counted, TimedOut;
  }

  lemma StepAnnounceInv(cfg: Config, s: State, e: Event)
    requires AnnounceInv(cfg, s)
    ensures AnnounceInv(cfg, Step(cfg, s, e))
  {
    hide Step, Justified, Announcements, News;
    StepAnnounces(cfg, s, e);
    StepExtends(cfg, s, e);
    var s', new' := Step(cfg, s, e), News(cfg, s, e);
    forall n | n in Announcements(s) ensures Justified(cfg, s'.tally, n) {
      JustifiedPersists(cfg, s.tally, s'.tally, n);
    }
    forall n, m | n in new' && m in new' && n.block == m.block ensures n == m {
      OnePerBlock(cfg, s, e, n, m);
    }
  }

  ghost function Reports(events: seq<Event>): set<Report> {
    if events == [] then {} else Reports(events[..|events| - 1]) + ReportsIn(events[|events| - 1])
  }

  /** In every run: no block is announced twice; a quorum announcement has, then and ever after, the expected number
      of distinct ready columns, each with the quorums that one of its reports asked for; any other has three
      quarters of the stores on network column 0. */
  lemma {:induction false} RunAnnounces(cfg: Config, events: seq<Event>)
    ensures Backed(cfg.quorum, Reports(events), Run(cfg, events).tally) && AnnounceInv(cfg, Run(cfg, events))
  {
    hide Backed, AnnounceInv, ReportsIn, Step;
    if events == [] {
      NothingYet(cfg);
    } else {
      var n := |events| - 1;
      RunAnnounces(cfg, events[..n]);
      StepBacked(cfg, Reports(events[..n]), Run(cfg, events[..n]), events[n]);
      StepAnnounceInv(cfg, Run(cfg, events[..n]), events[n]);
    }
  }

  lemma NothingYet(cfg: Config)
    ensures Backed(cfg.quorum, {}, Start.tally) && AnnounceInv(cfg, Start)
  {
  }

  /** A report's shares, in its own numbers: of the rows that it names, and of the active stores that it names. */
  predicate Reaches(rule: QuorumRule, r: Report, rows: int, peers: int) {
    var n := if r.netRows > 0 then r.netRows else if r.storesPerCol > 0 then r.storesPerCol else 8;
    var m := if r.activePeers > 0 then r.activePeers else if r.storesPerCol > 0 then r.storesPerCol else n;
    InNumbers(rule, rows, n) && InNumbers(rule, peers, m)
  }

  /** What that says of one announcement, in numbers. */
  lemma Grounds(cfg: Config, seen: set<Report>, s: State, e: Emission)
    requires Backed(cfg.quorum, seen, s.tally) && AnnounceInv(cfg, s) && e in Announcements(s)
    ensures Announcements(s)[e] == 1 && forall f :: f in Announcements(s) && f.block == e.block ==> f == e
    ensures e.byQuorum ==>
              |Get(s.tally.ready, e.block)| >= (if cfg.activeCols > 0 then cfg.activeCols else 8)
              && forall c :: c in Get(s.tally.ready, e.block) ==>
                               exists r :: r in seen && r.block == e.block && r.netCol == c
                                           && Reaches(cfg.quorum, r, |Get(s.tally.covered, (e.block, c))|,
                                                      |Get(s.tally.peers, (e.block, c))|)
    ensures !e.byQuorum ==>
              var have := |Get(s.tally.covered, (e.block, 0))|;
              have >= 1 && 4 * have + 3 >= 3 * if cfg.storesPerCol > 0 then cfg.storesPerCol else 8
  {
    hide Announcements, Quorum, Reaches;
    if e.byQuorum {
      forall c | c in Get(s.tally.ready, e.block)
        ensures exists r :: r in seen && r.block == e.block && r.netCol == c
                            && Reaches(cfg.quorum, r, |Get(s.tally.covered, (e.block, c))|,
                                       |Get(s.tally.peers, (e.block, c))|)
      {
        var r :| r in seen && Backs(cfg.quorum, s.tally, e.block, c, r);
        ReachesInNumbers(cfg.quorum, r, |Get(s.tally.covered, (e.block, c))|, |Get(s.tally.peers, (e.block, c))|);
      }
    }
  }

  lemma ReachesInNumbers(rule: QuorumRule, r: Report, rows: int, peers: int)
    requires rows >= Quorum(rule, NetRowsOf(r)) && peers >= Quorum(rule, ActiveOf(r))
    ensures Reaches(rule, r, rows, peers)
  {
    hide Quorum, InNumbers;
    QuorumInNumbers(rule, rows, NetRowsOf(r));
    QuorumInNumbers(rule, peers, ActiveOf(r));
  }

  /** Some rule's share of n: two thirds, the configured number where n allows it, or all. */
  predicate InNumbers(rule: QuorumRule, have: int, n: int) {
    match rule
    case TwoThirds => 3 * have >= 2 * n
    case AtLeast(number) => if 0 < number <= n then have >= number else 3 * have >= 2 * n
    case Everyone => have >= n
  }

  lemma QuorumInNumbers(rule: QuorumRule, have: int, n: int)
    requires n > 0
    ensures have >= Quorum(rule, n) <==> InNumbers(rule, have, n)
  {
    QuorumIsTwoThirds(n);
  }

  /** The quorum is the least whole number that is two thirds or more. */
  lemma QuorumIsTwoThirds(n: int)
    ensures 3 * Supermajority(n) >= 2 * n
    ensures n > 0 ==> 1 <= Supermajority(n) <= n && 3 * (Supermajority(n) - 1) < 2 * n
  {
  }

  /** Any two row quorums of a block share at least a third of its rows. */
  lemma QuorumsOverlap(a: set<int>, b: set<int>, n: nat)
    requires forall x :: x in a + b ==> 0 <= x < n
    requires |a| >= Supermajority(n) && |b| >= Supermajority(n)
    ensures 3 * |a * b| >= n
  {
    BelowIsSmall(a + b, n);
    assert |a + b| == |a| + |b| - |a * b|;
  }

  lemma {:induction false} BelowIsSmall(s: set<int>, n: nat)
    requires forall x :: x in s ==> 0 <= x < n
    ensures |s| <= n
  {
    if n == 0 {
      assert forall x :: x !in s;
    } else {
      BelowIsSmall(s - {n - 1}, n - 1);
      assert n - 1 !in s ==> s - {n - 1} == s;
    }
  }

  /** The report or mark is of another block, or counts its rows as n. */
  predicate CountsRows(e: Event, b: string, n: int) {
    match e
    case StoreReady(r) => r.block == b ==> NetRowsOf(r) == n
    case Mark(block, _, _, netRows) => block == b ==> netRows == n
    case _ => true
  }

  ghost predicate RowsBelow(t: Tally, b: string, n: int) {
    forall c, x :: (b, c) in t.covered && x in t.covered[(b, c)] ==> 0 <= x < n
  }

  lemma StepRows(cfg: Config, s: State, e: Event, b: string, n: int)
    requires RowsBelow(s.tally, b, n) && CountsRows(e, b, n)
    ensures RowsBelow(Step(cfg, s, e).tally, b, n)
  {
    hide NetColActive, NetRowsOf, RowsOf, PeerKey, ColumnQuorum, Tick, Completed, RowName, ExpectedCols, ExtendedSize;
    match e {
      case StoreReady(r) => RowsInRange(r);
      case Reconcile(late, dead) => TickKeepsTally(cfg, s, late, dead);
      case _ =>
    }
  }

  lemma {:induction false} RunRows(cfg: Config, events: seq<Event>, b: string, n: int)
    requires forall e :: e in events ==> CountsRows(e, b, n)
    ensures RowsBelow(Run(cfg, events).tally, b, n)
  {
    hide Step, CountsRows;
    if events != [] {
      var m := |events| - 1;
      RunRows(cfg, events[..m], b, n);
      StepRows(cfg, Run(cfg, events[..m]), events[m], b, n);
    }
  }

  lemma ReportsAreEvents(events: seq<Event>, r: Report)
    requires r in Reports(events)
    ensures StoreReady(r) in events
  {
  }

  /** Where the reports of a block agree on its rows and two thirds are asked for, any two of its ready columns share
      a third of the rows. */
  lemma ReadyColumnsShareRows(cfg: Config, events: seq<Event>, b: string, n: int, c: int, d: int)
    requires cfg.quorum == TwoThirds && forall e :: e in events ==> CountsRows(e, b, n)
    requires c in Get(Run(cfg, events).tally.ready, b) && d in Get(Run(cfg, events).tally.ready, b)
    ensures var t := Run(cfg, events).tally; 3 * |Get(t.covered, (b, c)) * Get(t.covered, (b, d))| >= n
  {
    hide Run, Reports, AnnounceInv;
    var t := Run(cfg, events).tally;
    RunAnnounces(cfg, events);
    RunRows(cfg, events, b, n);
    var q :| q in Reports(events) && Backs(cfg.quorum, t, b, c, q);
    var r :| r in Reports(events) && Backs(cfg.quorum, t, b, d, r);
    ReportsAreEvents(events, q);
    ReportsAreEvents(events, r);
    assert CountsRows(StoreReady(q), b, n) && CountsRows(StoreReady(r), b, n);
    QuorumsOverlap(Get(t.covered, (b, c)), Get(t.covered, (b, d)), n);
  }

  /** The same for the pipeline. */
  lemma {:induction false} RunPipeline(cfg: Config, events: seq<Event>)
    requires cfg.maxInFlight > 0
    ensures PipelineInv(cfg, Run(cfg, events).pipe)
  {
    hide Step, PipelineInv;
    if events == [] {
      assert PipelineInv(cfg, Start.pipe) by {
        PipelineStarts(cfg);
      }
    } else {
      var n := |events| - 1;
      RunPipeline(cfg, events[..n]);
      StepPipeline(cfg, Run(cfg, events[..n]), events[n]);
    }
  }

  lemma PipelineStarts(cfg: Config)
    requires cfg.maxInFlight > 0
    ensures PipelineInv(cfg, Start.pipe)
  {
  }

  // The service itself.

  class APIService {
    const cfg: Config
    var storeReadyMap: map<Column, set<int>>
    var storeReadyPeers: map<Column, set<string>>
    var columnReadyMap: map<string, set<int>>
    var blockReadyEmitted: set<string>
    var blockK: map<string, int>
    var blockStartTime: set<string>
    var inFlightBlocks: map<string, int>
    var inFlightCount: int
    var latestPublishedHeight: int
    var latestCompletedHeight: int
    ghost var pending: multiset<Emission>
    ghost var sent: multiset<Emission>

    ghost function Contents(): State
      reads this
    {
      State(Tally(storeReadyMap, storeReadyPeers, columnReadyMap), blockReadyEmitted, blockK, blockStartTime,
            Pipeline(inFlightBlocks, inFlightCount, latestPublishedHeight, latestCompletedHeight), pending, sent)
    }

    ghost predicate Valid()
      reads this
    {
      cfg.maxInFlight > 0 && PipelineInv(cfg, Contents().pipe)
    }

    constructor (cfg: Config)
      requires cfg.maxInFlight > 0
      ensures this.cfg == cfg && Valid() && Contents() == Start
    {
      this.cfg := cfg;
      storeReadyMap, storeReadyPeers, columnReadyMap := map[], map[], map[];
      blockReadyEmitted, blockK, blockStartTime := {}, map[], {};
      inFlightBlocks, inFlightCount, latestPublishedHeight, latestCompletedHeight := map[], 0, 0, 0;
      pending, sent := multiset{}, multiset{};
    }

    method CoverRows(covered: set<int>, r: Report) returns (rows: set<int>)
      ensures rows == covered + RowsOf(r)
    {
      hide NetRowsOf, Reduced;
      var n := NetRowsOf(r);
      NothingReduced(n);
      rows := covered;
      if r.row >= 0 {
        rows := rows + {r.row % n};
      }
      for i := 0 to |r.custodyRows|
        invariant rows == covered + (if r.row >= 0 then {r.row % n} else {}) + Reduced(r.custodyRows[..i], n)
      {
        ReducedOneMore(r.custodyRows[..i], r.custodyRows[i], n);
        assert r.custodyRows[..i + 1] == r.custodyRows[..i] + [r.custodyRows[i]];
        if r.custodyRows[i] >= 0 {
          rows := rows + {r.custodyRows[i] % n};
        }
      }
      assert r.custodyRows[..|r.custodyRows|] == r.custodyRows;
    }

    method CountReport(r: Report)
      modifies this`storeReadyMap, this`storeReadyPeers, this`columnReadyMap
      ensures Contents().tally == Counted(cfg.quorum, old(Contents().tally), r)
    {
      hide Counted, NetRowsOf, ActiveOf, RowsOf, PeerKey, Quorum, Get;
      CountedParts(cfg.quorum, Contents().tally, r);
      var col := (r.block, r.netCol);
      var rows := CoverRows(Get(storeReadyMap, col), r);
      storeReadyMap := storeReadyMap[col := rows];
      var peers := Get(storeReadyPeers, col) + {PeerKey(r)};
      storeReadyPeers := storeReadyPeers[col := peers];
      var ready := Get(columnReadyMap, r.block);
      if |rows| >= Quorum(cfg.quorum, NetRowsOf(r)) && |peers| >= Quorum(cfg.quorum, ActiveOf(r)) {
        ready := ready + {r.netCol};
      }
      columnReadyMap := columnReadyMap[r.block := ready];
    }

    /** handleStoreReady up to the announcement; announce says that it is ours to make. */
    method HandleStoreReady(r: Report) returns (announce: bool)
      requires Valid()
      modifies this
      ensures Valid() && Contents() == Step(cfg, old(Contents()), StoreReady(r))
      ensures announce <==> r.block in blockReadyEmitted && r.block !in old(blockReadyEmitted)
    {
      hide NetColActive, ExtendedSize, ExpectedCols, Counted, PipelineInv, Tick, Completed;
      announce := false;
      if !NetColActive(cfg, r.netCol, ExtendedSize(cfg, blockK, r.block)) {
        return;
      }
      CountedHasBlock(cfg.quorum, Contents().tally, r);
      CountReport(r);
      if |columnReadyMap[r.block]| >= ExpectedCols(cfg) && r.block !in blockReadyEmitted {
        blockReadyEmitted := blockReadyEmitted + {r.block};
        pending := pending + multiset{Emission(r.block, r.height, true)};
        announce := true;
      }
    }

    /** One lagging store that the monitor found done. */
    method MarkDone(block: string, netCol: int, row: nat, netRows: int)
      requires Valid() && netRows > 0
      modifies this
      ensures Valid() && Contents() == Step(cfg, old(Contents()), Mark(block, netCol, row, netRows))
    {
      var col := (block, netCol);
      storeReadyPeers := storeReadyPeers[col := Get(storeReadyPeers, col) + {RowName(row)}];
      storeReadyMap := storeReadyMap[col := Get(storeReadyMap, col) + {row % netRows}];
    }

    method CompleteHeight(block: string, height: int)
      modifies this`inFlightBlocks, this`inFlightCount, this`latestPublishedHeight, this`latestCompletedHeight
      ensures Contents().pipe == Completed(old(Contents().pipe), block, height)
    {
      PruneUpTo(block, height);
      inFlightCount := |inFlightBlocks|;
      if height > latestCompletedHeight {
        latestCompletedHeight := height;
      }
      if latestCompletedHeight > latestPublishedHeight {
        latestPublishedHeight := latestCompletedHeight;
      }
      if latestCompletedHeight >= latestPublishedHeight && latestPublishedHeight > 0 {
        inFlightBlocks := map[];
        inFlightCount := 0;
      }
    }

    /** The announcement's section under the mutex. */
    method BroadcastBlockReady(block: string, height: int, ghost byQuorum: bool)
      requires Valid() && Emission(block, height, byQuorum) in pending
      modifies this
      ensures Valid() && Contents() == Step(cfg, old(Contents()), Broadcast(Emission(block, height, byQuorum)))
    {
      hide Completed, Tick, Counted, Reported, NetColActive, PipelineInv;
      ghost var emission := Emission(block, height, byQuorum);
      StepPipeline(cfg, Contents(), Broadcast(emission));
      pending, sent := pending - multiset{emission}, sent + multiset{emission};
      CompleteHeight(block, height);
    }

    /** Removes the block and all that its height supersedes from the blocks in flight. */
    method PruneUpTo(block: string, height: int)
      modifies this`inFlightBlocks
      ensures inFlightBlocks == map b | b in old(inFlightBlocks) && b != block && !(0 < old(inFlightBlocks)[b] <= height)
                                      :: old(inFlightBlocks)[b]
    {
      inFlightBlocks := inFlightBlocks - {block};
      var rest := inFlightBlocks.Keys;
      while rest != {}
        invariant rest <= inFlightBlocks.Keys
        invariant forall b :: b in inFlightBlocks <==>
                                && b in old(inFlightBlocks) && b != block
                                && (b in rest || !(0 < old(inFlightBlocks)[b] <= height))
        invariant forall b :: b in inFlightBlocks ==> inFlightBlocks[b] == old(inFlightBlocks)[b]
      {
        var b :| b in rest;
        rest := rest - {b};
        if inFlightBlocks[b] > 0 && inFlightBlocks[b] <= height {
          inFlightBlocks := inFlightBlocks - {b};
        }
      }
    }

    /** The admission gate. */
    method AdmitBlock(block: string, height: int) returns (accepted: bool)
      requires Valid()
      modifies this
      ensures Valid() && Contents() == Step(cfg, old(Contents()), Admit(block, height))
      ensures accepted <==> |old(inFlightBlocks)| < cfg.maxInFlight
      ensures inFlightBlocks == if accepted then old(inFlightBlocks)[block := height] else old(inFlightBlocks)
      ensures latestPublishedHeight ==
              if accepted && height > old(latestPublishedHeight) then height else old(latestPublishedHeight)
    {
      hide Tick, Completed, Counted, Reported, NetColActive, RowName, ExpectedCols, ExtendedSize;
      if |inFlightBlocks| >= cfg.maxInFlight {
        return false;
      }
      if height > latestPublishedHeight {
        latestPublishedHeight := height;
      }
      inFlightBlocks := inFlightBlocks[block := height];
      inFlightCount := |inFlightBlocks|;
      accepted := true;
    }

    method WithdrawBlock(block: string)
      requires Valid()
      modifies this
      ensures Valid() && Contents() == Step(cfg, old(Contents()), Withdraw(block))
      ensures inFlightBlocks == old(inFlightBlocks) - {block}
    {
      hide Tick, Completed, Counted, Reported, NetColActive, RowName, ExpectedCols, ExtendedSize;
      PartIsSmaller(inFlightBlocks - {block}, inFlightBlocks);
      inFlightBlocks := inFlightBlocks - {block};
      inFlightCount := |inFlightBlocks|;
    }

    method BeginBlock(block: string, height: int, k: int)
      requires Valid()
      modifies this
      ensures Valid() && Contents() == Step(cfg, old(Contents()), Begin(block, height, k))
      ensures blockK == old(blockK)[block := k] && blockStartTime == old(blockStartTime) + {block}
      ensures inFlightBlocks == old(inFlightBlocks)
      ensures latestPublishedHeight == if height > old(latestPublishedHeight) then height else old(latestPublishedHeight)
    {
      hide Tick, Completed, Counted, Reported, NetColActive, RowName, ExpectedCols, ExtendedSize;
      if height > latestPublishedHeight {
        latestPublishedHeight := height;
      }
      blockK := blockK[block := k];
      blockStartTime := blockStartTime + {block};
    }

    /** What the tick decides for one block in flight. */
    method Examine(b: string, late: set<string>, dead: set<string>, ghost s: State)
      returns (drop: bool, announce: bool)
      requires b in inFlightBlocks && b in s.pipe.inFlight && inFlightBlocks[b] == s.pipe.inFlight[b]
      requires Contents().tally == s.tally && blockStartTime == s.started && latestCompletedHeight == s.pipe.completed
      requires b in blockReadyEmitted <==> b in s.emitted
      ensures drop <==> Dropped(cfg, s, b, late, dead)
      ensures announce <==> TimedOut(cfg, s, b, late)
    {
      drop, announce := false, false;
      var h := inFlightBlocks[b];
      if h > 0 && h <= latestCompletedHeight {
        drop := true;
      } else if b in blockStartTime && b in late {
        var readyCount := |Get(storeReadyMap, (b, 0))|;
        if readyCount >= MinStores(cfg) && b !in blockReadyEmitted {
          announce := true;
        } else if b in dead {
          drop := true;
        }
      }
    }

    /** How far the tick has come: it has dealt with the blocks seen. */
    ghost predicate Swept(s: State, late: set<string>, dead: set<string>, seen: set<string>)
      reads this`storeReadyMap, this`storeReadyPeers, this`columnReadyMap, this`blockReadyEmitted,
            this`blockStartTime, this`inFlightBlocks, this`latestCompletedHeight, this`pending
    {
      && Tally(storeReadyMap, storeReadyPeers, columnReadyMap) == s.tally
      && blockStartTime == s.started && latestCompletedHeight == s.pipe.completed
      && inFlightBlocks == LeftIn(cfg, s, late, dead, seen)
      && blockReadyEmitted == s.emitted + TimedOutIn(cfg, s, late, seen)
      && pending == s.pending + EmissionsIn(cfg, s, late, seen)
    }

    method SweepOne(b: string, late: set<string>, dead: set<string>, ghost s: State, ghost seen: set<string>)
      returns (drop: bool)
      requires Swept(s, late, dead, seen) && b !in seen && b in s.pipe.inFlight
      modifies this`inFlightBlocks, this`blockReadyEmitted, this`pending
      ensures Swept(s, late, dead, seen + {b})
      ensures inFlightBlocks == if drop then old(inFlightBlocks) - {b} else old(inFlightBlocks)
    {
      hide TimedOut, Dropped, TimedOutIn, EmissionsIn, LeftIn;
      NotYetExamined(cfg, s, late, dead, seen, b);
      var announce;
      drop, announce := Examine(b, late, dead, s);
      if announce {
        blockReadyEmitted := blockReadyEmitted + {b};
        pending := pending + multiset{Emission(b, inFlightBlocks[b], false)};
      }
      if drop {
        inFlightBlocks := inFlightBlocks - {b};
      }
    }

    /** The tick over the blocks in flight. */
    method SweepInFlight(late: set<string>, dead: set<string>)
      requires inFlightCount == |inFlightBlocks|
      modifies this`inFlightBlocks, this`inFlightCount, this`blockReadyEmitted, this`pending
      ensures Swept(old(Contents()), late, dead, old(inFlightBlocks.Keys)) && inFlightCount == |inFlightBlocks|
    {
      hide Swept;
      ghost var s := Contents();
      var rest := inFlightBlocks.Keys;
      var changed := false;
      SweepStarts(late, dead);
      ghost var seen := {};
      while rest != {}
        invariant rest + seen == s.pipe.inFlight.Keys && rest !! seen
        invariant Swept(s, late, dead, seen)
        invariant inFlightCount == s.pipe.count && (!changed ==> inFlightBlocks == s.pipe.inFlight)
      {
        var b :| b in rest;
        var drop := SweepOne(b, late, dead, s, seen);
        rest, seen := rest - {b}, seen + {b};
        changed := changed || drop;
      }
      assert seen == s.pipe.inFlight.Keys;
      if changed {
        inFlightCount := |inFlightBlocks|;
      }
    }

    lemma SweepStarts(late: set<string>, dead: set<string>)
      ensures Swept(Contents(), late, dead, {})
    {
      hide LeftIn, TimedOutIn, EmissionsIn;
      TickStarts(cfg, Contents(), late, dead);
    }

    /** The reconciliation tick; late and dead are the blocks begun more than 15 and 60 seconds ago. */
    method ReconcileTick(late: set<string>, dead: set<string>)
      requires Valid()
      modifies this
      ensures Valid() && Contents() == Step(cfg, old(Contents()), Reconcile(late, dead))
    {
      hide TimedOut, Dropped, Counted, Reported, NetColActive, Completed, TimedOutIn, EmissionsIn, LeftIn, TickEmissions;
      ghost var s := Contents();
      StepPipeline(cfg, s, Reconcile(late, dead));
      TickParts(cfg, s, late, dead);
      if latestCompletedHeight >= latestPublishedHeight && latestPublishedHeight > 0 {
        inFlightBlocks := map[];
        inFlightCount := 0;
      } else {
        SweepInFlight(late, dead);
      }
    }
  }

  lemma CountedHasBlock(rule: QuorumRule, t: Tally, r: Report)
    ensures r.block in Counted(rule, t, r).ready
  {
  }

  lemma CountedParts(rule: QuorumRule, t: Tally, r: Report)
    ensures var col := (r.block, r.netCol);
            var rows, peers := Get(t.covered, col) + RowsOf(r), Get(t.peers, col) + {PeerKey(r)};
            var full := |rows| >= Quorum(rule, NetRowsOf(r)) && |peers| >= Quorum(rule, ActiveOf(r));
            Counted(rule, t, r) ==
            Tally(t.covered[col := rows], t.peers[col := peers],
                  t.ready[r.block := if full then Get(t.ready, r.block) + {r.netCol} else Get(t.ready, r.block)])
  {
    hide RowsOf, PeerKey, NetRowsOf, ActiveOf, Quorum;
    assert Get(t.ready, r.block) + {} == Get(t.ready, r.block);
  }

  /** The part of the tick's announcements that comes from some of the blocks. */
  function TimedOutIn(cfg: Config, s: State, late: set<string>, blocks: set<string>): set<string> {
    set b | b in blocks && b in s.pipe.inFlight && TimedOut(cfg, s, b, late)
  }

  function EmissionsIn(cfg: Config, s: State, late: set<string>, blocks: set<string>): multiset<Emission> {
    multiset(set b | b in TimedOutIn(cfg, s, late, blocks) && b in s.pipe.inFlight
                   :: Emission(b, s.pipe.inFlight[b], false))
  }

  function LeftIn(cfg: Config, s: State, late: set<string>, dead: set<string>, blocks: set<string>): map<string, int> {
    map b | b in s.pipe.inFlight && !(b in blocks && Dropped(cfg, s, b, late, dead)) :: s.pipe.inFlight[b]
  }

  lemma NotYetExamined(cfg: Config, s: State, late: set<string>, dead: set<string>, seen: set<string>, b: string)
    requires b !in seen && b in s.pipe.inFlight
    ensures TimedOutIn(cfg, s, late, seen + {b}) ==
            TimedOutIn(cfg, s, late, seen) + if TimedOut(cfg, s, b, late) then {b} else {}
    ensures EmissionsIn(cfg, s, late, seen + {b}) ==
            EmissionsIn(cfg, s, late, seen)
            + if TimedOut(cfg, s, b, late) then multiset{Emission(b, s.pipe.inFlight[b], false)} else multiset{}
    ensures b !in TimedOutIn(cfg, s, late, seen)
    ensures b in LeftIn(cfg, s, late, dead, seen) && LeftIn(cfg, s, late, dead, seen)[b] == s.pipe.inFlight[b]
    ensures LeftIn(cfg, s, late, dead, seen + {b}) ==
            if Dropped(cfg, s, b, late, dead) then LeftIn(cfg, s, late, dead, seen) - {b}
            else LeftIn(cfg, s, late, dead, seen)
  {
    hide TimedOut, Dropped;
  }

  lemma TickStarts(cfg: Config, s: State, late: set<string>, dead: set<string>)
    ensures TimedOutIn(cfg, s, late, {}) == {} && EmissionsIn(cfg, s, late, {}) == multiset{}
    ensures LeftIn(cfg, s, late, dead, {}) == s.pipe.inFlight
  {
    hide TimedOut, Dropped;
  }

  lemma TickParts(cfg: Config, s: State, late: set<string>, dead: set<string>)
    ensures !AllDone(s.pipe) ==>
            var blocks, left := s.pipe.inFlight.Keys, LeftIn(cfg, s, late, dead, s.pipe.inFlight.Keys);
            Tick(cfg, s, late, dead) ==
            s.(emitted := s.emitted + TimedOutIn(cfg, s, late, blocks),
            pending := s.pending + EmissionsIn(cfg, s, late, blocks),
            pipe := s.pipe.(inFlight := left, count := |left|))
  {
    hide TimedOut, Dropped;
    assert TickEmissions(cfg, s, late) ==
           set b | b in TimedOutIn(cfg, s, late, s.pipe.inFlight.Keys) && b in s.pipe.inFlight
                 :: Emission(b, s.pipe.inFlight[b], false);
    assert LeftIn(cfg, s, late, dead, s.pipe.inFlight.Keys) ==
           map b | b in s.pipe.inFlight && !Dropped(cfg, s, b, late, dead) :: s.pipe.inFlight[b];
  }
}
