/**
 What the publisher's sections do, in the numbers that reports and settings carry: how many rows and stores a report
 asks for, which defaults stand in for missing numbers, and what a tick and an announcement leave in flight.
 */
module ReportNumbers {
  import opened Publisher

  /** A report is counted exactly when its network column lies below the expected number of columns times their
      width, the block's side being twice what its publication recorded, or else what is configured, or else 32. */
  lemma ReportLetIn(cfg: Config, s: State, r: Report, side: int, cols: int, width: int)
    requires side == if r.block in s.blockK && s.blockK[r.block] > 0 then 2 * s.blockK[r.block]
                     else if cfg.kVal > 0 then 2 * cfg.kVal else 32
    requires cols == if cfg.activeCols > 0 then cfg.activeCols else 8
    requires var w := side / (if cfg.numCols > 0 then cfg.numCols else 8); width == if w > 0 then w else 1
    ensures r.netCol >= cols * width ==> Step(cfg, s, StoreReady(r)) == s
    ensures r.netCol < cols * width ==>
              (r.block, r.netCol) in Step(cfg, s, StoreReady(r)).tally.peers
              && Step(cfg, s, StoreReady(r)).tally == Counted(cfg.quorum, s.tally, r)
  {
    hide Quotient, PeerKey, RowsOf, ColumnQuorum;
    GuardAdmits(cfg, r.netCol, side);
  }

  /** A counted report adds its rows, modulo the number n of network rows that it names, and its peer to its own
      column alone. */
  lemma ReportCounts(rule: QuorumRule, t: Tally, r: Report, n: int)
    requires n == if r.netRows > 0 then r.netRows else if r.storesPerCol > 0 then r.storesPerCol else 8
    ensures var t', col := Counted(rule, t, r), (r.block, r.netCol);
            && t'.covered.Keys == t.covered.Keys + {col} && t'.peers.Keys == t.peers.Keys + {col}
            && t'.ready.Keys == t.ready.Keys + {r.block}
            && (forall c :: c in t.covered && c != col ==> t'.covered[c] == t.covered[c])
            && (forall c :: c in t.peers && c != col ==> t'.peers[c] == t.peers[c])
            && (forall b :: b in t.ready && b != r.block ==> t'.ready[b] == t.ready[b])
            && (forall x :: x in t'.covered[col] <==>
                            || (col in t.covered && x in t.covered[col])
                            || (r.row >= 0 && x == r.row % n)
                            || exists y :: y in r.custodyRows && y >= 0 && x == y % n)
            && (forall p :: p in t'.peers[col] <==>
                            || (col in t.peers && p in t.peers[col])
                            || p == if r.peer == "" then RowName(r.row) else r.peer)
  {
    hide ColumnQuorum, RowName;
  }

  /** It makes its column ready exactly when the covered rows reach the rule's share of the n rows, and the stores heard
      of reach its share of the m active ones; without a number of active stores the stores per column count, and
      without them the rows. */
  lemma ReportMakesReady(rule: QuorumRule, t: Tally, r: Report, n: int, m: int)
    requires n == if r.netRows > 0 then r.netRows else if r.storesPerCol > 0 then r.storesPerCol else 8
    requires m == if r.activePeers > 0 then r.activePeers else if r.storesPerCol > 0 then r.storesPerCol else n
    ensures var t', col := Counted(rule, t, r), (r.block, r.netCol);
            && (r.netCol in t'.ready[r.block] <==>
                || (r.block in t.ready && r.netCol in t.ready[r.block])
                || (InNumbers(rule, |t'.covered[col]|, n) && InNumbers(rule, |t'.peers[col]|, m)))
            && forall c :: c != r.netCol ==>
                             (c in t'.ready[r.block] <==> r.block in t.ready && c in t.ready[r.block])
  {
    hide Quorum, InNumbers, RowsOf, PeerKey;
    CountedParts(rule, t, r);
    QuorumInNumbers(rule, |Counted(rule, t, r).covered[(r.block, r.netCol)]|, n);
    QuorumInNumbers(rule, |Counted(rule, t, r).peers[(r.block, r.netCol)]|, m);
  }

  /** It announces the block exactly when that makes the expected number of columns ready, for the first time. */
  lemma ReportAnnouncesBlock(cfg: Config, s: State, r: Report, cols: int)
    requires cols == if cfg.activeCols > 0 then cfg.activeCols else 8
    requires Step(cfg, s, StoreReady(r)) != s
    ensures var s' := Step(cfg, s, StoreReady(r));
            var now := r.block !in s.emitted && |s'.tally.ready[r.block]| >= cols;
            && s'.emitted == (if now then s.emitted + {r.block} else s.emitted)
            && s'.pending == (if now then s.pending + multiset{Emission(r.block, r.height, true)} else s.pending)
            && s' == s.(tally := s'.tally, emitted := s'.emitted, pending := s'.pending)
  {
    hide Counted, NetColActive, ExtendedSize;
    CountedHasBlock(cfg.quorum, s.tally, r);
  }

  /** A monitor's mark adds one row and the name of that row to its column. */
  lemma MarkCounts(cfg: Config, s: State, block: string, netCol: int, row: nat, netRows: int)
    requires netRows > 0
    ensures var t, t', col := s.tally, Step(cfg, s, Mark(block, netCol, row, netRows)).tally, (block, netCol);
            && t'.covered == t.covered[col := (if col in t.covered then t.covered[col] else {}) + {row % netRows}]
            && t'.peers == t.peers[col := (if col in t.peers then t.peers[col] else {}) + {RowName(row)}]
            && Step(cfg, s, Mark(block, netCol, row, netRows)) ==
               s.(tally := t.(covered := t'.covered, peers := t'.peers))
  {
    hide RowName;
  }

  /** What a tick does to a block in flight at height h. It is announced when it began more than 15 seconds ago, was not
      announced before and has three quarters of its stores, rounded down but at least one, on network column 0. It is
      dropped when its height is completed, and when it is not announced 60 seconds after it began. */
  lemma TickInNumbers(cfg: Config, s: State, late: set<string>, dead: set<string>, b: string, h: int, stores: int)
    requires b in s.pipe.inFlight && s.pipe.inFlight[b] == h && !(s.pipe.completed >= s.pipe.published > 0)
    requires stores == if cfg.storesPerCol > 0 then cfg.storesPerCol else 8
    ensures var s', have := Step(cfg, s, Reconcile(late, dead)), |Get(s.tally.covered, (b, 0))|;
            var past := 1 <= h <= s.pipe.completed;
            var waited := !past && b in s.started && b in late;
            var fires := waited && b !in s.emitted && have >= 1 && 4 * have + 3 >= 3 * stores;
            && (b in s'.emitted <==> b in s.emitted || fires)
            && s'.pending[Emission(b, h, false)] == s.pending[Emission(b, h, false)] + (if fires then 1 else 0)
            && (b in s'.pipe.inFlight <==> !past && !(waited && !fires && b in dead))
            && (b in s'.pipe.inFlight ==> s'.pipe.inFlight[b] == h)
  {
    hide TickEmissions;
    ThreeQuarters(cfg, stores);
    var e := Emission(b, h, false);
    assert e in TickEmissions(cfg, s, late) <==> TimedOut(cfg, s, b, late) by {
      EmittedByTick(cfg, s, late, e);
    }
  }

  lemma EmittedByTick(cfg: Config, s: State, late: set<string>, e: Emission)
    requires e.block in s.pipe.inFlight && e.height == s.pipe.inFlight[e.block] && !e.byQuorum
    ensures e in TickEmissions(cfg, s, late) <==> TimedOut(cfg, s, e.block, late)
  {
    hide TimedOut;
  }

  lemma ThreeQuarters(cfg: Config, stores: int)
    requires stores == if cfg.storesPerCol > 0 then cfg.storesPerCol else 8
    ensures forall have: int :: have >= MinStores(cfg) <==> have >= 1 && 4 * have + 3 >= 3 * stores
  {
  }

  /** A tick leaves all blocks alone that are not in flight, and empties the pipeline when every height is completed. */
  lemma TickElsewhere(cfg: Config, s: State, late: set<string>, dead: set<string>)
    ensures var s' := Step(cfg, s, Reconcile(late, dead));
            && s'.tally == s.tally && s'.blockK == s.blockK && s'.started == s.started && s'.sent == s.sent
            && s'.pipe.published == s.pipe.published && s'.pipe.completed == s.pipe.completed
            && s'.pipe.inFlight.Keys <= s.pipe.inFlight.Keys
            && (forall b :: b !in s.pipe.inFlight ==> (b in s'.emitted <==> b in s.emitted))
            && (s.pipe.completed >= s.pipe.published > 0 ==>
                  s'.pipe.inFlight == map[] && s'.emitted == s.emitted && s'.pending == s.pending)
  {
    hide TimedOut, Dropped, TickEmissions;
  }

  /** An announcement takes its own block out of the pipeline and those of a height from 1 to its own, and no others
      unless every height is now completed. */
  lemma AnnouncementLeaves(cfg: Config, s: State, e: Emission)
    requires e in s.pending
    ensures var p, p' := s.pipe, Step(cfg, s, Broadcast(e)).pipe;
            && p'.completed == (if e.height > p.completed then e.height else p.completed)
            && p'.published == (if p'.completed > p.published then p'.completed else p.published)
            && (forall b :: b in p'.inFlight <==>
                            && b in p.inFlight && b != e.block && !(1 <= p.inFlight[b] <= e.height)
                            && !(p'.completed == p'.published > 0))
            && (forall b :: b in p'.inFlight ==> p'.inFlight[b] == p.inFlight[b])
    ensures var s' := Step(cfg, s, Broadcast(e));
            && s'.pending + multiset{e} == s.pending && s'.sent == s.sent + multiset{e}
            && s' == s.(pipe := s'.pipe, pending := s'.pending, sent := s'.sent)
  {
  }
}
