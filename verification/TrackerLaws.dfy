/** What every run of the connection tracker keeps. */
module TrackerLaws {
  import opened MapSum
  import opened Tracker

  /** An account is either the whole tracker or one outbound. */
  datatype Account = Everything | OneOutbound(tag: string)

  predicate Counts(a: Account, c: Cell) {
    a.Everything? || c.tag == a.tag
  }

  /** What the tracker would answer for the account's closed connections. */
  function Archived(s: State, a: Account, d: Direction): nat {
    if a.Everything? then s.Total(d) else s.OutboundFor(a.tag).Bytes(d)
  }

  ghost function LiveBytes(s: State, a: Account, d: Direction): map<nat, nat>
    requires s.Valid()
  {
    map id | id in s.live && Counts(a, s.cells[id]) :: s.cells[id].Bytes(d)
  }

  // ---------------------------------------------------------------- conservation

  function Reported(s: State, op: Op, a: Account, d: Direction): nat {
    if op.OpReport? && op.dir == d && op.id in s.cells && Counts(a, s.cells[op.id]) then op.bytes else 0
  }

  /** Bytes an operation loses: the whole entry at a close, everything archived at a reset,
      and a report that comes after the entry was removed. */
  ghost function Forfeited(s: State, op: Op, a: Account, d: Direction): nat
    requires s.Valid()
  {
    match op
    case OpClose(id) => if id in s.live && Counts(a, s.cells[id]) then s.cells[id].Bytes(d) else 0
    case OpCloseAll => Sum(LiveBytes(s, a, d))
    case OpReset => Archived(s, a, d)
    case OpReport(id, _, _, _) => if id in s.live then 0 else Reported(s, op, a, d)
    case _ => 0
  }

  /** Bytes reported, and bytes forfeited, by the first `k` operations of a run. */
  ghost function ReportedIn(ops: seq<Op>, ss: seq<State>, k: nat, a: Account, d: Direction): nat
    requires IsRun(ops, ss) && k <= |ops|
  {
    if k == 0 then 0 else ReportedIn(ops, ss, k - 1, a, d) + Reported(ss[k - 1], ops[k - 1], a, d)
  }

  ghost function ForfeitedIn(ops: seq<Op>, ss: seq<State>, k: nat, a: Account, d: Direction): nat
    requires IsRun(ops, ss) && k <= |ops|
  {
    if k == 0 then 0 else ForfeitedIn(ops, ss, k - 1, a, d) + Forfeited(ss[k - 1], ops[k - 1], a, d)
  }

  lemma ArchiveConserves(s: State, id: nat, a: Account, d: Direction)
    requires s.Valid() && id in s.live
    ensures var t := Archive(s, id);
            Archived(t, a, d) + Sum(LiveBytes(t, a, d)) == Archived(s, a, d) + Sum(LiveBytes(s, a, d))
  {
    var t := Archive(s, id);
    if Counts(a, s.cells[id]) {
      SumTakeOut<nat>(LiveBytes(s, a, d), id);
      assert LiveBytes(t, a, d) == LiveBytes(s, a, d) - {id};
    } else {
      assert LiveBytes(t, a, d) == LiveBytes(s, a, d);
    }
  }

  lemma {:induction false} ArchiveAllConserves(s: State, order: seq<nat>, a: Account, d: Direction)
    requires s.Valid()
    requires forall id :: id in order ==> id in s.live
    requires forall i, j :: 0 <= i < j < |order| ==> order[i] != order[j]
    ensures var t := ArchiveAll(s, order);
            && t.Valid()
            && Archived(t, a, d) + Sum(LiveBytes(t, a, d)) == Archived(s, a, d) + Sum(LiveBytes(s, a, d))
    decreases |order|
  {
    if order != [] {
      var n := |order| - 1;
      ArchiveAllConserves(s, order[..n], a, d);
      ArchiveAllFrame(s, order[..n]);
      ArchiveConserves(ArchiveAll(s, order[..n]), order[n], a, d);
    }
  }

  lemma CellReport(c: Cell, dir: Direction, n: nat, now: nat, d: Direction)
    ensures var c' := c.Report(dir, n, now);
            c'.tag == c.tag && c'.Bytes(d) == c.Bytes(d) + if dir == d then n else 0
  {
  }

  lemma ReportLive(s: State, id: nat, dir: Direction, n: nat, now: nat, a: Account, d: Direction)
    requires s.Valid() && id in s.cells
    ensures var t := Report(s, id, dir, n, now);
            && t.Valid()
            && Sum(LiveBytes(t, a, d))
               == Sum(LiveBytes(s, a, d)) + (if id in LiveBytes(s, a, d) && dir == d then n else 0)
  {
    var before := LiveBytes(s, a, d);
    if id in before && dir == d {
      ReportCounts(s, id, dir, n, now, a);
      SumPut<nat>(before, id, before[id] + n);
    } else {
      ReportElsewhere(s, id, dir, n, now, a, d);
    }
  }

  lemma ReportCounts(s: State, id: nat, dir: Direction, n: nat, now: nat, a: Account)
    requires s.Valid() && id in s.cells && id in LiveBytes(s, a, dir)
    ensures var before := LiveBytes(s, a, dir);
            LiveBytes(Report(s, id, dir, n, now), a, dir) == before[id := before[id] + n]
  {
    CellReport(s.cells[id], dir, n, now, dir);
  }

  lemma ReportElsewhere(s: State, id: nat, dir: Direction, n: nat, now: nat, a: Account, d: Direction)
    requires s.Valid() && id in s.cells && (id !in LiveBytes(s, a, d) || dir != d)
    ensures LiveBytes(Report(s, id, dir, n, now), a, d) == LiveBytes(s, a, d)
  {
    CellReport(s.cells[id], dir, n, now, d);
  }

  lemma TrackLive(s: State, skipped: nat, tag: string, now: nat, a: Account, d: Direction)
    requires s.Valid()
    ensures var t := Track(s, skipped, tag, now);
            t.Valid() && Sum(LiveBytes(t, a, d)) == Sum(LiveBytes(s, a, d))
  {
    var t, id := Track(s, skipped, tag, now), s.nextId + skipped;
    var before, after := LiveBytes(s, a, d), LiveBytes(t, a, d);
    if Counts(a, t.cells[id]) {
      SumPut<nat>(before, id, 0);
      assert after == before[id := 0];
    } else {
      assert after == before;
    }
  }

  lemma CloseLive(s: State, id: nat, a: Account, d: Direction)
    requires s.Valid()
    ensures Sum(LiveBytes(Close(s, id), a, d)) + Forfeited(s, OpClose(id), a, d) == Sum(LiveBytes(s, a, d))
  {
    var before, after := LiveBytes(s, a, d), LiveBytes(Close(s, id), a, d);
    if id in before {
      SumTakeOut<nat>(before, id);
      assert after == before - {id};
    } else {
      assert after == before;
    }
  }

  lemma DropConserves(s: State, id: nat, lockFree: bool, a: Account, d: Direction)
    requires s.Valid() && Legal(s, OpDrop(id, lockFree))
    ensures var t := DropGuard(s, id, lockFree);
            t.Valid() && Archived(t, a, d) + Sum(LiveBytes(t, a, d)) == Archived(s, a, d) + Sum(LiveBytes(s, a, d))
  {
    var s' := s.(guards := s.guards - {id});
    assert LiveBytes(s', a, d) == LiveBytes(s, a, d);
    if lockFree && id in s.live { ArchiveConserves(s', id, a, d); }
  }

  lemma SweepConserves(s: State, now: nat, maxIdle: nat, order: seq<nat>, a: Account, d: Direction)
    requires s.Valid() && Legal(s, OpCloseIdle(now, maxIdle, order))
    ensures var t := Step(s, OpCloseIdle(now, maxIdle, order));
            Archived(t, a, d) + Sum(LiveBytes(t, a, d)) == Archived(s, a, d) + Sum(LiveBytes(s, a, d))
  {
    assert forall id :: id in order ==> id in s.IdleSet(now, maxIdle);
    ArchiveAllConserves(s, order, a, d);
  }

  /** One operation: what the account gains is what was reported, less what was forfeited. */
  lemma StepConserves(s: State, op: Op, a: Account, d: Direction)
    requires s.Valid() && Legal(s, op)
    ensures var t := Step(s, op);
            Archived(t, a, d) + Sum(LiveBytes(t, a, d)) + Forfeited(s, op, a, d)
            == Archived(s, a, d) + Sum(LiveBytes(s, a, d)) + Reported(s, op, a, d)
  {
    var t := Step(s, op);
    var before, after := LiveBytes(s, a, d), LiveBytes(t, a, d);
    match op
    case OpTrack(skipped, tag, now) => TrackLive(s, skipped, tag, now, a, d);
    case OpReport(id, dir, n, now) => ReportLive(s, id, dir, n, now, a, d);
    case OpClose(id) => CloseLive(s, id, a, d);
    case OpCloseIdle(now, maxIdle, order) => SweepConserves(s, now, maxIdle, order, a, d);
    case OpCloseAll => assert after == map[];
    case OpReset => assert after == before;
    case OpDrop(id, lockFree) => DropConserves(s, id, lockFree, a, d);
  }

  /** At every point of every run, for the tracker and for each outbound, in each direction:
      bytes reported = bytes archived + bytes on live entries + bytes forfeited. */
  lemma {:induction false} Conservation(ops: seq<Op>, ss: seq<State>, k: nat, a: Account, d: Direction)
    requires IsRun(ops, ss) && k <= |ops|
    ensures ReportedIn(ops, ss, k, a, d)
            == Archived(ss[k], a, d) + Sum(LiveBytes(ss[k], a, d)) + ForfeitedIn(ops, ss, k, a, d)
    decreases k
  {
    if k == 0 {
      assert LiveBytes(INIT, a, d) == map[];
    } else {
      Conservation(ops, ss, k - 1, a, d);
      StepConserves(ss[k - 1], ops[k - 1], a, d);
    }
  }

  /** Close, close-all, reset and a report on a removed entry are the only ways to lose bytes. */
  predicate MayForfeit(s: State, op: Op) {
    match op
    case OpClose(_) => true
    case OpCloseAll => true
    case OpReset => true
    case OpReport(id, _, _, _) => id !in s.live
    case _ => false
  }

  lemma {:induction false} NothingForfeited(ops: seq<Op>, ss: seq<State>, k: nat, a: Account, d: Direction)
    requires IsRun(ops, ss) && k <= |ops|
    requires forall i :: 0 <= i < k ==> !MayForfeit(ss[i], ops[i])
    ensures ForfeitedIn(ops, ss, k, a, d) == 0
    decreases k
  {
    if k > 0 {
      NothingForfeited(ops, ss, k - 1, a, d);
      assert !MayForfeit(ss[k - 1], ops[k - 1]);
    }
  }

  // ---------------------------------------------------------------- no double archiving

  /** The entries whose bytes an operation moves into the totals. */
  function ArchivedBy(s: State, op: Op): set<nat> {
    match op
    case OpCloseIdle(_, _, order) => set id | id in order
    case OpDrop(id, lockFree) => if lockFree && id in s.live then {id} else {}
    case _ => {}
  }

  /** The connection was tracked and its entry has been removed. */
  predicate Gone(s: State, id: nat) {
    id in s.cells && id !in s.live
  }

  lemma ArchivedIsGone(s: State, op: Op, id: nat)
    requires s.Valid() && Legal(s, op) && id in ArchivedBy(s, op)
    ensures !Gone(s, id) && Gone(Step(s, op), id)
  {
    if op.OpCloseIdle? {
      assert id in s.IdleSet(op.at, op.maxIdle);
      assert forall x :: x in op.order ==> x in s.IdleSet(op.at, op.maxIdle);
      ArchiveAllFrame(s, op.order);
    }
  }

  lemma GoneStepsGone(s: State, op: Op, id: nat)
    requires s.Valid() && Legal(s, op) && Gone(s, id)
    ensures Gone(Step(s, op), id)
  {
    if op.OpCloseIdle? {
      assert forall x :: x in op.order ==> x in s.IdleSet(op.at, op.maxIdle);
      ArchiveAllFrame(s, op.order);
    }
  }

  lemma {:induction false} GoneStaysGone(ops: seq<Op>, ss: seq<State>, i: nat, j: nat, id: nat)
    requires IsRun(ops, ss) && i <= j <= |ops| && Gone(ss[i], id)
    ensures Gone(ss[j], id)
    decreases j
  {
    if i < j {
      GoneStaysGone(ops, ss, i, j - 1, id);
      GoneStepsGone(ss[j - 1], ops[j - 1], id);
    }
  }

  /** Removal paths may race for an entry, but two operations of a run never archive the same one. */
  lemma ArchivedOnce(ops: seq<Op>, ss: seq<State>, i: nat, j: nat)
    requires IsRun(ops, ss) && i < j < |ops|
    ensures ArchivedBy(ss[i], ops[i]) !! ArchivedBy(ss[j], ops[j])
  {
    forall id | id in ArchivedBy(ss[i], ops[i]) && id in ArchivedBy(ss[j], ops[j])
      ensures false
    {
      ArchivedIsGone(ss[i], ops[i], id);
      ArchivedIsGone(ss[j], ops[j], id);
      GoneStaysGone(ops, ss, i + 1, j, id);
    }
  }

  // ---------------------------------------------------------------- each connection's counter

  function ReportOf(op: Op, id: nat, d: Direction): nat {
    if op.OpReport? && op.id == id && op.dir == d then op.bytes else 0
  }

  function ReportedBy(ops: seq<Op>, k: nat, id: nat, d: Direction): nat
    requires k <= |ops|
  {
    if k == 0 then 0 else ReportedBy(ops, k - 1, id, d) + ReportOf(ops[k - 1], id, d)
  }

  lemma StepCounter(s: State, op: Op, id: nat, d: Direction)
    requires s.Valid() && Legal(s, op)
    ensures id in s.cells ==>
      id in Step(s, op).cells && Step(s, op).cells[id].Bytes(d) == s.cells[id].Bytes(d) + ReportOf(op, id, d)
    ensures id !in s.cells ==> ReportOf(op, id, d) == 0
    ensures id !in s.cells && id in Step(s, op).cells ==> Step(s, op).cells[id].Bytes(d) == 0
  {
    if op.OpCloseIdle? {
      assert forall x :: x in op.order ==> x in s.IdleSet(op.at, op.maxIdle);
    }
  }

  /** A connection's counter, archived or not, holds exactly the bytes its guard reported. */
  lemma {:induction false} CounterIsReports(ops: seq<Op>, ss: seq<State>, k: nat, id: nat, d: Direction)
    requires IsRun(ops, ss) && k <= |ops|
    ensures id in ss[k].cells ==> ss[k].cells[id].Bytes(d) == ReportedBy(ops, k, id, d)
    ensures id !in ss[k].cells ==> ReportedBy(ops, k, id, d) == 0
    decreases k
  {
    if k > 0 {
      CounterIsReports(ops, ss, k - 1, id, d);
      StepCounter(ss[k - 1], ops[k - 1], id, d);
    }
  }

  // ---------------------------------------------------------------- totals against outbounds

  function TracksSinceReset(ops: seq<Op>, k: nat): nat
    requires k <= |ops|
  {
    if k == 0 || ops[k - 1].OpReset? then 0
    else TracksSinceReset(ops, k - 1) + if ops[k - 1].OpTrack? then 1 else 0
  }

  ghost predicate TotalsAgree(s: State) {
    Gap(s, Up) == 0 && Gap(s, Down) == 0
  }

  /** How far a total is ahead of the sum over the outbounds. */
  ghost function Gap(s: State, d: Direction): int {
    s.Total(d) - Sum(s.OutboundBytes(d))
  }

  lemma PutOutbound(s: State, tag: string, o: OutboundTraffic, d: Direction)
    ensures var t := s.(outbound := s.outbound[tag := o]);
            && Sum(t.OutboundBytes(d)) + s.OutboundFor(tag).Bytes(d) == Sum(s.OutboundBytes(d)) + o.Bytes(d)
            && Sum(t.OutboundConnections()) + s.OutboundFor(tag).connections
               == Sum(s.OutboundConnections()) + o.connections
  {
    var t := s.(outbound := s.outbound[tag := o]);
    SumPut(s.OutboundBytes(d), tag, o.Bytes(d));
    SumPut(s.OutboundConnections(), tag, o.connections);
    assert t.OutboundBytes(d) == s.OutboundBytes(d)[tag := o.Bytes(d)];
    assert t.OutboundConnections() == s.OutboundConnections()[tag := o.connections];
  }

  lemma SameOutbound(s: State, t: State, d: Direction)
    requires s.outbound == t.outbound
    ensures s.OutboundBytes(d) == t.OutboundBytes(d)
    ensures s.OutboundConnections() == t.OutboundConnections()
  {
  }

  lemma ArchiveKeepsGap(s: State, id: nat, d: Direction)
    requires id in s.cells
    ensures Gap(Archive(s, id), d) == Gap(s, d)
    ensures Sum(Archive(s, id).OutboundConnections()) == Sum(s.OutboundConnections())
  {
    var c, t := s.cells[id], Archive(s, id);
    PutOutbound(s, c.tag, t.outbound[c.tag], d);
    SameOutbound(s.(outbound := t.outbound), t, d);
  }

  lemma {:induction false} ArchiveAllKeepsGap(s: State, order: seq<nat>, d: Direction)
    requires forall id :: id in order ==> id in s.cells
    ensures Gap(ArchiveAll(s, order), d) == Gap(s, d)
    ensures Sum(ArchiveAll(s, order).OutboundConnections()) == Sum(s.OutboundConnections())
    decreases |order|
  {
    if order != [] {
      var n := |order| - 1;
      ArchiveAllKeepsGap(s, order[..n], d);
      ArchiveKeepsGap(ArchiveAll(s, order[..n]), order[n], d);
    }
  }

  /** No operation but a reset moves the totals and the outbounds apart or together. */
  lemma StepKeepsGap(s: State, op: Op, d: Direction)
    requires s.Valid() && Legal(s, op)
    ensures Gap(Step(s, op), d) == if op.OpReset? then 0 else Gap(s, d)
    ensures Sum(Step(s, op).OutboundConnections())
            == if op.OpReset? then 0 else Sum(s.OutboundConnections()) + (if op.OpTrack? then 1 else 0)
  {
    var t := Step(s, op);
    match op
    case OpTrack(_, tag, _) =>
      PutOutbound(s, tag, t.outbound[tag], d);
      SameOutbound(s.(outbound := t.outbound), t, d);
    case OpCloseIdle(now, maxIdle, order) =>
      assert forall id :: id in order ==> id in s.IdleSet(now, maxIdle);
      ArchiveAllKeepsGap(s, order, d);
    case OpDrop(id, lockFree) =>
      var s' := s.(guards := s.guards - {id});
      SameOutbound(s, s', d);
      if lockFree && id in s.live { ArchiveKeepsGap(s', id, d); }
    case OpReset => NoOutbounds(t, d);
    case _ => SameOutbound(s, t, d);
  }

  lemma NoOutbounds(s: State, d: Direction)
    requires s.outbound == map[]
    ensures Sum(s.OutboundBytes(d)) == 0 && Sum(s.OutboundConnections()) == 0
  {
    assert s.OutboundBytes(d) == map[] && s.OutboundConnections() == map[];
  }

  lemma {:induction false} OutboundAddsUp(ops: seq<Op>, ss: seq<State>, k: nat, d: Direction)
    requires IsRun(ops, ss) && k <= |ops|
    ensures Gap(ss[k], d) == 0
    ensures Sum(ss[k].OutboundConnections()) == TracksSinceReset(ops, k)
    decreases k
  {
    if k == 0 {
      NoOutbounds(ss[0], d);
    } else {
      OutboundAddsUp(ops, ss, k - 1, d);
      StepTo(ss[k - 1], ops[k - 1], ss[k], d);
    }
  }

  lemma StepTo(s: State, op: Op, t: State, d: Direction)
    requires s.Valid() && Legal(s, op) && t == Step(s, op)
    ensures Gap(t, d) == if op.OpReset? then 0 else Gap(s, d)
    ensures Sum(t.OutboundConnections())
            == if op.OpReset? then 0 else Sum(s.OutboundConnections()) + (if op.OpTrack? then 1 else 0)
  {
    StepKeepsGap(s, op, d);
  }

  /** At every point of every run the totals are the sums of the per-outbound records, and
      the per-outbound connection counts add up to the connections tracked since the last reset. */
  lemma OutboundsAddUp(ops: seq<Op>, ss: seq<State>, k: nat)
    requires IsRun(ops, ss) && k <= |ops|
    ensures TotalsAgree(ss[k])
    ensures Sum(ss[k].OutboundConnections()) == TracksSinceReset(ops, k)
  {
    OutboundAddsUp(ops, ss, k, Up);
    OutboundAddsUp(ops, ss, k, Down);
  }

  lemma {:induction false} ReportsAtMostAll(ops: seq<Op>, ss: seq<State>, k: nat, id: nat, d: Direction)
    requires IsRun(ops, ss) && k <= |ops|
    ensures ReportedBy(ops, k, id, d) <= ReportedIn(ops, ss, k, Everything, d)
    decreases k
  {
    if k > 0 {
      ReportsAtMostAll(ops, ss, k - 1, id, d);
      StepCounter(ss[k - 1], ops[k - 1], id, d);
    }
  }

  /** No counter exceeds the bytes ever reported, so 64-bit counters are exact while
      fewer than 2^64 bytes were reported in each direction. */
  lemma CountersStayBelow(ops: seq<Op>, ss: seq<State>, k: nat, d: Direction)
    requires IsRun(ops, ss) && k <= |ops|
    ensures var all := ReportedIn(ops, ss, k, Everything, d);
            && ss[k].Total(d) <= all
            && (forall id :: id in ss[k].cells ==> ss[k].cells[id].Bytes(d) <= all)
            && (forall t :: t in ss[k].outbound ==> ss[k].outbound[t].Bytes(d) <= all)
  {
    var s, all := ss[k], ReportedIn(ops, ss, k, Everything, d);
    Conservation(ops, ss, k, Everything, d);
    forall id | id in s.cells
      ensures s.cells[id].Bytes(d) <= all
    {
      CounterIsReports(ops, ss, k, id, d);
      ReportsAtMostAll(ops, ss, k, id, d);
    }
    OutboundsAddUp(ops, ss, k);
    forall t | t in s.outbound
      ensures s.outbound[t].Bytes(d) <= all
    {
      SumBounds(s.OutboundBytes(d), t);
    }
  }

  // ---------------------------------------------------------------- the idle sweep

  /** The bytes on the idle entries of an account. */
  ghost function IdleBytes(s: State, now: nat, maxIdle: nat, a: Account, d: Direction): map<nat, nat>
    requires s.Valid()
  {
    map id | id in s.IdleSet(now, maxIdle) && Counts(a, s.cells[id]) :: s.cells[id].Bytes(d)
  }

  lemma SweptLive(s: State, now: nat, maxIdle: nat, order: seq<nat>)
    requires s.Valid() && Legal(s, OpCloseIdle(now, maxIdle, order))
    ensures var t := Step(s, OpCloseIdle(now, maxIdle, order));
            t.cells == s.cells && t.live == s.live - s.IdleSet(now, maxIdle)
  {
    assert forall id :: id in order ==> id in s.IdleSet(now, maxIdle);
    ArchiveAllFrame(s, order);
  }

  /** An idle sweep takes exactly the idle entries out of the table, and every account gains
      exactly the bytes on its own idle entries. */
  lemma SweepArchivesIdle(s: State, now: nat, maxIdle: nat, order: seq<nat>, a: Account, d: Direction)
    requires s.Valid() && Legal(s, OpCloseIdle(now, maxIdle, order))
    ensures var t := Step(s, OpCloseIdle(now, maxIdle, order));
            && t.live == s.live - s.IdleSet(now, maxIdle)
            && Archived(t, a, d) == Archived(s, a, d) + Sum(IdleBytes(s, now, maxIdle, a, d))
  {
    var t, idle, live := Step(s, OpCloseIdle(now, maxIdle, order)), s.IdleSet(now, maxIdle), LiveBytes(s, a, d);
    SweptLive(s, now, maxIdle, order);
    SweepConserves(s, now, maxIdle, order, a, d);
    SumParts<nat>(live, idle);
    assert LiveBytes(t, a, d) == live - idle;
    assert (map id | id in live && id in idle :: live[id]) == IdleBytes(s, now, maxIdle, a, d);
  }

  /** So once every entry has been idle for longer than the limit, a sweep clears the table and
      archives all that is left, entries orphaned by a lost lock race included. */
  lemma SweepArchivesAll(ops: seq<Op>, ss: seq<State>, k: nat, a: Account, d: Direction)
    requires IsRun(ops, ss) && k < |ops| && ops[k].OpCloseIdle?
    requires forall id :: id in ss[k].live ==> ss[k].IsIdle(id, ops[k].at, ops[k].maxIdle)
    ensures ss[k + 1].live == {}
    ensures ReportedIn(ops, ss, k, a, d) == Archived(ss[k + 1], a, d) + ForfeitedIn(ops, ss, k, a, d)
  {
    SweptLive(ss[k], ops[k].at, ops[k].maxIdle, ops[k].order);
    Conservation(ops, ss, k + 1, a, d);
    assert LiveBytes(ss[k + 1], a, d) == map[];
  }

  lemma ArchiveCommutes(s: State, x: nat, y: nat)
    requires x in s.cells && y in s.cells
    ensures Archive(Archive(s, x), y) == Archive(Archive(s, y), x)
  {
    var l, r := Archive(Archive(s, x), y), Archive(Archive(s, y), x);
    assert l.live == r.live;
    assert l.outbound == r.outbound;
  }

  lemma ArchiveAllSnoc(s: State, order: seq<nat>, x: nat)
    requires x in s.cells && forall id :: id in order ==> id in s.cells
    ensures ArchiveAll(s, order + [x]) == Archive(ArchiveAll(s, order), x)
  {
    assert (order + [x])[..|order|] == order;
  }

  lemma {:induction false} ArchiveLast(s: State, pre: seq<nat>, x: nat, post: seq<nat>)
    requires x in s.cells
    requires (forall id :: id in pre ==> id in s.cells) && (forall id :: id in post ==> id in s.cells)
    ensures ArchiveAll(s, pre + [x] + post) == Archive(ArchiveAll(s, pre + post), x)
    decreases |post|
  {
    if post == [] {
      assert pre + [x] + post == pre + [x] && pre + post == pre;
      ArchiveAllSnoc(s, pre, x);
    } else {
      var most, last := post[..|post| - 1], post[|post| - 1];
      ArchiveLast(s, pre, x, most);
      assert pre + [x] + post == pre + [x] + most + [last] && pre + post == pre + most + [last];
      ArchiveAllSnoc(s, pre + [x] + most, last);
      ArchiveAllSnoc(s, pre + most, last);
      ArchiveCommutes(ArchiveAll(s, pre + most), x, last);
    }
  }

  lemma {:induction false} EnumerationLength(order: seq<nat>, ids: set<nat>)
    requires Enumerates(order, ids)
    ensures |order| == |ids|
    decreases |order|
  {
    if order == [] {
      assert ids == {};
    } else {
      RestEnumerates(order, 0, ids);
      EnumerationLength(order[..0] + order[1..], ids - {order[0]});
    }
  }

  /** The sweep's result does not depend on the order in which the table is visited. */
  lemma {:induction false} SweepOrderIrrelevant(s: State, first: seq<nat>, second: seq<nat>, ids: set<nat>)
    requires ids <= s.cells.Keys && Enumerates(first, ids) && Enumerates(second, ids)
    ensures (forall id :: id in first ==> id in s.cells) && (forall id :: id in second ==> id in s.cells)
    ensures ArchiveAll(s, first) == ArchiveAll(s, second)
    decreases |first|
  {
    if first == [] {
      EnumerationLength(second, ids);
    } else {
      var n := |first| - 1;
      assert first[n] in ids;
      var i :| 0 <= i < |second| && second[i] == first[n];
      assert second == second[..i] + [second[i]] + second[i + 1..];
      ArchiveLast(s, second[..i], second[i], second[i + 1..]);
      var rest := second[..i] + second[i + 1..];
      RestEnumerates(first, n, ids);
      RestEnumerates(second, i, ids);
      assert first[..n] + first[n + 1..] == first[..n];
      SweepOrderIrrelevant(s, first[..n], rest, ids - {first[n]});
    }
  }

  lemma RestEnumerates(order: seq<nat>, i: nat, ids: set<nat>)
    requires i < |order| && Enumerates(order, ids)
    ensures Enumerates(order[..i] + order[i + 1..], ids - {order[i]})
  {
    var rest := order[..i] + order[i + 1..];
    forall x | x in ids - {order[i]}
      ensures x in rest
    {
      var k :| 0 <= k < |order| && order[k] == x;
      assert rest[if k < i then k else k - 1] == x;
    }
    forall x | x in rest
      ensures x in ids && x != order[i]
    {
      var k :| 0 <= k < |rest| && rest[k] == x;
      assert order[if k < i then k else k + 1] == x;
    }
    assert ids - {order[i]} == set id | id in rest;
  }
}
