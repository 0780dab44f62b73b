/** The books of the tracker under its single writes. Archiving an entry adds to the upload total,
    to the download total and to the outbound's record, one after the other, and holds the table
    lock throughout, so archives do not overlap. A reset clears the three in the same order and
    takes no such lock: its writes, and those of other resets, may fall anywhere. */
module TrackerWrites {
  import opened Basics
  import opened MapSum
  import opened Tracker
  import opened TrackerLaws

  /** An archived entry, with how often each place had been cleared when it was written there. */
  datatype Mark = Mark(cell: Cell, upAt: nat, downAt: nat, recordAt: nat) {
    function TotalAt(d: Direction): nat { if d.Up? then upAt else downAt }
  }

  /** The archive that holds the lock and what it has written. */
  datatype Turn = Free | UpWritten(cell: Cell, upAt: nat) | TotalsWritten(cell: Cell, upAt: nat, downAt: nat)

  datatype Machine = Machine(
    books: State, turn: Turn, upClears: nat, downClears: nat, recordClears: nat, log: seq<Mark>)
  {
    function Clears(d: Direction): nat { if d.Up? then upClears else downClears }

    /** No archive and no reset is under way. */
    predicate AtRest() { turn.Free? && upClears == downClears == recordClears }
  }

  const START := Machine(INIT, Free, 0, 0, 0, [])

  datatype Write =
    | AddUp(cell: Cell) | AddDown | AddRecord
    | CountTrack(tag: string)
    | ClearUp | ClearDown | ClearRecords

  /** Archives take turns; a reset clears the downloads after the uploads and the records last. */
  predicate Enabled(m: Machine, w: Write) {
    match w
    case AddUp(_) => m.turn.Free?
    case AddDown => m.turn.UpWritten?
    case AddRecord => m.turn.TotalsWritten?
    case CountTrack(_) => true
    case ClearUp => true
    case ClearDown => m.downClears < m.upClears
    case ClearRecords => m.recordClears < m.downClears
  }

  function Recorded(s: State, c: Cell): State {
    var o := s.OutboundFor(c.tag);
    s.(outbound := s.outbound[c.tag := o.(up := o.up + c.up, down := o.down + c.down)])
  }

  function Counted(s: State, tag: string): State {
    var o := s.OutboundFor(tag);
    s.(outbound := s.outbound[tag := o.(connections := o.connections + 1)])
  }

  function Next(m: Machine, w: Write): Machine
    requires Enabled(m, w)
  {
    var s := m.books;
    match w
    case AddUp(c) => m.(books := s.(totalUp := s.totalUp + c.up), turn := UpWritten(c, m.upClears))
    case AddDown =>
      var c := m.turn.cell;
      m.(books := s.(totalDown := s.totalDown + c.down), turn := TotalsWritten(c, m.turn.upAt, m.downClears))
    case AddRecord =>
      var t := m.turn;
      m.(books := Recorded(s, t.cell), turn := Free, log := m.log + [Mark(t.cell, t.upAt, t.downAt, m.recordClears)])
    case CountTrack(tag) => m.(books := Counted(s, tag))
    case ClearUp => m.(books := s.(totalUp := 0), upClears := m.upClears + 1)
    case ClearDown => m.(books := s.(totalDown := 0), downClears := m.downClears + 1)
    case ClearRecords => m.(books := s.(outbound := map[]), recordClears := m.recordClears + 1)
  }

  /** Any interleaving of archives, tracks and any number of resets. */
  ghost predicate IsRun(ws: seq<Write>, ms: seq<Machine>) {
    && |ms| == |ws| + 1 && ms[0] == START
    && forall k :: 0 <= k < |ws| ==> Enabled(ms[k], ws[k]) && ms[k + 1] == Next(ms[k], ws[k])
  }

  /** The atomic archive of the tracker machine is these three writes. */
  lemma ArchiveIsThreeWrites(m: Machine, id: nat)
    requires m.turn.Free? && id in m.books.cells
    ensures var c := m.books.cells[id];
            var t := Next(Next(Next(m, AddUp(c)), AddDown), AddRecord);
            Archive(m.books, id) == t.books.(live := m.books.live - {id})
  {
  }

  // ---------------------------------------------------------------- what the books hold

  /** Bytes of the marks written to the total of `d` after its n-th clear and before the next. */
  function InTotal(log: seq<Mark>, n: nat, d: Direction): nat {
    if log == [] then 0
    else
      var last := log[|log| - 1];
      InTotal(log[..|log| - 1], n, d) + if last.TotalAt(d) == n then last.cell.Bytes(d) else 0
  }

  function InRecords(log: seq<Mark>, n: nat, d: Direction): nat {
    if log == [] then 0
    else
      var last := log[|log| - 1];
      InRecords(log[..|log| - 1], n, d) + if last.recordAt == n then last.cell.Bytes(d) else 0
  }

  /** What the archive under way has added to a total that still stands. */
  function InTurn(t: Turn, n: nat, d: Direction): nat {
    match t
    case Free => 0
    case UpWritten(c, upAt) => if d.Up? && upAt == n then c.up else 0
    case TotalsWritten(c, upAt, downAt) => if (if d.Up? then upAt else downAt) == n then c.Bytes(d) else 0
  }

  ghost predicate Bounded(m: Machine, d: Direction) {
    && m.recordClears <= m.downClears <= m.upClears
    && (forall i :: 0 <= i < |m.log| ==> m.log[i].TotalAt(d) <= m.Clears(d) && m.log[i].recordAt <= m.recordClears)
    && (m.turn.UpWritten? ==> m.turn.upAt <= m.upClears)
    && (m.turn.TotalsWritten? ==> m.turn.upAt <= m.upClears && m.turn.downAt <= m.downClears)
  }

  ghost predicate Books(m: Machine, d: Direction) {
    && m.books.Total(d) == InTotal(m.log, m.Clears(d), d) + InTurn(m.turn, m.Clears(d), d)
    && Sum(m.books.OutboundBytes(d)) == InRecords(m.log, m.recordClears, d)
  }

  lemma {:induction false} NothingLater(log: seq<Mark>, n: nat, d: Direction)
    ensures (forall i :: 0 <= i < |log| ==> log[i].TotalAt(d) < n) ==> InTotal(log, n, d) == 0
    ensures (forall i :: 0 <= i < |log| ==> log[i].recordAt < n) ==> InRecords(log, n, d) == 0
    decreases |log|
  {
    if log != [] { NothingLater(log[..|log| - 1], n, d); }
  }

  lemma OneMore(log: seq<Mark>, mark: Mark, n: nat, d: Direction)
    ensures InTotal(log + [mark], n, d) == InTotal(log, n, d) + if mark.TotalAt(d) == n then mark.cell.Bytes(d) else 0
    ensures InRecords(log + [mark], n, d) == InRecords(log, n, d) + if mark.recordAt == n then mark.cell.Bytes(d) else 0
  {
    assert (log + [mark])[..|log|] == log;
  }

  lemma StepBounded(m: Machine, w: Write, d: Direction)
    requires Bounded(m, d) && Enabled(m, w)
    ensures Bounded(Next(m, w), d)
  {
  }

  lemma StepRecords(m: Machine, w: Write, d: Direction)
    requires Bounded(m, d) && Books(m, d) && Enabled(m, w)
    ensures var t := Next(m, w); Sum(t.books.OutboundBytes(d)) == InRecords(t.log, t.recordClears, d)
  {
    var s, t := m.books, Next(m, w);
    match w
    case AddRecord =>
      var c := m.turn.cell;
      PutOutbound(s, c.tag, t.books.outbound[c.tag], d);
      OneMore(m.log, t.log[|m.log|], m.recordClears, d);
    case CountTrack(tag) => PutOutbound(s, tag, t.books.outbound[tag], d);
    case ClearRecords =>
      NoOutbounds(t.books, d);
      NothingLater(m.log, t.recordClears, d);
    case _ => SameOutbound(s, t.books, d);
  }

  lemma StepTotals(m: Machine, w: Write, d: Direction)
    requires Bounded(m, d) && Books(m, d) && Enabled(m, w)
    ensures var t := Next(m, w);
            t.books.Total(d) == InTotal(t.log, t.Clears(d), d) + InTurn(t.turn, t.Clears(d), d)
  {
    var t := Next(m, w);
    if w.AddRecord? {
      OneMore(m.log, t.log[|m.log|], m.Clears(d), d);
    } else if w.ClearUp? || w.ClearDown? {
      NothingLater(m.log, m.Clears(d) + 1, d);
    }
  }

  /** At every write of every interleaving, a total holds what was added to it since it was last
      cleared, and the records what was added to them since they were. */
  lemma {:induction false} BooksHold(ws: seq<Write>, ms: seq<Machine>, k: nat, d: Direction)
    requires IsRun(ws, ms) && k <= |ws|
    ensures Bounded(ms[k], d) && Books(ms[k], d)
    decreases k
  {
    if k == 0 {
      NoOutbounds(INIT, d);
    } else {
      BooksHold(ws, ms, k - 1, d);
      StepBounded(ms[k - 1], ws[k - 1], d);
      StepRecords(ms[k - 1], ws[k - 1], d);
      StepTotals(ms[k - 1], ws[k - 1], d);
    }
  }

  // ---------------------------------------------------------------- torn archives

  /** Only one of the two writes of an archive outlived the n clears of its place. */
  predicate Torn(mark: Mark, n: nat, d: Direction) {
    (mark.TotalAt(d) == n) != (mark.recordAt == n)
  }

  /** Archives take turns, and a reset clears a total before the records: what an archive wrote
      to the records is no later than what the next ones write to the total. */
  ghost predicate InTurns(log: seq<Mark>, d: Direction) {
    forall i, j :: 0 <= i < j < |log| ==>
      && log[i].TotalAt(d) <= log[j].TotalAt(d)
      && log[i].recordAt <= log[j].recordAt
      && log[i].recordAt <= log[j].TotalAt(d)
  }

  ghost predicate TurnIsLast(m: Machine, d: Direction) {
    forall i :: 0 <= i < |m.log| ==>
      && (m.turn.UpWritten? && d.Up? ==> m.log[i].upAt <= m.turn.upAt && m.log[i].recordAt <= m.turn.upAt)
      && (m.turn.TotalsWritten? ==>
            var at := if d.Up? then m.turn.upAt else m.turn.downAt;
            m.log[i].TotalAt(d) <= at && m.log[i].recordAt <= at)
  }

  lemma {:induction false} ArchivesTakeTurns(ws: seq<Write>, ms: seq<Machine>, k: nat, d: Direction)
    requires IsRun(ws, ms) && k <= |ws|
    ensures InTurns(ms[k].log, d) && TurnIsLast(ms[k], d)
    decreases k
  {
    if k > 0 {
      ArchivesTakeTurns(ws, ms, k - 1, d);
      BooksHold(ws, ms, k - 1, d);
      StepTakesTurns(ms[k - 1], ws[k - 1], d);
    }
  }

  lemma StepTakesTurns(m: Machine, w: Write, d: Direction)
    requires Bounded(m, d) && InTurns(m.log, d) && TurnIsLast(m, d) && Enabled(m, w)
    ensures InTurns(Next(m, w).log, d) && TurnIsLast(Next(m, w), d)
  {
  }

  ghost function Difference(log: seq<Mark>, n: nat, d: Direction): int {
    InTotal(log, n, d) - InRecords(log, n, d)
  }

  /** Every torn archive lost its record: the total is ahead unless none of them has bytes. */
  lemma {:induction false} RecordsLost(log: seq<Mark>, n: nat, d: Direction)
    requires forall i :: 0 <= i < |log| ==> log[i].recordAt == n ==> log[i].TotalAt(d) == n
    ensures Difference(log, n, d) >= 0
    ensures Difference(log, n, d) == 0
            <==> forall i :: 0 <= i < |log| && Torn(log[i], n, d) ==> log[i].cell.Bytes(d) == 0
    decreases |log|
  {
    if log != [] {
      var l := |log| - 1;
      assert log == log[..l] + [log[l]];
      RecordsLost(log[..l], n, d);
    }
  }

  /** An archive that lost its place in the total is the only torn one. */
  lemma {:induction false} TotalLost(log: seq<Mark>, n: nat, d: Direction, j: nat)
    requires j < |log| && log[j].recordAt == n && log[j].TotalAt(d) < n
    requires forall i :: 0 <= i < |log| && i != j ==> !Torn(log[i], n, d)
    ensures Difference(log, n, d) == 0 - log[j].cell.Bytes(d)
    decreases |log|
  {
    var l := |log| - 1;
    if j < l {
      TotalLost(log[..l], n, d, j);
    } else {
      NoneTorn(log[..l], n, d);
    }
  }

  lemma {:induction false} NoneTorn(log: seq<Mark>, n: nat, d: Direction)
    requires forall i :: 0 <= i < |log| ==> !Torn(log[i], n, d)
    ensures Difference(log, n, d) == 0
    decreases |log|
  {
    if log != [] { NoneTorn(log[..|log| - 1], n, d); }
  }

  /** With all archives and resets finished, a total and the records of its direction agree
      exactly if no archive with bytes has one of its two writes before the last clear of its
      place and the other after. */
  lemma TornExactly(ws: seq<Write>, ms: seq<Machine>, k: nat, d: Direction)
    requires IsRun(ws, ms) && k <= |ws| && ms[k].AtRest()
    ensures var m := ms[k];
            Gap(m.books, d) == 0
            <==> forall i :: 0 <= i < |m.log| && Torn(m.log[i], m.recordClears, d) ==> m.log[i].cell.Bytes(d) == 0
  {
    var m := ms[k];
    var n := m.recordClears;
    BooksHold(ws, ms, k, d);
    ArchivesTakeTurns(ws, ms, k, d);
    assert Gap(m.books, d) == Difference(m.log, n, d);
    if j :| 0 <= j < |m.log| && m.log[j].recordAt == n && m.log[j].TotalAt(d) < n {
      TotalLost(m.log, n, d, j);
    } else {
      RecordsLost(m.log, n, d);
    }
  }

  lemma ResetInsideRun(c: Cell) returns (ws: seq<Write>, ms: seq<Machine>)
    ensures IsRun(ws, ms) && ws == [AddUp(c), ClearUp, ClearDown, ClearRecords, AddDown, AddRecord]
    ensures ms[6].AtRest() && ms[6].recordClears == 1 && ms[6].log == [Mark(c, 0, 1, 1)]
  {
    ws := [AddUp(c), ClearUp, ClearDown, ClearRecords, AddDown, AddRecord];
    var m1 := Next(START, ws[0]);
    var m2 := Next(m1, ws[1]);
    var m3 := Next(m2, ws[2]);
    var m4 := Next(m3, ws[3]);
    var m5 := Next(m4, ws[4]);
    ms := [START, m1, m2, m3, m4, m5, Next(m5, ws[5])];
  }

  /** A whole reset inside an archive, with nothing archived between its own writes: the upload
      is on the outbound and in no total. */
  lemma ResetInsideArchive(c: Cell) returns (ws: seq<Write>, ms: seq<Machine>)
    ensures IsRun(ws, ms) && ws == [AddUp(c), ClearUp, ClearDown, ClearRecords, AddDown, AddRecord]
    ensures ms[6].AtRest() && Gap(ms[6].books, Up) == 0 - c.up && Gap(ms[6].books, Down) == 0
  {
    ws, ms := ResetInsideRun(c);
    var mark := Mark(c, 0, 1, 1);
    assert ms[6].log == [] + [mark];
    BooksHold(ws, ms, 6, Up);
    OneMore([], mark, 1, Up);
    BooksHold(ws, ms, 6, Down);
    OneMore([], mark, 1, Down);
  }

  // ---------------------------------------------------------------- archives that no clear interrupts

  /** Every clear finds the table unlocked. */
  ghost predicate Uninterrupted(ws: seq<Write>, ms: seq<Machine>, k: nat)
    requires k <= |ws| < |ms|
  {
    forall i :: 0 <= i < k && (ws[i].ClearUp? || ws[i].ClearDown? || ws[i].ClearRecords?) ==> ms[i].turn.Free?
  }

  /** After the n-th clear of the total and before that of the records. */
  predicate BetweenClears(mark: Mark, n: nat, d: Direction) {
    mark.TotalAt(d) == n && mark.recordAt < n
  }

  ghost predicate Whole(m: Machine) {
    && m.recordClears <= m.downClears <= m.upClears
    && (m.turn.UpWritten? ==> m.turn.upAt == m.upClears)
    && (m.turn.TotalsWritten? ==> m.turn.upAt == m.upClears && m.turn.downAt == m.downClears)
    && (forall i :: 0 <= i < |m.log| ==> m.log[i].recordAt <= m.log[i].downAt <= m.log[i].upAt)
  }

  lemma {:induction false} ArchivesAreWhole(ws: seq<Write>, ms: seq<Machine>, k: nat)
    requires IsRun(ws, ms) && k <= |ws| && Uninterrupted(ws, ms, k)
    ensures Whole(ms[k])
    decreases k
  {
    if k > 0 {
      ArchivesAreWhole(ws, ms, k - 1);
      assert ms[k] == Next(ms[k - 1], ws[k - 1]);
    }
  }

  /** If no clear falls inside an archive, a total and its records agree exactly if no archive
      with bytes falls between the last clear of the total and that of the records. */
  lemma BetweenClearsExactly(ws: seq<Write>, ms: seq<Machine>, k: nat, d: Direction)
    requires IsRun(ws, ms) && k <= |ws| && ms[k].AtRest() && Uninterrupted(ws, ms, k)
    ensures var m := ms[k];
            Gap(m.books, d) == 0 <==>
            forall i :: 0 <= i < |m.log| && BetweenClears(m.log[i], m.recordClears, d) ==> m.log[i].cell.Bytes(d) == 0
  {
    var m := ms[k];
    TornExactly(ws, ms, k, d);
    BooksHold(ws, ms, k, d);
    ArchivesAreWhole(ws, ms, k);
    assert forall i :: 0 <= i < |m.log| ==>
      (Torn(m.log[i], m.recordClears, d) <==> BetweenClears(m.log[i], m.recordClears, d));
  }

  // ---------------------------------------------------------------- connection counts

  /** Connections counted since the records were last cleared. */
  function TracksSinceClear(ws: seq<Write>, k: nat): nat
    requires k <= |ws|
  {
    if k == 0 || ws[k - 1].ClearRecords? then 0
    else TracksSinceClear(ws, k - 1) + if ws[k - 1].CountTrack? then 1 else 0
  }

  /** At every write of every interleaving the connection counts add up to the connections
      counted since the last clear of the records, which is the last write of a reset. */
  lemma {:induction false} CountsHold(ws: seq<Write>, ms: seq<Machine>, k: nat)
    requires IsRun(ws, ms) && k <= |ws|
    ensures Sum(ms[k].books.OutboundConnections()) == TracksSinceClear(ws, k)
    decreases k
  {
    if k == 0 {
      NoOutbounds(INIT, Up);
    } else {
      CountsHold(ws, ms, k - 1);
      StepCounts(ms[k - 1], ws[k - 1]);
    }
  }

  lemma StepCounts(m: Machine, w: Write)
    requires Enabled(m, w)
    ensures Sum(Next(m, w).books.OutboundConnections())
            == if w.ClearRecords? then 0
               else Sum(m.books.OutboundConnections()) + if w.CountTrack? then 1 else 0
  {
    var s, t := m.books, Next(m, w).books;
    match w
    case AddRecord => PutOutbound(s, m.turn.cell.tag, t.outbound[m.turn.cell.tag], Up);
    case CountTrack(tag) => PutOutbound(s, tag, t.outbound[tag], Up);
    case ClearRecords => NoOutbounds(t, Up);
    case _ => SameOutbound(s, t, Up);
  }
}
