/** The connection tracker as a state machine over unbounded counters.
    ConnectionTracker.dfy ties the object to it. */
module Tracker {
  datatype Direction = Up | Down

  /** The counters one connection shares between its guard and its tracker entry. */
  datatype Cell = Cell(tag: string, up: nat, down: nat, lastActivity: nat) {
    function Bytes(d: Direction): nat {
      if d.Up? then up else down
    }

    function Report(d: Direction, n: nat, now: nat): Cell {
      if d.Up? then this.(up := up + n, lastActivity := now)
      else this.(down := down + n, lastActivity := now)
    }
  }

  datatype OutboundTraffic = OutboundTraffic(up: nat, down: nat, connections: nat) {
    function Bytes(d: Direction): nat {
      if d.Up? then up else down
    }
  }

  /** `cells` keeps the counters of every connection ever tracked, because a guard may
      outlive its entry and an entry its guard. `live` are the keys of the connection table. */
  datatype State = State(
    nextId: nat,
    cells: map<nat, Cell>,
    live: set<nat>,
    guards: set<nat>,
    totalUp: nat,
    totalDown: nat,
    outbound: map<string, OutboundTraffic>)
  {
    ghost predicate Valid() {
      && live <= cells.Keys
      && guards <= cells.Keys
      && forall id :: id in cells ==> id < nextId
    }

    function Total(d: Direction): nat {
      if d.Up? then totalUp else totalDown
    }

    /** The per-outbound record, or the default record `or_default` would insert. */
    function OutboundFor(tag: string): OutboundTraffic {
      if tag in outbound then outbound[tag] else OutboundTraffic(0, 0, 0)
    }

    ghost function OutboundBytes(d: Direction): map<string, nat> {
      map t | t in outbound :: outbound[t].Bytes(d)
    }

    ghost function OutboundConnections(): map<string, nat> {
      map t | t in outbound :: outbound[t].connections
    }

    predicate IsIdle(id: nat, now: nat, maxIdle: nat)
      requires id in cells
    {
      cells[id].lastActivity + maxIdle < now
    }

    ghost function IdleSet(now: nat, maxIdle: nat): set<nat>
      requires Valid()
    {
      set id | id in live && IsIdle(id, now, maxIdle)
    }
  }

  const INIT := State(0, map[], {}, {}, 0, 0, map[])

  // ---------------------------------------------------------------- operations

  /** A new connection. Other trackers share the id counter, so ids may be skipped. */
  function Track(s: State, skipped: nat, tag: string, now: nat): State {
    var id := s.nextId + skipped;
    var o := s.OutboundFor(tag);
    s.(nextId := id + 1,
       cells := s.cells[id := Cell(tag, 0, 0, now)],
       live := s.live + {id},
       guards := s.guards + {id},
       outbound := s.outbound[tag := o.(connections := o.connections + 1)])
  }

  function Report(s: State, id: nat, d: Direction, n: nat, now: nat): State
    requires id in s.cells
  {
    s.(cells := s.cells[id := s.cells[id].Report(d, n, now)])
  }

  function Close(s: State, id: nat): State {
    s.(live := s.live - {id})
  }

  function CloseAll(s: State): State {
    s.(live := {})
  }

  function ResetTraffic(s: State): State {
    s.(totalUp := 0, totalDown := 0, outbound := map[])
  }

  /** Removes one entry and adds its bytes to the totals and to its outbound's record. */
  function Archive(s: State, id: nat): State
    requires id in s.cells
  {
    var c := s.cells[id];
    var o := s.OutboundFor(c.tag);
    s.(live := s.live - {id},
       totalUp := s.totalUp + c.up,
       totalDown := s.totalDown + c.down,
       outbound := s.outbound[c.tag := o.(up := o.up + c.up, down := o.down + c.down)])
  }

  /** Archives a list of entries in the order the hash table happens to visit them. */
  function ArchiveAll(s: State, order: seq<nat>): (t: State)
    requires forall id :: id in order ==> id in s.cells
    ensures t.cells == s.cells
    decreases |order|
  {
    if order == [] then s
    else Archive(ArchiveAll(s, order[..|order| - 1]), order[|order| - 1])
  }

  /** Dropping a guard archives its entry, unless the table is locked or the entry is gone. */
  function DropGuard(s: State, id: nat, lockFree: bool): State
    requires id in s.cells
  {
    var s' := s.(guards := s.guards - {id});
    if lockFree && id in s.live then Archive(s', id) else s'
  }

  ghost predicate Enumerates(order: seq<nat>, ids: set<nat>) {
    && (forall i, j :: 0 <= i < j < |order| ==> order[i] != order[j])
    && ids == set id | id in order
  }

  // ---------------------------------------------------------------- runs

  datatype Op =
    | OpTrack(skipped: nat, tag: string, at: nat)
    | OpReport(id: nat, dir: Direction, bytes: nat, at: nat)
    | OpClose(id: nat)
    | OpCloseIdle(at: nat, maxIdle: nat, order: seq<nat>)
    | OpCloseAll
    | OpReset
    | OpDrop(id: nat, lockFree: bool)

  /** Only a guard still held can report bytes or be dropped. */
  ghost predicate Legal(s: State, op: Op)
    requires s.Valid()
  {
    match op
    case OpReport(id, _, _, _) => id in s.guards
    case OpDrop(id, _) => id in s.guards
    case OpCloseIdle(now, maxIdle, order) => Enumerates(order, s.IdleSet(now, maxIdle))
    case _ => true
  }

  ghost function Step(s: State, op: Op): (s': State)
    requires s.Valid() && Legal(s, op)
    ensures s'.Valid()
  {
    match op
    case OpTrack(skipped, tag, now) => Track(s, skipped, tag, now)
    case OpReport(id, d, n, now) => Report(s, id, d, n, now)
    case OpClose(id) => Close(s, id)
    case OpCloseIdle(now, maxIdle, order) =>
      assert forall id :: id in order ==> id in s.IdleSet(now, maxIdle);
      ArchiveAllFrame(s, order);
      ArchiveAll(s, order)
    case OpCloseAll => CloseAll(s)
    case OpReset => ResetTraffic(s)
    case OpDrop(id, lockFree) => DropGuard(s, id, lockFree)
  }

  /** Archiving touches nothing but the table, the totals and the outbound records. */
  lemma {:induction false} ArchiveAllFrame(s: State, order: seq<nat>)
    requires forall id :: id in order ==> id in s.cells
    ensures var t := ArchiveAll(s, order);
            && t.guards == s.guards && t.nextId == s.nextId
            && t.live == s.live - (set id | id in order)
    decreases |order|
  {
    if order != [] {
      var n := |order| - 1;
      ArchiveAllFrame(s, order[..n]);
      assert order == order[..n] + [order[n]];
    }
  }

  /** Operations and the states between them, each operation legal where it happens. */
  ghost predicate IsPath(ops: seq<Op>, ss: seq<State>) {
    && |ss| == |ops| + 1
    && (forall i :: 0 <= i < |ss| ==> ss[i].Valid())
    && (forall i :: 0 <= i < |ops| ==> Legal(ss[i], ops[i]) && ss[i + 1] == Step(ss[i], ops[i]))
  }

  /** A run: a path from the new tracker on. */
  ghost predicate IsRun(ops: seq<Op>, ss: seq<State>) {
    IsPath(ops, ss) && ss[0] == INIT
  }
}
