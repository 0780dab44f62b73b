/** The tracker object: counters shared by reference between a connection's guard and its
    table entry. Every method is one step of the Tracker machine on the state it stands for. */
module ConnectionTracker {
  import opened Tracker

  class Counters {
    var upload: nat
    var download: nat
    var lastActivity: nat
    ghost const owner: nat

    constructor (now: nat, ghost owner: nat)
      ensures upload == 0 && download == 0 && lastActivity == now && this.owner == owner
    {
      upload, download, lastActivity, this.owner := 0, 0, now, owner;
    }
  }

  datatype Entry = Entry(outboundTag: string, counters: Counters)

  class ConnectionTracker {
    var connections: map<nat, Entry>
    var totalUpload: nat
    var totalDownload: nat
    var outboundTraffic: map<string, OutboundTraffic>

    /** The machine state this object stands for, and the counters of every connection
        ever tracked: a guard may still hold those of a removed entry. */
    ghost var ideal: State
    ghost var shared: map<nat, Counters>
    ghost var counterSet: set<Counters>

    ghost predicate CountersMatch(cells: map<nat, Cell>)
      reads this`shared, this`counterSet, counterSet
    {
      && shared.Keys == cells.Keys
      && (forall id {:trigger shared[id]} :: id in shared ==>
            && shared[id] in counterSet
            && shared[id].owner == id
            && shared[id].upload == cells[id].up
            && shared[id].download == cells[id].down
            && shared[id].lastActivity == cells[id].lastActivity)
    }

    ghost predicate TableMatches(cells: map<nat, Cell>, live: set<nat>)
      reads this`connections, this`shared
    {
      && connections.Keys == live
      && (forall id {:trigger connections[id]} :: id in connections ==>
            id in cells && id in shared && connections[id] == Entry(cells[id].tag, shared[id]))
    }

    ghost predicate TotalsMatch(up: nat, down: nat, outbound: map<string, OutboundTraffic>)
      reads this`totalUpload, this`totalDownload, this`outboundTraffic
    {
      totalUpload == up && totalDownload == down && outboundTraffic == outbound
    }

    ghost predicate Matches(s: State)
      reads this, counterSet
    {
      && CountersMatch(s.cells)
      && TableMatches(s.cells, s.live)
      && TotalsMatch(s.totalUp, s.totalDown, s.outbound)
    }

    ghost predicate Valid()
      reads this, counterSet
    {
      ideal.Valid() && Matches(ideal)
    }

    constructor ()
      ensures Valid() && ideal == INIT
    {
      connections, outboundTraffic := map[], map[];
      totalUpload, totalDownload := 0, 0;
      ideal, shared, counterSet := INIT, map[], {};
    }

    /** `id` is the value taken from the process-wide counter. */
    method Track(id: nat, tag: string, now: nat) returns (guard: ConnectionGuard)
      requires Valid() && ideal.nextId <= id
      modifies this
      ensures Valid() && ideal == Tracker.Track(old(ideal), id - old(ideal).nextId, tag, now)
      ensures guard.tracker == this && guard.id == id && guard.Holds()
      ensures fresh(guard) && fresh(guard.counters) && shared == old(shared)[id := guard.counters]
    {
      var counters := new Counters(now, id);
      Register(id, tag, now, counters);
      guard := new ConnectionGuard(id, counters, this);
    }

    method Register(id: nat, tag: string, now: nat, counters: Counters)
      requires Valid() && ideal.nextId <= id
      requires counters.owner == id && counters.upload == 0 && counters.download == 0 && counters.lastActivity == now
      modifies this
      ensures Valid() && ideal == Tracker.Track(old(ideal), id - old(ideal).nextId, tag, now)
      ensures shared == old(shared)[id := counters]
    {
      ghost var s := ideal;
      ideal := Tracker.Track(s, id - s.nextId, tag, now);
      Insert(id, tag, now, counters, s);
    }

    method Insert(id: nat, tag: string, now: nat, counters: Counters, ghost s: State)
      requires Matches(s) && s.nextId <= id && id !in s.cells
      requires counters.owner == id && counters.upload == 0 && counters.download == 0 && counters.lastActivity == now
      modifies this`connections, this`outboundTraffic, this`shared, this`counterSet
      ensures Matches(Tracker.Track(s, id - s.nextId, tag, now))
      ensures shared == old(shared)[id := counters]
    {
      CountConnection(tag);
      PutEntry(id, tag, now, counters, s.cells, s.live);
    }

    method PutEntry(
        id: nat, tag: string, now: nat, counters: Counters, ghost cells: map<nat, Cell>, ghost live: set<nat>)
      requires CountersMatch(cells) && TableMatches(cells, live) && id !in cells
      requires counters.owner == id && counters.upload == 0 && counters.download == 0 && counters.lastActivity == now
      modifies this`connections, this`shared, this`counterSet
      ensures CountersMatch(cells[id := Cell(tag, 0, 0, now)])
      ensures TableMatches(cells[id := Cell(tag, 0, 0, now)], live + {id})
      ensures shared == old(shared)[id := counters]
    {
      connections := connections[id := Entry(tag, counters)];
      shared, counterSet := shared[id := counters], counterSet + {counters};
    }

    method CountConnection(tag: string)
      modifies this`outboundTraffic
      ensures var o := old(Outbound(tag));
              outboundTraffic == old(outboundTraffic)[tag := o.(connections := o.connections + 1)]
    {
      var o := Outbound(tag);
      outboundTraffic := outboundTraffic[tag := o.(connections := o.connections + 1)];
    }

    function Outbound(tag: string): OutboundTraffic
      reads this`outboundTraffic
    {
      if tag in outboundTraffic then outboundTraffic[tag] else OutboundTraffic(0, 0, 0)
    }

    method AddToTotals(tag: string, up: nat, down: nat)
      modifies this`totalUpload, this`totalDownload, this`outboundTraffic
      ensures totalUpload == old(totalUpload) + up && totalDownload == old(totalDownload) + down
      ensures var o := old(Outbound(tag));
              outboundTraffic == old(outboundTraffic)[tag := o.(up := o.up + up, down := o.down + down)]
    {
      totalUpload := totalUpload + up;
      totalDownload := totalDownload + down;
      var o := Outbound(tag);
      outboundTraffic := outboundTraffic[tag := o.(up := o.up + up, down := o.down + down)];
    }

    method Close(id: nat) returns (found: bool)
      requires Valid()
      modifies this`connections, this`ideal
      ensures Valid() && ideal == Tracker.Close(old(ideal), id)
      ensures found <==> id in old(ideal).live
    {
      found := id in connections;
      connections := connections - {id};
      ideal := Tracker.Close(ideal, id);
    }

    method CloseAll() returns (count: nat)
      requires Valid()
      modifies this`connections, this`ideal
      ensures Valid() && ideal == Tracker.CloseAll(old(ideal))
      ensures count == |old(ideal).live|
    {
      count := |connections.Keys|;
      connections := map[];
      ideal := Tracker.CloseAll(ideal);
    }

    method ResetTraffic()
      requires Valid()
      modifies this`totalUpload, this`totalDownload, this`outboundTraffic, this`ideal
      ensures Valid() && ideal == Tracker.ResetTraffic(old(ideal))
    {
      totalUpload, totalDownload := 0, 0;
      outboundTraffic := map[];
      ideal := Tracker.ResetTraffic(ideal);
    }

    /** Takes one entry out and adds its bytes to the totals and to its outbound. */
    method ArchiveEntry(id: nat, ghost s: State)
      requires Matches(s) && id in connections
      modifies this`connections, this`totalUpload, this`totalDownload, this`outboundTraffic
      ensures id in s.cells && Matches(Archive(s, id))
      ensures connections == old(connections) - {id}
    {
      var entry := connections[id];
      connections := connections - {id};
      AddToTotals(entry.outboundTag, entry.counters.upload, entry.counters.download);
    }

    method Visit(id: nat, now: nat, maxIdle: nat, ghost s: State) returns (ghost archived: bool)
      requires Matches(s) && id in connections
      modifies this`connections, this`totalUpload, this`totalDownload, this`outboundTraffic
      ensures id in s.cells && archived == s.IsIdle(id, now, maxIdle)
      ensures Matches(if archived then Archive(s, id) else s)
      ensures connections == if archived then old(connections) - {id} else old(connections)
    {
      archived := connections[id].counters.lastActivity + maxIdle < now;
      if connections[id].counters.lastActivity + maxIdle < now {
        ArchiveEntry(id, s);
      }
    }

    /** The entries of `order`, and no other idle entry outside `todo`, have been archived. */
    static ghost predicate Swept(s: State, now: nat, maxIdle: nat, order: seq<nat>, todo: set<nat>, cur: State) {
      && s.Valid()
      && (forall id :: id in order ==> id in s.live)
      && Enumerates(order, s.IdleSet(now, maxIdle) - todo)
      && cur == ArchiveAll(s, order) && cur.cells == s.cells && cur.live <= s.live
    }

    static lemma SweptOne(s: State, now: nat, maxIdle: nat, order: seq<nat>, todo: set<nat>, cur: State, id: nat)
      requires Swept(s, now, maxIdle, order, todo, cur) && id in todo && id in cur.live
      ensures if s.IsIdle(id, now, maxIdle) then
                Swept(s, now, maxIdle, order + [id], todo - {id}, Archive(cur, id))
              else
                Swept(s, now, maxIdle, order, todo - {id}, cur)
    {
      var idle := s.IdleSet(now, maxIdle);
      assert (order + [id])[..|order|] == order;
      if s.IsIdle(id, now, maxIdle) {
        assert idle - (todo - {id}) == idle - todo + {id};
        assert forall x :: x in order ==> x in idle - todo;
      } else {
        assert idle - (todo - {id}) == idle - todo;
      }
    }

    method SweepStep(
        id: nat, now: nat, maxIdle: nat, ghost s: State, ghost order: seq<nat>, ghost todo: set<nat>, ghost cur: State)
      returns (ghost order': seq<nat>, ghost cur': State)
      requires Swept(s, now, maxIdle, order, todo, cur) && Matches(cur) && id in todo && todo <= connections.Keys
      modifies this`connections, this`totalUpload, this`totalDownload, this`outboundTraffic
      ensures Swept(s, now, maxIdle, order', todo - {id}, cur') && Matches(cur')
      ensures todo - {id} <= connections.Keys
    {
      SweptOne(s, now, maxIdle, order, todo, cur, id);
      ghost var archived := Visit(id, now, maxIdle, cur);
      order', cur' := order, cur;
      if archived {
        order', cur' := order + [id], Archive(cur, id);
      }
    }

    /** Visits the table in any order and archives the entries idle for longer than `maxIdle`. */
    method SweepIdle(now: nat, maxIdle: nat) returns (ghost order: seq<nat>, ghost cur: State)
      requires Valid()
      modifies this`connections, this`totalUpload, this`totalDownload, this`outboundTraffic
      ensures Swept(ideal, now, maxIdle, order, {}, cur) && Matches(cur)
    {
      ghost var s := ideal;
      cur := s;
      var todo := connections.Keys;
      order := [];
      while todo != {}
        invariant todo <= connections.Keys
        invariant Swept(s, now, maxIdle, order, todo, cur)
        invariant Matches(cur)
        decreases todo
      {
        var id :| id in todo;
        order, cur := SweepStep(id, now, maxIdle, s, order, todo, cur);
        todo := todo - {id};
      }
    }

    static lemma SweptCount(s: State, now: nat, maxIdle: nat, order: seq<nat>, cur: State)
      requires Swept(s, now, maxIdle, order, {}, cur)
      ensures cur.Valid() && |s.live| == |cur.live| + |s.IdleSet(now, maxIdle)|
      ensures Enumerates(order, s.IdleSet(now, maxIdle))
    {
      ArchiveAllFrame(s, order);
      assert s.IdleSet(now, maxIdle) - {} == s.IdleSet(now, maxIdle);
      assert s.live == s.IdleSet(now, maxIdle) + cur.live;
    }

    /** From now on the object stands for `cur`. */
    ghost method Adopt(cur: State)
      requires cur.Valid() && Matches(cur)
      modifies this`ideal
      ensures Valid() && ideal == cur
    {
      ideal := cur;
    }

    method CloseIdle(now: nat, maxIdle: nat) returns (closed: nat, ghost order: seq<nat>)
      requires Valid()
      modifies this`connections, this`totalUpload, this`totalDownload, this`outboundTraffic, this`ideal
      ensures Enumerates(order, old(ideal).IdleSet(now, maxIdle))
      ensures forall id :: id in order ==> id in old(ideal).live
      ensures Valid() && ideal == ArchiveAll(old(ideal), order)
      ensures closed == |old(ideal).IdleSet(now, maxIdle)|
    {
      var before := |connections.Keys|;
      ghost var cur;
      order, cur := SweepIdle(now, maxIdle);
      SweptCount(ideal, now, maxIdle, order, cur);
      closed := before - |connections.Keys|;
      Adopt(cur);
    }

    method Snapshot() returns (up: nat, down: nat, active: nat)
      requires Valid()
      ensures up == ideal.Total(Up) && down == ideal.Total(Down) && active == |ideal.live|
    {
      up, down, active := totalUpload, totalDownload, |connections.Keys|;
    }
  }

  class ConnectionGuard {
    const id: nat
    const counters: Counters
    const tracker: ConnectionTracker

    constructor (id: nat, counters: Counters, tracker: ConnectionTracker)
      ensures this.id == id && this.counters == counters && this.tracker == tracker
    {
      this.id, this.counters, this.tracker := id, counters, tracker;
    }

    /** The guard has not been dropped and shares its connection's counters. */
    ghost predicate Holds()
      reads tracker
    {
      && id in tracker.ideal.guards
      && id in tracker.shared && tracker.shared[id] == counters
    }

    method AddUpload(bytes: nat, now: nat)
      requires tracker.Valid() && Holds()
      modifies counters, tracker`ideal
      ensures tracker.Valid() && Holds() && id in old(tracker.ideal).cells
      ensures tracker.ideal == Report(old(tracker.ideal), id, Up, bytes, now)
    {
      counters.upload := counters.upload + bytes;
      counters.lastActivity := now;
      tracker.ideal := Report(tracker.ideal, id, Up, bytes, now);
    }

    method AddDownload(bytes: nat, now: nat)
      requires tracker.Valid() && Holds()
      modifies counters, tracker`ideal
      ensures tracker.Valid() && Holds() && id in old(tracker.ideal).cells
      ensures tracker.ideal == Report(old(tracker.ideal), id, Down, bytes, now)
    {
      counters.download := counters.download + bytes;
      counters.lastActivity := now;
      tracker.ideal := Report(tracker.ideal, id, Down, bytes, now);
    }

    /** `lockFree` says whether `try_write` got the table. */
    method Drop(lockFree: bool)
      requires tracker.Valid() && Holds()
      modifies tracker
      ensures tracker.Valid() && tracker.shared == old(tracker.shared) && id in old(tracker.ideal).cells
      ensures tracker.ideal == DropGuard(old(tracker.ideal), id, lockFree)
    {
      ghost var s := tracker.ideal.(guards := tracker.ideal.guards - {id});
      if lockFree {
        if id in tracker.connections {
          tracker.ArchiveEntry(id, s);
        }
      }
      tracker.ideal := DropGuard(tracker.ideal, id, lockFree);
    }
  }

  /** Two guards of one tracker report in turn, and neither disturbs the other. */
  method ReportBoth(g1: ConnectionGuard, g2: ConnectionGuard, up: nat, down: nat, now: nat)
    requires g1.tracker == g2.tracker && g1.tracker.Valid() && g1.Holds() && g2.Holds()
    modifies g1.counters, g2.counters, g1.tracker`ideal
    ensures g1.tracker.Valid() && g1.Holds() && g2.Holds()
    ensures g1.id in old(g1.tracker.ideal).cells && g2.id in old(g1.tracker.ideal).cells
    ensures g1.tracker.ideal == Report(Report(old(g1.tracker.ideal), g1.id, Up, up, now), g2.id, Down, down, now)
  {
    g1.AddUpload(up, now);
    g2.AddDownload(down, now);
  }

  /** The first guard survives the tracking of the second. */
  method TrackTwo(tracker: ConnectionTracker, first: nat, second: nat, now: nat)
    returns (g1: ConnectionGuard, g2: ConnectionGuard)
    requires tracker.Valid() && tracker.ideal.nextId <= first < second
    modifies tracker
    ensures tracker.Valid() && fresh(g1.counters) && fresh(g2.counters)
    ensures g1.tracker == g2.tracker == tracker && g1.id == first && g2.id == second && g1.Holds() && g2.Holds()
    ensures var s := Track(old(tracker.ideal), first - old(tracker.ideal).nextId, "proxy", now);
            tracker.ideal == Track(s, second - s.nextId, "direct", now)
  {
    g1 := tracker.Track(first, "proxy", now);
    g2 := tracker.Track(second, "direct", now);
  }

  lemma TwoTracked(s: State, first: nat, second: nat, up: nat, down: nat, now: nat)
    requires first < second && s == Track(Track(INIT, first, "proxy", now), second - first - 1, "direct", now)
    ensures first in s.cells && second in s.cells && first in s.live
    ensures var t := DropGuard(Report(Report(s, first, Up, up, now), second, Down, down, now), first, true);
            t.totalUp == up && t.totalDown == 0 && t.live == {second}
  {
  }

  /** Two connections side by side, one of them closed: only that one shows in the totals. */
  method TwoConnections(first: nat, second: nat, up: nat, down: nat, now: nat)
    returns (totalUp: nat, totalDown: nat, active: nat)
    requires first < second
    ensures totalUp == up && totalDown == 0 && active == 1
  {
    var tracker := new ConnectionTracker();
    var g1, g2 := TrackTwo(tracker, first, second, now);
    ghost var s := tracker.ideal;
    TwoTracked(s, first, second, up, down, now);
    ReportBoth(g1, g2, up, down, now);
    g1.Drop(true);
    totalUp, totalDown, active := tracker.Snapshot();
  }
}
