/** `reset_traffic` clears the upload total, the download total and the outbound records in three
    separate writes. Here whole operations run in the two gaps between them; TrackerWrites.dfy
    also takes the operations apart. */
module TrackerReset {
  import opened MapSum
  import opened Tracker
  import opened TrackerLaws

  // ---------------------------------------------------------------- totals along a path

  function BytesOf(s: State, order: seq<nat>, d: Direction): nat
    requires forall id :: id in order ==> id in s.cells
    decreases |order|
  {
    if order == [] then 0
    else BytesOf(s, order[..|order| - 1], d) + s.cells[order[|order| - 1]].Bytes(d)
  }

  /** The bytes an operation moves into the totals. */
  ghost function ArchivedNow(s: State, op: Op, d: Direction): nat
    requires s.Valid() && Legal(s, op)
  {
    match op
    case OpCloseIdle(now, maxIdle, order) =>
      assert forall id :: id in order ==> id in s.IdleSet(now, maxIdle);
      BytesOf(s, order, d)
    case OpDrop(id, lockFree) => if lockFree && id in s.live then s.cells[id].Bytes(d) else 0
    case _ => 0
  }

  lemma {:induction false} ArchiveAllTotal(s: State, order: seq<nat>, d: Direction)
    requires forall id :: id in order ==> id in s.cells
    ensures ArchiveAll(s, order).Total(d) == s.Total(d) + BytesOf(s, order, d)
    decreases |order|
  {
    if order != [] { ArchiveAllTotal(s, order[..|order| - 1], d); }
  }

  lemma StepTotal(s: State, op: Op, d: Direction)
    requires s.Valid() && Legal(s, op)
    ensures Step(s, op).Total(d) == if op.OpReset? then 0 else s.Total(d) + ArchivedNow(s, op, d)
  {
    if op.OpCloseIdle? {
      assert forall id :: id in op.order ==> id in s.IdleSet(op.at, op.maxIdle);
      ArchiveAllTotal(s, op.order, d);
    }
  }

  /** `before` and the bytes archived along the path, or those archived since its last reset. */
  ghost function ArchivedAlong(before: nat, ops: seq<Op>, ss: seq<State>, k: nat, d: Direction): nat
    requires IsPath(ops, ss) && k <= |ops|
  {
    if k == 0 then before
    else if ops[k - 1].OpReset? then 0
    else ArchivedAlong(before, ops, ss, k - 1, d) + ArchivedNow(ss[k - 1], ops[k - 1], d)
  }

  lemma {:induction false} PathTotal(ops: seq<Op>, ss: seq<State>, k: nat, d: Direction)
    requires IsPath(ops, ss) && k <= |ops|
    ensures ss[k].Total(d) == ArchivedAlong(ss[0].Total(d), ops, ss, k, d)
    decreases k
  {
    if k > 0 {
      PathTotal(ops, ss, k - 1, d);
      StepTotal(ss[k - 1], ops[k - 1], d);
    }
  }

  // ---------------------------------------------------------------- a reset with operations in its gaps

  /** `t` is left by a reset of `s` with the operations `early` in its first gap and `late` in
      its second. */
  ghost predicate RacedReset(s: State, early: seq<Op>, es: seq<State>, late: seq<Op>, ls: seq<State>, t: State) {
    && IsPath(early, es) && es[0] == s.(totalUp := 0)
    && IsPath(late, ls) && ls[0] == es[|early|].(totalDown := 0)
    && t == ls[|late|].(outbound := map[])
  }

  /** The totals and the outbound records agree after it exactly if nothing was uploaded by what
      was archived in either gap, and nothing downloaded by what was archived in the second. */
  lemma RacingReset(s: State, early: seq<Op>, es: seq<State>, late: seq<Op>, ls: seq<State>, t: State)
    requires RacedReset(s, early, es, late, ls, t)
    ensures TotalsAgree(t) <==>
      && ArchivedAlong(ArchivedAlong(0, early, es, |early|, Up), late, ls, |late|, Up) == 0
      && ArchivedAlong(0, late, ls, |late|, Down) == 0
  {
    PathTotal(early, es, |early|, Up);
    PathTotal(late, ls, |late|, Up);
    PathTotal(late, ls, |late|, Down);
    NoOutbounds(t, Up);
    NoOutbounds(t, Down);
  }

  /** A connection with uploaded bytes that ends in the first gap: its bytes are in the upload
      total and in no outbound record. */
  lemma DropTearsReset(s: State, id: nat) returns (early: seq<Op>, es: seq<State>, t: State)
    requires s.Valid() && id in s.guards && id in s.live && s.cells[id].up > 0
    ensures early == [OpDrop(id, true)] && |es| == 2
    ensures RacedReset(s, early, es, [], [es[1].(totalDown := 0)], t)
    ensures t.totalUp == s.cells[id].up && !TotalsAgree(t)
  {
    var s0, op := s.(totalUp := 0), OpDrop(id, true);
    early, es := [op], [s0, Step(s0, op)];
    t := es[1].(totalDown := 0, outbound := map[]);
    NoOutbounds(t, Up);
  }

  /** What a disturbed reset leaves apart stays exactly that far apart until the next reset. */
  lemma {:induction false} GapStays(ops: seq<Op>, ss: seq<State>, k: nat, d: Direction)
    requires IsPath(ops, ss) && k <= |ops|
    requires forall i :: 0 <= i < k ==> !ops[i].OpReset?
    ensures Gap(ss[k], d) == Gap(ss[0], d)
    decreases k
  {
    if k > 0 {
      GapStays(ops, ss, k - 1, d);
      StepKeepsGap(ss[k - 1], ops[k - 1], d);
    }
  }

  lemma {:induction false} TracksGoOn(before: seq<Op>, ops: seq<Op>, k: nat)
    requires k <= |ops| && forall i :: 0 <= i < k ==> !ops[i].OpReset?
    ensures TracksSinceReset(before + ops, |before| + k)
            == TracksSinceReset(before, |before|) + TracksSinceReset(ops, k)
    decreases k
  {
    if k == 0 {
      TracksPrefix(before, ops, |before|);
    } else {
      TracksGoOn(before, ops, k - 1);
      assert (before + ops)[|before| + k - 1] == ops[k - 1];
    }
  }

  lemma {:induction false} TracksPrefix(before: seq<Op>, ops: seq<Op>, k: nat)
    requires k <= |before|
    ensures TracksSinceReset(before + ops, k) == TracksSinceReset(before, k)
    decreases k
  {
    if k > 0 {
      TracksPrefix(before, ops, k - 1);
      assert (before + ops)[k - 1] == before[k - 1];
    }
  }

  lemma {:induction false} CountsGoOn(ops: seq<Op>, ss: seq<State>, k: nat)
    requires IsPath(ops, ss) && k <= |ops| && forall i :: 0 <= i < k ==> !ops[i].OpReset?
    ensures Sum(ss[k].OutboundConnections()) == Sum(ss[0].OutboundConnections()) + TracksSinceReset(ops, k)
    decreases k
  {
    if k > 0 {
      CountsGoOn(ops, ss, k - 1);
      StepKeepsGap(ss[k - 1], ops[k - 1], Up);
    }
  }

  /** Throughout the reset-free run that follows it, the connection counts stay behind the
      connections tracked since the reset began by exactly those tracked in its gaps. */
  lemma CountsStayBehind(
      s: State, early: seq<Op>, es: seq<State>, late: seq<Op>, ls: seq<State>, ops: seq<Op>, ss: seq<State>, k: nat)
    requires IsPath(ops, ss) && RacedReset(s, early, es, late, ls, ss[0])
    requires k <= |ops| && forall i :: 0 <= i < k ==> !ops[i].OpReset?
    ensures var gaps := early + late;
            Sum(ss[k].OutboundConnections()) + TracksSinceReset(gaps, |gaps|)
            == TracksSinceReset(gaps + ops, |gaps| + k)
  {
    CountsBehind(early + late, ops, ss, k);
  }

  lemma CountsBehind(gaps: seq<Op>, ops: seq<Op>, ss: seq<State>, k: nat)
    requires IsPath(ops, ss) && ss[0].outbound == map[]
    requires k <= |ops| && forall i :: 0 <= i < k ==> !ops[i].OpReset?
    ensures Sum(ss[k].OutboundConnections()) + TracksSinceReset(gaps, |gaps|)
            == TracksSinceReset(gaps + ops, |gaps| + k)
  {
    NoOutbounds(ss[0], Up);
    CountsGoOn(ops, ss, k);
    TracksGoOn(gaps, ops, k);
  }
}
