/** What idle means: an entry's activity time is when its connection was tracked or last reported,
    and an idle sweep removes exactly the entries untouched for longer than the limit. */
module TrackerIdle {
  import opened Basics
  import opened Tracker
  import opened TrackerLaws

  /** The operation creates connection `id` or is a report of it. */
  predicate Touches(s: State, op: Op, id: nat) {
    || (op.OpTrack? && s.nextId + op.skipped == id)
    || (op.OpReport? && op.id == id)
  }

  /** When connection `id` was tracked or last reported, among the first `k` operations. */
  ghost function LastTouched(ops: seq<Op>, ss: seq<State>, k: nat, id: nat): Option<nat>
    requires |ss| == |ops| + 1 && k <= |ops|
  {
    if k == 0 then None
    else if Touches(ss[k - 1], ops[k - 1], id) then Some(ops[k - 1].at)
    else LastTouched(ops, ss, k - 1, id)
  }

  lemma StepTouches(s: State, op: Op, t: State, id: nat)
    requires s.Valid() && Legal(s, op) && t == Step(s, op)
    ensures Touches(s, op, id) ==> id in t.cells && t.cells[id].lastActivity == op.at
    ensures !Touches(s, op, id) && id in t.cells ==>
              id in s.cells && t.cells[id].lastActivity == s.cells[id].lastActivity
  {
    if op.OpCloseIdle? {
      assert forall x :: x in op.order ==> x in s.IdleSet(op.at, op.maxIdle);
    }
  }

  lemma {:induction false} ActivityIsLastTouch(ops: seq<Op>, ss: seq<State>, k: nat, id: nat)
    requires IsRun(ops, ss) && k <= |ops|
    ensures id in ss[k].cells ==> LastTouched(ops, ss, k, id) == Some(ss[k].cells[id].lastActivity)
    decreases k
  {
    if k > 0 {
      ActivityIsLastTouch(ops, ss, k - 1, id);
      StepTouches(ss[k - 1], ops[k - 1], ss[k], id);
    }
  }

  /** In every run an entry survives an idle sweep exactly if the time since its connection was
      tracked or last reported is within the limit. */
  lemma SweepKeepsExactly(ops: seq<Op>, ss: seq<State>, k: nat, id: nat)
    requires IsRun(ops, ss) && k < |ops| && ops[k].OpCloseIdle? && id in ss[k].live
    ensures LastTouched(ops, ss, k, id).Some?
    ensures id in ss[k + 1].live <==> ops[k].at - LastTouched(ops, ss, k, id).value <= ops[k].maxIdle
  {
    ActivityIsLastTouch(ops, ss, k, id);
    SweptLive(ss[k], ops[k].at, ops[k].maxIdle, ops[k].order);
  }
}
