/** Putting bytes back: a stream that first replays what was peeked, then reads on. */
module PrefixedStream {
  import opened Basics
  import opened Utf8

  /** A connection with the bytes it will still deliver, under any number of replayed prefixes. */
  datatype Stream =
    | Socket(coming: seq<byte>)
    | Prefixed(prefix: seq<byte>, pos: nat, inner: Stream)
  {
    predicate Valid() { Prefixed? ==> pos <= |prefix| && inner.Valid() }

    /** What a reader is still to see. */
    function Remaining(): seq<byte>
      requires Valid()
    {
      match this
      case Socket(coming) => coming
      case Prefixed(prefix, pos, inner) => prefix[pos..] + inner.Remaining()
    }
  }

  /** What the network does at a poll: nothing yet, a failure, or up to `size` bytes. */
  datatype Offer = NotReady | Failing | Arrived(size: nat)

  datatype Poll = Pending | Failed | Ready(bytes: seq<byte>) {
    function Bytes(): seq<byte> { if Ready? then bytes else [] }
  }

  /** A socket that is ready delivers at least one byte unless there is no room or no byte left. */
  function PollSocket(coming: seq<byte>, room: nat, offer: Offer): (r: (Stream, Poll))
    ensures r.0.Valid() && coming == r.1.Bytes() + r.0.Remaining() && |r.1.Bytes()| <= room
    ensures r.1.Ready? && r.1.bytes == [] && room > 0 ==> coming == []
  {
    match offer
    case NotReady => (Socket(coming), Pending)
    case Failing => (Socket(coming), Failed)
    case Arrived(size) =>
      var n := Min(Max(size, 1), Min(room, |coming|));
      (Socket(coming[n..]), Ready(coming[..n]))
  }

  function PollRead(s: Stream, room: nat, offer: Offer): (Stream, Poll)
    requires s.Valid()
  {
    match s
    case Socket(coming) => PollSocket(coming, room, offer)
    case Prefixed(prefix, pos, inner) =>
      if pos < |prefix| then
        var n := Min(|prefix| - pos, room);
        (Prefixed(prefix, pos + n, inner), Ready(prefix[pos..pos + n]))
      else
        var (next, poll) := PollRead(inner, room, offer);
        (Prefixed(prefix, pos, next), poll)
  }

  /** One read of up to `size` bytes, put back in front of the stream. */
  function Peek(s: Stream, size: nat, offer: Offer): Stream
    requires s.Valid()
  {
    var (next, poll) := PollRead(s, size, offer);
    if poll.Ready? then Prefixed(poll.bytes, 0, next) else next
  }

  class Replay {
    var prefix: seq<byte>
    var prefixPos: nat
    var inner: Stream

    ghost predicate Valid()
      reads this
    {
      prefixPos <= |prefix| && inner.Valid()
    }

    ghost function Model(): Stream
      reads this
    {
      Prefixed(prefix, prefixPos, inner)
    }

    constructor (prefix: seq<byte>, inner: Stream)
      requires inner.Valid()
      ensures Valid() && Model() == Prefixed(prefix, 0, inner)
      ensures Model().Remaining() == prefix + inner.Remaining()
    {
      this.prefix, this.prefixPos, this.inner := prefix, 0, inner;
    }

    method Read(room: nat, offer: Offer) returns (poll: Poll)
      requires Valid()
      modifies this
      ensures Valid() && (Model(), poll) == PollRead(old(Model()), room, offer)
      ensures old(Model()).Remaining() == poll.Bytes() + Model().Remaining()
    {
      PollConserves(Model(), room, offer);
      if prefixPos < |prefix| {
        var remaining := prefix[prefixPos..];
        var toCopy := Min(|remaining|, room);
        poll := Ready(remaining[..toCopy]);
        assert remaining[..toCopy] == prefix[prefixPos..prefixPos + toCopy];
        prefixPos := prefixPos + toCopy;
        return;
      }
      var (next, p) := PollRead(inner, room, offer);
      inner, poll := next, p;
    }
  }

  // ---------------------------------------------------------------- one poll

  /** A poll moves bytes from the stream to the reader, in order, and no other way. */
  lemma {:induction false} PollConserves(s: Stream, room: nat, offer: Offer)
    requires s.Valid()
    ensures var (next, poll) := PollRead(s, room, offer);
            next.Valid() && s.Remaining() == poll.Bytes() + next.Remaining() && |poll.Bytes()| <= room
    decreases s
  {
    if s.Prefixed? {
      if s.pos < |s.prefix| {
        var n := Min(|s.prefix| - s.pos, room);
        assert s.prefix[s.pos..] == s.prefix[s.pos..s.pos + n] + s.prefix[s.pos + n..];
      } else {
        PollConserves(s.inner, room, offer);
        assert s.prefix[s.pos..] == [];
      }
    }
  }

  /** With room to spare, an empty read means the end: every prefix is used up and the
      connection has nothing more. */
  lemma {:induction false} EmptyMeansEnd(s: Stream, room: nat, offer: Offer)
    requires s.Valid() && room > 0
    ensures PollRead(s, room, offer).1 == Ready([]) ==> s.Remaining() == []
    decreases s
  {
    if s.Prefixed? {
      if s.pos < |s.prefix| {
        assert |s.prefix[s.pos..s.pos + Min(|s.prefix| - s.pos, room)]| > 0;
      } else {
        EmptyMeansEnd(s.inner, room, offer);
      }
    }
  }

  /** Peeking is invisible to whoever reads afterwards. */
  lemma PeekIsInvisible(s: Stream, size: nat, offer: Offer)
    requires s.Valid()
    ensures Peek(s, size, offer).Valid() && Peek(s, size, offer).Remaining() == s.Remaining()
  {
    PollConserves(s, size, offer);
    var (next, poll) := PollRead(s, size, offer);
    if poll.Ready? {
      assert Peek(s, size, offer).Remaining() == poll.bytes[0..] + next.Remaining();
    }
  }

  // ---------------------------------------------------------------- whole connections

  datatype Op = Read(room: nat, offer: Offer) | PeekAt(size: nat, offer: Offer)

  function Step(s: Stream, op: Op): (Stream, Poll)
    requires s.Valid()
  {
    match op
    case Read(room, offer) => PollRead(s, room, offer)
    case PeekAt(size, offer) => (Peek(s, size, offer), Pending)
  }

  lemma StepConserves(s: Stream, op: Op)
    requires s.Valid()
    ensures var (next, poll) := Step(s, op);
            next.Valid() && s.Remaining() == poll.Bytes() + next.Remaining()
  {
    match op
    case Read(room, offer) => PollConserves(s, room, offer);
    case PeekAt(size, offer) => PeekIsInvisible(s, size, offer);
  }

  /** A run of reads and peeks, in any order, with what each poll answered. */
  ghost predicate IsRun(original: seq<byte>, ops: seq<Op>, ss: seq<Stream>, polls: seq<Poll>) {
    && |ss| == |ops| + 1 && |polls| == |ops| && ss[0] == Socket(original)
    && (forall i :: 0 <= i < |ops| ==> ss[i].Valid() && (ss[i + 1], polls[i]) == Step(ss[i], ops[i]))
  }

  function Delivered(polls: seq<Poll>): seq<byte> {
    if polls == [] then [] else Delivered(polls[..|polls| - 1]) + polls[|polls| - 1].Bytes()
  }

  /** At every moment of every run, what was delivered followed by what remains is the original
      stream: nothing is lost, doubled or moved. */
  lemma {:induction false} NothingLost(original: seq<byte>, ops: seq<Op>, ss: seq<Stream>, polls: seq<Poll>, k: nat)
    requires IsRun(original, ops, ss, polls) && k <= |ops|
    ensures ss[k].Valid() && Delivered(polls[..k]) + ss[k].Remaining() == original
  {
    if k > 0 {
      NothingLost(original, ops, ss, polls, k - 1);
      StepConserves(ss[k - 1], ops[k - 1]);
      DeliveredLast(polls, k);
      Regrouped(Delivered(polls[..k - 1]), polls[k - 1].Bytes(), ss[k].Remaining());
    }
  }

  lemma DeliveredLast(polls: seq<Poll>, k: nat)
    requires 0 < k <= |polls|
    ensures Delivered(polls[..k]) == Delivered(polls[..k - 1]) + polls[k - 1].Bytes()
  {
    assert polls[..k][..k - 1] == polls[..k - 1];
  }

  /** A reader that sees the end has seen the whole stream. */
  lemma EndMeansAll(original: seq<byte>, ops: seq<Op>, ss: seq<Stream>, polls: seq<Poll>, k: nat)
    requires IsRun(original, ops, ss, polls) && k < |ops|
    requires ops[k].Read? && ops[k].room > 0 && polls[k] == Ready([])
    ensures Delivered(polls[..k]) == original
  {
    NothingLost(original, ops, ss, polls, k);
    assert (ss[k + 1], polls[k]) == Step(ss[k], ops[k]);
    EmptyMeansEnd(ss[k], ops[k].room, ops[k].offer);
  }

  /** Reads with room that found the network ready or a prefix to replay. */
  function Answered(ops: seq<Op>, polls: seq<Poll>): nat
    requires |ops| == |polls|
  {
    if ops == [] then 0
    else
      var last := |ops| - 1;
      Answered(ops[..last], polls[..last])
        + if ops[last].Read? && ops[last].room > 0 && polls[last].Ready? then 1 else 0
  }

  lemma {:induction false} AnswersMakeProgress(
      original: seq<byte>, ops: seq<Op>, ss: seq<Stream>, polls: seq<Poll>, k: nat)
    requires IsRun(original, ops, ss, polls) && k <= |ops|
    ensures Answered(ops[..k], polls[..k]) <= |Delivered(polls[..k])| || Delivered(polls[..k]) == original
  {
    if k > 0 {
      AnswersMakeProgress(original, ops, ss, polls, k - 1);
      NothingLost(original, ops, ss, polls, k - 1);
      NothingLost(original, ops, ss, polls, k);
      DeliveredLast(polls, k);
      assert ops[..k][..k - 1] == ops[..k - 1] && polls[..k][..k - 1] == polls[..k - 1];
      var op := ops[k - 1];
      if op.Read? && op.room > 0 && polls[k - 1] == Ready([]) {
        EndMeansAll(original, ops, ss, polls, k - 1);
      }
    }
  }

  /** After as many answered reads as the stream has bytes, all of it has been delivered. */
  lemma AllDeliveredInTime(original: seq<byte>, ops: seq<Op>, ss: seq<Stream>, polls: seq<Poll>)
    requires IsRun(original, ops, ss, polls) && Answered(ops, polls) >= |original|
    ensures Delivered(polls) == original
  {
    var k := |ops|;
    assert ops[..k] == ops && polls[..k] == polls;
    AnswersMakeProgress(original, ops, ss, polls, k);
    NothingLost(original, ops, ss, polls, k);
  }
}
