/** The relay's frame protocol: one type byte, a big-endian 32-bit length, and the payload. */
module Derp {
  import opened Basics
  import opened Utf8
  import opened Der

  datatype FrameType =
    | ServerKey | ClientInfo | ServerInfo | SendPacket | RecvPacket | KeepAlive | NotePreferred | PeerGone
    | PeerPresent | ForwardPacket | WatchConns | ClosePeer | Ping | Pong | Health | Restarting

  const HEADER := 5
  const MAX_FRAME_SIZE := 0x10_0000

  function Code(t: FrameType): byte {
    match t
    case ServerKey => 0x01
    case ClientInfo => 0x02
    case ServerInfo => 0x03
    case SendPacket => 0x04
    case RecvPacket => 0x05
    case KeepAlive => 0x06
    case NotePreferred => 0x07
    case PeerGone => 0x08
    case PeerPresent => 0x09
    case ForwardPacket => 0x0A
    case WatchConns => 0x10
    case ClosePeer => 0x11
    case Ping => 0x12
    case Pong => 0x13
    case Health => 0x14
    case Restarting => 0x15
  }

  function FromByte(b: byte): Option<FrameType> {
    if b == 0x01 then Some(ServerKey)
    else if b == 0x02 then Some(ClientInfo)
    else if b == 0x03 then Some(ServerInfo)
    else if b == 0x04 then Some(SendPacket)
    else if b == 0x05 then Some(RecvPacket)
    else if b == 0x06 then Some(KeepAlive)
    else if b == 0x07 then Some(NotePreferred)
    else if b == 0x08 then Some(PeerGone)
    else if b == 0x09 then Some(PeerPresent)
    else if b == 0x0A then Some(ForwardPacket)
    else if b == 0x10 then Some(WatchConns)
    else if b == 0x11 then Some(ClosePeer)
    else if b == 0x12 then Some(Ping)
    else if b == 0x13 then Some(Pong)
    else if b == 0x14 then Some(Health)
    else if b == 0x15 then Some(Restarting)
    else None
  }

  function LengthBytes(n: nat): seq<byte>
    requires n < 0x1_0000_0000
  {
    var upper: nat := n / 0x100;
    var high: nat := upper / 0x100;
    [high / 0x100, high % 0x100, upper % 0x100, n % 0x100]
  }

  function LengthOf(a: byte, b: byte, c: byte, d: byte): nat {
    ((a * 0x100 + b) * 0x100 + c) * 0x100 + d
  }

  /** The source's conversion to 32 bits. */
  function Cut32(n: nat): (r: nat)
    ensures r < 0x1_0000_0000 && (n < 0x1_0000_0000 ==> r == n)
  {
    n % 0x1_0000_0000
  }

  datatype Frame = Frame(kind: FrameType, payload: seq<byte>) {
    /** What the writer sends; the length is cut to 32 bits. */
    function Bytes(): seq<byte> {
      [Code(kind)] + LengthBytes(Cut32(|payload|)) + payload
    }

    predicate Fits() { |payload| <= MAX_FRAME_SIZE }
  }

  datatype ReadError = EndOfStream | UnknownType(code: byte) | TooLarge(length: nat)

  /** One frame from the front of the stream; a frame that is read takes `HEADER` and its
      payload off the stream. */
  function ReadFrame(data: seq<byte>): (r: Result<Frame, ReadError>)
    ensures r.Ok? ==> HEADER + |r.value.payload| <= |data|
  {
    if |data| < HEADER then Err(EndOfStream)
    else if FromByte(data[0]).None? then Err(UnknownType(data[0]))
    else
      var n := LengthOf(data[1], data[2], data[3], data[4]);
      if n > MAX_FRAME_SIZE then Err(TooLarge(n))
      else if |data| < HEADER + n then Err(EndOfStream)
      else Ok(Frame(FromByte(data[0]).value, data[HEADER..HEADER + n]))
  }

  // ---------------------------------------------------------------- reader and writer

  /** The bytes a peer will still deliver before it closes. */
  class Reader {
    var pending: seq<byte>

    method ReadExact(n: nat) returns (r: Option<seq<byte>>)
      modifies this
      ensures r == if n <= |old(pending)| then Some(old(pending)[..n]) else None
      ensures pending == if n <= |old(pending)| then old(pending)[n..] else []
    {
      if |pending| < n {
        pending := [];
        return None;
      }
      r := Some(pending[..n]);
      pending := pending[n..];
    }

    method Read() returns (r: Result<Frame, ReadError>)
      modifies this
      ensures r == ReadFrame(old(pending))
      ensures r.Ok? ==> pending == old(pending)[HEADER + |r.value.payload|..]
    {
      var header := ReadExact(HEADER);
      if header.None? { return Err(EndOfStream); }
      var h := header.value;
      if FromByte(h[0]).None? { return Err(UnknownType(h[0])); }
      var n := LengthOf(h[1], h[2], h[3], h[4]);
      if n > MAX_FRAME_SIZE { return Err(TooLarge(n)); }
      var payload := [];
      if n > 0 {
        var p := ReadExact(n);
        if p.None? { return Err(EndOfStream); }
        payload := p.value;
      }
      assert payload == old(pending)[HEADER..HEADER + n];
      r := Ok(Frame(FromByte(h[0]).value, payload));
    }
  }

  class Writer {
    var sent: seq<byte>

    method Write(f: Frame)
      modifies this
      ensures sent == old(sent) + f.Bytes()
    {
      var length := Cut32(|f.payload|);
      sent := sent + ([Code(f.kind)] + LengthBytes(length));
      if f.payload != [] {
        sent := sent + f.payload;
      }
    }
  }

  // ---------------------------------------------------------------- one frame

  /** The byte codes and the frame types answer to each other exactly. */
  lemma CodesAreExact(b: byte, t: FrameType)
    ensures FromByte(b) == Some(t) <==> Code(t) == b
  {
  }

  function Length(head: seq<byte>): nat
    requires |head| == 4
  {
    LengthOf(head[0], head[1], head[2], head[3])
  }

  lemma LengthBack(n: nat)
    requires n < 0x1_0000_0000
    ensures Length(LengthBytes(n)) == n
  {
  }

  lemma QuotientOf(q: nat, r: nat)
    requires r < 0x100
    ensures (q * 0x100 + r) / 0x100 == q && (q * 0x100 + r) % 0x100 == r
  {
  }

  lemma LengthForth(a: byte, b: byte, c: byte, d: byte)
    ensures LengthOf(a, b, c, d) < 0x1_0000_0000
    ensures LengthBytes(LengthOf(a, b, c, d)) == [a, b, c, d]
  {
    var high: nat := a * 0x100 + b;
    var upper: nat := high * 0x100 + c;
    QuotientOf(a, b);
    QuotientOf(high, c);
    QuotientOf(upper, d);
  }

  lemma Layout(t: FrameType, head: seq<byte>, payload: seq<byte>, rest: seq<byte>)
    requires |head| == 4
    ensures var data := [Code(t)] + head + payload + rest;
            && |data| == HEADER + |payload| + |rest| && data[0] == Code(t)
            && [data[1], data[2], data[3], data[4]] == head
            && data[HEADER..HEADER + |payload|] == payload
  {
    var data := [Code(t)] + head + payload + rest;
    assert data[HEADER..HEADER + |payload|] == payload;
    assert data[1..HEADER] == head;
  }

  /** The reader accepts a frame exactly if the announced length is the payload's and is small. */
  lemma ReadBack(t: FrameType, head: seq<byte>, payload: seq<byte>, rest: seq<byte>)
    requires |head| == 4
    ensures ReadFrame([Code(t)] + head + payload + rest) == Ok(Frame(t, payload))
            <==> Length(head) == |payload| <= MAX_FRAME_SIZE
  {
    Layout(t, head, payload, rest);
    CodesAreExact(Code(t), t);
  }

  lemma WireSize(f: Frame)
    ensures |f.Bytes()| == HEADER + |f.payload|
  {
  }

  /** A written frame is read back exactly when its payload is at most 2^20 bytes. */
  lemma ReadWritten(f: Frame, rest: seq<byte>)
    ensures ReadFrame(f.Bytes() + rest) == Ok(f) <==> f.Fits()
  {
    LengthBack(Cut32(|f.payload|));
    ReadBack(f.kind, LengthBytes(Cut32(|f.payload|)), f.payload, rest);
  }

  lemma Reassembled(data: seq<byte>, n: nat)
    requires HEADER + n <= |data|
    ensures data[..HEADER + n] == [data[0]] + [data[1], data[2], data[3], data[4]] + data[HEADER..HEADER + n]
  {
  }

  lemma BytesFrom(f: Frame, head: seq<byte>)
    requires |head| == 4 && |f.payload| == Length(head)
    ensures f.Bytes() == [Code(f.kind)] + head + f.payload
  {
    var n := Length(head);
    LengthForth(head[0], head[1], head[2], head[3]);
    assert LengthBytes(n) == head && Cut32(n) == n;
  }

  /** Whatever is read was written: the bytes taken are those of the frame returned. */
  lemma OnlyWritten(data: seq<byte>)
    requires ReadFrame(data).Ok?
    ensures var f := ReadFrame(data).value;
            f.Fits() && HEADER + |f.payload| <= |data| && data[..HEADER + |f.payload|] == f.Bytes()
  {
    var f := ReadFrame(data).value;
    CodesAreExact(data[0], f.kind);
    BytesFrom(f, [data[1], data[2], data[3], data[4]]);
    Reassembled(data, |f.payload|);
  }

  /** A read succeeds exactly if the stream begins with a written frame. */
  lemma ReadsExactly(data: seq<byte>)
    ensures ReadFrame(data).Ok? <==> exists f: Frame :: f.Fits() && f.Bytes() <= data
  {
    if ReadFrame(data).Ok? {
      OnlyWritten(data);
      assert ReadFrame(data).value.Bytes() <= data;
    }
    forall f: Frame | f.Fits() && f.Bytes() <= data
      ensures ReadFrame(data).Ok?
    {
      var rest := data[|f.Bytes()|..];
      assert data == f.Bytes() + rest;
      ReadWritten(f, rest);
    }
  }

  /** Only an end of stream can be mended by more bytes: any other answer is final, and after a
      whole header an end of stream means that the payload is not complete. */
  lemma AnswersAreFinal(data: seq<byte>, more: seq<byte>)
    ensures ReadFrame(data) != Err(EndOfStream) ==> ReadFrame(data + more) == ReadFrame(data)
    ensures ReadFrame(data) == Err(EndOfStream) && |data| >= HEADER ==>
      (ReadFrame(data + more).Ok? <==> LengthOf(data[1], data[2], data[3], data[4]) <= |data| + |more| - HEADER)
  {
    if |data| >= HEADER {
      var n := LengthOf(data[1], data[2], data[3], data[4]);
      assert HEADER + n <= |data| ==> (data + more)[HEADER..HEADER + n] == data[HEADER..HEADER + n];
    }
  }

  /** Which bytes draw which refusal: an unknown type comes before any look at the length. */
  lemma RefusalsExactly(data: seq<byte>, code: byte, n: nat)
    ensures ReadFrame(data) == Err(UnknownType(code))
            <==> |data| >= 5 && code == data[0] && forall t: FrameType :: Code(t) != code
    ensures ReadFrame(data) == Err(TooLarge(n))
            <==> && |data| >= 5 && (exists t: FrameType :: Code(t) == data[0])
                 && n == LengthOf(data[1], data[2], data[3], data[4]) && n > 0x10_0000
  {
    if |data| >= 5 {
      forall t: FrameType
        ensures FromByte(data[0]) == Some(t) <==> Code(t) == data[0]
      {
        CodesAreExact(data[0], t);
      }
    }
  }

  /** A payload too large, but still below 2^32 bytes, is refused by its size. */
  lemma OversizedRefused(f: Frame, rest: seq<byte>)
    requires MAX_FRAME_SIZE < |f.payload| < 0x1_0000_0000
    ensures ReadFrame(f.Bytes() + rest) == Err(TooLarge(|f.payload|))
  {
    var head := LengthBytes(Cut32(|f.payload|));
    LengthBack(Cut32(|f.payload|));
    Layout(f.kind, head, f.payload, rest);
    CodesAreExact(Code(f.kind), f.kind);
  }

  // ---------------------------------------------------------------- whole streams

  function WriteAll(fs: seq<Frame>): seq<byte> {
    if fs == [] then [] else fs[0].Bytes() + WriteAll(fs[1..])
  }

  /** Read until an error: the frames, and the error that ended the stream. */
  function ReadAll(data: seq<byte>): (seq<Frame>, ReadError)
    decreases |data|
  {
    match ReadFrame(data)
    case Err(e) => ([], e)
    case Ok(f) =>
      var (fs, e) := ReadAll(data[HEADER + |f.payload|..]);
      ([f] + fs, e)
  }

  predicate AllFit(fs: seq<Frame>) {
    forall i :: 0 <= i < |fs| ==> fs[i].Fits()
  }

  lemma ReadFirst(f: Frame, rest: seq<byte>)
    requires f.Fits()
    ensures ReadAll(f.Bytes() + rest) == ([f] + ReadAll(rest).0, ReadAll(rest).1)
  {
    ReadWritten(f, rest);
    WireSize(f);
    assert (f.Bytes() + rest)[HEADER + |f.payload|..] == rest;
  }

  /** Frames written one after another are read one after another, whatever follows them. */
  lemma {:induction false} StreamBack(fs: seq<Frame>, tail: seq<byte>)
    requires AllFit(fs)
    ensures ReadAll(WriteAll(fs) + tail) == (fs + ReadAll(tail).0, ReadAll(tail).1)
    decreases |fs|
  {
    var later := ReadAll(tail).0;
    if fs == [] {
      assert WriteAll(fs) + tail == tail && fs + later == later;
    } else {
      var first, rest := fs[0].Bytes(), WriteAll(fs[1..]);
      Regrouped(first, rest, tail);
      Regrouped([fs[0]], fs[1..], later);
      ReadFirst(fs[0], rest + tail);
      StreamBack(fs[1..], tail);
      assert [fs[0]] + fs[1..] == fs;
    }
  }

  /** Whatever the stream holds, the frames read are a prefix of it, and what follows them is
      where reading fails. */
  lemma {:induction false} StreamForth(data: seq<byte>)
    ensures var (fs, e) := ReadAll(data);
            && AllFit(fs) && |WriteAll(fs)| <= |data| && data[..|WriteAll(fs)|] == WriteAll(fs)
            && ReadFrame(data[|WriteAll(fs)|..]) == Err(e)
    decreases |data|
  {
    if ReadFrame(data).Ok? {
      var f := ReadFrame(data).value;
      OnlyWritten(data);
      WireSize(f);
      var rest := data[|f.Bytes()|..];
      StreamForth(rest);
      var (gs, e) := ReadAll(rest);
      var fs := [f] + gs;
      assert fs[1..] == gs;
      assert data[|WriteAll(fs)|..] == rest[|WriteAll(gs)|..];
      assert data == f.Bytes() + rest;
    } else {
      assert data[0..] == data;
    }
  }

  /** Two sequences of frames with the same bytes are the same. */
  lemma WrittenOneWay(fs: seq<Frame>, gs: seq<Frame>)
    requires AllFit(fs) && AllFit(gs) && WriteAll(fs) == WriteAll(gs)
    ensures fs == gs
  {
    StreamBack(fs, []);
    StreamBack(gs, []);
    assert fs + [] == fs && gs + [] == gs;
  }

  /** How many frames lie wholly within the first `k` bytes. */
  function WholeWithin(fs: seq<Frame>, k: nat): (n: nat)
    ensures n <= |fs|
  {
    if fs == [] || k < |fs[0].Bytes()| then 0
    else 1 + WholeWithin(fs[1..], k - |fs[0].Bytes()|)
  }

  lemma CutShort<T>(a: seq<T>, b: seq<T>, k: nat)
    requires k <= |a|
    ensures (a + b)[..k] == a[..k]
  {
  }

  lemma CutLong<T>(a: seq<T>, b: seq<T>, k: nat)
    requires |a| <= k <= |a| + |b|
    ensures (a + b)[..k] == a + b[..k - |a|]
  {
  }

  lemma CutHead(t: FrameType, head: seq<byte>, payload: seq<byte>, k: nat)
    requires |head| == 4 && Length(head) == |payload| <= MAX_FRAME_SIZE && k < HEADER + |payload|
    ensures ReadFrame(([Code(t)] + head + payload)[..k]) == Err(EndOfStream)
  {
    CodesAreExact(Code(t), t);
    var data := ([Code(t)] + head + payload)[..k];
    assert k >= HEADER ==> data[0] == Code(t) && [data[1], data[2], data[3], data[4]] == head;
  }

  lemma CutFrame(f: Frame, k: nat)
    requires f.Fits() && k < |f.Bytes()|
    ensures ReadFrame(f.Bytes()[..k]) == Err(EndOfStream)
  {
    LengthBack(Cut32(|f.payload|));
    CutHead(f.kind, LengthBytes(Cut32(|f.payload|)), f.payload, k);
  }

  lemma CutFirst(f: Frame, rest: seq<byte>, k: nat)
    requires f.Fits() && k <= |f.Bytes()| + |rest|
    ensures var data, n := (f.Bytes() + rest)[..k], |f.Bytes()|;
            if k < n then ReadAll(data) == ([], EndOfStream)
            else ReadAll(data) == ([f] + ReadAll(rest[..k - n]).0, ReadAll(rest[..k - n]).1)
  {
    var bytes := f.Bytes();
    if k < |bytes| {
      CutShort(bytes, rest, k);
      CutFrame(f, k);
    } else {
      CutLong(bytes, rest, k);
      ReadFirst(f, rest[..k - |bytes|]);
    }
  }

  lemma WholeFirst(fs: seq<Frame>, k: nat)
    requires fs != []
    ensures var n := |fs[0].Bytes()|;
            fs[..WholeWithin(fs, k)]
            == if k < n then [] else [fs[0]] + fs[1..][..WholeWithin(fs[1..], k - n)]
  {
  }

  /** A stream cut at any byte yields exactly the frames that arrived whole, then ends. */
  lemma {:induction false} CutStream(fs: seq<Frame>, k: nat)
    requires AllFit(fs) && k <= |WriteAll(fs)|
    ensures ReadAll(WriteAll(fs)[..k]) == (fs[..WholeWithin(fs, k)], EndOfStream)
    decreases |fs|
  {
    if fs == [] {
      assert WriteAll(fs)[..k] == [];
    } else {
      var n, rest := |fs[0].Bytes()|, WriteAll(fs[1..]);
      CutFirst(fs[0], rest, k);
      WholeFirst(fs, k);
      if n <= k {
        CutStream(fs[1..], k - n);
      }
    }
  }

  // ---------------------------------------------------------------- the wire format

  /** The length is in network order. */
  lemma LengthIsBigEndian(a: byte, b: byte, c: byte, d: byte)
    ensures LengthOf(a, b, c, d) == BigEndian([a, b, c, d])
  {
    BigEndianSnoc([], a);
    BigEndianSnoc([a], b);
    BigEndianSnoc([a, b], c);
    BigEndianSnoc([a, b, c], d);
    assert [] + [a] == [a] && [a] + [b] == [a, b] && [a, b] + [c] == [a, b, c];
    assert [a, b, c] + [d] == [a, b, c, d];
  }

  /** A ping of eight bytes as it goes over the wire. */
  lemma KnownFrame(token: seq<byte>)
    requires |token| == 8
    ensures Frame(Ping, token).Bytes() == [0x12, 0, 0, 0, 8] + token
  {
    assert LengthBytes(8) == [0, 0, 0, 8];
  }
}
