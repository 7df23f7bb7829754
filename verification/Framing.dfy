/** The length-prefixed messages of client/handshake.py over a TCP socket that may
    hand out its bytes in any chunks. */
module Framing {
  import opened Bytes
  import opened Crypto

  const CLIENT_HELLO: Byte := 1
  const SERVER_HELLO: Byte := 2
  const CLIENT_ACK: Byte := 3
  const ERROR: Byte := 255

  const HEADER_SIZE := 5
  const MAX_SIZE := 65536

  datatype Message = Message(kind: Byte, data: Wire)

  predicate Known(kind: Byte) {
    kind == CLIENT_HELLO || kind == SERVER_HELLO || kind == CLIENT_ACK || kind == ERROR
  }

  lemma LengthFits()
    ensures Pow256(1) == 256 && Pow256(2) == 65536 && Pow256(4) == 4294967296
    ensures Pow256(8) == 18446744073709551616
  {
    assert Pow256(3) == 16777216;
    assert Pow256(5) == 256 * Pow256(4);
    assert Pow256(6) == 256 * Pow256(5);
    assert Pow256(7) == 256 * Pow256(6);
  }

  /** What `_recv_message` is guaranteed to accept; its length fits the header. */
  predicate Sendable(m: Message): (ok: bool)
    ensures ok ==> |m.data| < Pow256(4)
  {
    LengthFits();
    Known(m.kind) && |m.data| <= MAX_SIZE
  }

  /** The four message types, and the limit of a payload. */
  lemma SendableExactly(m: Message)
    ensures Sendable(m) <==> m.kind in {1, 2, 3, 255} && |m.data| <= 65536
  {
  }

  function Header(kind: Byte, size: nat): (h: ByteString)
    requires size < Pow256(4)
    ensures |h| == HEADER_SIZE
  {
    [kind] + Pack(size, 4)
  }

  /** `_send_message`: type, length, data. */
  function Frame(m: Message): (w: Wire)
    requires |m.data| < Pow256(4)
    ensures |w| == HEADER_SIZE + |m.data|
  {
    Plain(Header(m.kind, |m.data|)) + m.data
  }

  /** Why a read stops: the peer closed, the socket timed out or failed, the length
      is over the limit, or the type byte is no `MessageType`. */
  datatype Failure = Closed | TimedOut | SocketFailure | TooLarge | UnknownType

  /** What a socket does once every byte that will ever arrive has been read. */
  type Ending = f: Failure | f.Closed? || f.TimedOut? || f.SocketFailure? witness Closed

  datatype Reading = Got(m: Message, rest: Wire) | Fails(why: Failure, rest: Wire)

  function SizeField(w: Wire): nat
    requires |w| >= HEADER_SIZE
  {
    Unpack(Values(w[1..HEADER_SIZE]))
  }

  /** `_recv_message` on a socket whose remaining input is `w`: the header, the size
      check, the data, and only then the type check. */
  function Read(w: Wire, ending: Ending): Reading {
    if |w| < HEADER_SIZE then Fails(ending, [])
    else
      var size := SizeField(w);
      if size > MAX_SIZE then Fails(TooLarge, w[HEADER_SIZE..])
      else if |w| < HEADER_SIZE + size then Fails(ending, [])
      else if !Known(w[0].value) then Fails(UnknownType, w[HEADER_SIZE + size..])
      else Got(Message(w[0].value, w[HEADER_SIZE..HEADER_SIZE + size]), w[HEADER_SIZE + size..])
  }

  lemma FrameHeader(m: Message, tail: Wire)
    requires |m.data| < Pow256(4)
    ensures var w := Frame(m) + tail;
            w[0].value == m.kind && SizeField(w) == |m.data| &&
            w[HEADER_SIZE..HEADER_SIZE + |m.data|] == m.data && w[HEADER_SIZE + |m.data|..] == tail
  {
    var w := Frame(m) + tail;
    var size := Pack(|m.data|, 4);
    assert Values(w[1..HEADER_SIZE]) == size;
    UnpackPack(|m.data|, 4);
  }

  /** A framed message is read back whole, whatever follows it. */
  lemma ReadFrame(m: Message, tail: Wire, ending: Ending)
    requires Sendable(m)
    ensures Read(Frame(m) + tail, ending) == Got(m, tail)
  {
    FrameHeader(m, tail);
  }

  /** A stream that ends inside a message yields the failure, never a message. */
  lemma ReadTruncated(m: Message, n: nat, ending: Ending)
    requires Sendable(m)
    requires n < |Frame(m)|
    ensures Read(Frame(m)[..n], ending) == Fails(ending, [])
  {
    if n >= HEADER_SIZE {
      FrameHeader(m, []);
      assert Frame(m) + [] == Frame(m);
      assert Frame(m)[..n][1..HEADER_SIZE] == Frame(m)[1..HEADER_SIZE];
    }
  }

  /** Only framed messages are ever accepted: byte for byte, what was read is the
      frame of the message it produced, and the data keep their provenance. */
  lemma ReadGotFrame(w: Wire, ending: Ending)
    requires Read(w, ending).Got?
    ensures var g := Read(w, ending);
            Sendable(g.m) &&
            Values(w) == Values(Frame(g.m) + g.rest) && w[HEADER_SIZE..] == g.m.data + g.rest
  {
    LengthFits();
    var g := Read(w, ending);
    var head := Values(w[1..HEADER_SIZE]);
    PackUnpack(head);
    assert Header(g.m.kind, |g.m.data|) == Values(w[..HEADER_SIZE]);
    assert w == w[..HEADER_SIZE] + (g.m.data + g.rest);
    ValuesConcat(w[..HEADER_SIZE], g.m.data + g.rest);
    ValuesPlain(Header(g.m.kind, |g.m.data|));
    ValuesConcat(Plain(Header(g.m.kind, |g.m.data|)), g.m.data + g.rest);
    assert Frame(g.m) + g.rest == Plain(Header(g.m.kind, |g.m.data|)) + (g.m.data + g.rest);
  }

  /** Reading looks at byte values only. */
  lemma ReadByValues(w: Wire, v: Wire, ending: Ending)
    requires Values(w) == Values(v)
    ensures match (Read(w, ending), Read(v, ending))
            case (Got(m, r), Got(n, s)) => m.kind == n.kind && Values(m.data) == Values(n.data) && Values(r) == Values(s)
            case (Fails(a, _), Fails(b, _)) => a == b
            case _ => false
  {
    assert |w| == |Values(w)| == |v|;
    assert forall i :: 0 <= i < |w| ==> w[i].value == Values(w)[i] == v[i].value;
    if |w| >= HEADER_SIZE {
      assert Values(w[1..HEADER_SIZE]) == Values(v[1..HEADER_SIZE]);
    }
  }

  /** The acceptance condition, by the inverse: a read succeeds exactly on the bytes of
      some sendable message's frame with anything after it. */
  lemma ReadExactly(w: Wire, ending: Ending)
    ensures Read(w, ending).Got? <==>
              exists m, rest :: Sendable(m) && Values(w) == Values(Frame(m) + rest)
  {
    if Read(w, ending).Got? {
      ReadGotFrame(w, ending);
    }
    if m, rest :| Sendable(m) && Values(w) == Values(Frame(m) + rest) {
      ReadFrame(m, rest, ending);
      ReadByValues(w, Frame(m) + rest, ending);
    }
  }

  /** A length over the limit is rejected before any data is read; an unknown type is
      rejected after all the data, and the next message starts behind it. */
  lemma ReadRejects(kind: Byte, data: Wire, size: nat, rest: Wire, ending: Ending)
    requires size < Pow256(4) && |data| < Pow256(4)
    ensures size > 65536 ==> Read(Plain(Header(kind, size)) + rest, ending) == Fails(TooLarge, rest)
    ensures kind !in {1, 2, 3, 255} && |data| <= 65536 ==>
              Read(Frame(Message(kind, data)) + rest, ending) == Fails(UnknownType, rest)
  {
    var w := Plain(Header(kind, size)) + rest;
    assert Values(w[1..HEADER_SIZE]) == Pack(size, 4);
    UnpackPack(size, 4);
    assert w[HEADER_SIZE..] == rest;
    FrameHeader(Message(kind, data), rest);
  }

  /** The bytes start with a whole message of a size within the limit and a type that is
      no `MessageType`. */
  ghost predicate StartsUnknown(w: Wire) {
    exists kind: Byte, data: Wire, rest: Wire ::
      !Known(kind) && |data| <= MAX_SIZE && |data| < Pow256(4) && Values(w) == Values(Frame(Message(kind, data)) + rest)
  }

  /** A read fails for its type exactly on such bytes. */
  lemma ReadUnknownExactly(w: Wire, ending: Ending)
    ensures Read(w, ending).Fails? && Read(w, ending).why == UnknownType <==> StartsUnknown(w)
  {
    LengthFits();
    if Read(w, ending).Fails? && Read(w, ending).why == UnknownType {
      var size := SizeField(w);
      var data, rest := w[HEADER_SIZE..HEADER_SIZE + size], w[HEADER_SIZE + size..];
      UnknownFrame(w, data, rest);
    }
    if kind: Byte, data: Wire, rest: Wire :|
      !Known(kind) && |data| <= MAX_SIZE && |data| < Pow256(4) && Values(w) == Values(Frame(Message(kind, data)) + rest)
    {
      ReadRejects(kind, data, 0, rest, ending);
      ReadByValues(w, Frame(Message(kind, data)) + rest, ending);
    }
  }

  lemma UnknownFrame(w: Wire, data: Wire, rest: Wire)
    requires |w| >= HEADER_SIZE && !Known(w[0].value) && |data| == SizeField(w) <= MAX_SIZE
    requires w[HEADER_SIZE..] == data + rest
    ensures StartsUnknown(w)
  {
    LengthFits();
    var head := Values(w[1..HEADER_SIZE]);
    PackUnpack(head);
    var header := Header(w[0].value, |data|);
    assert header == Values(w[..HEADER_SIZE]);
    assert w == w[..HEADER_SIZE] + (data + rest);
    ValuesConcat(w[..HEADER_SIZE], data + rest);
    ValuesPlain(header);
    ValuesConcat(Plain(header), data + rest);
    assert Frame(Message(w[0].value, data)) + rest == Plain(header) + (data + rest);
  }

  predicate AllSendable(ms: seq<Message>) {
    forall i :: 0 <= i < |ms| ==> Sendable(ms[i])
  }

  function Frames(ms: seq<Message>): Wire
    requires AllSendable(ms)
  {
    if ms == [] then [] else Frame(ms[0]) + Frames(ms[1..])
  }

  /** The result of `count` calls of `_recv_message`, stopping at the first failure. */
  datatype Batch = Batch(got: seq<Message>, stopped: Option<Failure>, rest: Wire)

  function ReadMany(w: Wire, count: nat, ending: Ending): Batch {
    if count == 0 then Batch([], None, w)
    else
      match Read(w, ending)
      case Fails(why, rest) => Batch([], Some(why), rest)
      case Got(m, rest) =>
        var more := ReadMany(rest, count - 1, ending);
        more.(got := [m] + more.got)
  }

  lemma {:induction false} ReadManyNext(m: Message, w: Wire, count: nat, b: Batch, ending: Ending)
    requires Sendable(m) && ReadMany(w, count, ending) == b
    ensures ReadMany(Frame(m) + w, count + 1, ending) == Batch([m] + b.got, b.stopped, b.rest)
  {
    ReadFrame(m, w, ending);
  }

  lemma FramesNext(ms: seq<Message>, tail: Wire)
    requires AllSendable(ms) && ms != []
    ensures Frames(ms) + tail == Frame(ms[0]) + (Frames(ms[1..]) + tail)
  {
  }

  /** Framing round trip: any list of messages comes back as that list, and the
      bytes after it stay unread. */
  lemma {:induction false} ReadManyFrames(ms: seq<Message>, tail: Wire, ending: Ending)
    requires AllSendable(ms)
    ensures ReadMany(Frames(ms) + tail, |ms|, ending) == Batch(ms, None, tail)
  {
    if ms == [] {
      assert Frames(ms) + tail == tail;
    } else {
      var m, rest := ms[0], ms[1..];
      var more, b := Frames(rest) + tail, Batch(rest, None, tail);
      ReadManyFrames(rest, tail, ending);
      ReadManyNext(m, more, |rest|, b, ending);
      assert Frames(ms) + tail == Frame(m) + more by { FramesNext(ms, tail); }
      assert ms == [m] + rest && |ms| == |rest| + 1;
      assert ReadMany(Frames(ms) + tail, |rest| + 1, ending) == Batch([m] + rest, None, tail);
    }
  }

  lemma {:induction false} FramesTake(ms: seq<Message>, k: nat)
    requires AllSendable(ms) && k < |ms|
    ensures Frames(ms[..k + 1]) == Frame(ms[0]) + Frames(ms[1..][..k])
  {
    assert ms[..k + 1][1..] == ms[1..][..k];
  }

  /** The messages of `ms` that arrive whole in the first `n` bytes of the stream. */
  function Arrived(ms: seq<Message>, n: nat): seq<Message>
    requires AllSendable(ms)
  {
    if ms == [] || n < |Frame(ms[0])| then [] else [ms[0]] + Arrived(ms[1..], n - |Frame(ms[0])|)
  }

  /** One message more at the front makes a prefix of the rest a prefix of the whole. */
  lemma PrefixNext(ms: seq<Message>, k: nat)
    requires AllSendable(ms) && k < |ms| - 1
    ensures [ms[0]] + ms[1..][..k] == ms[..k + 1]
    ensures |Frames(ms[..k + 1])| == |Frame(ms[0])| + |Frames(ms[1..][..k])|
    ensures |Frames(ms[..k + 2])| == |Frame(ms[0])| + |Frames(ms[1..][..k + 1])|
  {
    FramesTake(ms, k);
    FramesTake(ms, k + 1);
  }

  /** They are the longest prefix of `ms` whose frames fit in `n` bytes. */
  lemma {:induction false} ArrivedFits(ms: seq<Message>, n: nat)
    requires AllSendable(ms) && n < |Frames(ms)|
    ensures var got := Arrived(ms, n);
            |got| < |ms| && got == ms[..|got|] && |Frames(got)| <= n < |Frames(ms[..|got| + 1])|
  {
    if n < |Frame(ms[0])| {
      FramesTake(ms, 0);
    } else {
      ArrivedFits(ms[1..], n - |Frame(ms[0])|);
      PrefixNext(ms, |Arrived(ms[1..], n - |Frame(ms[0])|)|);
    }
  }

  lemma {:induction false} CutFirst(m: Message, more: Wire, n: nat, count: nat, ending: Ending)
    requires Sendable(m) && n < |Frame(m)|
    ensures ReadMany((Frame(m) + more)[..n], count + 1, ending) == Batch([], Some(ending), [])
  {
    assert (Frame(m) + more)[..n] == Frame(m)[..n];
    ReadTruncated(m, n, ending);
  }

  lemma {:induction false} CutLater(m: Message, more: Wire, n: nat, count: nat, b: Batch, ending: Ending)
    requires Sendable(m) && |Frame(m)| <= n <= |Frame(m) + more|
    requires ReadMany(more[..n - |Frame(m)|], count, ending) == b
    ensures ReadMany((Frame(m) + more)[..n], count + 1, ending) == Batch([m] + b.got, b.stopped, b.rest)
  {
    assert (Frame(m) + more)[..n] == Frame(m) + more[..n - |Frame(m)|];
    ReadManyNext(m, more[..n - |Frame(m)|], count, b, ending);
  }

  /** A stream cut at byte `n` yields exactly the messages that arrived whole, then
      the failure; it never yields a different message. */
  lemma {:induction false} ReadManyCut(ms: seq<Message>, n: nat, ending: Ending)
    requires AllSendable(ms) && n < |Frames(ms)|
    ensures ReadMany(Frames(ms)[..n], |ms|, ending) == Batch(Arrived(ms, n), Some(ending), [])
  {
    var m, rest := ms[0], ms[1..];
    var later, first := Frames(rest), |Frame(m)|;
    if n < first {
      CutFirst(m, later, n, |rest|, ending);
    } else {
      var b := Batch(Arrived(rest, n - first), Some(ending), []);
      ReadManyCut(rest, n - first, ending);
      CutLater(m, later, n, |rest|, b, ending);
      assert Arrived(ms, n) == [m] + b.got;
      assert Frames(ms) == Frame(m) + later && |ms| == |rest| + 1;
    }
  }

  datatype Received = Chunk(bytes: Wire) | Raised(why: Failure)
  datatype Exact = Data(bytes: Wire) | Broken(why: Failure)

  /** Whether `n` more bytes can be written; no limit stands for a connection that lasts. */
  predicate Fits(n: nat, room: Option<nat>) {
    room.None? || n <= room.value
  }

  /** A TCP socket as its owner sees it: the bytes that will still arrive, what happens
      after them, the bytes written so far, and how many more can be written before
      `sendall` raises. */
  class Socket {
    var incoming: Wire
    var outgoing: Wire
    var room: Option<nat>
    var closed: bool
    const ending: Ending

    constructor (incoming: Wire, ending: Ending, room: Option<nat>)
      ensures this.incoming == incoming && this.ending == ending && this.room == room && outgoing == [] && !closed
    {
      this.incoming, this.ending, this.room, outgoing, closed := incoming, ending, room, [], false;
    }

    /** `recv(n)`: some nonempty chunk of at most `n` bytes, or the ending. */
    method Recv(n: nat) returns (r: Received)
      requires n > 0
      modifies this`incoming
      ensures old(incoming) == [] ==>
                incoming == [] && r == if ending.Closed? then Chunk([]) else Raised(ending)
      ensures old(incoming) != [] ==>
                r.Chunk? && 0 < |r.bytes| <= n && old(incoming) == r.bytes + incoming
    {
      if incoming == [] {
        return if ending.Closed? then Chunk([]) else Raised(ending);
      }
      var k: nat :| 0 < k <= n && k <= |incoming|;
      r := Chunk(incoming[..k]);
      incoming := incoming[k..];
    }

    /** `_recv_exact`: `n` bytes in order however they are chunked, or the ending. */
    method RecvExact(n: nat) returns (r: Exact)
      modifies this`incoming
      ensures |old(incoming)| >= n ==> r == Data(old(incoming)[..n]) && incoming == old(incoming)[n..]
      ensures |old(incoming)| < n ==> r == Broken(ending) && incoming == []
    {
      var data: Wire := [];
      while |data| < n
        invariant |data| <= n && old(incoming) == data + incoming
        decreases n - |data|
      {
        var got := Recv(n - |data|);
        match got {
          case Raised(why) => return Broken(why);
          case Chunk(chunk) =>
            if chunk == [] {
              return Broken(Closed);
            }
            data := data + chunk;
        }
      }
      return Data(data);
    }

    /** `_recv_message`: what it returns depends on the bytes alone, not on the chunks. */
    method RecvMessage() returns (r: Reading)
      modifies this`incoming
      ensures r == Read(old(incoming), ending) && incoming == r.rest
    {
      var head := RecvExact(HEADER_SIZE);
      if head.Broken? {
        return Fails(head.why, incoming);
      }
      var header := head.bytes;
      assert header == old(incoming)[..HEADER_SIZE];
      assert header[1..HEADER_SIZE] == old(incoming)[1..HEADER_SIZE];
      var size := SizeField(header);
      if size > MAX_SIZE {
        return Fails(TooLarge, incoming);
      }
      var body := RecvExact(size);
      if body.Broken? {
        return Fails(body.why, incoming);
      }
      assert body.bytes == old(incoming)[HEADER_SIZE..HEADER_SIZE + size];
      assert incoming == old(incoming)[HEADER_SIZE + size..];
      if !Known(header[0].value) {
        return Fails(UnknownType, incoming);
      }
      return Got(Message(header[0].value, body.bytes), incoming);
    }

    /** `_send_message` with `sendall`, which may raise with part of the frame written. */
    method SendMessage(m: Message) returns (ok: bool)
      requires |m.data| < Pow256(4)
      modifies this`outgoing, this`room
      ensures ok <==> Fits(|Frame(m)|, old(room))
      ensures outgoing == old(outgoing) + if ok then Frame(m) else Frame(m)[..old(room).value]
      ensures room == if old(room).None? then None else if ok then Some(old(room).value - |Frame(m)|) else Some(0)
    {
      var frame := Plain(Header(m.kind, |m.data|)) + m.data;
      ok := Fits(|frame|, room);
      if !ok {
        outgoing := outgoing + frame[..room.value];
        room := Some(0);
        return;
      }
      outgoing := outgoing + frame;
      if room.Some? {
        room := Some(room.value - |frame|);
      }
    }

    method Close()
      modifies this`closed
      ensures closed
    {
      closed := true;
    }
  }
}
