/** AsyncTCPSocket of webrtc/base/asynctcpsocket.cc: packets over a byte stream, each behind its
    length in two bytes.  The socket below is the environment: its answers are parameters. */
module TcpFraming {
  import opened ByteOrders

  type Packet = seq<Byte>

  const MAX_PACKET_SIZE: nat := 64 * 1024
  const PACKET_LEN_SIZE: nat := 2
  const BUF_SIZE: nat := MAX_PACKET_SIZE + PACKET_LEN_SIZE
  const LENGTH_MODULUS: nat := 0x1_0000

  // ----- Frames

  /** The cast to a 16-bit length, in network order. */
  function LengthBytes(n: nat): (r: seq<Byte>)
    ensures |r| == PACKET_LEN_SIZE
  {
    SetBE(n % LENGTH_MODULUS, PACKET_LEN_SIZE)
  }

  function GetBE16(data: seq<Byte>): nat
    requires |data| >= PACKET_LEN_SIZE
  {
    GetBE(data[..PACKET_LEN_SIZE])
  }

  lemma LengthRoundTrip(n: nat, s: seq<Byte>)
    ensures GetBE16(LengthBytes(n) + s) == n % LENGTH_MODULUS
  {
    hide SetBE, GetBE;
    var v := n % LENGTH_MODULUS;
    BERoundTrip(v, PACKET_LEN_SIZE);
    assert Pow256(2) == LENGTH_MODULUS;
    assert (SetBE(v, PACKET_LEN_SIZE) + s)[..PACKET_LEN_SIZE] == SetBE(v, PACKET_LEN_SIZE);
  }

  lemma LengthReadsBack(data: seq<Byte>)
    requires |data| >= PACKET_LEN_SIZE
    ensures GetBE16(data) < LENGTH_MODULUS && LengthBytes(GetBE16(data)) == data[..PACKET_LEN_SIZE]
  {
    hide SetBE, GetBE;
    var s := data[..PACKET_LEN_SIZE];
    BytesRoundTripBE(s);
    BERoundTrip(GetBE(s), PACKET_LEN_SIZE);
    assert Pow256(2) == LENGTH_MODULUS;
  }

  function Frame(p: Packet): seq<Byte> {
    LengthBytes(|p|) + p
  }

  function Frames(ps: seq<Packet>): seq<Byte> {
    if ps == [] then [] else Frame(ps[0]) + Frames(ps[1..])
  }

  /** The bytes start with a whole frame. */
  predicate HasFrame(data: seq<Byte>) {
    |data| >= PACKET_LEN_SIZE && |data| >= PACKET_LEN_SIZE + GetBE16(data)
  }

  /** The packet of the first frame. */
  function FirstPacket(data: seq<Byte>): Packet
    requires HasFrame(data)
  {
    data[PACKET_LEN_SIZE..PACKET_LEN_SIZE + GetBE16(data)]
  }

  predicate Sendable(p: Packet) {
    |p| < LENGTH_MODULUS
  }

  /** What a frame looks like: the length in two bytes, the high one first, and the packet. */
  lemma FrameFormat(p: Packet)
    requires |p| < 65536
    ensures Frame(p) == [|p| / 256, |p| % 256] + p
  {
    SetBEByte(|p|, 2, 0);
    SetBEByte(|p|, 2, 1);
    assert Pow256(1) == 256 && Pow256(0) == 1;
  }

  /** What is taken for a frame: two bytes of length, the high one first, and as many bytes as they say. */
  lemma FrameRead(data: seq<Byte>)
    ensures HasFrame(data) <==> |data| >= 2 && |data| >= 2 + (256 * (data[0] as int) + data[1] as int)
    ensures HasFrame(data) ==> FirstPacket(data) == data[2..2 + (256 * (data[0] as int) + data[1] as int)]
  {
    if |data| >= 2 {
      var s := data[..2];
      assert s[..1] == [data[0]] && s[..1][..0] == [];
      assert GetBE(s) == 256 * GetBE(s[..1]) + data[1] as int;
    }
  }

  ghost predicate AllSendable(ps: seq<Packet>) {
    forall p :: p in ps ==> Sendable(p)
  }

  lemma OneMoreSendable(ps: seq<Packet>, p: Packet)
    requires AllSendable(ps) && Sendable(p)
    ensures AllSendable(ps + [p])
  {
  }

  /** A frame is read back as its packet, whatever follows, exactly if the packet length fits into
      16 bits; the length of a longer packet is cut off, and so is the packet. */
  lemma FrameReadsBack(p: Packet, s: seq<Byte>)
    ensures HasFrame(Frame(p) + s) && FirstPacket(Frame(p) + s) == p <==> Sendable(p)
  {
    hide LengthBytes, GetBE16;
    var data := Frame(p) + s;
    assert data == LengthBytes(|p|) + (p + s);
    LengthRoundTrip(|p|, p + s);
    if Sendable(p) {
      assert FirstPacket(data) == p;
    }
  }

  lemma {:induction false} FramesAppend(ps: seq<Packet>, p: Packet)
    ensures Frames(ps + [p]) == Frames(ps) + Frame(p)
  {
    if ps == [] {
      assert [p][1..] == [] && [] + [p] == [p];
    } else {
      FramesAppend(ps[1..], p);
      assert (ps + [p])[1..] == ps[1..] + [p];
    }
  }

  // ----- The stream determines the packets

  lemma FramesReadBack(ps: seq<Packet>)
    requires ps != [] && Sendable(ps[0])
    ensures HasFrame(Frames(ps)) && FirstPacket(Frames(ps)) == ps[0]
    ensures Frames(ps)[PACKET_LEN_SIZE + |ps[0]|..] == Frames(ps[1..])
  {
    FrameReadsBack(ps[0], Frames(ps[1..]));
  }

  lemma FirstPacketStable(a: seq<Byte>, b: seq<Byte>)
    requires HasFrame(a) && a <= b
    ensures HasFrame(b) && FirstPacket(b) == FirstPacket(a)
  {
    assert b[..PACKET_LEN_SIZE] == a[..PACKET_LEN_SIZE];
    hide GetBE;
  }

  lemma SamePacketFirst(some: seq<Packet>, all: seq<Packet>, rest: seq<Byte>)
    requires some != [] && Sendable(some[0]) && (all != [] ==> Sendable(all[0]))
    requires Frames(some) + rest <= Frames(all)
    ensures all != [] && some[0] == all[0] && Frames(some[1..]) + rest <= Frames(all[1..])
  {
    hide *;
    FramesReadBack(some);
    SameFirst(Frames(some), rest, Frames(all));
    EmptyHasNoFrame();
    FramesReadBack(all);
    FrameLength(some);
    Behind(Frames(some), rest, Frames(all), PACKET_LEN_SIZE + |some[0]|);
  }

  lemma SameFirst(a: seq<Byte>, rest: seq<Byte>, b: seq<Byte>)
    requires HasFrame(a) && a + rest <= b
    ensures HasFrame(b) && FirstPacket(b) == FirstPacket(a)
  {
    hide HasFrame, FirstPacket;
    FirstPacketStable(a, b);
  }

  lemma EmptyHasNoFrame()
    ensures !HasFrame([]) && Frames([]) == []
  {
  }

  lemma FrameLength(ps: seq<Packet>)
    requires ps != []
    ensures |Frames(ps)| >= PACKET_LEN_SIZE + |ps[0]|
  {
  }

  lemma Behind(a: seq<Byte>, rest: seq<Byte>, b: seq<Byte>, n: nat)
    requires a + rest <= b && n <= |a|
    ensures a[n..] + rest <= b[n..]
  {
    assert a[n..] + rest == (a + rest)[n..];
  }

  /** If a stream begins with the frames of `some`, then it is `some` that was sent first. */
  lemma {:induction false} FramesDetermine(some: seq<Packet>, all: seq<Packet>, rest: seq<Byte>)
    requires AllSendable(some) && AllSendable(all)
    requires Frames(some) + rest <= Frames(all)
    ensures some <= all && rest <= Frames(all[|some|..])
    decreases |some|
  {
    if some == [] {
      assert all[0..] == all && [] + rest == rest;
    } else {
      SamePacketFirst(some, all, rest);
      FramesDetermine(some[1..], all[1..], rest);
      assert all[1..][|some| - 1..] == all[|some|..];
    }
  }

  lemma Cut(a: seq<Byte>, b: seq<Byte>, n: nat)
    requires n <= |b|
    ensures (a + b[..n]) + b[n..] == a + b
  {
  }

  class AsyncTCPSocket {
    const inbuf_: array<Byte>
    const outbuf_: array<Byte>
    var inpos_: nat
    var outpos_: nat
    // The calls of SignalReadPacket and SignalReadyToSend so far.
    var delivered: seq<Packet>
    var readySignals: nat
    // What Send has accepted; what the socket below has taken and given.
    ghost var accepted: seq<Packet>
    ghost var wire: seq<Byte>
    ghost var arrived: seq<Byte>

    ghost predicate Valid()
      reads this, inbuf_, outbuf_
    {
      && inbuf_.Length == outbuf_.Length == BUF_SIZE && inbuf_ != outbuf_
      && inpos_ < BUF_SIZE && outpos_ <= BUF_SIZE
      && AllSendable(accepted) && AllSendable(delivered)
      && wire + Outgoing() == Frames(accepted)
      && arrived == Frames(delivered) + Incoming()
      && !HasFrame(Incoming())
    }

    function Outgoing(): seq<Byte>
      requires outpos_ <= outbuf_.Length
      reads this, outbuf_
    {
      outbuf_[..outpos_]
    }

    function Incoming(): seq<Byte>
      requires inpos_ <= inbuf_.Length
      reads this, inbuf_
    {
      inbuf_[..inpos_]
    }

    constructor ()
      ensures Valid() && accepted == [] && delivered == [] && wire == [] && arrived == []
      ensures fresh(inbuf_) && fresh(outbuf_)
    {
      inbuf_ := new Byte[BUF_SIZE];
      outbuf_ := new Byte[BUF_SIZE];
      inpos_, outpos_, delivered, readySignals := 0, 0, [], 0;
      accepted, wire, arrived := [], [], [];
    }

    // ----- Sending

    /** `answer` is what the socket returns for the buffered bytes. */
    method FlushOutBuffer(answer: int) returns (res: int)
      requires outpos_ <= outbuf_.Length
      modifies this`outpos_, this`wire, outbuf_
      ensures res == if 0 < answer && answer > old(outpos_) then -1 else answer
      ensures res <= 0 ==> outpos_ == old(outpos_) && wire == old(wire) && outbuf_[..] == old(outbuf_[..])
      ensures outpos_ <= old(outpos_) && (res > 0 ==> outpos_ == old(outpos_) - res)
      ensures res > 0 ==> wire == old(wire) + old(Outgoing())[..res] && Outgoing() == old(Outgoing())[res..]
    {
      res := answer;
      if res <= 0 {
        return;
      }
      if res > outpos_ {
        return -1;
      }
      ghost var before := Outgoing();
      wire := wire + outbuf_[..res];
      outpos_ := outpos_ - res;
      forall i | 0 <= i < outpos_ {
        outbuf_[i] := outbuf_[i + res];
      }
      assert Outgoing() == before[res..];
    }

    method AppendToOutBuffer(data: seq<Byte>)
      requires outpos_ + |data| < outbuf_.Length
      modifies this`outpos_, outbuf_
      ensures outpos_ == old(outpos_) + |data| && Outgoing() == old(Outgoing()) + data
    {
      forall i | 0 <= i < |data| {
        outbuf_[outpos_ + i] := data[i];
      }
      outpos_ := outpos_ + |data|;
    }

    /** AsyncTCPSocket::Send.  `tripped` tells that it comes to the assertion in AppendToOutBuffer and
        the assertion fails; nothing is said about what the socket does after that. */
    method Send(packet: Packet, answer: int) returns (res: int, tripped: bool)
      requires Valid()
      modifies this`outpos_, this`wire, this`accepted, outbuf_
      // Exactly these packets pass the size test and do not fit: see Sendable.
      ensures tripped <==> old(outpos_) == 0 && 65536 <= |packet| <= 65538
      ensures tripped ==> accepted == old(accepted) && wire == old(wire)
      ensures !tripped ==> Valid()
      // Accepted as soon as a part of it is on the wire; the rest waits in the buffer.
      ensures var taken := Sendable(packet) && old(outpos_) == 0 && 0 < answer <= |Frame(packet)|;
              if taken then
                && accepted == old(accepted) + [packet] && res == |packet|
                && wire == old(wire) + Frame(packet)[..answer] && Outgoing() == Frame(packet)[answer..]
              else !tripped ==> accepted == old(accepted) && wire == old(wire) && Outgoing() == old(Outgoing())
      // A packet is dropped silently while another one waits, and with an error if nothing was taken.
      ensures |packet| > 65538 ==> res == -1
      ensures |packet| <= BUF_SIZE && old(outpos_) > 0 ==> res == |packet|
      ensures Sendable(packet) && old(outpos_) == 0 && answer <= 0 ==> res == answer
    {
      hide Frames, HasFrame, Frame, AllSendable;
      tripped := false;
      if |packet| > BUF_SIZE {
        return -1, tripped;
      }
      if outpos_ != 0 {
        return |packet|, tripped;
      }
      tripped := Enqueue(packet);
      if tripped {
        return 0, tripped;
      }
      res := FlushOutBuffer(answer);
      if res <= 0 {
        outpos_ := 0;
        assert wire + [] == wire && Outgoing() == [];
      } else {
        FramesAppend(accepted, packet);
        OneMoreSendable(accepted, packet);
        Cut(old(wire), Frame(packet), res);
        accepted := accepted + [packet];
        res := |packet|;
      }
    }

    /** The two calls of AppendToOutBuffer, up to its assertion. */
    method Enqueue(packet: Packet) returns (tripped: bool)
      requires outpos_ == 0 && outbuf_.Length == BUF_SIZE && |packet| <= BUF_SIZE
      modifies this`outpos_, outbuf_
      ensures tripped == !Sendable(packet) && outpos_ <= BUF_SIZE
      ensures !tripped ==> Outgoing() == Frame(packet)
    {
      hide LengthBytes;
      AppendToOutBuffer(LengthBytes(|packet|));
      if outpos_ + |packet| >= outbuf_.Length {
        return true;
      }
      AppendToOutBuffer(packet);
      tripped := false;
      assert Outgoing() == Frame(packet);
    }

    method OnWriteEvent(answer: int)
      requires Valid()
      modifies this`outpos_, this`wire, this`readySignals, outbuf_
      ensures Valid()
      ensures if 0 < answer <= old(outpos_) then
                wire == old(wire) + old(Outgoing())[..answer] && Outgoing() == old(Outgoing())[answer..]
              else wire == old(wire) && Outgoing() == old(Outgoing())
      ensures readySignals == old(readySignals) + (if outpos_ == 0 then 1 else 0)
    {
      hide Frames, HasFrame;
      if outpos_ > 0 {
        ghost var before := Outgoing();
        var res := FlushOutBuffer(answer);
        if res > 0 {
          Cut(old(wire), before, res);
        }
      }
      if outpos_ == 0 {
        readySignals := readySignals + 1;
      }
    }

    // ----- Receiving

    /** OnReadEvent of a connected socket.  `data` is what Recv yields, in part if the buffer has no
        more room; no data stands for an error. */
    method OnReadEvent(data: seq<Byte>)
      requires Valid()
      modifies this`inpos_, this`delivered, this`arrived, inbuf_
      ensures Valid() && old(delivered) <= delivered
      ensures arrived == old(arrived) + data[..if |data| < BUF_SIZE - old(inpos_) then |data| else BUF_SIZE - old(inpos_)]
    {
      hide Frames, GetBE16, AllSendable;
      var room := BUF_SIZE - inpos_;
      ghost var before := Incoming();
      var len := Fill(data, room);
      assert (Frames(delivered) + before) + data[..len] == Frames(delivered) + Incoming();
      ProcessInput();
      if inpos_ >= BUF_SIZE {
        // "input buffer overflow"
        assert false;
      }
    }

    /** The Recv of OnReadEvent. */
    method Fill(data: seq<Byte>, room: nat) returns (len: nat)
      requires inpos_ + room == inbuf_.Length
      modifies this`inpos_, this`arrived, inbuf_
      ensures len == (if |data| < room then |data| else room) && inpos_ == old(inpos_) + len
      ensures Incoming() == old(Incoming()) + data[..len] && arrived == old(arrived) + data[..len]
    {
      ghost var before := Incoming();
      len := if |data| < room then |data| else room;
      forall i | 0 <= i < len {
        inbuf_[inpos_ + i] := data[i];
      }
      inpos_ := inpos_ + len;
      arrived := arrived + data[..len];
      assert Incoming() == before + data[..len];
    }

    method ProcessInput()
      requires inbuf_.Length == BUF_SIZE && inpos_ <= BUF_SIZE
      requires arrived == Frames(delivered) + Incoming() && AllSendable(delivered)
      modifies this`inpos_, this`delivered, inbuf_
      ensures inpos_ < BUF_SIZE && arrived == Frames(delivered) + Incoming()
      ensures !HasFrame(Incoming()) && old(delivered) <= delivered
      ensures AllSendable(delivered)
    {
      hide Frames, GetBE16, LengthBytes, AllSendable;
      while true
        invariant inpos_ <= BUF_SIZE && old(delivered) <= delivered
        invariant arrived == Frames(delivered) + Incoming()
        invariant AllSendable(delivered)
        decreases inpos_
      {
        if inpos_ < PACKET_LEN_SIZE {
          return;
        }
        var len := GetBE16(inbuf_[..inpos_]);
        LengthReadsBack(Incoming());
        if inpos_ < PACKET_LEN_SIZE + len {
          return;
        }
        ghost var before := delivered;
        TakePacket(len);
        OneMoreSendable(before, delivered[|before|]);
      }
    }

    /** One turn of the loop: signal the packet and move the rest of the buffer down. */
    method TakePacket(len: nat)
      requires inbuf_.Length == BUF_SIZE && inpos_ <= BUF_SIZE
      requires HasFrame(Incoming()) && len == GetBE16(Incoming())
      modifies this`inpos_, this`delivered, inbuf_
      ensures inpos_ < old(inpos_) && delivered == old(delivered) + [old(FirstPacket(Incoming()))]
      ensures Sendable(delivered[|old(delivered)|])
      ensures Frames(delivered) + Incoming() == old(Frames(delivered) + Incoming())
    {
      hide Frames, LengthBytes, GetBE16, Frame;
      ghost var before, all := Incoming(), Frames(delivered);
      var packet := Incoming()[PACKET_LEN_SIZE..PACKET_LEN_SIZE + len];
      FrameSplits(before);
      FramesAppend(delivered, packet);
      delivered := delivered + [packet];
      DropFront(PACKET_LEN_SIZE + len);
      assert all + (Frame(packet) + Incoming()) == (all + Frame(packet)) + Incoming();
    }

    /** inpos_ -= n, and memmove(inbuf_, inbuf_ + n, inpos_). */
    method DropFront(n: nat)
      requires n <= inpos_ <= inbuf_.Length
      modifies this`inpos_, inbuf_
      ensures inpos_ == old(inpos_) - n && Incoming() == old(Incoming())[n..]
    {
      ghost var before := Incoming();
      inpos_ := inpos_ - n;
      forall i | 0 <= i < inpos_ {
        inbuf_[i] := inbuf_[i + n];
      }
      assert Incoming() == before[n..];
    }
  }

  lemma FrameSplits(data: seq<Byte>)
    requires HasFrame(data)
    ensures Sendable(FirstPacket(data))
    ensures Frame(FirstPacket(data)) + data[PACKET_LEN_SIZE + GetBE16(data)..] == data
  {
    LengthReadsBack(data);
    hide LengthBytes, GetBE16;
    var n := PACKET_LEN_SIZE + GetBE16(data);
    assert data == data[..PACKET_LEN_SIZE] + data[PACKET_LEN_SIZE..n] + data[n..];
  }

  /** Whatever the splits of writes and reads: what has been delivered are the first packets that
      were accepted, and all of them once both sides have drained. */
  lemma EndToEnd(sender: AsyncTCPSocket, receiver: AsyncTCPSocket)
    requires sender.Valid() && receiver.Valid() && receiver.arrived <= sender.wire
    ensures receiver.delivered <= sender.accepted
    ensures sender.outpos_ == 0 && receiver.arrived == sender.wire ==> receiver.delivered == sender.accepted
  {
    var rest := receiver.Incoming();
    assert receiver.arrived <= sender.wire + sender.Outgoing();
    FramesDetermine(receiver.delivered, sender.accepted, rest);
    if sender.outpos_ == 0 && receiver.arrived == sender.wire && receiver.delivered != sender.accepted {
      var left := sender.accepted[|receiver.delivered|..];
      assert receiver.delivered + left == sender.accepted;
      JoinFrames(receiver.delivered, left);
      assert sender.wire + [] == sender.wire;
      assert rest == Frames(left);
      FramesReadBack(left);
    }
  }

  lemma Regroup(a: seq<Byte>, b: seq<Byte>, c: seq<Byte>)
    ensures (a + b) + c == a + (b + c)
  {
  }

  lemma {:induction false} JoinFrames(a: seq<Packet>, b: seq<Packet>)
    ensures Frames(a + b) == Frames(a) + Frames(b)
  {
    hide Frame;
    if a == [] {
      assert a + b == b;
    } else {
      JoinFrames(a[1..], b);
      assert (a + b)[1..] == a[1..] + b;
      Regroup(Frame(a[0]), Frames(a[1..]), Frames(b));
    }
  }
}
