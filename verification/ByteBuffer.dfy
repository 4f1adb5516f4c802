/** ByteBuffer of webrtc/base/bytebuffer.cc. */
module ByteBuffers {
  import opened ByteOrders

  // ----- Integers in a buffer

  datatype ByteOrder = ORDER_NETWORK | ORDER_HOST

  /** WriteUInt8, 16, 32 and 64. */
  function WrittenInteger(order: ByteOrder, bigEndianHost: bool, v: nat, k: nat): (s: seq<Byte>)
    ensures |s| == k
  {
    HostBytes(bigEndianHost, if order.ORDER_NETWORK? then HostToNetwork(bigEndianHost, v, k) else v, k)
  }

  /** ReadUInt8, 16, 32 and 64. */
  function ReadInteger(order: ByteOrder, bigEndianHost: bool, s: seq<Byte>): nat {
    var v := FromHostBytes(bigEndianHost, s);
    if order.ORDER_NETWORK? then NetworkToHost(bigEndianHost, v, |s|) else v
  }

  /** WriteUInt24: three of the four bytes of the variable. */
  function Written24(order: ByteOrder, bigEndianHost: bool, v: nat): (s: seq<Byte>)
    ensures |s| == 3
  {
    var image := WrittenInteger(order, bigEndianHost, v, 4);
    if order.ORDER_NETWORK? || bigEndianHost then image[1..] else image[..3]
  }

  /** ReadUInt24: three bytes placed in a variable that is 0. */
  function Read24(order: ByteOrder, bigEndianHost: bool, s: seq<Byte>): nat
    requires |s| == 3
  {
    ReadInteger(order, bigEndianHost, if order.ORDER_NETWORK? || bigEndianHost then [0] + s else s + [0])
  }

  lemma ImageRoundTrip(bigEndianHost: bool, s: seq<Byte>)
    ensures HostBytes(bigEndianHost, FromHostBytes(bigEndianHost, s), |s|) == s
  {
    BytesRoundTripBE(s);
    BytesRoundTripLE(s);
  }

  lemma ReadMeans(order: ByteOrder, bigEndianHost: bool, s: seq<Byte>)
    ensures ReadInteger(order, bigEndianHost, s) ==
            if order.ORDER_NETWORK? || bigEndianHost then GetBE(s) else GetLE(s)
  {
    ImageRoundTrip(bigEndianHost, s);
  }

  lemma WriteMeans(order: ByteOrder, bigEndianHost: bool, v: nat, k: nat)
    ensures WrittenInteger(order, bigEndianHost, v, k) ==
            if order.ORDER_NETWORK? || bigEndianHost then SetBE(v, k) else SetLE(v, k)
  {
    NetworkImage(bigEndianHost, v, k);
  }

  /** What is written is read back, cut off to the width; in network order, also on a host of the
      other kind. */
  lemma IntegerRoundTrip(order: ByteOrder, writerBig: bool, readerBig: bool, v: nat, k: nat)
    requires order.ORDER_NETWORK? || writerBig == readerBig
    ensures ReadInteger(order, readerBig, WrittenInteger(order, writerBig, v, k)) == v % Pow256(k)
  {
    WriteMeans(order, writerBig, v, k);
    ReadMeans(order, readerBig, WrittenInteger(order, writerBig, v, k));
    BERoundTrip(v, k);
    LERoundTrip(v, k);
  }

  lemma {:induction false} LeadingZero(s: seq<Byte>)
    ensures GetBE([0] + s) == GetBE(s)
    decreases |s|
  {
    var t := [0] + s;
    if s == [] {
      assert t[..0] == [];
    } else {
      LeadingZero(s[..|s| - 1]);
      assert t[..|t| - 1] == [0] + s[..|s| - 1];
    }
  }

  lemma {:induction false} TrailingZero(s: seq<Byte>)
    ensures GetLE(s + [0]) == GetLE(s)
    decreases |s|
  {
    var t := s + [0];
    if s == [] {
      assert t[1..] == [];
    } else {
      TrailingZero(s[1..]);
      assert t[1..] == s[1..] + [0];
    }
  }

  /** 24-bit numbers: the same, modulo 2^24. */
  lemma RoundTrip24(order: ByteOrder, writerBig: bool, readerBig: bool, v: nat)
    requires order.ORDER_NETWORK? || writerBig == readerBig
    ensures Read24(order, readerBig, Written24(order, writerBig, v)) == v % 0x100_0000
  {
    hide SetBE, SetLE, GetBE, GetLE, HostBytes, FromHostBytes, WrittenInteger, ReadInteger;
    var s := Written24(order, writerBig, v);
    WriteMeans(order, writerBig, v, 4);
    LowBytesBE(v, 4);
    LowBytesLE(v, 4);
    ReadMeans(order, readerBig, if order.ORDER_NETWORK? || readerBig then [0] + s else s + [0]);
    LeadingZero(s);
    TrailingZero(s);
    BERoundTrip(v, 3);
    LERoundTrip(v, 3);
    assert Pow256(3) == 0x100_0000;
  }

  // ----- Integers of all widths, one behind the other

  /** What the Write function for k bytes writes; for 3 bytes there is one of its own. */
  function WrittenItem(order: ByteOrder, bigEndianHost: bool, v: nat, k: nat): (s: seq<Byte>)
    ensures |s| == k
  {
    if k == 3 then Written24(order, bigEndianHost, v) else WrittenInteger(order, bigEndianHost, v, k)
  }

  function ReadItem(order: ByteOrder, bigEndianHost: bool, s: seq<Byte>): nat {
    if |s| == 3 then Read24(order, bigEndianHost, s) else ReadInteger(order, bigEndianHost, s)
  }

  lemma ItemRoundTrip(order: ByteOrder, writerBig: bool, readerBig: bool, v: nat, k: nat)
    requires order.ORDER_NETWORK? || writerBig == readerBig
    ensures ReadItem(order, readerBig, WrittenItem(order, writerBig, v, k)) == v % Pow256(k)
  {
    hide Written24, Read24, WrittenInteger, ReadInteger;
    if k == 3 {
      RoundTrip24(order, writerBig, readerBig, v);
    } else {
      IntegerRoundTrip(order, writerBig, readerBig, v, k);
    }
  }

  // ----- The buffer as a value

  /** `store` is what lies before `end_`; the live window starts at `start`. */
  datatype Buffer = Buffer(store: seq<Byte>, start: nat, size: nat, version: nat) {
    predicate Valid() {
      start <= |store| <= size
    }

    function Contents(): seq<Byte>
      requires Valid()
    {
      store[start..]
    }
  }

  datatype ReadPosition = ReadPosition(start: nat, version: nat)

  /** A position that was saved in this buffer: as long as it is accepted, it lies within. */
  predicate Saved(b: Buffer, p: ReadPosition) {
    p.version <= b.version && (p.version == b.version ==> p.start <= |b.store|)
  }

  function Resized(b: Buffer, size: nat): (r: Buffer)
    requires b.Valid()
    ensures r.Valid()
  {
    var c := b.Contents();
    var grown := 3 * b.size / 2;
    Buffer(if |c| <= size then c else c[..size], 0,
           if size <= b.size then b.size else if grown < size then size else grown, b.version + 1)
  }

  function Written(b: Buffer, data: seq<Byte>): (r: Buffer)
    requires b.Valid()
    ensures r.Valid()
  {
    var n := |b.Contents()| + |data|;
    var room := if n > b.size - b.start then Resized(b, n) else b;
    room.(store := room.store + data)
  }

  function Consumed(b: Buffer, n: nat): (r: Buffer)
    requires b.Valid()
    ensures r.Valid()
  {
    if n > |b.Contents()| then b else b.(start := b.start + n)
  }

  function Rewound(b: Buffer, p: ReadPosition): (r: Buffer)
    requires b.Valid() && Saved(b, p)
    ensures r.Valid()
  {
    if p.version != b.version then b else b.(start := p.start)
  }

  function Cleared(b: Buffer): (r: Buffer)
    requires b.Valid()
    ensures r.Valid()
  {
    Buffer([], 0, b.size, b.version + 1)
  }

  // ----- The buffer as it is

  class ByteBuffer {
    var bytes_: array<Byte>
    var start_: nat
    var end_: nat
    var version_: nat
    const byte_order_: ByteOrder
    // IsHostBigEndian()
    const bigEndianHost: bool

    ghost predicate Valid()
      reads this
    {
      start_ <= end_ <= bytes_.Length
    }

    ghost function View(): (b: Buffer)
      requires Valid()
      reads this, bytes_
      ensures b.Valid()
    {
      Buffer(bytes_[..end_], start_, bytes_.Length, version_)
    }

    /** ByteBuffer(bytes, len, byte_order). */
    constructor (bytes: seq<Byte>, order: ByteOrder, bigEndianHost: bool)
      ensures Valid() && fresh(bytes_) && View() == Buffer(bytes, 0, |bytes|, 0)
      ensures byte_order_ == order && this.bigEndianHost == bigEndianHost
    {
      byte_order_, this.bigEndianHost := order, bigEndianHost;
      bytes_ := new Byte[|bytes|](i requires 0 <= i < |bytes| => bytes[i]);
      start_, end_, version_ := 0, |bytes|, 0;
    }

    method Resize(size: nat)
      requires Valid()
      modifies this, bytes_
      ensures Valid() && View() == Resized(old(View()), size)
      ensures bytes_ == old(bytes_) || fresh(bytes_)
      // The contents move to the front, cut off at the new size; the store never shrinks, and grows
      // by a half at least.
      ensures start_ == 0 && version_ == old(version_) + 1
      ensures var c := old(bytes_[start_..end_]); bytes_[..end_] == if |c| <= size then c else c[..size]
      ensures if size <= old(bytes_.Length) then bytes_ == old(bytes_)
              else bytes_.Length >= size && bytes_.Length >= 3 * old(bytes_.Length) / 2
                   && (bytes_.Length == size || bytes_.Length == 3 * old(bytes_.Length) / 2)
    {
      var len := if end_ - start_ < size then end_ - start_ else size;
      ghost var kept := bytes_[start_..start_ + len];
      if size <= bytes_.Length {
        MoveDown(len);
      } else {
        var grown := 3 * bytes_.Length / 2;
        var larger := new Byte[if grown < size then size else grown];
        forall i | 0 <= i < len {
          larger[i] := bytes_[i + start_];
        }
        assert larger[..len] == kept;
        bytes_ := larger;
      }
      start_ := 0;
      end_ := len;
      version_ := version_ + 1;
    }

    /** memmove(bytes_, bytes_ + start_, len) */
    method MoveDown(len: nat)
      requires start_ + len <= bytes_.Length
      modifies bytes_
      ensures bytes_[..len] == old(bytes_[start_..start_ + len])
    {
      ghost var kept := bytes_[start_..start_ + len];
      forall i | 0 <= i < len {
        bytes_[i] := bytes_[i + start_];
      }
      assert bytes_[..len] == kept;
    }

    method WriteBytes(data: seq<Byte>)
      requires Valid()
      modifies this, bytes_
      ensures Valid() && View() == Written(old(View()), data)
      ensures bytes_ == old(bytes_) || fresh(bytes_)
      // The data is appended, and nothing moves if there is room behind the contents.
      ensures bytes_[start_..end_] == old(bytes_[start_..end_]) + data
      ensures if old(end_) + |data| <= old(bytes_.Length) then start_ == old(start_) && version_ == old(version_)
              else start_ == 0 && version_ == old(version_) + 1
    {
      var n := end_ - start_ + |data|;
      if n > bytes_.Length - start_ {
        Resize(n);
      }
      Append(data);
    }

    /** memcpy(bytes_ + end_, data, |data|) and end_ += |data|. */
    method Append(data: seq<Byte>)
      requires Valid() && end_ + |data| <= bytes_.Length
      modifies this`end_, bytes_
      ensures Valid() && bytes_[..end_] == old(bytes_[..end_]) + data
    {
      ghost var before := bytes_[..end_];
      forall i | 0 <= i < |data| {
        bytes_[end_ + i] := data[i];
      }
      end_ := end_ + |data|;
      assert bytes_[..end_] == before + data;
    }

    method ReadBytes(len: nat) returns (ok: bool, data: seq<Byte>)
      requires Valid()
      modifies this`start_
      ensures Valid() && View() == Consumed(old(View()), len)
      ensures ok == (len <= |old(View()).Contents()|)
      ensures data == if ok then old(bytes_[start_..end_])[..len] else []
      ensures ok == (len <= old(end_ - start_)) && start_ == old(start_) + if ok then len else 0
    {
      if len > end_ - start_ {
        return false, [];
      }
      data := bytes_[start_..start_ + len];
      start_ := start_ + len;
      ok := true;
    }

    method Consume(size: nat) returns (ok: bool)
      requires Valid()
      modifies this`start_
      ensures Valid() && View() == Consumed(old(View()), size)
      ensures ok == (size <= old(end_ - start_)) && start_ == old(start_) + if ok then size else 0
    {
      if size > end_ - start_ {
        return false;
      }
      start_ := start_ + size;
      ok := true;
    }

    method GetReadPosition() returns (position: ReadPosition)
      requires Valid()
      ensures position == ReadPosition(start_, version_) && Saved(View(), position)
    {
      position := ReadPosition(start_, version_);
    }

    /** Takes any position of the current version.  One that was saved in another buffer may lie
        behind the end of this one. */
    method SetReadPosition(position: ReadPosition) returns (ok: bool)
      requires Valid()
      modifies this`start_
      ensures ok == (position.version == version_) && start_ == if ok then position.start else old(start_)
      ensures Valid() <==> ok ==> position.start <= end_
      ensures old(Saved(View(), position)) ==> Valid() && View() == Rewound(old(View()), position)
    {
      if position.version != version_ {
        return false;
      }
      start_ := position.start;
      ok := true;
    }

    method Clear()
      requires Valid()
      modifies this, bytes_
      ensures Valid() && View() == Cleared(old(View())) && bytes_ == old(bytes_)
      ensures start_ == end_ == 0 && version_ == old(version_) + 1 && forall i :: 0 <= i < bytes_.Length ==> bytes_[i] == 0
    {
      forall i | 0 <= i < bytes_.Length {
        bytes_[i] := 0;
      }
      start_, end_ := 0, 0;
      version_ := version_ + 1;
      assert bytes_[..0] == [];
    }

    /** WriteUInt8, 16, 32 and 64, by the width in bytes. */
    method WriteInteger(v: nat, k: nat)
      requires Valid() && v < Pow256(k)
      modifies this, bytes_
      ensures Valid() && View() == Written(old(View()), WrittenInteger(byte_order_, bigEndianHost, v, k))
      ensures bytes_ == old(bytes_) || fresh(bytes_)
      // In network order the high byte comes first, on every host.
      ensures bytes_[start_..end_] ==
              old(bytes_[start_..end_]) + if byte_order_.ORDER_NETWORK? || bigEndianHost then SetBE(v, k) else SetLE(v, k)
    {
      WriteMeans(byte_order_, bigEndianHost, v, k);
      var variable := if byte_order_.ORDER_NETWORK? then HostToNetwork(bigEndianHost, v, k) else v;
      WriteBytes(HostBytes(bigEndianHost, variable, k));
    }

    method WriteUInt24(v: nat)
      requires Valid()
      modifies this, bytes_
      ensures Valid() && View() == Written(old(View()), Written24(byte_order_, bigEndianHost, v))
      ensures bytes_ == old(bytes_) || fresh(bytes_)
      ensures bytes_[start_..end_] ==
              old(bytes_[start_..end_]) + if byte_order_.ORDER_NETWORK? || bigEndianHost then SetBE(v, 3) else SetLE(v, 3)
    {
      WriteMeans(byte_order_, bigEndianHost, v, 4);
      LowBytesBE(v, 4);
      LowBytesLE(v, 4);
      var variable := if byte_order_.ORDER_NETWORK? then HostToNetwork(bigEndianHost, v, 4) else v;
      var image := HostBytes(bigEndianHost, variable, 4);
      WriteBytes(if byte_order_.ORDER_NETWORK? || bigEndianHost then image[1..] else image[..3]);
    }

    method ReadUInt(k: nat) returns (ok: bool, v: nat)
      requires Valid()
      modifies this`start_
      ensures Valid() && View() == Consumed(old(View()), k) && ok == (k <= |old(View()).Contents()|)
      ensures ok ==> v == ReadInteger(byte_order_, bigEndianHost, old(View()).Contents()[..k])
      ensures ok ==> var s := old(bytes_[start_..end_])[..k];
                     v == if byte_order_.ORDER_NETWORK? || bigEndianHost then GetBE(s) else GetLE(s)
    {
      if k <= end_ - start_ {
        ReadMeans(byte_order_, bigEndianHost, bytes_[start_..end_][..k]);
      }
      var data;
      ok, data := ReadBytes(k);
      v := 0;
      if ok {
        var variable := FromHostBytes(bigEndianHost, data);
        v := if byte_order_.ORDER_NETWORK? then NetworkToHost(bigEndianHost, variable, k) else variable;
      }
    }

    method ReadUInt24() returns (ok: bool, v: nat)
      requires Valid()
      modifies this`start_
      ensures Valid() && View() == Consumed(old(View()), 3) && ok == (3 <= |old(View()).Contents()|)
      ensures ok ==> v == Read24(byte_order_, bigEndianHost, old(View()).Contents()[..3])
      ensures ok ==> var s := old(bytes_[start_..end_])[..3];
                     v == if byte_order_.ORDER_NETWORK? || bigEndianHost then GetBE(s) else GetLE(s)
    {
      if 3 <= end_ - start_ {
        ghost var s := bytes_[start_..end_][..3];
        ReadMeans(byte_order_, bigEndianHost, [0] + s);
        ReadMeans(byte_order_, bigEndianHost, s + [0]);
        LeadingZero(s);
        TrailingZero(s);
      }
      var data;
      ok, data := ReadBytes(3);
      v := 0;
      if ok {
        var image := if byte_order_.ORDER_NETWORK? || bigEndianHost then [0] + data else data + [0];
        var variable := FromHostBytes(bigEndianHost, image);
        v := if byte_order_.ORDER_NETWORK? then NetworkToHost(bigEndianHost, variable, 4) else variable;
      }
    }
  }

  // ----- Mixed integers through the buffer

  /** A number, and its width in bytes. */
  datatype Item = Item(value: nat, width: nat)

  function WriteItems(order: ByteOrder, bigEndianHost: bool, b: Buffer, items: seq<Item>): (r: Buffer)
    requires b.Valid()
    ensures r.Valid()
    decreases |items|
  {
    if items == [] then b
    else WriteItems(order, bigEndianHost, Written(b, WrittenItem(order, bigEndianHost, items[0].value, items[0].width)), items[1..])
  }

  /** The numbers read one after the other, until there is not enough left. */
  function ReadItems(order: ByteOrder, bigEndianHost: bool, b: Buffer, widths: seq<nat>): (r: (Buffer, seq<nat>))
    requires b.Valid()
    ensures r.0.Valid()
    decreases |widths|
  {
    if widths == [] || widths[0] > |b.Contents()| then (b, [])
    else
      var rest := ReadItems(order, bigEndianHost, Consumed(b, widths[0]), widths[1..]);
      (rest.0, [ReadItem(order, bigEndianHost, b.Contents()[..widths[0]])] + rest.1)
  }

  function ItemBytes(order: ByteOrder, bigEndianHost: bool, items: seq<Item>): seq<Byte> {
    if items == [] then []
    else WrittenItem(order, bigEndianHost, items[0].value, items[0].width) + ItemBytes(order, bigEndianHost, items[1..])
  }

  function Widths(items: seq<Item>): (widths: seq<nat>)
    ensures |widths| == |items|
  {
    seq(|items|, i requires 0 <= i < |items| => items[i].width)
  }

  function CutOff(items: seq<Item>): (values: seq<nat>)
    ensures |values| == |items|
  {
    seq(|items|, i requires 0 <= i < |items| => items[i].value % Pow256(items[i].width))
  }

  lemma {:induction false} WriteItemsAppends(order: ByteOrder, bigEndianHost: bool, b: Buffer, items: seq<Item>)
    requires b.Valid()
    ensures WriteItems(order, bigEndianHost, b, items).Contents() == b.Contents() + ItemBytes(order, bigEndianHost, items)
    decreases |items|
  {
    hide WrittenItem, Written;
    if items == [] {
      assert b.Contents() + [] == b.Contents();
    } else {
      var data := WrittenItem(order, bigEndianHost, items[0].value, items[0].width);
      WriteAppends(b, data);
      WriteItemsAppends(order, bigEndianHost, Written(b, data), items[1..]);
      Regroup(b.Contents(), data, ItemBytes(order, bigEndianHost, items[1..]));
    }
  }

  lemma ConsumedMeans(b: Buffer, data: seq<Byte>, rest: seq<Byte>)
    requires b.Valid() && b.Contents() == data + rest
    ensures b.Contents()[..|data|] == data && Consumed(b, |data|).Contents() == rest
  {
  }

  lemma {:induction false} ReadItemsBack(order: ByteOrder, writerBig: bool, readerBig: bool, b: Buffer, items: seq<Item>, tail: seq<Byte>)
    requires order.ORDER_NETWORK? || writerBig == readerBig
    requires b.Valid() && b.Contents() == ItemBytes(order, writerBig, items) + tail
    ensures var r := ReadItems(order, readerBig, b, Widths(items));
            r.1 == CutOff(items) && r.0.Contents() == tail
    decreases |items|
  {
    hide WrittenItem, ReadItem, Consumed;
    if items == [] {
      assert [] + tail == tail;
    } else {
      var data, rest := WrittenItem(order, writerBig, items[0].value, items[0].width), ItemBytes(order, writerBig, items[1..]);
      Regroup(data, rest, tail);
      ConsumedMeans(b, data, rest + tail);
      ItemRoundTrip(order, writerBig, readerBig, items[0].value, items[0].width);
      ReadItemsBack(order, writerBig, readerBig, Consumed(b, |data|), items[1..], tail);
      assert Widths(items)[1..] == Widths(items[1..]);
      assert CutOff(items) == [items[0].value % Pow256(items[0].width)] + CutOff(items[1..]);
    }
  }

  /** Numbers of any widths, written one after the other into an empty buffer, are read back with
      these widths, cut off to them, whatever was relocated on the way; and nothing is left. */
  lemma MixedRoundTrip(order: ByteOrder, bigEndianHost: bool, b: Buffer, items: seq<Item>)
    requires b.Valid() && b.Contents() == []
    ensures var r := ReadItems(order, bigEndianHost, WriteItems(order, bigEndianHost, b, items), Widths(items));
            r.1 == CutOff(items) && r.0.Contents() == []
  {
    hide WriteItems, ReadItems, ItemBytes, CutOff;
    var bytes := ItemBytes(order, bigEndianHost, items);
    WriteItemsAppends(order, bigEndianHost, b, items);
    assert [] + bytes == bytes + [];
    ReadItemsBack(order, bigEndianHost, bigEndianHost, WriteItems(order, bigEndianHost, b, items), items, []);
  }

  lemma WriteAppends(b: Buffer, data: seq<Byte>)
    requires b.Valid()
    ensures Written(b, data).Contents() == b.Contents() + data
  {
  }

  lemma Regroup(a: seq<Byte>, b: seq<Byte>, c: seq<Byte>)
    ensures (a + b) + c == a + (b + c)
  {
  }

  // ----- Runs

  /** `Mark` saves the read position; `Rewind(k)` goes back to the k-th one saved. */
  datatype Op = Write(data: seq<Byte>) | Read(n: nat) | Resize(size: nat) | Clear | Mark | Rewind(k: nat)

  datatype Run = Run(buffer: Buffer, marks: seq<ReadPosition>) {
    ghost predicate Valid() {
      buffer.Valid() && forall p :: p in marks ==> Saved(buffer, p)
    }
  }

  function Step(r: Run, op: Op): (t: Run)
    requires r.Valid()
    ensures t.Valid()
  {
    match op
    case Write(data) => r.(buffer := Written(r.buffer, data))
    case Read(n) => r.(buffer := Consumed(r.buffer, n))
    case Resize(size) => r.(buffer := Resized(r.buffer, size))
    case Clear => r.(buffer := Cleared(r.buffer))
    case Mark => r.(marks := r.marks + [ReadPosition(r.buffer.start, r.buffer.version)])
    case Rewind(k) => if k < |r.marks| then r.(buffer := Rewound(r.buffer, r.marks[k])) else r
  }

  function Exec(r: Run, ops: seq<Op>): (t: Run)
    requires r.Valid()
    ensures t.Valid()
    decreases |ops|
  {
    if ops == [] then r else Exec(Step(r, ops[0]), ops[1..])
  }

  function InputOf(op: Op): seq<Byte> {
    if op.Write? then op.data else []
  }

  function Input(ops: seq<Op>): seq<Byte> {
    if ops == [] then [] else InputOf(ops[0]) + Input(ops[1..])
  }

  /** What a read takes out. */
  function OutputOf(r: Run, op: Op): seq<Byte>
    requires r.Valid()
  {
    var c := r.buffer.Contents();
    if op.Read? && op.n <= |c| then c[..op.n] else []
  }

  function Output(r: Run, ops: seq<Op>): seq<Byte>
    requires r.Valid()
    decreases |ops|
  {
    if ops == [] then [] else OutputOf(r, ops[0]) + Output(Step(r, ops[0]), ops[1..])
  }

  /** Operations of a queue: no going back, no clearing, and no cutting off by Resize. */
  predicate IsQueueOp(r: Run, op: Op)
    requires r.Valid()
  {
    match op
    case Clear => false
    case Rewind(_) => false
    case Resize(size) => size >= |r.buffer.Contents()|
    case _ => true
  }

  predicate Queueing(r: Run, ops: seq<Op>)
    requires r.Valid()
    decreases |ops|
  {
    if ops == [] then true else IsQueueOp(r, ops[0]) && Queueing(Step(r, ops[0]), ops[1..])
  }

  lemma StepBalances(r: Run, op: Op)
    requires r.Valid() && IsQueueOp(r, op)
    ensures r.buffer.Contents() + InputOf(op) == OutputOf(r, op) + Step(r, op).buffer.Contents()
  {
    if op.Write? {
      WriteAppends(r.buffer, op.data);
    }
  }

  /** The buffer is a queue of bytes, through compactions and reallocations: what was there and what
      came in is what went out and what is there. */
  lemma {:induction false} BufferIsQueue(r: Run, ops: seq<Op>)
    requires r.Valid() && Queueing(r, ops)
    ensures r.buffer.Contents() + Input(ops) == Output(r, ops) + Exec(r, ops).buffer.Contents()
    decreases |ops|
  {
    hide Step, IsQueueOp, OutputOf, InputOf;
    var c := r.buffer.Contents();
    if ops == [] {
      assert c + [] == [] + c;
    } else {
      var op, t, rest := ops[0], Step(r, ops[0]), ops[1..];
      StepBalances(r, op);
      BufferIsQueue(t, rest);
      Regroup(c, InputOf(op), Input(rest));
      Regroup(OutputOf(r, op), t.buffer.Contents(), Input(rest));
      Regroup(OutputOf(r, op), Output(t, rest), Exec(t, rest).buffer.Contents());
    }
  }

  /** What invalidates the saved positions. */
  predicate Relocates(r: Run, op: Op)
    requires r.Valid()
  {
    match op
    case Write(data) => |r.buffer.Contents()| + |data| > r.buffer.size - r.buffer.start
    case Resize(_) => true
    case Clear => true
    case _ => false
  }

  lemma StepKeepsStore(r: Run, op: Op)
    requires r.Valid()
    ensures var t := Step(r, op).buffer;
            if Relocates(r, op) then t.version == r.buffer.version + 1
            else t.version == r.buffer.version && t.store == r.buffer.store + InputOf(op)
  {
    assert r.buffer.store + [] == r.buffer.store;
  }

  /** The version only grows; as long as it has not, nothing before the end has moved or changed. */
  lemma {:induction false} SameVersionSameStore(r: Run, ops: seq<Op>)
    requires r.Valid()
    ensures var t := Exec(r, ops);
            && r.buffer.version <= t.buffer.version
            && (t.buffer.version == r.buffer.version ==> t.buffer.store == r.buffer.store + Input(ops))
    decreases |ops|
  {
    hide Step, InputOf, Relocates;
    if ops == [] {
      assert r.buffer.store + [] == r.buffer.store;
    } else {
      StepKeepsStore(r, ops[0]);
      SameVersionSameStore(Step(r, ops[0]), ops[1..]);
      Regroup(r.buffer.store, InputOf(ops[0]), Input(ops[1..]));
    }
  }

  /** A saved position that is still accepted after any operations whatever brings back the contents
      at the time it was saved, followed by everything written since. */
  lemma RewindRestores(r: Run, ops: seq<Op>)
    requires r.Valid()
    ensures var saved, t := ReadPosition(r.buffer.start, r.buffer.version), Exec(r, ops).buffer;
            && Saved(t, saved)
            && (saved.version == t.version ==> Rewound(t, saved).Contents() == r.buffer.Contents() + Input(ops))
  {
    SameVersionSameStore(r, ops);
  }

  predicate NeverRelocates(r: Run, ops: seq<Op>)
    requires r.Valid()
    decreases |ops|
  {
    ops == [] || (!Relocates(r, ops[0]) && NeverRelocates(Step(r, ops[0]), ops[1..]))
  }

  /** And it is accepted exactly if nothing was relocated or cleared in between. */
  lemma {:induction false} AcceptedUnlessRelocated(r: Run, ops: seq<Op>)
    requires r.Valid()
    ensures Exec(r, ops).buffer.version == r.buffer.version <==> NeverRelocates(r, ops)
    decreases |ops|
  {
    hide Step, Relocates;
    if ops != [] {
      StepKeepsStore(r, ops[0]);
      AcceptedUnlessRelocated(Step(r, ops[0]), ops[1..]);
      SameVersionSameStore(Step(r, ops[0]), ops[1..]);
    }
  }
}
