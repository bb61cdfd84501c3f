/**
 Tagged-union messages over a byte stream: sendMessage and recvMessage (libs/rm2fb/Message.h:59-88) on top of
 FD::readAll and FD::writeAll (libs/unistdpp/unistdpp.cpp:7-41).
 */
module Framing {

  newtype Byte = b: int | 0 <= b < 0x100

  datatype Error = EndOfFile | BadMessage | Errno(code: int)

  datatype Result<T> = Ok(value: T) | Err(error: Error)

  function Min(a: nat, b: nat): nat { if a < b then a else b }

  // ----- Wire format

  const INT32_MIN := -0x8000_0000
  const INT32_MAX := 0x7fff_ffff

  predicate IsInt32(v: int) { INT32_MIN <= v <= INT32_MAX }

  /** Two's complement, little-endian. */
  function EncodeInt32(v: int): (s: seq<Byte>)
    requires IsInt32(v)
    ensures |s| == 4
  {
    var u := if v < 0 then v + 0x1_0000_0000 else v;
    [(u % 0x100) as Byte, (u / 0x100 % 0x100) as Byte, (u / 0x1_0000 % 0x100) as Byte, (u / 0x100_0000) as Byte]
  }

  function DecodeInt32(s: seq<Byte>): (v: int)
    requires |s| == 4
    ensures IsInt32(v)
  {
    var u := s[0] as int + 0x100 * s[1] as int + 0x1_0000 * s[2] as int + 0x100_0000 * s[3] as int;
    if u > INT32_MAX then u - 0x1_0000_0000 else u
  }

  lemma Int32RoundTrip(v: int)
    requires IsInt32(v)
    ensures DecodeInt32(EncodeInt32(v)) == v
  {
    var u := if v < 0 then v + 0x1_0000_0000 else v;
    assert u / 0x1_0000 == u / 0x100 / 0x100 && u / 0x100_0000 == u / 0x1_0000 / 0x100;
    Digits(u, u / 0x100, u / 0x1_0000, u / 0x100_0000);
  }

  /** Byte k of an int32, counted from the least significant. */
  lemma LittleEndian(v: int)
    requires IsInt32(v)
    ensures var s := EncodeInt32(v);
            && s[0] as int == v % 0x100 && s[1] as int == v / 0x100 % 0x100
            && s[2] as int == v / 0x1_0000 % 0x100 && s[3] as int == v / 0x100_0000 % 0x100
  {
    Quotients(v);
    var u := if v < 0 then v + 0x1_0000_0000 else v;
    SameLowByte(u / 0x100, v / 0x100, if v < 0 then 0x1_0000 else 0);
    SameLowByte(u / 0x1_0000, v / 0x1_0000, if v < 0 then 0x100 else 0);
    SameLowByte(u / 0x100_0000, v / 0x100_0000, if v < 0 then 1 else 0);
    SameLowByte(u, v, if v < 0 then 0x100_0000 else 0);
  }

  /** Adding 2^32 moves the quotients by a power of two. */
  lemma Quotients(v: int)
    ensures (v + 0x1_0000_0000) / 0x100 == v / 0x100 + 0x100_0000
    ensures (v + 0x1_0000_0000) / 0x1_0000 == v / 0x1_0000 + 0x1_0000
    ensures (v + 0x1_0000_0000) / 0x100_0000 == v / 0x100_0000 + 0x100
  {
  }

  lemma SameLowByte(u: int, v: int, laps: int)
    requires u == v + 0x100 * laps
    ensures u % 0x100 == v % 0x100
  {
  }

  lemma Digits(u: nat, a: nat, b: nat, c: nat)
    requires a == u / 0x100 && b == a / 0x100 && c == b / 0x100
    ensures u == u % 0x100 + 0x100 * (a % 0x100) + 0x1_0000 * (b % 0x100) + 0x100_0000 * c
  {
  }

  /** A value of a variant type: the alternative's index and its object bytes. */
  datatype Message = Message(index: nat, payload: seq<Byte>)

  /** `sizes` are the object sizes of a variant's alternatives; in C++ none is 0 and the count fits an int32. */
  predicate IsVariant(sizes: seq<nat>) {
    |sizes| <= INT32_MAX && forall n | n in sizes :: n > 0
  }

  predicate IsMessage(sizes: seq<nat>, m: Message) {
    m.index < |sizes| && |m.payload| == sizes[m.index]
  }

  function Encode(sizes: seq<nat>, m: Message): seq<Byte>
    requires IsVariant(sizes) && IsMessage(sizes, m)
  {
    EncodeInt32(m.index) + m.payload
  }

  /** What one receive does with the bytes before it; `rest` is what it leaves. */
  datatype Received = Received(result: Result<Message>, rest: seq<Byte>)

  function Decode(sizes: seq<nat>, s: seq<Byte>): (r: Received)
    ensures r.result.Ok? ==> |r.rest| < |s|
  {
    if |s| < 4 then Received(Err(EndOfFile), [])
    else
      var index := DecodeInt32(s[..4]);
      if index < 0 || |sizes| <= index then Received(Err(BadMessage), s[4..])
      else if |s| - 4 < sizes[index] then Received(Err(EndOfFile), [])
      else Received(Ok(Message(index, s[4..4 + sizes[index]])), s[4 + sizes[index]..])
  }

  function EncodeAll(sizes: seq<nat>, ms: seq<Message>): seq<Byte>
    requires IsVariant(sizes) && forall m | m in ms :: IsMessage(sizes, m)
  {
    if ms == [] then [] else Encode(sizes, ms[0]) + EncodeAll(sizes, ms[1..])
  }

  /** Receiving until the first error: the messages got, and that error. */
  function DecodeAll(sizes: seq<nat>, s: seq<Byte>): (seq<Message>, Error)
    decreases |s|
  {
    var r := Decode(sizes, s);
    match r.result
    case Err(e) => ([], e)
    case Ok(m) => var (ms, e) := DecodeAll(sizes, r.rest); ([m] + ms, e)
  }

  // ----- Round trip and truncation

  lemma DecodeEncode(sizes: seq<nat>, m: Message, rest: seq<Byte>)
    requires IsVariant(sizes) && IsMessage(sizes, m)
    ensures Decode(sizes, Encode(sizes, m) + rest) == Received(Ok(m), rest)
  {
    var s := Encode(sizes, m) + rest;
    Int32RoundTrip(m.index);
    assert s[..4] == EncodeInt32(m.index);
    assert s[4..4 + |m.payload|] == m.payload && s[4 + |m.payload|..] == rest;
  }

  lemma DecodeCut(sizes: seq<nat>, m: Message, n: nat)
    requires IsVariant(sizes) && IsMessage(sizes, m) && n < |Encode(sizes, m)|
    ensures Decode(sizes, Encode(sizes, m)[..n]) == Received(Err(EndOfFile), [])
  {
    var s := Encode(sizes, m)[..n];
    if n >= 4 {
      Int32RoundTrip(m.index);
      assert s[..4] == EncodeInt32(m.index);
    }
  }

  /** How many messages lie completely within the first `n` bytes. */
  function Complete(sizes: seq<nat>, ms: seq<Message>, n: nat): (k: nat)
    requires IsVariant(sizes) && forall m | m in ms :: IsMessage(sizes, m)
    ensures k <= |ms|
  {
    if ms == [] || n < |Encode(sizes, ms[0])| then 0
    else 1 + Complete(sizes, ms[1..], n - |Encode(sizes, ms[0])|)
  }

  /** The count is the largest prefix that fits. */
  lemma {:induction false} CompleteIsLongestPrefix(sizes: seq<nat>, ms: seq<Message>, n: nat, j: nat)
    requires IsVariant(sizes) && (forall m | m in ms :: IsMessage(sizes, m)) && j <= |ms|
    ensures |EncodeAll(sizes, ms[..j])| <= n <==> j <= Complete(sizes, ms, n)
  {
    if j > 0 {
      hide Encode;
      assert ms[..j][1..] == ms[1..][..j - 1];
      if n >= |Encode(sizes, ms[0])| {
        CompleteIsLongestPrefix(sizes, ms[1..], n - |Encode(sizes, ms[0])|, j - 1);
      }
    }
  }

  /**
   A stream cut after `n` bytes yields exactly the messages that are complete within them, then end of file: never a
   wrong message and never another error.
   */
  lemma {:induction false} CutStream(sizes: seq<nat>, ms: seq<Message>, n: nat)
    requires IsVariant(sizes) && (forall m | m in ms :: IsMessage(sizes, m)) && n <= |EncodeAll(sizes, ms)|
    ensures DecodeAll(sizes, EncodeAll(sizes, ms)[..n]) == (ms[..Complete(sizes, ms, n)], EndOfFile)
  {
    hide Encode, DecodeAll, IsMessage, IsVariant;
    if ms == [] {
      DecodeNothing(sizes);
    } else {
      var first, later := Encode(sizes, ms[0]), EncodeAll(sizes, ms[1..]);
      if n < |first| {
        DecodeFirstCut(sizes, ms[0], n);
        assert (first + later)[..n] == first[..n];
      } else {
        CutStream(sizes, ms[1..], n - |first|);
        DecodeFirst(sizes, ms[0], later[..n - |first|]);
        Prefix(first, later, n);
        FirstMessages(ms, Complete(sizes, ms[1..], n - |first|));
      }
    }
  }

  lemma DecodeNothing(sizes: seq<nat>)
    ensures DecodeAll(sizes, []) == ([], EndOfFile)
  {
    assert Decode(sizes, []) == Received(Err(EndOfFile), []);
  }

  /** A stream that ends inside its first message. */
  lemma DecodeFirstCut(sizes: seq<nat>, m: Message, n: nat)
    requires IsVariant(sizes) && IsMessage(sizes, m) && n < |Encode(sizes, m)|
    ensures DecodeAll(sizes, Encode(sizes, m)[..n]) == ([], EndOfFile)
  {
    DecodeCut(sizes, m, n);
    hide Encode, Decode;
  }

  /** Receiving a message and then the rest. */
  lemma DecodeFirst(sizes: seq<nat>, m: Message, rest: seq<Byte>)
    requires IsVariant(sizes) && IsMessage(sizes, m)
    ensures DecodeAll(sizes, Encode(sizes, m) + rest) == ([m] + DecodeAll(sizes, rest).0, DecodeAll(sizes, rest).1)
  {
    DecodeEncode(sizes, m, rest);
    hide Encode, Decode;
  }

  lemma Prefix(first: seq<Byte>, later: seq<Byte>, n: nat)
    requires |first| <= n <= |first| + |later|
    ensures (first + later)[..n] == first + later[..n - |first|]
  {
  }

  lemma FirstMessages(ms: seq<Message>, j: nat)
    requires j < |ms|
    ensures ms[..1 + j] == [ms[0]] + ms[1..][..j]
  {
  }

  /** Every list of messages is received back unchanged and in order. */
  lemma {:induction false} RoundTrip(sizes: seq<nat>, ms: seq<Message>)
    requires IsVariant(sizes) && forall m | m in ms :: IsMessage(sizes, m)
    ensures DecodeAll(sizes, EncodeAll(sizes, ms)) == (ms, EndOfFile)
  {
    hide Encode, DecodeAll, IsMessage, IsVariant;
    if ms == [] {
      DecodeNothing(sizes);
    } else {
      DecodeFirst(sizes, ms[0], EncodeAll(sizes, ms[1..]));
      RoundTrip(sizes, ms[1..]);
      assert ms == [ms[0]] + ms[1..];
    }
  }

  // ----- The client's messages

  const INPUT_SIZE := 16
  const CLIENT_SIZES: seq<nat> := [INPUT_SIZE, 1, 1]  // an empty struct still takes one byte

  /** ClientMsg (Message.h:42-57); `action` is the raw value of the enumeration. */
  datatype ClientMessage =
    | Input(x: int, y: int, action: int, touch: bool)
    | GetUpdate
    | PowerButton(down: bool)

  predicate IsClientMessage(c: ClientMessage) {
    c.Input? ==> IsInt32(c.x) && IsInt32(c.y) && IsInt32(c.action)
  }

  function EncodeBool(b: bool): Byte { if b then 1 else 0 }

  /** Object bytes; `pad` stands for the bytes that the language leaves unspecified. */
  function Pack(c: ClientMessage, pad: seq<Byte>): (m: Message)
    requires IsClientMessage(c) && |pad| == 3
    ensures IsMessage(CLIENT_SIZES, m)
  {
    match c
    case Input(x, y, action, touch) =>
      Message(0, EncodeInt32(x) + EncodeInt32(y) + EncodeInt32(action) + [EncodeBool(touch)] + pad)
    case GetUpdate => Message(1, [pad[0]])
    case PowerButton(down) => Message(2, [EncodeBool(down)])
  }

  function Unpack(m: Message): ClientMessage
    requires IsMessage(CLIENT_SIZES, m)
  {
    if m.index == 0 then
      Input(DecodeInt32(m.payload[..4]), DecodeInt32(m.payload[4..8]), DecodeInt32(m.payload[8..12]), m.payload[12] != 0)
    else if m.index == 1 then GetUpdate
    else PowerButton(m.payload[0] != 0)
  }

  /** Fields survive the trip whatever the padding is. */
  lemma UnpackPack(c: ClientMessage, pad: seq<Byte>)
    requires IsClientMessage(c) && |pad| == 3
    ensures Unpack(Pack(c, pad)) == c
  {
    if c.Input? {
      hide EncodeInt32, DecodeInt32;
      var p := Pack(c, pad).payload;
      assert p[..4] == EncodeInt32(c.x) && p[4..8] == EncodeInt32(c.y) && p[8..12] == EncodeInt32(c.action);
      Int32RoundTrip(c.x);
      Int32RoundTrip(c.y);
      Int32RoundTrip(c.action);
    }
  }

  /** The bytes of the three messages on the wire: index, fields in order, padding. */
  lemma OnTheWire(x: Byte, y: Byte, action: Byte, touch: bool, pad: seq<Byte>)
    requires |pad| == 3
    ensures IsVariant(CLIENT_SIZES)
    ensures Encode(CLIENT_SIZES, Pack(Input(x as int, y as int, action as int, touch), pad))
         == [0, 0, 0, 0, x, 0, 0, 0, y, 0, 0, 0, action, 0, 0, 0, if touch then 1 else 0] + pad
    ensures Encode(CLIENT_SIZES, Pack(GetUpdate, pad)) == [1, 0, 0, 0, pad[0]]
    ensures Encode(CLIENT_SIZES, Pack(PowerButton(touch), pad)) == [2, 0, 0, 0, if touch then 1 else 0]
  {
    SmallInt(x);
    SmallInt(y);
    SmallInt(action);
    SmallInt(1);
    SmallInt(2);
    SmallInt(0);
    hide EncodeInt32;
  }

  lemma SmallInt(b: Byte)
    ensures EncodeInt32(b as int) == [b, 0, 0, 0]
  {
  }

  // ----- The stream, with short transfers and failures

  /**
   A file descriptor with the bytes still to be read (or already written) and a plan for the system calls: a positive
   entry limits the next transfer to that many bytes, a negative one makes it fail with that error number.
   */
  /** The calls made had the entries that are gone from the plan; none of them failed. */
  ghost predicate Passed(before: seq<int>, after: seq<int>) {
    && |after| <= |before| && after == before[|before| - |after|..]
    && forall k | 0 <= k < |before| - |after| :: before[k] >= 0
  }

  /** The last of them failed with that error number, and no other. */
  ghost predicate FailedWith(before: seq<int>, after: seq<int>, code: int) {
    && |after| < |before| && after == before[|before| - |after|..]
    && before[|before| - |after| - 1] == -code < 0
    && forall k | 0 <= k < |before| - |after| - 1 :: before[k] >= 0
  }

  /** An error number is that of the one call that failed. */
  ghost predicate Calls<T>(before: seq<int>, after: seq<int>, r: Result<T>) {
    if r.Err? && r.error.Errno? then FailedWith(before, after, r.error.code) else Passed(before, after)
  }

  lemma CallsAfter<T>(before: seq<int>, mid: seq<int>, after: seq<int>, r: Result<T>)
    requires Passed(before, mid) && Calls(mid, after, r)
    ensures Calls(before, after, r)
  {
  }

  lemma NoCalls(plan: seq<int>)
    ensures Passed(plan, plan)
  {
  }

  class Descriptor {
    var data: seq<Byte>
    var plan: seq<int>

    /** No planned call fails. */
    ghost predicate Reliable()
      reads this
    {
      forall k | 0 <= k < |plan| :: plan[k] >= 0
    }

    constructor (data: seq<Byte>, plan: seq<int>)
      ensures this.data == data && this.plan == plan
    {
      this.data, this.plan := data, plan;
    }

    /** The limit for the next system call: at least one byte, at most `n`; or -1 and an error number. */
    method NextLimit(n: nat) returns (limit: int, errno: int)
      requires n > 0
      modifies this`plan
      ensures limit == -1 || 1 <= limit <= n
      ensures old(Reliable()) ==> limit != -1 && Reliable()
      ensures if limit == -1 then FailedWith(old(plan), plan, errno) else Passed(old(plan), plan)
    {
      errno := 0;
      if plan == [] { return n, 0; }
      ghost var before := plan;
      var e := plan[0];
      plan := plan[1..];
      assert forall k | 0 <= k < |plan| :: plan[k] == before[k + 1];
      if e < 0 { return -1, -e; }
      limit := if e == 0 then 1 else Min(e, n);
    }

    /** The system call read: up to `n` bytes into `buf` at `at`, 0 at the end of the stream, -1 on error. */
    method Read(buf: array<Byte>, at: nat, n: nat) returns (res: int, errno: int)
      requires n > 0 && at + n <= buf.Length
      modifies this, buf
      ensures old(Reliable()) ==> res != -1 && Reliable()
      ensures if res == -1 then FailedWith(old(plan), plan, errno) else Passed(old(plan), plan)
      ensures res == -1 ==> data == old(data) && buf[..] == old(buf[..])
      ensures res != -1 ==> 0 <= res <= n && res <= |old(data)| && (res == 0 ==> old(data) == [])
      ensures res != -1 ==> data == old(data)[res..]
      ensures res != -1 ==> buf[..] == old(buf[..at]) + old(data)[..res] + old(buf[at + res..])
    {
      var limit;
      limit, errno := NextLimit(n);
      if limit == -1 { return -1, errno; }
      var k := Min(limit, |data|);
      ghost var before := buf[..];
      forall i | 0 <= i < k { buf[at + i] := data[i]; }
      assert buf[..] == before[..at] + data[..k] + before[at + k..];
      data := data[k..];
      res := k;
    }

    /** The system call write: appends at least one byte, or fails. */
    method Write(bytes: seq<Byte>) returns (res: int, errno: int)
      requires bytes != []
      modifies this
      ensures old(Reliable()) ==> res != -1 && Reliable()
      ensures if res == -1 then FailedWith(old(plan), plan, errno) else Passed(old(plan), plan)
      ensures res == -1 ==> data == old(data)
      ensures res != -1 ==> 1 <= res <= |bytes| && data == old(data) + bytes[..res]
    {
      var limit;
      limit, errno := NextLimit(|bytes|);
      if limit == -1 { return -1, errno; }
      data := data + bytes[..limit];
      res := limit;
    }

    /** A buffer that held `before`, after the first `read` bytes of the stream. */
    static function Filled(stream: seq<Byte>, before: seq<Byte>, read: nat): seq<Byte>
      requires read <= |stream| && read <= |before|
    {
      stream[..read] + before[read..]
    }

    static lemma Append(stream: seq<Byte>, before: seq<Byte>, read: nat, res: nat)
      requires read + res <= |stream| && read + res <= |before|
      ensures stream[read..][..res] == stream[read..read + res]
      ensures stream[read..][res..] == stream[read + res..]
      ensures var buf := Filled(stream, before, read);
              && |buf| == |before|
              && buf[..read] + stream[read..read + res] + buf[read + res..] == Filled(stream, before, read + res)
    {
    }

    static lemma NothingRead(stream: seq<Byte>, before: seq<Byte>)
      ensures Filled(stream, before, 0) == before && stream[0..] == stream
    {
    }

    /** FD::readAll: reads on until `size` bytes or the end of the stream. */
    method ReadAll(buf: array<Byte>, size: nat) returns (r: Result<nat>)
      requires size <= buf.Length
      modifies this, buf
      ensures old(Reliable()) ==> r.Ok? && Reliable()
      ensures r.Ok? ==> r.value == Min(size, |old(data)|) && data == old(data)[r.value..]
      ensures r.Ok? ==> buf[..] == Filled(old(data), old(buf[..]), r.value)
      ensures r.Err? ==> r.error.Errno? && exists k | 0 <= k < size && k <= |old(data)| :: data == old(data)[k..]
      ensures Calls(old(plan), plan, r)
    {
      hide Reliable, Filled, Passed, FailedWith;
      NoCalls(plan);
      var read := 0;
      ghost var stream, before := data, buf[..];
      NothingRead(stream, before);
      while read < size
        invariant read <= size && read <= |stream| && data == stream[read..]
        invariant buf[..] == Filled(stream, before, read)
        invariant (old(Reliable()) ==> Reliable()) && Passed(old(plan), plan)
        decreases size - read
      {
        ghost var mid := plan;
        var res, errno := Read(buf, read, size - read);
        CallsAfter<nat>(old(plan), mid, plan, if res == -1 then Err(Errno(errno)) else Ok(0));
        if res == -1 { return Err(Errno(errno)); }
        if res == 0 { break; }
        Append(stream, before, read, res);
        read := read + res;
      }
      return Ok(read);
    }

    /** FD::writeAll: writes on until everything is written. */
    method WriteAll(bytes: seq<Byte>) returns (r: Result<()>)
      modifies this
      ensures old(Reliable()) ==> r.Ok? && Reliable()
      ensures r.Ok? ==> data == old(data) + bytes
      ensures r.Err? ==> r.error.Errno? && exists k | 0 <= k < |bytes| :: data == old(data) + bytes[..k]
      ensures Calls(old(plan), plan, r)
    {
      hide Reliable, Passed, FailedWith;
      NoCalls(plan);
      var written := 0;
      ghost var before := data;
      while written < |bytes|
        invariant written <= |bytes| && data == before + bytes[..written]
        invariant (old(Reliable()) ==> Reliable()) && Passed(old(plan), plan)
        decreases |bytes| - written
      {
        ghost var mid := plan;
        var res, errno := Write(bytes[written..]);
        CallsAfter<()>(old(plan), mid, plan, if res == -1 then Err(Errno(errno)) else Ok(()));
        if res == -1 { return Err(Errno(errno)); }
        assert bytes[..written] + bytes[written..][..res] == bytes[..written + res];
        written := written + res;
      }
      assert bytes[..written] == bytes;
      return Ok(());
    }

    /** The typed read: anything shorter than the object is an end of file. */
    method ReadObject(size: nat) returns (r: Result<seq<Byte>>)
      modifies this
      ensures old(Reliable()) ==> Reliable() && !(r.Err? && r.error.Errno?)
      ensures r.Ok? ==> size <= |old(data)| && r.value == old(data)[..size] && data == old(data)[size..]
      ensures r.Err? && !r.error.Errno? ==> r.error == EndOfFile && |old(data)| < size && data == []
      ensures Calls(old(plan), plan, r)
    {
      var buf := new Byte[size](_ => 0);
      var n := ReadAll(buf, size);
      if n.Err? { return Err(n.error); }
      if n.value != size { return Err(EndOfFile); }
      return Ok(buf[..]);
    }
  }

  method SendMessage(fd: Descriptor, sizes: seq<nat>, m: Message) returns (r: Result<()>)
    requires IsVariant(sizes) && IsMessage(sizes, m)
    modifies fd
    ensures old(fd.Reliable()) ==> r.Ok? && fd.Reliable()
    ensures r.Ok? ==> fd.data == old(fd.data) + Encode(sizes, m)
    ensures Calls(old(fd.plan), fd.plan, r)
  {
    hide Passed, FailedWith;
    r := fd.WriteAll(EncodeInt32(m.index));
    if r.Err? { return; }
    ghost var mid := fd.plan;
    r := fd.WriteAll(m.payload);
    CallsAfter(old(fd.plan), mid, fd.plan, r);
  }

  /** details::read: tries the alternatives in order. */
  method ReadAlternative(fd: Descriptor, sizes: seq<nat>, index: int, idx: nat) returns (r: Result<Message>)
    requires IsVariant(sizes) && idx <= |sizes| && (index < 0 || idx <= index)
    modifies fd
    decreases |sizes| - idx
    ensures old(fd.Reliable()) ==> fd.Reliable() && !(r.Err? && r.error.Errno?)
    ensures !(r.Err? && r.error.Errno?) ==>
              if index < 0 || |sizes| <= index then r == Err(BadMessage) && fd.data == old(fd.data)
              else if |old(fd.data)| < sizes[index] then r == Err(EndOfFile) && fd.data == []
              else r == Ok(Message(index, old(fd.data)[..sizes[index]])) && fd.data == old(fd.data)[sizes[index]..]
    ensures Calls(old(fd.plan), fd.plan, r)
  {
    hide Passed, FailedWith;
    NoCalls(fd.plan);
    if idx >= |sizes| { return Err(BadMessage); }
    if idx == index {
      var payload := fd.ReadObject(sizes[idx]);
      return if payload.Ok? then Ok(Message(idx, payload.value)) else Err(payload.error);
    }
    r := ReadAlternative(fd, sizes, index, idx + 1);
  }

  /** However the transfers are split, a receive that does not fail does what Decode says. */
  method RecvMessage(fd: Descriptor, sizes: seq<nat>) returns (r: Result<Message>)
    requires IsVariant(sizes)
    modifies fd
    ensures old(fd.Reliable()) ==> fd.Reliable() && !(r.Err? && r.error.Errno?)
    ensures !(r.Err? && r.error.Errno?) ==> Received(r, fd.data) == Decode(sizes, old(fd.data))
    ensures Calls(old(fd.plan), fd.plan, r)
  {
    hide Passed, FailedWith;
    var idx := fd.ReadObject(4);
    ghost var mid := fd.plan;
    if idx.Err? { return Err(idx.error); }
    ghost var stream, rest := old(fd.data), fd.data;
    var index := DecodeInt32(idx.value);
    hide DecodeInt32;
    r := ReadAlternative(fd, sizes, index, 0);
    CallsAfter(old(fd.plan), mid, fd.plan, r);
    if 0 <= index < |sizes| && 4 + sizes[index] <= |stream| { Suffix(stream, rest, sizes[index]); }
  }

  /** The payload and what follows it, before and after the index is taken off. */
  lemma Suffix(stream: seq<Byte>, rest: seq<Byte>, n: nat)
    requires 4 + n <= |stream| && rest == stream[4..]
    ensures rest[..n] == stream[4..4 + n] && rest[n..] == stream[4 + n..]
  {
  }

  method SendMessages(fd: Descriptor, sizes: seq<nat>, ms: seq<Message>) returns (r: Result<()>)
    requires IsVariant(sizes) && forall m | m in ms :: IsMessage(sizes, m)
    modifies fd
    ensures old(fd.Reliable()) ==> r.Ok? && fd.Reliable()
    ensures r.Ok? ==> fd.data == old(fd.data) + EncodeAll(sizes, ms)
    ensures Calls(old(fd.plan), fd.plan, r)
  {
    hide Passed, FailedWith;
    NoCalls(fd.plan);
    ghost var before := fd.data;
    r := Ok(());
    var i := 0;
    while i < |ms|
      invariant i <= |ms| && r.Ok?
      invariant (old(fd.Reliable()) ==> fd.Reliable()) && Passed(old(fd.plan), fd.plan)
      invariant fd.data + EncodeAll(sizes, ms[i..]) == before + EncodeAll(sizes, ms)
    {
      assert ms[i..][1..] == ms[i + 1..];
      ghost var sent, mid := fd.data, fd.plan;
      r := SendMessage(fd, sizes, ms[i]);
      CallsAfter(old(fd.plan), mid, fd.plan, r);
      if r.Err? { return; }
      assert sent + EncodeAll(sizes, ms[i..]) == fd.data + EncodeAll(sizes, ms[i + 1..]);
      i := i + 1;
    }
    assert fd.data + [] == fd.data;
  }

  /**
   Receives until an error. Without failing calls the outcome depends on the bytes alone; a failing call ends it early,
   with the messages received before.
   */
  method RecvMessages(fd: Descriptor, sizes: seq<nat>) returns (ms: seq<Message>, e: Error)
    requires IsVariant(sizes)
    modifies fd
    ensures if e.Errno? then ms <= DecodeAll(sizes, old(fd.data)).0 else (ms, e) == DecodeAll(sizes, old(fd.data))
    ensures old(fd.Reliable()) ==> !e.Errno?
    ensures Calls<seq<Message>>(old(fd.plan), fd.plan, Err(e))
  {
    hide Decode, Passed, FailedWith;
    NoCalls(fd.plan);
    ghost var all := DecodeAll(sizes, fd.data);
    ms := [];
    while true
      invariant (old(fd.Reliable()) ==> fd.Reliable()) && Passed(old(fd.plan), fd.plan)
      invariant var rest := DecodeAll(sizes, fd.data); all.0 == ms + rest.0 && all.1 == rest.1
      decreases |fd.data|
    {
      ghost var before, mid := fd.data, fd.plan;
      DecodeShrinks(sizes, before);
      var r := RecvMessage(fd, sizes);
      CallsAfter(old(fd.plan), mid, fd.plan, r);
      if r.Err? {
        assert ms + [] == ms;
        return ms, r.error;
      }
      ms := ms + [r.value];
    }
  }

  lemma DecodeShrinks(sizes: seq<nat>, s: seq<Byte>)
    ensures Decode(sizes, s).result.Ok? ==> |Decode(sizes, s).rest| < |s|
  {
  }

  /** The client's end to end: what is sent over any split of reads and writes is what is received. */
  method Transfer(fd: Descriptor, sizes: seq<nat>, ms: seq<Message>) returns (got: seq<Message>, e: Error)
    requires IsVariant(sizes) && (forall m | m in ms :: IsMessage(sizes, m)) && fd.Reliable() && fd.data == []
    modifies fd
    ensures got == ms && e == EndOfFile
  {
    var r := SendMessages(fd, sizes, ms);
    RoundTrip(sizes, ms);
    assert fd.data == EncodeAll(sizes, ms);
    got, e := RecvMessages(fd, sizes);
  }

  lemma ClientVariant()
    ensures IsVariant(CLIENT_SIZES)
  {
  }

  ghost predicate Padded(cs: seq<ClientMessage>, pads: seq<seq<Byte>>) {
    |pads| == |cs| && forall i | 0 <= i < |cs| :: IsClientMessage(cs[i]) && |pads[i]| == 3
  }

  /** Any list of client messages, whatever their padding, arrives and is read back unchanged. */
  method TransferClient(fd: Descriptor, cs: seq<ClientMessage>, pads: seq<seq<Byte>>)
    returns (got: seq<ClientMessage>, e: Error)
    requires Padded(cs, pads) && fd.Reliable() && fd.data == []
    modifies fd
    ensures got == cs && e == EndOfFile
  {
    hide Pack, Unpack;
    ClientVariant();
    var sent := seq(|cs|, i requires 0 <= i < |cs| && Padded(cs, pads) => Pack(cs[i], pads[i]));
    var ms;
    ms, e := Transfer(fd, CLIENT_SIZES, sent);
    forall i | 0 <= i < |cs| ensures Unpack(ms[i]) == cs[i] { UnpackPack(cs[i], pads[i]); }
    got := seq(|ms|, i requires 0 <= i < |ms| && IsMessage(CLIENT_SIZES, ms[i]) => Unpack(ms[i]));
  }
}
