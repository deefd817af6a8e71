/** Messages on the wire (global/ipcmsg.cpp, global/ipcclient.cpp): a header of size and type, then the data,
    written and read in whatever pieces the sockets allow. */
module Framing {
  import opened Common

  type Byte = x: int | 0 <= x < 256

  const HEADER := 8
  const TWO32 := 0x1_0000_0000
  const TWO31 := 0x8000_0000

  /** A 32-bit integer as it lies in memory, low byte first. */
  function Bytes32(x: int): (b: seq<Byte>)
    requires IsInt32(x)
    ensures |b| == 4
  {
    var u := if x < 0 then x + TWO32 else x;
    [u % 256, u / 0x100 % 256, u / 0x1_0000 % 256, u / 0x100_0000]
  }

  function Int32(b: seq<Byte>): (x: int)
    requires |b| == 4
    ensures IsInt32(x)
  {
    var u := b[0] as int + 0x100 * b[1] as int + 0x1_0000 * b[2] as int + 0x100_0000 * b[3] as int;
    if u >= TWO31 then u - TWO32 else u
  }

  lemma Int32Bytes32(x: int)
    requires IsInt32(x)
    ensures Int32(Bytes32(x)) == x
  {
    var u := if x < 0 then x + TWO32 else x;
    var (v, w, z) := (u / 0x100, u / 0x1_0000, u / 0x100_0000);
    assert u == 0x100 * v + u % 0x100 && v == 0x100 * w + v % 0x100 && w == 0x100 * z + w % 0x100;
    assert 0 <= z < 0x100;
  }

  // ---- sizes

  /** The size of the copy that is sent: a multiple of 4 with at least 4 bytes to spare, but 0 for nothing. */
  /** The lowest byte comes first, in two's complement. */
  lemma LowestFirst(x: int)
    requires IsInt32(x)
    ensures var b := Bytes32(x);
            b[0] as int + 0x100 * b[1] as int + 0x1_0000 * b[2] as int + 0x100_0000 * b[3] as int
            == if x < 0 then x + 0x1_0000_0000 else x
  {
    Int32Bytes32(x);
    hide Bytes32;
  }

  function PaddedSize(n: nat): nat {
    if n == 0 then 0 else (n + 7) / 4 * 4
  }

  /** The length of the data that follows a header, or none if the reader refuses the size. A reader that takes
      at most 127 bytes also accepts a size whose bytes are the other way round. */
  function BodySize(size: int, maxMsgSize: int): int {
    if 0 <= size <= maxMsgSize then size
    else if maxMsgSize != 127 || size < 0 || size % 0x100_0000 != 0 then -3
    else size / 0x100_0000
  }

  /** What the reader reports is the length rounded up to a multiple of 4; but -4 for an empty message. */
  lemma ReportedSize(n: nat)
    ensures n > 0 ==> PaddedSize(n) - 4 == (n + 3) / 4 * 4 && n <= PaddedSize(n) - 4 < n + 4 && PaddedSize(n) % 4 == 0
    ensures n == 0 ==> PaddedSize(n) - 4 == -4
  {
  }

  /** A reader takes a body as long as the header says, if that is within its limit; one with a limit of 127 also one
      whose size has its bytes in the other order; and none else. */
  lemma BodyIsExact(size: int, maxMsgSize: int)
    requires IsInt32(size)
    ensures BodySize(size, maxMsgSize) >= 0 ==> BodySize(size, maxMsgSize) <= maxMsgSize
    ensures BodySize(size, maxMsgSize) >= 0 && BodySize(size, maxMsgSize) != size ==>
              maxMsgSize == 127 && size == BodySize(size, maxMsgSize) * 0x100_0000
    ensures 0 <= size <= maxMsgSize ==> BodySize(size, maxMsgSize) == size
    ensures BodySize(size, maxMsgSize) >= 0 <==>
            0 <= size && (size <= maxMsgSize || (maxMsgSize == 127 && size % 0x100_0000 == 0))
  {
  }

  // ---- what is on the wire

  /** A message as the sender keeps it: the padded copy of the data. */
  datatype Message = Message(kind: int, data: seq<Byte>)

  predicate Sendable(m: Message) {
    IsInt32(m.kind) && |m.data| < TWO31
  }

  function HeaderBytes(size: int, kind: int): (b: seq<Byte>)
    requires IsInt32(size) && IsInt32(kind)
    ensures |b| == HEADER
  {
    Bytes32(size) + Bytes32(kind)
  }

  function Image(m: Message): seq<Byte>
    requires Sendable(m)
  {
    HeaderBytes(|m.data|, m.kind) + m.data
  }

  /** Size, type, data. */
  lemma ImageSample()
    ensures Image(Message(0x102, [7, 8, 9])) == [3, 0, 0, 0, 2, 1, 0, 0, 7, 8, 9]
    ensures Image(Message(-2, [])) == [0, 0, 0, 0, 0xfe, 0xff, 0xff, 0xff]
  {
  }

  function Images(ms: seq<Message>): seq<Byte>
    requires forall m <- ms :: Sendable(m)
  {
    if ms == [] then [] else Images(ms[..|ms| - 1]) + Image(ms[|ms| - 1])
  }

  /** The reader has all of a message. */
  predicate Complete(got: seq<Byte>, maxMsgSize: int) {
    |got| >= HEADER && BodySize(Int32(got[..4]), maxMsgSize) >= 0
    && |got| == HEADER + BodySize(Int32(got[..4]), maxMsgSize)
  }

  /** What a complete message is read as. */
  function Parsed(got: seq<Byte>): Message
    requires |got| >= HEADER
  {
    Message(Int32(got[4..HEADER]), got[HEADER..])
  }

  /** Of a stream that starts with an image, the reader takes exactly that image, and reads the message. */
  lemma ImageIsTaken(m: Message, stream: seq<Byte>, got: seq<Byte>, maxMsgSize: int)
    requires Sendable(m) && |m.data| <= maxMsgSize && Image(m) <= stream && got <= stream && |got| >= HEADER
    ensures Complete(got, maxMsgSize) <==> got == Image(m)
    ensures got == Image(m) ==> Parsed(got) == m
    ensures BodySize(Int32(got[..4]), maxMsgSize) == |m.data|
  {
    Int32Bytes32(|m.data|);
    Int32Bytes32(m.kind);
    var h := HeaderBytes(|m.data|, m.kind);
    assert got[..HEADER] == stream[..HEADER] == h;
    assert got[..4] == h[..4] == Bytes32(|m.data|);
    assert got[4..HEADER] == h[4..] == Bytes32(m.kind);
    if |got| == |Image(m)| {
      assert got == stream[..|got|] == Image(m);
    }
  }

  // ---- sockets and messages

  /** What a system call answers: so many bytes, or that it is to be called again (EAGAIN, EINTR), or that it
      is over. */
  datatype Answer = Moved(n: nat) | Again | Failed

  /** One direction of a connection. How much a call moves, and whether it fails, is up to the system; what it answered
      so far is remembered. */
  class Socket {
    var wire: seq<Byte>
    var taken: nat
    ghost var answers: seq<Answer>

    constructor ()
      ensures wire == [] && taken == 0 && answers == []
    {
      wire, taken, answers := [], 0, [];
    }

    /** The last answer. */
    ghost function Last(): Answer
      reads this`answers
    {
      if answers == [] then Failed else answers[|answers| - 1]
    }

    /** `again` is an `errno` of EAGAIN or EINTR. */
    method Write(buf: seq<Byte>) returns (result: int, again: bool)
      modifies this`wire, this`answers
      ensures -1 <= result <= |buf| && wire == old(wire) + (if result < 0 then [] else buf[..result])
      ensures answers == old(answers) + [if result >= 0 then Moved(result) else if again then Again else Failed]
    {
      result, again := *, *;
      if !(-1 <= result <= |buf|) {
        result := -1;
      }
      if result > 0 {
        wire := wire + buf[..result];
      }
      answers := answers + [if result >= 0 then Moved(result) else if again then Again else Failed];
    }

    method Read(n: nat) returns (result: int, again: bool, bytes: seq<Byte>)
      requires taken <= |wire|
      modifies this`taken, this`answers
      ensures -1 <= result <= n && taken <= |wire|
      ensures answers == old(answers) + [if result > 0 then Moved(result) else if again then Again else Failed]
      ensures if result > 0 then |bytes| == result && taken == old(taken) + result && bytes == wire[old(taken)..taken]
              else taken == old(taken)
    {
      result, again, bytes := *, *, [];
      if !(-1 <= result <= n && taken + result <= |wire|) {
        result := -1;
      }
      if result > 0 {
        bytes := wire[taken..taken + result];
        taken := taken + result;
      }
      answers := answers + [if result > 0 then Moved(result) else if again then Again else Failed];
    }
  }

  lemma HeaderPiece(m: Message, i: nat, n: nat)
    requires Sendable(m) && i + n <= HEADER
    ensures |Image(m)| >= HEADER && HeaderBytes(|m.data|, m.kind)[i..i + n] == Image(m)[i..i + n]
  {
  }

  lemma DataPiece(m: Message, i: nat, n: nat)
    requires Sendable(m) && i + n <= |m.data|
    ensures |Image(m)| == HEADER + |m.data| && m.data[i..i + n] == Image(m)[HEADER + i..HEADER + i + n]
  {
  }

  lemma Glued(image: seq<Byte>, a: nat, b: nat, c: nat)
    requires a <= b <= c <= |image|
    ensures image[a..b] + image[b..c] == image[a..c]
  {
  }

  lemma ImageLength(m: Message)
    requires Sendable(m)
    ensures |Image(m)| == HEADER + |m.data|
  {
  }

  /** Writing the start of a piece of `image` extends what has been written of it. */
  lemma Extended(image: seq<Byte>, from: nat, p: nat, piece: seq<Byte>, n: int)
    requires from <= p && p + |piece| <= |image| && piece == image[p..p + |piece|] && n <= |piece|
    ensures n >= 0 ==> image[from..p] + piece[..n] == image[from..p + n]
    ensures image[from..p] + [] == image[from..p]
  {
  }

  datatype State = RcvHeader | RcvData | SndHeader | SndData

  class IPCMessage {
    var kind: int
    var size: int
    var index: nat
    var bufferSize: nat
    var state: State
    const header: array<Byte>
    var data: array?<Byte>
    /** What has been read of it, as the header and the data say. */
    ghost var got: seq<Byte>

    /** A message to send: the data is copied and padded. */
    constructor Send(kind: int, data: seq<Byte>)
      requires IsInt32(kind) && PaddedSize(|data|) < TWO31
      ensures Sending() && Progress() == 0 && state.RcvHeader? && fresh(header) && fresh(IfAny(this.data))
      ensures this.kind == kind && size == PaddedSize(|data|) && Content().data[..|data|] == data
    {
      var nSize := PaddedSize(|data|);
      var copy: array?<Byte> := null;
      if data != [] {
        copy := new Byte[nSize];
        forall i | 0 <= i < |data| {
          copy[i] := data[i];
        }
        assert copy[..|data|] == data;
      }
      this.kind, size, this.data := kind, nSize, copy;
      header := new Byte[HEADER];
      index, bufferSize, state, got := 0, 0, RcvHeader, [];
    }

    /** A message to receive. */
    constructor ()
      ensures Receiving() && got == [] && fresh(header) && state.RcvHeader? && data == null
    {
      kind, size, data := 0, 0, null;
      header := new Byte[HEADER];
      index, bufferSize, state, got := 0, 0, RcvHeader, [];
    }

    static function IfAny(a: array?<Byte>): set<object> {
      if a == null then {} else {a}
    }

    // ---- sending

    /** The message that is sent. */
    ghost function Content(): Message
      reads this, IfAny(data)
    {
      Message(kind, if data == null then [] else data[..])
    }

    /** How much of its image has been written. */
    ghost function Progress(): nat
      reads this
    {
      match state
      case SndHeader => index
      case SndData => HEADER + index
      case _ => 0
    }

    ghost predicate Sending()
      reads this, header, IfAny(data)
    {
      && header.Length == HEADER && Sendable(Content()) && size == |Content().data| && (data == null || data != header)
      && match state
         case SndHeader =>
           (index == 0 && bufferSize == 0) || (index + bufferSize == HEADER && header[..] == HeaderBytes(size, kind))
         case SndData => (index == 0 && bufferSize == 0) || index + bufferSize == size
         case _ => index == 0 && bufferSize == 0
    }

    /** Writes on from where it stopped: 0 when all is written, -1 to be called again, -2 on an error. */
    method Write(handle: Socket) returns (r: int)
      requires Sending()
      modifies this`index, this`bufferSize, this`state, header, handle`wire, handle`answers
      ensures Sending() && Content() == old(Content())
      ensures old(Progress()) <= Progress() <= |Image(Content())|
      ensures handle.wire == old(handle.wire) + Image(Content())[old(Progress())..Progress()]
      ensures r == 0 || r == -1 || r == -2
      ensures r == 0 ==> Progress() == |Image(Content())|
      ensures r != 0 && size > 0 && old(Progress()) < |Image(Content())| ==> Progress() < |Image(Content())|
      ensures old(handle.answers) < handle.answers
      ensures r == -2 <==> handle.Last().Failed?
      ensures handle.Last().Again? ==> r == -1
      ensures handle.Last().Moved? ==> (r == 0 <==> Progress() == |Image(Content())|)
      ensures r != 0 && handle.Last().Moved? ==> bufferSize > 0
    {
      hide *;
      ghost var content, start, wire := Content(), Progress(), handle.wire;
      Begin();
      ghost var image := Image(content);
      while true
        invariant Sending() && (state.SndHeader? || state.SndData?) && Content() == content && |image| == HEADER + size
        invariant size > 0 && start < |image| ==> Progress() < |image|
        invariant start <= Progress() <= |image| && handle.wire == wire + image[start..Progress()]
        invariant old(handle.answers) <= handle.answers
        decreases state.SndHeader?
      {
        ghost var p := Progress();
        var result, again := WriteSome(handle);
        Glued(image, start, p, Progress());
        if result < 0 {
          return if again then -1 else -2;
        }
        if bufferSize > 0 {
          return -1;
        }
        if state.SndHeader? {
          StartData();
        } else {
          return 0;
        }
      }
    }

    method Begin()
      requires Sending()
      modifies this`state
      ensures Sending() && Content() == old(Content()) && Progress() == old(Progress())
      ensures state.SndHeader? || state.SndData?
      ensures Sendable(Content()) && Progress() <= |Image(Content())| == HEADER + size
    {
      if state.RcvHeader? || state.RcvData? {
        state := SndHeader;
      }
      ImageLength(Content());
    }

    method StartData()
      requires Sending() && state.SndHeader? && bufferSize == 0 && index == HEADER
      modifies this`state, this`index, this`bufferSize
      ensures Sending() && state.SndData? && Content() == old(Content()) && Progress() == old(Progress()) == HEADER
    {
      state, index, bufferSize := SndData, 0, 0;
    }

    /** One system call's worth. */
    method WriteSome(handle: Socket) returns (result: int, again: bool)
      requires Sending() && (state.SndHeader? || state.SndData?) && Progress() <= |Image(Content())|
      modifies this`index, this`bufferSize, header, handle`wire, handle`answers
      ensures Sending() && Content() == old(Content())
      ensures Progress() == old(Progress()) + (if result < 0 then 0 else result)
      ensures Progress() + bufferSize <= |Image(Content())| && (state.SndHeader? || index + bufferSize == size)
      ensures state == old(state) && (bufferSize == 0 && state.SndData? ==> Progress() == |Image(Content())|)
      ensures bufferSize > 0 ==> Progress() < |Image(Content())|
      ensures state.SndHeader? && bufferSize == 0 ==> index == HEADER
      ensures handle.wire == old(handle.wire) + Image(Content())[old(Progress())..Progress()]
      ensures old(handle.answers) < handle.answers
      ensures handle.Last() == if result >= 0 then Moved(result) else if again then Again else Failed
    {
      hide Image, HeaderBytes;
      ghost var image := Image(Content());
      ImageLength(Content());
      var buffer := SetUpWrite();
      Extended(image, Progress(), Progress(), buffer, 0);
      result, again := handle.Write(buffer);
      Extended(image, Progress(), Progress(), buffer, result);
      if result >= 0 {
        Advance(result);
      }
    }

    /** So much of the buffer is out. */
    method Advance(result: nat)
      requires Sending() && (state.SndHeader? || state.SndData?) && result <= bufferSize
      requires index + bufferSize == if state.SndHeader? then HEADER else size
      requires state.SndHeader? ==> header[..] == HeaderBytes(size, kind)
      modifies this`index, this`bufferSize
      ensures Sending() && index == old(index) + result && bufferSize == old(bufferSize) - result
      ensures Content() == old(Content()) && Progress() == old(Progress()) + result
    {
      hide HeaderBytes, Sendable;
      bufferSize := bufferSize - result;
      index := index + result;
    }

    /** What is still to be written of the header, or of the data. */
    method SetUpWrite() returns (buffer: seq<Byte>)
      requires Sending() && (state.SndHeader? || state.SndData?)
      modifies this`bufferSize, header
      ensures Sending() && Content() == old(Content()) && Progress() == old(Progress()) && |buffer| == bufferSize
      ensures Progress() + bufferSize <= |Image(Content())|
      ensures state.SndHeader? ==> index + bufferSize == HEADER && header[..] == HeaderBytes(size, kind)
      ensures state.SndData? ==> index + bufferSize == size
      ensures buffer == Image(Content())[Progress()..Progress() + bufferSize]
    {
      hide Image, HeaderBytes;
      ImageLength(Content());
      if state.SndHeader? {
        if index == 0 && bufferSize == 0 {
          FillHeader();
          bufferSize := HEADER;
        }
        buffer := header[index..index + bufferSize];
        HeaderPiece(Content(), index, bufferSize);
      } else {
        if index == 0 && bufferSize == 0 {
          bufferSize := size;
        }
        buffer := if data == null then [] else data[index..index + bufferSize];
        DataPiece(Content(), index, bufferSize);
      }
    }

    method FillHeader()
      requires header.Length == HEADER && IsInt32(size) && IsInt32(kind)
      modifies header
      ensures header[..] == HeaderBytes(size, kind)
    {
      var bytes := HeaderBytes(size, kind);
      forall i | 0 <= i < HEADER {
        header[i] := bytes[i];
      }
    }

    // ---- receiving

    /** The part that the buffer in use is for, as far as it is filled. */
    ghost predicate Receiving()
      reads this, header, IfAny(data)
    {
      && header.Length == HEADER && (data == null || data != header)
      && match state
         case RcvHeader =>
           (index == 0 && bufferSize == 0 && got == [])
               || (bufferSize > 0 && index + bufferSize == HEADER && got == header[..index])
         case RcvData =>
           (index == 0 && bufferSize == 0 && got == header[..])
           || (data != null && bufferSize > 0 && index + bufferSize == data.Length && got == header[..] + data[..index]
               && size == data.Length - 4 && kind == Int32(header[4..]))
         case _ => false
    }

    /** What the header says has been set up, and the data is to come. */
    ghost predicate Expecting(maxMsgSize: int)
      reads this, header, IfAny(data)
    {
      && header.Length == HEADER && state.RcvData? && data != null && data != header
         && index + bufferSize == data.Length
      && data.Length == BodySize(Int32(header[..4]), maxMsgSize) && got == header[..] + data[..index]
      && size == data.Length - 4 && kind == Int32(header[4..])
    }

    /** All of it is here. */
    ghost predicate Received(maxMsgSize: int)
      reads this, header, IfAny(data)
    {
      && Complete(got, maxMsgSize) && data != null
      && Message(kind, data[..]) == Parsed(got) && size == |got| - HEADER - 4
    }

    /** One system call fills some more of the header. */
    method ReadHeader(handle: Socket) returns (result: int, again: bool)
      requires Receiving() && state.RcvHeader? && handle.taken <= |handle.wire|
      modifies this`index, this`bufferSize, this`got, header, handle`taken, handle`answers
      ensures header.Length == HEADER && (data == null || data != header)
      ensures old(handle.taken) <= handle.taken <= |handle.wire|
      ensures got == old(got) + handle.wire[old(handle.taken)..handle.taken]
      ensures index + bufferSize == HEADER && got == header[..index] && (result <= 0 ==> bufferSize > 0)
      ensures old(handle.answers) < handle.answers
      ensures handle.Last() == if result > 0 then Moved(result) else if again then Again else Failed
    {
      if index == 0 && bufferSize == 0 {
        bufferSize := HEADER;
      }
      var bytes;
      result, again, bytes := handle.Read(bufferSize);
      if result > 0 {
        forall i | 0 <= i < result {
          header[index + i] := bytes[i];
        }
        assert header[..index + result] == got + bytes;
        got := got + bytes;
        bufferSize, index := bufferSize - result, index + result;
      }
    }

    /** The header is complete: takes size and type from it and makes room for the data, unless the size is illegal. */
    method SetUpData(maxMsgSize: int) returns (legal: bool)
      requires header.Length == HEADER && state.RcvData? && index == 0 && bufferSize == 0 && got == header[..]
      requires data == null || data != header
      modifies this`size, this`kind, this`data, this`bufferSize
      ensures legal <==> BodySize(Int32(header[..4]), maxMsgSize) >= 0
      ensures legal ==> Expecting(maxMsgSize) && index == 0 && fresh(data)
      ensures !legal ==> data == old(data)
      ensures got == header[..] && header.Length == HEADER
    {
      size := Int32(header[..4]);
      kind := Int32(header[4..]);
      if size < 0 || size > maxMsgSize {
        if maxMsgSize != 127 || size < 0 || size % 0x100_0000 != 0 {
          return false;
        }
        size := size / 0x100_0000;
      }
      data := new Byte[size];
      bufferSize := size;
      size := size - 4;
      return true;
    }

    /** One system call fills some more of the data. */
    method ReadData(handle: Socket, ghost maxMsgSize: int) returns (result: int, again: bool)
      requires Expecting(maxMsgSize) && bufferSize > 0 && handle.taken <= |handle.wire|
      modifies this`index, this`bufferSize, this`got, data, handle`taken, handle`answers
      ensures Expecting(maxMsgSize) && (result <= 0 ==> bufferSize > 0)
      ensures old(handle.answers) < handle.answers
      ensures handle.Last() == if result > 0 then Moved(result) else if again then Again else Failed
      ensures old(handle.taken) <= handle.taken <= |handle.wire|
      ensures got == old(got) + handle.wire[old(handle.taken)..handle.taken]
    {
      var bytes;
      result, again, bytes := handle.Read(bufferSize);
      if result > 0 {
        forall i | 0 <= i < result {
          data[index + i] := bytes[i];
        }
        assert data[..index + result] == old(data[..index]) + bytes;
        got := got + bytes;
        bufferSize, index := bufferSize - result, index + result;
      }
    }

    lemma ExpectingIs(maxMsgSize: int)
      requires Expecting(maxMsgSize)
      ensures bufferSize > 0 ==> Receiving()
      ensures bufferSize == 0 ==> Received(maxMsgSize)
      ensures |got| >= HEADER && got[..HEADER] == header[..]
    {
      if bufferSize == 0 {
        assert data[..index] == data[..];
        assert got[..4] == header[..4] && got[4..HEADER] == header[4..];
        assert got[HEADER..] == data[..];
      }
    }

    /** Between two calls of `Read`. */
    ghost predicate Ready(maxMsgSize: int)
      reads this, header, IfAny(data)
    {
      Receiving() && (state.RcvData? && bufferSize > 0 ==> Expecting(maxMsgSize))
    }

    lemma ReadyIs(maxMsgSize: int)
      requires Ready(maxMsgSize)
      ensures Receiving() && (state.RcvHeader? || state.RcvData?) && header.Length == HEADER
      ensures data == null || data != header
      ensures state.RcvData? && bufferSize > 0 ==> Expecting(maxMsgSize)
      ensures state.RcvData? && bufferSize == 0 ==> index == 0 && got == header[..]
    {
    }

    /** One system call's worth, of the header or of the data. */
    method ReadSome(handle: Socket, maxMsgSize: int) returns (result: int, again: bool)
      requires Ready(maxMsgSize) && (state.RcvData? ==> bufferSize > 0) && handle.taken <= |handle.wire|
      modifies this`index, this`bufferSize, this`got, header, IfAny(data), handle`taken, handle`answers
      ensures old(handle.taken) <= handle.taken <= |handle.wire|
      ensures got == old(got) + handle.wire[old(handle.taken)..handle.taken]
      ensures result <= 0 || bufferSize > 0 ==> Ready(maxMsgSize) && bufferSize > 0
      ensures old(handle.answers) < handle.answers
      ensures handle.Last() == if result > 0 then Moved(result) else if again then Again else Failed
      ensures result > 0 && bufferSize == 0 && state.RcvData? ==> Received(maxMsgSize)
      ensures result > 0 && bufferSize == 0 && state.RcvHeader? ==>
              header.Length == HEADER && got == header[..] && (data == null || data != header)
    {
      hide IPCMessage.Received;
      ReadyIs(maxMsgSize);
      if state.RcvHeader? {
        result, again := ReadHeader(handle);
      } else {
        result, again := ReadData(handle, maxMsgSize);
        ExpectingIs(maxMsgSize);
      }
    }

    method StartBody(ghost maxMsgSize: int)
      requires header.Length == HEADER && got == header[..] && (data == null || data != header)
      modifies this`state, this`index, this`bufferSize
      ensures Ready(maxMsgSize) && state.RcvData? && bufferSize == 0
    {
      state, index, bufferSize := RcvData, 0, 0;
    }

    /** One turn of the reading loop; another one follows only after the header. */
    method Turn(handle: Socket, maxMsgSize: int) returns (r: int, more: bool)
      requires Ready(maxMsgSize) && handle.taken <= |handle.wire|
      modifies this`kind, this`size, this`index, this`bufferSize, this`state, this`data, this`got, header, IfAny(data)
      modifies handle`taken, handle`answers
      ensures old(handle.taken) <= handle.taken <= |handle.wire|
      ensures got == old(got) + handle.wire[old(handle.taken)..handle.taken]
      ensures more ==> Ready(maxMsgSize) && old(state.RcvHeader?) && !state.RcvHeader?
      ensures !more ==> Outcome(r, maxMsgSize) && (r < 0 && r != -3 ==> Answered(handle, r))
      ensures old(handle.answers) <= handle.answers && (r == -1 || r == -2 ==> old(handle.answers) < handle.answers)
      ensures data == old(data) || fresh(data)
    {
      hide Receiving, Ready, Expecting, Received, BodySize, Int32, Complete, Parsed;
      ReadyIs(maxMsgSize);
      if state.RcvData? && index == 0 && bufferSize == 0 {
        var legal := SetUpData(maxMsgSize);
        if !legal {
          assert got[..4] == header[..4];
          return -3, false;
        }
        ExpectingIs(maxMsgSize);
        ReadyAgain(maxMsgSize);
        if bufferSize == 0 {
          return 0, false;
        }
      }
      var result, again := ReadSome(handle, maxMsgSize);
      if result <= 0 {
        return if again then -1 else -2, false;
      }
      if bufferSize > 0 {
        return -1, false;
      }
      if state.RcvHeader? {
        StartBody(maxMsgSize);
        return 0, true;
      }
      return 0, false;
    }

    /** -2 is what the last system call failed with; -1 that it is to be called again, or that there was too little. */
    ghost predicate Answered(handle: Socket, r: int)
      reads this`bufferSize, handle`answers
    {
      && (r == -2 <==> handle.Last().Failed?) && (handle.Last().Again? ==> r == -1)
      && (handle.Last().Moved? ==> bufferSize > 0)
    }

    /** 0 when the message is there, -1 to be called again, -2 on an error, -3 when the header names an illegal size. */
    ghost predicate Outcome(r: int, maxMsgSize: int)
      reads this, header, IfAny(data)
    {
      || (r == 0 && Received(maxMsgSize))
      || ((r == -1 || r == -2) && Ready(maxMsgSize) && bufferSize > 0)
      || (r == -3 && |got| == HEADER && BodySize(Int32(got[..4]), maxMsgSize) < 0)
    }

    /** Reads on from where it stopped. It takes the message from the wire and not a byte more. */
    method Read(handle: Socket, maxMsgSize: int) returns (r: int)
      requires Ready(maxMsgSize) && handle.taken <= |handle.wire|
      modifies this`kind, this`size, this`index, this`bufferSize, this`state, this`data, this`got, header, IfAny(data)
      modifies handle`taken, handle`answers
      ensures old(handle.taken) <= handle.taken <= |handle.wire|
      ensures got == old(got) + handle.wire[old(handle.taken)..handle.taken]
      ensures Outcome(r, maxMsgSize)
      ensures r == -1 || r == -2 ==> old(handle.answers) < handle.answers && Answered(handle, r)
      ensures data == old(data) || fresh(data)
    {
      hide Receiving, Ready, Expecting, Received, BodySize, Int32, Complete, Parsed, Outcome, Answered;
      ghost var start, before := handle.taken, got;
      while true
        invariant Ready(maxMsgSize) && start <= handle.taken <= |handle.wire|
        invariant got == before + handle.wire[start..handle.taken]
        invariant data == old(data) || fresh(data)
        invariant old(handle.answers) <= handle.answers
        decreases state.RcvHeader?
      {
        ghost var mid := handle.taken;
        var more;
        r, more := Turn(handle, maxMsgSize);
        PutTogether(handle.wire, before, start, mid, handle.taken);
        if !more {
          return;
        }
      }
    }

    /** Between two calls, what has come is less than a message. */
    lemma Unfinished(maxMsgSize: int)
      requires Ready(maxMsgSize) && bufferSize > 0
      ensures |got| >= HEADER ==> |got| < HEADER + BodySize(Int32(got[..4]), maxMsgSize)
    {
      if state.RcvData? {
        assert got[..4] == header[..4];
      }
    }

    lemma ReadyAgain(maxMsgSize: int)
      requires bufferSize > 0 ==> Receiving() && Expecting(maxMsgSize)
      ensures bufferSize > 0 ==> Ready(maxMsgSize)
    {
    }
  }

  lemma PutTogether(wire: seq<Byte>, before: seq<Byte>, a: nat, b: nat, c: nat)
    requires a <= b <= c <= |wire|
    ensures before + wire[a..b] + wire[b..c] == before + wire[a..c]
  {
  }
}
