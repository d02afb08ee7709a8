/**
 The stream side of `CTCPSocket`: a receive buffer and a send buffer that are plain arrays with
 a head and a tail.  Ghost fields record the streams that the buffers are part of.
 */
module TcpSockets {
  import opened Framing

  const SOCKET_BUFFER_SIZE: nat := 0x20_0000

  /** Both buffers are one byte larger than `SOCKET_BUFFER_SIZE`. */
  const CAPACITY: nat := SOCKET_BUFFER_SIZE + 1

  // enmConnErrorCode
  const SUCCESS: int := 0
  const INVALID_SOCKET: int := -1
  const RECV_NOTENOUGH_BUFFER: int := -2
  const PEER_CLOSED: int := -3
  const SEND_NOTENOUGH_BUFFER: int := -4
  const INVALID_PARAM: int := -5
  const UNKNOWN: int := -6

  // EnumMsgHeadPackERROR
  const CODE_SUCCESS: int := 1
  const NO_DATA: int := 0
  const CODE_INVALID: int := -1
  const CODE_SIZE_NOTENOUGH: int := -2

  datatype Status = Closed | Opened | Connected | Listening | Error

  /** What `recv` reports: bytes waiting in the kernel, end of stream, EAGAIN, or another error. */
  datatype RecvResult = Bytes(data: seq<byte>) | EndOfStream | RecvAgain | RecvFailed

  /** What `send` reports: how many bytes the kernel is ready to take, EAGAIN, or another error. */
  datatype SendResult = Room(n: nat) | SendAgain | SendFailed

  function Min(a: nat, b: nat): nat {
    if a <= b then a else b
  }

  /** `send` with bytes to send takes at least one and at most all of them. */
  function Taken(n: nat, remaining: nat): (k: nat)
    requires remaining > 0
    ensures 1 <= k <= remaining
    ensures if n > remaining then k == remaining else if n > 0 then k == n else k == 1
  {
    if n == 0 then 1 else Min(n, remaining)
  }

  // ---------- a stretch of calls of `send` ----------

  /** How a stretch of calls ends: with everything taken, with EAGAIN, or with another error. */
  datatype End = AllTaken | Blocked | Broken

  datatype Sending = Sending(taken: nat, calls: nat, end: End)

  /** The calls of `send`, from the call number `from` on, that try to get `total` bytes out. */
  ghost function Sends(net: nat -> SendResult, from: nat, total: nat): (s: Sending)
    ensures s.taken <= total
    decreases total
  {
    if total == 0 then Sending(0, 0, AllTaken) else
    match net(from)
    case Room(n) =>
      var k := Taken(n, total);
      var rest := Sends(net, from + 1, total - k);
      Sending(k + rest.taken, 1 + rest.calls, rest.end)
    case SendAgain => Sending(0, 1, Blocked)
    case SendFailed => Sending(0, 1, Broken)
  }

  /** What the kernel has room for in the first `m` calls from `from` on, at least one byte in each. */
  ghost function Offered(net: nat -> SendResult, from: nat, m: nat): nat
    decreases m
  {
    if m == 0 then 0 else
    match net(from)
    case Room(n) => (if n == 0 then 1 else n) + Offered(net, from + 1, m - 1)
    case _ => 0
  }

  /**
   The first call that finds no room decides, if it comes before all bytes have been taken; the bytes
   taken are what the calls before it had room for.
   */
  lemma {:induction false} SendsUntil(net: nat -> SendResult, from: nat, total: nat)
    ensures var s := Sends(net, from, total);
      var rooms := if s.end.AllTaken? then s.calls else s.calls - 1;
      && rooms >= 0 && (forall k :: from <= k < from + rooms ==> net(k).Room?)
      && s.taken == Min(total, Offered(net, from, rooms))
      && (s.end.AllTaken? <==> s.taken == total)
      && (s.end.Blocked? ==> net(from + rooms).SendAgain?)
      && (s.end.Broken? ==> net(from + rooms).SendFailed?)
    decreases total
  {
    if total > 0 && net(from).Room? {
      SendsUntil(net, from + 1, total - Taken(net(from).n, total));
    }
  }

  /** A stretch with `calls` calls before it that took `k` bytes. */
  ghost function Longer(s: Sending, k: nat, calls: nat): Sending {
    Sending(k + s.taken, calls + s.calls, s.end)
  }

  lemma SendsStep(net: nat -> SendResult, from: nat, total: nat)
    ensures total == 0 ==> Sends(net, from, total) == Sending(0, 0, AllTaken)
    ensures total > 0 ==>
      Sends(net, from, total) ==
      match net(from)
      case Room(n) => Longer(Sends(net, from + 1, total - Taken(n, total)), Taken(n, total), 1)
      case SendAgain => Sending(0, 1, Blocked)
      case SendFailed => Sending(0, 1, Broken)
  {
  }

  /** In the middle of a stretch that has to get `data` out: `taken` bytes went out in `calls` calls, `rest` is left. */
  ghost predicate Midway(net: nat -> SendResult, from: nat, start: seq<byte>, data: seq<byte>,
                         wire: seq<byte>, rest: seq<byte>, taken: nat, calls: nat) {
    && taken <= |data| && wire == start + data[..taken] && rest == data[taken..]
    && Sends(net, from, |data|) == Longer(Sends(net, from + calls, |data| - taken), taken, calls)
  }

  lemma MidwayStart(net: nat -> SendResult, from: nat, start: seq<byte>, data: seq<byte>)
    ensures Midway(net, from, start, data, start, data, 0, 0)
  {
    assert start + data[..0] == start;
  }

  lemma MidwayStep(net: nat -> SendResult, from: nat, start: seq<byte>, data: seq<byte>,
                   wire: seq<byte>, rest: seq<byte>, taken: nat, calls: nat)
    requires Midway(net, from, start, data, wire, rest, taken, calls) && rest != [] && net(from + calls).Room?
    ensures var k := Taken(net(from + calls).n, |rest|);
      Midway(net, from, start, data, wire + rest[..k], rest[k..], taken + k, calls + 1)
  {
    hide Sends, Taken;
    SendsStep(net, from + calls, |rest|);
    var k := Taken(net(from + calls).n, |rest|);
    assert data[..taken] + data[taken..][..k] == data[..taken + k];
    assert start + data[..taken] + rest[..k] == start + data[..taken + k];
    assert data[taken..][k..] == data[taken + k..];
  }

  /** At the end of a stretch. */
  lemma MidwayEnd(net: nat -> SendResult, from: nat, start: seq<byte>, data: seq<byte>,
                  wire: seq<byte>, rest: seq<byte>, taken: nat, calls: nat)
    requires Midway(net, from, start, data, wire, rest, taken, calls)
    ensures taken == |data| - |rest| && start <= wire
    ensures rest == [] || !net(from + calls).Room? ==>
      var s := Sends(net, from, |data|);
      && wire == start + data[..s.taken] && rest == data[s.taken..]
      && s.taken == taken && s.calls == (if rest == [] then calls else calls + 1)
      && s.end == if rest == [] then AllTaken else if net(from + calls).SendAgain? then Blocked else Broken
  {
    hide Sends;
    SendsStep(net, from + calls, |rest|);
  }

  /** `memmove` of a stretch of the array to its front. */
  method MoveDown(buf: array<byte>, from: nat, count: nat)
    requires from + count <= buf.Length
    modifies buf
    ensures buf[..count] == old(buf[from..from + count])
  {
    var k := 0;
    while k < count
      invariant 0 <= k <= count
      invariant forall j :: 0 <= j < k ==> buf[j] == old(buf[from + j])
      invariant forall j :: from + k <= j < buf.Length ==> buf[j] == old(buf[j])
    {
      buf[k] := buf[from + k];
      k := k + 1;
    }
  }

  /** `memcpy` of bytes from outside into the array. */
  method CopyIn(buf: array<byte>, at: nat, data: seq<byte>)
    requires at + |data| <= buf.Length
    modifies buf
    ensures buf[..at] == old(buf[..at]) && buf[at..at + |data|] == data
  {
    var k := 0;
    while k < |data|
      invariant 0 <= k <= |data|
      invariant forall j :: 0 <= j < at ==> buf[j] == old(buf[j])
      invariant forall j :: 0 <= j < k ==> buf[at + j] == data[j]
    {
      buf[at + k] := data[k];
      k := k + 1;
    }
  }

  lemma SliceTake(s: seq<byte>, a: nat, b: nat, n: nat)
    requires a + n <= b <= |s|
    ensures s[a..b][..n] == s[a..a + n]
  {
  }

  lemma SliceMore(s: seq<byte>, a: nat, k: nat)
    requires a + k <= |s|
    ensures s[a..][..k] == s[a..a + k] && s[a..][k..] == s[a + k..] && s[..a] + s[a..a + k] == s[..a + k]
  {
  }

  lemma SendStep(wire: seq<byte>, queued: seq<byte>, flat: seq<byte>, torn: seq<byte>, k: nat)
    requires wire + queued == flat && torn == [] && k <= |queued|
    ensures wire + queued[..k] <= flat + torn
    ensures wire + queued[..k] + queued[k..] == flat
  {
    assert queued[..k] + queued[k..] == queued;
    assert wire + queued[..k] + queued[k..] == wire + queued;
    assert flat + torn == flat;
  }

  class TcpSocket {
    var fd: int
    var status: Status
    const fourBytes: bool

    const recvBuffer: array<byte>
    var recvHead: nat
    var recvTail: nat

    const sendBuffer: array<byte>
    var sendHead: nat
    var sendTail: nat

    /** All bytes `recv` has returned, and the frames handed out of them. */
    ghost var received: seq<byte>
    ghost var delivered: seq<seq<byte>>

    /** The kernel's side: all bytes `send` has taken. */
    var wire: seq<byte>

    /** The payloads for which `send_data` returned 0. */
    ghost var accepted: seq<seq<byte>>

    /** The payload during which a broken connection was found, if some of it was already sent. */
    ghost var torn: seq<byte>

    predicate IsOpen()
      reads `fd, `status
    {
      status == Connected && fd >= 0
    }

    ghost function Pending(): seq<byte>
      requires recvHead <= recvTail <= recvBuffer.Length
      reads `recvHead, `recvTail, recvBuffer
    {
      recvBuffer[recvHead..recvTail]
    }

    ghost function Queued(): seq<byte>
      requires sendHead <= sendTail <= sendBuffer.Length
      reads `sendHead, `sendTail, sendBuffer
    {
      sendBuffer[sendHead..sendTail]
    }

    ghost predicate Buffers()
      reads `fd, `status, `recvHead, `recvTail, `sendHead, `sendTail
    {
      && recvBuffer != sendBuffer
      && recvBuffer.Length == CAPACITY == sendBuffer.Length
      && recvHead <= recvTail <= CAPACITY
      && sendHead <= sendTail <= CAPACITY
      && (!IsOpen() ==> recvHead == recvTail == 0 == sendHead == sendTail)
    }

    ghost predicate Valid()
      reads this, recvBuffer, sendBuffer
    {
      Buffers() && RecvPast() && RecvOk() && SendPast() && SendOk()
    }

    lemma ValidHas()
      requires Valid()
      ensures Buffers() && RecvPast() && SendPast()
    {
    }

    lemma Lengths()
      requires Buffers()
      ensures |Pending()| == recvTail - recvHead && |Queued()| == sendTail - sendHead
    {
    }

    lemma FrontOfPending(n: nat)
      requires Buffers() && n <= recvTail - recvHead
      ensures n <= |Pending()| && recvBuffer[recvHead..recvHead + n] == Pending()[..n]
    {
    }

    /** What was handed out is what the parser finds first in the received bytes. */
    ghost predicate RecvPast()
      reads `received, `delivered
    {
      delivered <= Parse(fourBytes, received).0
    }

    /**
     While open, delivered frames followed by the buffered bytes are the received bytes, cut as the parser
     cuts them.
     */
    ghost predicate RecvOk()
      requires recvHead <= recvTail <= recvBuffer.Length
      reads `fd, `status, `recvHead, `recvTail, `received, `delivered, recvBuffer
    {
      IsOpen() ==> CutAlike(fourBytes, received, delivered, Pending())
    }

    /** The bytes on the wire are accepted payloads, but for a last one that was cut short. */
    ghost predicate SendPast()
      reads `wire, `accepted, `torn
    {
      && wire <= Flatten(accepted) + torn
      && (torn != [] ==> |wire| < |Flatten(accepted)| + |torn|)
    }

    /** While open, bytes on the wire followed by the queued bytes are the accepted payloads. */
    ghost predicate SendOk()
      requires sendHead <= sendTail <= sendBuffer.Length
      reads `fd, `status, `sendHead, `sendTail, `wire, `accepted, `torn, sendBuffer
    {
      IsOpen() ==> torn == [] && wire + Queued() == Flatten(accepted)
    }

    /** A connection just made. */
    constructor (fd: nat, fourBytes: bool)
      ensures Valid() && IsOpen() && this.fd == fd && this.fourBytes == fourBytes
      ensures received == [] && delivered == [] && wire == [] && accepted == [] && torn == []
      ensures fresh(recvBuffer) && fresh(sendBuffer)
    {
      this.fd := fd;
      this.status := Connected;
      this.fourBytes := fourBytes;
      recvBuffer := new byte[CAPACITY];
      sendBuffer := new byte[CAPACITY];
      recvHead, recvTail, sendHead, sendTail := 0, 0, 0, 0;
      received, delivered, wire, accepted, torn := [], [], [], [], [];
    }

    method CloseSocket()
      requires Buffers() && RecvPast() && SendPast()
      modifies `fd, `status, `recvHead, `recvTail, `sendHead, `sendTail
      ensures Valid() && !IsOpen() && fd == -1 && status == Closed
      ensures recvHead == recvTail == sendHead == sendTail == 0
    {
      hide Parse, Flatten, RecvPast, SendPast;
      fd := -1;
      status := Closed;
      recvHead := 0;
      recvTail := 0;
      sendHead := 0;
      sendTail := 0;
    }

    // ---------- receiving ----------

    /**
     `recv_data`, which reads once.  `n` bytes come in; the buffer is reported too small exactly when it
     is full of bytes not yet taken out.
     */
    method RecvData(net: RecvResult) returns (ret: int, n: nat)
      requires Valid() && (net.Bytes? ==> net.data != [])
      modifies `fd, `status, `recvHead, `recvTail, `sendHead, `sendTail, `received, recvBuffer
      ensures Valid()
      ensures ret == INVALID_SOCKET <==> old(status != Connected || fd < 0)
      ensures ret == RECV_NOTENOUGH_BUFFER <==> old(IsOpen()) && |old(Pending())| == CAPACITY
      ensures IsOpen() <==> old(IsOpen()) && ret != PEER_CLOSED && ret != UNKNOWN
      ensures IsOpen() ==> sendHead == old(sendHead) && sendTail == old(sendTail)
      ensures n > 0 <==> net.Bytes? && ret == SUCCESS
      ensures old(IsOpen()) && |old(Pending())| < CAPACITY ==>
        match net
        case Bytes(data) =>
          var used := if old(recvTail) == CAPACITY || |old(Pending())| == 0 then |old(Pending())| else old(recvTail);
          ret == SUCCESS && 0 < n == if |data| <= CAPACITY - used then |data| else CAPACITY - used
        case EndOfStream => ret == PEER_CLOSED
        case RecvAgain => ret == SUCCESS
        case RecvFailed => ret == UNKNOWN
      ensures n > 0 ==>
        && n <= |net.data| && received == old(received) + net.data[..n]
        && IsOpen() && Pending() == old(Pending()) + net.data[..n]
      ensures n == 0 ==> received == old(received) && (IsOpen() ==> Pending() == old(Pending()))
    {
      hide Parse, Flatten;
      ret := 0;
      n := 0;
      if status != Connected || 0 > fd {
        return INVALID_SOCKET, 0;
      }
      MakeRoom();
      if recvTail == recvBuffer.Length {
        return RECV_NOTENOUGH_BUFFER, 0;
      }
      match net {
        case Bytes(data) =>
          var k := Min(|data|, recvBuffer.Length - recvTail);
          TakeIn(data[..k]);
          n := k;
        case EndOfStream =>
          CloseSocket();
          ret := PEER_CLOSED;
        case RecvAgain =>
        case RecvFailed =>
          CloseSocket();
          ret := UNKNOWN;
      }
    }

    /** Bytes that `recv` has put behind the tail. */
    method TakeIn(data: seq<byte>)
      requires Valid() && IsOpen() && recvTail + |data| <= CAPACITY
      modifies `recvTail, `received, recvBuffer
      ensures Valid() && received == old(received) + data && Pending() == old(Pending()) + data
    {
      hide Parse, Flatten, CutAlike, SendPast, SendOk;
      ghost var before := Pending();
      CopyIn(recvBuffer, recvTail, data);
      recvTail := recvTail + |data|;
      assert Pending() == before + data;
      ParseMore(fourBytes, received, delivered, before, data);
      ParsePrefix(fourBytes, received, received + data);
      received := received + data;
    }

    /** The start of `recv_data`: an empty buffer starts over, and bytes at the far end move to the front. */
    method MakeRoom()
      requires Valid() && IsOpen()
      modifies `recvHead, `recvTail, recvBuffer
      ensures Valid() && IsOpen() && Pending() == old(Pending())
      ensures recvTail == CAPACITY <==> |Pending()| == CAPACITY
      ensures recvTail ==
        if old(recvTail) == CAPACITY then |Pending()| else if |Pending()| == 0 then 0 else old(recvTail)
    {
      hide Parse, Flatten;
      ghost var before := Pending();
      if recvTail == recvHead {
        recvHead := 0;
        recvTail := 0;
      }
      assert Pending() == before;
      if recvTail == recvBuffer.Length && recvHead > 0 {
        MovePending();
      }
    }

    /** The buffered bytes move to the front of the buffer. */
    method MovePending()
      requires Valid() && IsOpen()
      modifies `recvHead, `recvTail, recvBuffer
      ensures Valid() && IsOpen() && Pending() == old(Pending())
      ensures recvHead == 0 && recvTail == |Pending()|
    {
      hide Parse, Flatten, CutAlike, Pending, RecvPast, SendPast, SendOk;
      ShiftDown();
    }

    method ShiftDown()
      requires Buffers() && IsOpen()
      modifies `recvHead, `recvTail, recvBuffer
      ensures Buffers() && Pending() == old(Pending()) && recvHead == 0 && recvTail == |Pending()|
    {
      var count := recvTail - recvHead;
      MoveDown(recvBuffer, recvHead, count);
      recvHead := 0;
      recvTail := count;
      assert Pending() == recvBuffer[..count];
    }

    // ---------- taking frames out ----------

    /** `max_code_size` as the unsigned number it is compared as. */
    static function Limit(maxCodeSize: int): int {
      if maxCodeSize < 0 then maxCodeSize + 0x1_0000_0000 else maxCodeSize
    }

    /** How the bytes in front and the size limit decide the answer. */
    static ghost predicate Decides(fourBytes: bool, p: seq<byte>, maxCodeSize: int, ret: int, size: nat) {
      if |p| < (if fourBytes then 4 else 2) then ret == NO_DATA
      else if Announced(fourBytes, p) == 0 then ret == CODE_INVALID
      else if Announced(fourBytes, p) > |p| then ret == NO_DATA
      else if Announced(fourBytes, p) > maxCodeSize % 0x1_0000_0000 then ret == CODE_SIZE_NOTENOUGH
      else ret == CODE_SUCCESS && size == Announced(fourBytes, p)
    }

    /**
     `get_one_code`: take the frame at the front out of the buffer, as the reference parser sees it.
     When more bytes are needed, either there is room for them or the frame exceeds the whole buffer.
     */
    method GetOneCode(data: array?<byte>, size0: nat, maxCodeSize: int) returns (ret: int, size: nat)
      requires Valid() && -0x8000_0000 <= maxCodeSize < 0x8000_0000
      requires data != null ==> data != recvBuffer && data != sendBuffer
      requires data != null ==> data.Length >= CAPACITY || data.Length >= maxCodeSize % 0x1_0000_0000
      modifies `recvHead, `recvTail, `delivered, recvBuffer
      modifies if data == null then {} else {data}
      ensures Valid() && received == old(received) && (old(IsOpen()) <==> IsOpen())
      ensures ret != CODE_SUCCESS ==> Pending() == old(Pending()) && delivered == old(delivered) && size == size0
      ensures data == null ==> ret == CODE_INVALID
      ensures ret == CODE_SUCCESS ==> size <= data.Length
      ensures data != null ==>
        match Peek(fourBytes, old(Pending()))
        case Incomplete => ret == NO_DATA
        case ZeroLength => ret == CODE_INVALID
        case Whole(n) =>
          if n > maxCodeSize % 0x1_0000_0000 then ret == CODE_SIZE_NOTENOUGH
          else
            && ret == CODE_SUCCESS && size == n
            && data[..n] == old(Pending())[..n]
            && Pending() == old(Pending())[n..]
            && delivered == old(delivered) + [old(Pending())[..n]]
      ensures ret == CODE_SUCCESS ==> recvTail == if |Pending()| == 0 then 0 else old(recvTail)
      ensures data != null ==> Decides(fourBytes, old(Pending()), maxCodeSize, ret, size)
      ensures ret == NO_DATA && |Pending()| == CAPACITY ==> Announced(fourBytes, Pending()) > CAPACITY
      ensures ret == NO_DATA && recvTail == CAPACITY ==> |Pending()| == 0 || |Pending()| == CAPACITY
    {
      hide Parse, Flatten, BigEndian, Announced, Pending, Queued, RecvPast, RecvOk, SendPast, SendOk;
      Lengths();
      PeekReads(fourBytes, Pending());
      size := size0;
      if data == null {
        return CODE_INVALID, size;
      }
      var bufferDataSize := recvTail - recvHead;
      if bufferDataSize <= 0 {
        return NO_DATA, size;
      }
      if (fourBytes && bufferDataSize < 4) || (!fourBytes && bufferDataSize < 2) {
        Compact();
        return NO_DATA, size;
      }
      FrontOfPending(Width(fourBytes));
      var codeSize := BigEndian(recvBuffer[recvHead..recvHead + Width(fourBytes)]);
      if codeSize <= 0 {
        return CODE_INVALID, size;
      }
      if bufferDataSize < codeSize {
        Compact();
        return NO_DATA, size;
      }
      if codeSize > Limit(maxCodeSize) {
        return CODE_SIZE_NOTENOUGH, size;
      }
      size := codeSize;
      HandOut(data, size);
      ret := CODE_SUCCESS;
    }

    /** `get_one_code` moves an unfinished frame to the front when the buffer is used up to its end. */
    method Compact()
      requires Valid() && recvHead < recvTail
      modifies `recvHead, `recvTail, recvBuffer
      ensures Valid() && Pending() == old(Pending())
      ensures recvTail == CAPACITY ==> |Pending()| == CAPACITY
      ensures recvHead == if old(recvTail) == CAPACITY then 0 else old(recvHead)
    {
      hide Parse, Flatten, RecvPast, RecvOk, SendPast, SendOk;
      if recvTail == recvBuffer.Length {
        MovePending();
      }
    }

    method HandOut(data: array<byte>, size: nat)
      requires Valid() && Peek(fourBytes, Pending()) == Whole(size) && size <= |Pending()| && IsOpen()
      requires data != recvBuffer && data != sendBuffer && size <= data.Length
      modifies `recvHead, `recvTail, `delivered, data
      ensures Valid() && Pending() == old(Pending())[size..] && data[..size] == old(Pending())[..size]
      ensures recvTail == if |Pending()| == 0 then 0 else old(recvTail)
      ensures delivered == old(delivered) + [old(Pending())[..size]]
    {
      hide Parse, Peek, Flatten, RecvPast, RecvOk, SendPast, SendOk;
      ghost var before := Pending();
      SliceTake(recvBuffer[..], recvHead, recvTail, size);
      CopyIn(data, 0, recvBuffer[recvHead..recvHead + size]);
      assert data[..size] == data[0..0 + size];
      TakeOut(size);
    }

    method TakeOut(size: nat)
      requires Valid() && IsOpen() && Peek(fourBytes, Pending()) == Whole(size) && size <= |Pending()|
      modifies `recvHead, `recvTail, `delivered
      ensures Valid() && Pending() == old(Pending())[size..]
      ensures recvTail == if |Pending()| == 0 then 0 else old(recvTail)
      ensures delivered == old(delivered) + [old(Pending())[..size]]
    {
      hide Parse, Peek, Flatten, CutAlike, Pending, RecvPast, SendPast, SendOk;
      ghost var before := Pending();
      Advance(size);
      Deliver(before, size);
    }

    /** The frame in front of what was buffered counts as handed out. */
    ghost method Deliver(before: seq<byte>, size: nat)
      requires recvHead <= recvTail <= recvBuffer.Length && Peek(fourBytes, before) == Whole(size)
      requires CutAlike(fourBytes, received, delivered, before) && Pending() == before[size..]
      modifies `delivered
      ensures delivered == old(delivered) + [before[..size]] && RecvPast() && RecvOk()
    {
      hide Parse, Peek, Flatten, CutAlike, Pending;
      ParseTake(fourBytes, received, delivered, before, size);
      delivered := delivered + [before[..size]];
    }

    /** The head moves on, and an empty buffer starts over. */
    method Advance(size: nat)
      requires Buffers() && IsOpen() && size <= |Pending()|
      modifies `recvHead, `recvTail
      ensures Buffers() && IsOpen() && Pending() == old(Pending())[size..]
      ensures recvTail == if |Pending()| == 0 then 0 else old(recvTail)
    {
      ghost var before := Pending();
      recvHead := recvHead + size;
      if recvTail == recvHead {
        recvHead := 0;
        recvTail := 0;
      }
      assert Pending() == before[size..];
    }

    /**
     The loop around `get_one_code` in the connector: take frames out until there is none.  It hands out
     the reference parser's frames, up to the first that is too long for the caller's buffer.
     */
    method Drain(data: array<byte>, maxCodeSize: int) returns (codes: seq<seq<byte>>, ret: int)
      requires Valid() && 0 <= maxCodeSize <= data.Length && maxCodeSize < 0x8000_0000
      requires data != recvBuffer && data != sendBuffer
      modifies `recvHead, `recvTail, `delivered, recvBuffer, data
      ensures Valid() && received == old(received) && (old(IsOpen()) <==> IsOpen())
      ensures delivered == old(delivered) + codes
      ensures Parse(fourBytes, old(Pending())) ==
        (codes + Parse(fourBytes, Pending()).0, Parse(fourBytes, Pending()).1)
      ensures ret != CODE_SIZE_NOTENOUGH ==> codes == Parse(fourBytes, old(Pending())).0
      ensures ret == CODE_SIZE_NOTENOUGH ==>
        |codes| < |Parse(fourBytes, old(Pending())).0| && |Parse(fourBytes, old(Pending())).0[|codes|]| > maxCodeSize
      ensures forall k :: 0 <= k < |codes| ==> |codes[k]| <= maxCodeSize
    {
      hide Parse, Peek, Flatten, BigEndian, Announced, Decides, RecvPast, RecvOk, SendOk, SendPast;
      codes := [];
      var size: nat := data.Length;
      ret := CODE_SUCCESS;
      ghost var start := Pending();
      assert codes + Parse(fourBytes, start).0 == Parse(fourBytes, start).0;
      while ret > 0
        invariant Valid() && received == old(received) && (old(IsOpen()) <==> IsOpen())
        invariant delivered == old(delivered) + codes
        invariant Parse(fourBytes, start) == (codes + Parse(fourBytes, Pending()).0, Parse(fourBytes, Pending()).1)
        invariant forall k :: 0 <= k < |codes| ==> |codes[k]| <= maxCodeSize
        invariant ret == CODE_SUCCESS || ret == NO_DATA || ret == CODE_INVALID || ret == CODE_SIZE_NOTENOUGH
        invariant ret == NO_DATA || ret == CODE_INVALID ==> !Peek(fourBytes, Pending()).Whole?
        invariant ret == CODE_SIZE_NOTENOUGH ==>
          Peek(fourBytes, Pending()).Whole? && Peek(fourBytes, Pending()).size > maxCodeSize
        decreases ret, |Pending()|
      {
        ghost var before := Pending();
        ParseFront(fourBytes, start, codes, before);
        ret, size := GetOneCode(data, size, maxCodeSize);
        if ret > 0 {
          codes := codes + [data[..size]];
        }
      }
      ParseStep(fourBytes, Pending());
    }

    // ---------- sending ----------

    /**
     What `send_data` answers, puts on the wire and leaves queued: the calls of `send` first try to get the
     queued bytes out, and then the payload.
     */
    static ghost predicate Outcome(net: nat -> SendResult, queued: seq<byte>, data: seq<byte>, wire0: seq<byte>,
                                   ret: int, wire: seq<byte>, left: seq<byte>)
    {
      var first := Sends(net, 0, |queued|);
      var second := Sends(net, first.calls, |data|);
      match first.end
      case Broken => ret == UNKNOWN && wire == wire0 + queued[..first.taken]
      case Blocked =>
        && wire == wire0 + queued[..first.taken]
        && if |queued| - first.taken + |data| <= SOCKET_BUFFER_SIZE
           then ret == SUCCESS && left == queued[first.taken..] + data
           else ret == SEND_NOTENOUGH_BUFFER && left == queued[first.taken..]
      case AllTaken =>
        && wire == wire0 + queued + data[..second.taken]
        && if second.end.Broken? then ret == UNKNOWN else ret == SUCCESS && left == data[second.taken..]
    }

    /**
     `send_data`.  `net(k)` is what the `k`-th call of `send` meets.  A payload is accepted (0) when it has
     been sent or queued behind everything accepted before, and refused when it does not fit behind the
     bytes that could not be sent; a refused payload leaves no trace in the stream.
     */
    method SendData(data: seq<byte>, net: nat -> SendResult) returns (ret: int)
      requires Valid() && |data| <= CAPACITY
      modifies `fd, `status, `recvHead, `recvTail, `sendHead, `sendTail, `wire, `accepted, `torn, sendBuffer
      ensures Valid() && old(wire) <= wire
      ensures ret == INVALID_PARAM <==> data == []
      ensures ret == INVALID_SOCKET <==> data != [] && old(status != Connected || fd < 0)
      ensures IsOpen() <==> old(IsOpen()) && ret != UNKNOWN
      ensures IsOpen() ==> recvHead == old(recvHead) && recvTail == old(recvTail)
      ensures ret in {SUCCESS, SEND_NOTENOUGH_BUFFER, UNKNOWN, INVALID_PARAM, INVALID_SOCKET}
      ensures accepted == if ret == SUCCESS then old(accepted) + [data] else old(accepted)
      ensures data != [] && old(IsOpen()) ==> Outcome(net, old(Queued()), data, old(wire), ret, wire, Queued())
      ensures torn == old(torn) || (ret == UNKNOWN && torn == data)
      ensures ret == SEND_NOTENOUGH_BUFFER ==>
        && Queued() != [] && |Queued()| + |data| > SOCKET_BUFFER_SIZE
        && wire + Queued() == old(wire) + old(Queued())
      ensures ret == INVALID_PARAM || ret == INVALID_SOCKET ==> wire == old(wire) && Queued() == old(Queued())
    {
      hide Parse, Flatten, RecvPast, RecvOk, Sends, SendPast, SendOk, Pending, Queued;
      if data == [] {
        return INVALID_PARAM;
      }
      if status != Connected || fd < 0 {
        return INVALID_SOCKET;
      }
      SendsUntil(net, 0, |Queued()|);
      ghost var queued := Queued();
      assert queued[..|queued|] == queued;
      var calls;
      ret, calls := Flush(net);
      if ret != 0 {
        if ret == SEND_NOTENOUGH_BUFFER {
          ret := Enqueue(data);
        }
        return;
      }
      ret := SendDirectly(data, net, calls);
    }

    /**
     The first loop of `send_data`: send what is queued.  Returns 0 when the queue is empty, UNKNOWN after
     closing the socket, and SEND_NOTENOUGH_BUFFER, for the caller to decide on, when `send` would block.
     */
    method Flush(net: nat -> SendResult) returns (ret: int, calls: nat)
      requires Valid() && IsOpen()
      modifies `fd, `status, `recvHead, `recvTail, `sendHead, `sendTail, `wire
      ensures Valid() && old(wire) <= wire
      ensures ret == SUCCESS || ret == UNKNOWN || ret == SEND_NOTENOUGH_BUFFER
      ensures IsOpen() <==> ret != UNKNOWN
      ensures IsOpen() ==> recvHead == old(recvHead) && recvTail == old(recvTail)
      ensures IsOpen() ==> wire + Queued() == old(wire) + old(Queued())
      ensures ret == SUCCESS ==> sendHead == sendTail == 0
      ensures ret == SEND_NOTENOUGH_BUFFER ==> Queued() != []
      ensures var queued := old(Queued());
        var s := Sends(net, 0, |queued|);
        && calls == s.calls
        && ret == (match s.end case AllTaken => SUCCESS case Blocked => SEND_NOTENOUGH_BUFFER case Broken => UNKNOWN)
        && wire == old(wire) + queued[..s.taken]
        && (IsOpen() ==> Queued() == queued[s.taken..])
    {
      hide Valid, RecvPast, SendPast, Taken, Sends, Midway, Pending, Queued;
      ValidHas();
      Lengths();
      ret := 0;
      calls := 0;
      var remaining := sendTail - sendHead;
      ghost var start, queued, taken := wire, Queued(), 0;
      MidwayStart(net, 0, start, queued);
      while remaining > 0
        invariant Valid() && Buffers() && IsOpen() && ret == 0 && remaining == sendTail - sendHead
        invariant recvHead == old(recvHead) && recvTail == old(recvTail)
        invariant Midway(net, 0, start, queued, wire, Queued(), taken, calls)
        decreases remaining
      {
        ValidHas();
        Lengths();
        MidwayEnd(net, 0, start, queued, wire, Queued(), taken, calls);
        calls := calls + 1;
        match net(calls - 1) {
          case Room(n) =>
            var k := Taken(n, remaining);
            MidwayStep(net, 0, start, queued, wire, Queued(), taken, calls - 1);
            Sent(k);
            remaining := remaining - k;
            taken := taken + k;
          case SendFailed =>
            CloseSocket();
            return UNKNOWN, calls;
          case SendAgain =>
            return SEND_NOTENOUGH_BUFFER, calls;
        }
      }
      Lengths();
      MidwayEnd(net, 0, start, queued, wire, Queued(), taken, calls);
      Restart();
    }

    /** `send` has taken the first `k` queued bytes. */
    method Sent(k: nat)
      requires Valid() && IsOpen() && k <= sendTail - sendHead
      modifies `sendHead, `wire
      ensures Valid() && Buffers() && IsOpen() && sendHead == old(sendHead) + k
      ensures wire == old(wire) + old(Queued())[..k] && Queued() == old(Queued())[k..]
    {
      hide Parse, Flatten, RecvPast, RecvOk;
      ghost var q, flat := Queued(), Flatten(accepted);
      SendStep(wire, q, flat, torn, k);
      SliceTake(sendBuffer[..], sendHead, sendTail, k);
      wire := wire + sendBuffer[sendHead..sendHead + k];
      sendHead := sendHead + k;
      assert Queued() == q[k..];
    }

    /** An empty send queue starts over at the front of the buffer. */
    method Restart()
      requires Valid() && IsOpen() && sendHead == sendTail
      modifies `sendHead, `sendTail
      ensures Valid() && Queued() == old(Queued()) && sendHead == sendTail == 0
    {
      hide Parse, Flatten, RecvPast, RecvOk, SendPast;
      ghost var q := Queued();
      sendHead := 0;
      sendTail := 0;
      assert Queued() == q;
    }

    /** `send_data` when `send` would block on queued bytes: queue the payload behind them if it fits. */
    method Enqueue(data: seq<byte>) returns (ret: int)
      requires Valid() && IsOpen() && data != []
      modifies `sendHead, `sendTail, `accepted, sendBuffer
      ensures Valid()
      ensures if |old(Queued())| + |data| <= SOCKET_BUFFER_SIZE
        then ret == SUCCESS && accepted == old(accepted) + [data] && Queued() == old(Queued()) + data
        else ret == SEND_NOTENOUGH_BUFFER && accepted == old(accepted) && Queued() == old(Queued())
      ensures sendHead == if ret == SUCCESS && SOCKET_BUFFER_SIZE - old(sendTail) < |data| then 0 else old(sendHead)
    {
      hide Parse, Flatten, RecvPast, RecvOk;
      if SOCKET_BUFFER_SIZE - sendTail >= |data| {
        PutBehind(data);
      } else if SOCKET_BUFFER_SIZE - sendTail + sendHead >= |data| {
        MoveQueue();
        PutBehind(data);
      } else {
        return SEND_NOTENOUGH_BUFFER;
      }
      ret := 0;
    }

    method MoveQueue()
      requires Valid() && IsOpen()
      modifies `sendHead, `sendTail, sendBuffer
      ensures Valid() && Queued() == old(Queued()) && sendHead == 0
    {
      hide Parse, Flatten, RecvPast, RecvOk, SendPast;
      ghost var q := Queued();
      var remaining := sendTail - sendHead;
      MoveDown(sendBuffer, sendHead, remaining);
      sendHead := 0;
      sendTail := remaining;
      assert Queued() == q;
    }

    method PutBehind(data: seq<byte>)
      requires Valid() && IsOpen() && sendTail + |data| <= CAPACITY
      modifies `sendTail, `accepted, sendBuffer
      ensures Valid() && accepted == old(accepted) + [data] && Queued() == old(Queued()) + data
    {
      hide Parse, Flatten, RecvPast, RecvOk;
      ghost var q := Queued();
      FlattenAppend(accepted, [data]);
      FlattenOne(data);
      assert wire + (q + data) == wire + q + data;
      CopyIn(sendBuffer, sendTail, data);
      sendTail := sendTail + |data|;
      accepted := accepted + [data];
      assert Queued() == q + data;
    }

    /** The second loop of `send_data`: nothing is queued, so the payload itself is sent and only its rest queued. */
    method SendDirectly(data: seq<byte>, net: nat -> SendResult, calls0: nat) returns (ret: int)
      requires Valid() && IsOpen() && 0 < |data| <= CAPACITY && sendHead == sendTail == 0
      modifies `fd, `status, `recvHead, `recvTail, `sendHead, `sendTail, `wire, `accepted, `torn, sendBuffer
      ensures Valid() && old(wire) <= wire
      ensures ret == SUCCESS || ret == UNKNOWN
      ensures IsOpen() <==> ret != UNKNOWN
      ensures IsOpen() ==> recvHead == old(recvHead) && recvTail == old(recvTail)
      ensures var s := Sends(net, calls0, |data|);
        && wire == old(wire) + data[..s.taken]
        && if s.end.Broken? then ret == UNKNOWN else ret == SUCCESS && Queued() == data[s.taken..]
      ensures torn == old(torn) || (ret == UNKNOWN && torn == data)
      ensures accepted == if ret == SUCCESS then old(accepted) + [data] else old(accepted)
    {
      hide Parse, Flatten, RecvPast, RecvOk, Taken, Sends, Midway;
      ret := 0;
      var calls := calls0;
      var sent: nat := 0;
      ghost var start := wire;
      assert start + Queued() == start && start + data[..0] == start;
      MidwayStart(net, calls0, start, data);
      while sent < |data|
        invariant 0 <= sent <= |data| && ret == 0
        invariant start == Flatten(accepted) && wire == start + data[..sent]
        invariant accepted == old(accepted) && torn == []
        invariant Buffers() && RecvPast() && RecvOk() && IsOpen() && sendHead == sendTail == 0
        invariant recvHead == old(recvHead) && recvTail == old(recvTail) && calls >= calls0
        invariant Midway(net, calls0, start, data, wire, data[sent..], sent, calls - calls0)
      {
        MidwayEnd(net, calls0, start, data, wire, data[sent..], sent, calls - calls0);
        calls := calls + 1;
        match net(calls - 1) {
          case Room(n) =>
            var k := Taken(n, |data| - sent);
            MidwayStep(net, calls0, start, data, wire, data[sent..], sent, calls - 1 - calls0);
            SliceMore(data, sent, k);
            wire := wire + data[sent..sent + k];
            sent := sent + k;
          case SendFailed =>
            BreakOff(data, sent);
            return UNKNOWN;
          case SendAgain =>
            QueueRest(data, sent);
            return 0;
        }
      }
      MidwayEnd(net, calls0, start, data, wire, data[sent..], sent, calls - calls0);
      assert Queued() == data[sent..];
      Accept(data, sent);
    }

    /** `send` would block when `sent` bytes of `data` had been taken: the rest is queued. */
    method QueueRest(data: seq<byte>, sent: nat)
      requires Buffers() && RecvPast() && RecvOk() && IsOpen() && torn == [] && sent <= |data| <= CAPACITY
      requires sendHead == sendTail == 0 && wire == Flatten(accepted) + data[..sent]
      modifies `sendTail, `accepted, sendBuffer
      ensures Valid() && accepted == old(accepted) + [data] && Queued() == data[sent..]
    {
      hide Parse, Flatten, RecvPast, RecvOk;
      CopyIn(sendBuffer, sendTail, data[sent..]);
      sendTail := sendTail + |data| - sent;
      assert Queued() == data[sent..];
      Accept(data, sent);
    }

    /** The connection broke when `sent` bytes of `data` had been taken. */
    method BreakOff(data: seq<byte>, sent: nat)
      requires Buffers() && RecvPast() && IsOpen() && torn == [] && sent < |data|
      requires wire == Flatten(accepted) + data[..sent]
      modifies `fd, `status, `recvHead, `recvTail, `sendHead, `sendTail, `torn
      ensures Valid() && !IsOpen() && (torn == [] || torn == data)
    {
      hide Parse, Flatten, RecvPast, RecvOk;
      torn := if sent > 0 then data else [];
      assert SendPast() by {
        assert sent == 0 ==> data[..sent] == [];
        assert data[..sent] <= data;
      }
      CloseSocket();
    }

    /** All of `data` has been sent or queued. */
    ghost method Accept(data: seq<byte>, sent: nat)
      requires Buffers() && RecvPast() && RecvOk() && IsOpen() && torn == [] && sent <= |data|
      requires wire == Flatten(accepted) + data[..sent] && Queued() == data[sent..]
      modifies `accepted
      ensures Valid() && accepted == old(accepted) + [data]
    {
      hide Parse, Flatten, RecvPast, RecvOk;
      FlattenAppend(accepted, [data]);
      FlattenOne(data);
      SendStep(Flatten(accepted), data, Flatten(accepted) + data, [], sent);
      accepted := accepted + [data];
    }
  }
}
