/** Two sockets joined by a connection that delivers, in order, a part of what was sent. */
module Connections {
  import opened Framing
  import opened TcpSockets

  /**
   Frames sent through accepted calls of `send_data` come out of `get_one_code` at the other end as
   they were, in order and without gaps, however the stream was cut; a payload whose sending broke off
   never comes out.
   */
  lemma FramesArrive(a: TcpSocket, b: TcpSocket)
    requires a.Valid() && b.Valid() && a.fourBytes == b.fourBytes
    requires b.received <= a.wire
    requires AllFrames(a.fourBytes, a.accepted) && (a.torn == [] || IsFrame(a.fourBytes, a.torn))
    ensures b.delivered <= a.accepted
  {
    hide Parse, Peek, Flatten;
    ParsePart(a.fourBytes, a.accepted, a.torn, b.received);
  }

  /** When everything accepted has arrived and the receiver has drained its buffer, all frames have come out. */
  lemma AllFramesArrive(a: TcpSocket, b: TcpSocket)
    requires a.Valid() && b.Valid() && a.fourBytes == b.fourBytes && b.IsOpen()
    requires b.received == Flatten(a.accepted) && AllFrames(a.fourBytes, a.accepted)
    requires !Peek(b.fourBytes, b.Pending()).Whole?
    ensures b.delivered == a.accepted && b.Pending() == []
  {
    hide Peek, Flatten;
    ParseFrames(a.fourBytes, a.accepted);
    DrainedIsParsed(b);
  }

  /** A drained receiver has handed out exactly the reference parser's frames of all it received. */
  lemma DrainedIsParsed(s: TcpSocket)
    requires s.Valid() && s.IsOpen() && !Peek(s.fourBytes, s.Pending()).Whole?
    ensures Parse(s.fourBytes, s.received) == (s.delivered, s.Pending())
  {
    ParseStep(s.fourBytes, s.Pending());
    assert s.delivered + [] == s.delivered;
  }

  /** Receivers of the same bytes, in whatever chunks, have handed out the same frames once both are drained. */
  lemma ChunksDoNotMatter(s: TcpSocket, t: TcpSocket)
    requires s.Valid() && t.Valid() && s.IsOpen() && t.IsOpen()
    requires s.fourBytes == t.fourBytes && s.received == t.received
    requires !Peek(s.fourBytes, s.Pending()).Whole? && !Peek(t.fourBytes, t.Pending()).Whole?
    ensures s.delivered == t.delivered && s.Pending() == t.Pending()
  {
    hide Peek, Parse, Flatten;
    DrainedIsParsed(s);
    DrainedIsParsed(t);
  }

  /**
   Without a break the receiver's frames and buffer, the bytes under way and the sender's queue make up
   what was accepted.
   */
  lemma NothingLost(a: TcpSocket, b: TcpSocket)
    requires a.Valid() && b.Valid() && a.IsOpen() && b.IsOpen() && b.received <= a.wire
    ensures Flatten(b.delivered) + b.Pending() + a.wire[|b.received|..] + a.Queued() == Flatten(a.accepted)
  {
    hide Peek, Parse, Flatten;
    assert b.received + a.wire[|b.received|..] == a.wire;
  }

  // ---------- whole sessions ----------

  /** What an end does next, and what its system call meets. */
  datatype Action =
    | Send(data: seq<byte>, net: nat -> SendResult)
    | Receive(event: Arrival)
    | Take(maxCodeSize: int)
    | Close

  datatype Step = Step(left: bool, action: Action)

  /** What `recv` finds: at most so many of the bytes under way, or the connection gone. */
  datatype Arrival = Chunk(limit: nat) | Ended | Failed

  function Found(event: Arrival, coming: seq<byte>): (net: RecvResult)
    ensures net.Bytes? ==> net.data != [] && net.data <= coming
  {
    match event
    case Chunk(limit) => if limit == 0 || coming == [] then RecvAgain else Bytes(coming[..Min(limit, |coming|)])
    case Ended => EndOfStream
    case Failed => RecvFailed
  }

  ghost predicate Allowed(fourBytes: bool, action: Action) {
    match action
    case Send(data, _) => IsFrame(fourBytes, data) && |data| <= CAPACITY
    case Take(maxCodeSize) => -0x8000_0000 <= maxCodeSize < 0x8000_0000
    case _ => true
  }

  function AcceptedBy(action: Action, code: int): seq<seq<byte>> {
    if action.Send? && code == SUCCESS then [action.data] else []
  }

  /** The payloads of an end's calls of `send_data` that returned 0, in the order of the calls. */
  function AcceptedIn(steps: seq<Step>, codes: seq<int>, left: bool): seq<seq<byte>>
    requires |codes| <= |steps|
  {
    if codes == [] then [] else
    var step, code := steps[|codes| - 1], codes[|codes| - 1];
    AcceptedIn(steps, codes[..|codes| - 1], left) + if step.left == left then AcceptedBy(step.action, code) else []
  }

  lemma AcceptedNone(steps: seq<Step>, left: bool)
    ensures AcceptedIn(steps, [], left) == []
  {
  }

  lemma AcceptedMore(steps: seq<Step>, codes: seq<int>, code: int)
    requires |codes| < |steps|
    ensures forall left: bool ::
              AcceptedIn(steps, codes + [code], left) ==
              AcceptedIn(steps, codes, left) +
              (if steps[|codes|].left == left then AcceptedBy(steps[|codes|].action, code) else [])
  {
    assert (codes + [code])[..|codes|] == codes;
  }

  /** One direction: only frames are sent at `a`, and `b` has received a part of what left `a`. */
  ghost predicate Carries(a: TcpSocket, b: TcpSocket)
    reads a, b
  {
    && b.received <= a.wire
    && AllFrames(a.fourBytes, a.accepted) && (a.torn == [] || IsFrame(a.fourBytes, a.torn))
  }

  /** What holds between the two ends whatever happened. */
  ghost predicate Linked(a: TcpSocket, b: TcpSocket)
    reads a, b, a.recvBuffer, a.sendBuffer, b.recvBuffer, b.sendBuffer
  {
    && a != b && {a.recvBuffer, a.sendBuffer} !! {b.recvBuffer, b.sendBuffer}
    && a.Valid() && b.Valid() && a.fourBytes == b.fourBytes
    && Carries(a, b) && Carries(b, a)
  }

  /** Two fresh ends. */
  lemma Link(a: TcpSocket, b: TcpSocket)
    requires a != b && {a.recvBuffer, a.sendBuffer} !! {b.recvBuffer, b.sendBuffer}
    requires a.Valid() && b.Valid() && a.fourBytes == b.fourBytes
    requires a.accepted == a.delivered == b.accepted == b.delivered == []
    requires a.torn == a.received == b.torn == b.received == []
    ensures Linked(a, b)
  {
    hide TcpSocket.Valid;
  }

  lemma LinkedArrive(a: TcpSocket, b: TcpSocket)
    requires Linked(a, b)
    ensures b.delivered <= a.accepted && a.delivered <= b.accepted && Linked(b, a)
  {
    hide TcpSocket.Valid;
    FramesArrive(a, b);
    FramesArrive(b, a);
  }

  lemma FrameNotEmpty(fourBytes: bool, frame: seq<byte>)
    requires IsFrame(fourBytes, frame)
    ensures frame != []
  {
  }

  lemma MoreFrames(fourBytes: bool, fs: seq<seq<byte>>, f: seq<byte>)
    requires AllFrames(fourBytes, fs) && IsFrame(fourBytes, f)
    ensures AllFrames(fourBytes, fs + [f]) && fs + [] == fs
  {
  }

  method DoSend(a: TcpSocket, b: TcpSocket, data: seq<byte>, net: nat -> SendResult) returns (code: int)
    requires Linked(a, b) && IsFrame(a.fourBytes, data) && |data| <= CAPACITY
    modifies a, a.sendBuffer
    ensures Linked(a, b) && a.received == old(a.received) && a.delivered == old(a.delivered)
    ensures a.accepted == old(a.accepted) + if code == SUCCESS then [data] else []
    ensures code == INVALID_SOCKET <==> !old(a.IsOpen())
  {
    FrameNotEmpty(a.fourBytes, data);
    MoreFrames(a.fourBytes, a.accepted, data);
    hide Parse, Peek, Flatten, IsFrame, AllFrames, TcpSocket.Valid, TcpSocket.Outcome;
    code := a.SendData(data, net);
  }

  method DoReceive(a: TcpSocket, b: TcpSocket, arrived: nat, event: Arrival) returns (code: int, n: nat)
    requires Linked(a, b) && arrived == |a.received|
    modifies a, a.recvBuffer
    ensures Linked(a, b) && |a.received| == arrived + n
    ensures a.delivered == old(a.delivered) && a.accepted == old(a.accepted)
    ensures old(a.IsOpen()) && |old(a.Pending())| < CAPACITY ==>
      match event
      case Chunk(limit) => a.IsOpen() && (n > 0 <==> limit > 0 && arrived < |b.wire|)
      case _ => !a.IsOpen()
  {
    hide Parse, Peek, Flatten, IsFrame, AllFrames, TcpSocket.Valid;
    var coming := b.wire[arrived..];
    assert a.received + coming == b.wire;
    code, n := a.RecvData(Found(event, coming));
  }

  /** The bytes buffered begin with a whole frame no longer than the limit. */
  ghost predicate Fits(a: TcpSocket, maxCodeSize: int)
    requires a.recvHead <= a.recvTail <= a.recvBuffer.Length
    reads a, a.recvBuffer
  {
    match Peek(a.fourBytes, a.Pending())
    case Whole(n) => n <= maxCodeSize % 0x1_0000_0000
    case _ => false
  }

  /** A frame taken out is handed out as a value too. */
  method DoTake(a: TcpSocket, b: TcpSocket, data: array<byte>, maxCodeSize: int)
    returns (code: int, frames: seq<seq<byte>>)
    requires Linked(a, b) && -0x8000_0000 <= maxCodeSize < 0x8000_0000 && data.Length == CAPACITY
    requires data !in {a.recvBuffer, a.sendBuffer, b.recvBuffer, b.sendBuffer}
    modifies a, a.recvBuffer, data
    ensures Linked(a, b) && a.received == old(a.received) && a.accepted == old(a.accepted)
    ensures a.delivered == old(a.delivered) + frames
    ensures old(Fits(a, maxCodeSize)) <==> frames != []
  {
    hide Parse, Peek, Flatten, IsFrame, AllFrames, TcpSocket.Valid;
    var size;
    code, size := a.GetOneCode(data, 0, maxCodeSize);
    frames := if code == CODE_SUCCESS then [data[..size]] else [];
  }

  method DoClose(a: TcpSocket, b: TcpSocket)
    requires Linked(a, b)
    modifies a
    ensures Linked(a, b)
    ensures a.received == old(a.received) && a.accepted == old(a.accepted) && a.delivered == old(a.delivered)
    ensures !a.IsOpen()
  {
    hide Parse, Peek, Flatten, IsFrame, AllFrames;
    a.CloseSocket();
  }

  /** An end takes a step: `n` bytes come in, `frames` are handed out. */
  method Act(a: TcpSocket, b: TcpSocket, data: array<byte>, arrived: nat, action: Action)
    returns (code: int, n: nat, frames: seq<seq<byte>>)
    requires Linked(a, b) && Allowed(a.fourBytes, action) && data.Length == CAPACITY && arrived == |a.received|
    requires data !in {a.recvBuffer, a.sendBuffer, b.recvBuffer, b.sendBuffer}
    modifies a, a.recvBuffer, a.sendBuffer, data
    ensures Linked(a, b) && |a.received| == arrived + n
    ensures a.delivered == old(a.delivered) + frames
    ensures a.accepted == old(a.accepted) + AcceptedBy(action, code)
    ensures action.Close? ==> !a.IsOpen()
    ensures old(a.IsOpen()) ==>
      match action
      case Send(_, _) => code != INVALID_SOCKET
      case Receive(Chunk(limit)) =>
        |old(a.Pending())| < CAPACITY ==> (n > 0 <==> limit > 0 && arrived < |b.wire|)
      case Receive(_) => |old(a.Pending())| < CAPACITY ==> !a.IsOpen()
      case Take(maxCodeSize) => old(Fits(a, maxCodeSize)) <==> frames != []
      case Close => true
  {
    hide IsFrame, Fits, TcpSocket.Valid, Carries;
    code, n, frames := SUCCESS, 0, [];
    match action {
      case Send(payload, net) =>
        code := DoSend(a, b, payload, net);
      case Receive(event) =>
        code, n := DoReceive(a, b, arrived, event);
      case Take(maxCodeSize) =>
        code, frames := DoTake(a, b, data, maxCodeSize);
      case Close =>
        DoClose(a, b);
    }
  }

  /** Two sockets just connected, and an array for frames. */
  method Connect(fourBytes: bool) returns (a: TcpSocket, b: TcpSocket, data: array<byte>)
    ensures Linked(a, b) && a.IsOpen() && b.IsOpen() && a.fourBytes == b.fourBytes == fourBytes
    ensures data.Length == CAPACITY
    ensures a.accepted == [] && a.wire == [] && a.received == [] && a.delivered == []
    ensures b.accepted == [] && b.wire == [] && b.received == [] && b.delivered == []
    ensures a != b && {a.recvBuffer, a.sendBuffer} !! {b.recvBuffer, b.sendBuffer}
    ensures fresh(a) && fresh(a.recvBuffer) && fresh(a.sendBuffer)
    ensures fresh(b) && fresh(b.recvBuffer) && fresh(b.sendBuffer)
    ensures fresh(data) && data !in {a.recvBuffer, a.sendBuffer, b.recvBuffer, b.sendBuffer}
  {
    hide TcpSocket.Valid, Linked;
    a := new TcpSocket(0, fourBytes);
    b := new TcpSocket(1, fourBytes);
    data := new byte[CAPACITY];
    Link(a, b);
  }

  /**
   Any run of two connected sockets, from the connection on, with both ends sending, receiving and
   closing as they like: the frames handed out at one end are, in order and byte for byte, the first of
   those accepted at the other.
   */
  method Session(fourBytes: bool, steps: seq<Step>)
    returns (codes: seq<int>, atLeft: seq<seq<byte>>, atRight: seq<seq<byte>>)
    requires forall step :: step in steps ==> Allowed(fourBytes, step.action)
    ensures |codes| == |steps|
    ensures atRight <= AcceptedIn(steps, codes, true) && atLeft <= AcceptedIn(steps, codes, false)
  {
    hide AcceptedIn, AcceptedBy, Linked, Allowed;
    var a, b, data := Connect(fourBytes);
    var arrivedLeft: nat, arrivedRight: nat := 0, 0;
    codes, atLeft, atRight := [], [], [];
    AcceptedNone(steps, true);
    AcceptedNone(steps, false);
    while |codes| < |steps|
      invariant |codes| <= |steps| && Linked(a, b)
      invariant arrivedLeft == |a.received| && atLeft == a.delivered
      invariant a.accepted == AcceptedIn(steps, codes, true)
      invariant arrivedRight == |b.received| && atRight == b.delivered
      invariant b.accepted == AcceptedIn(steps, codes, false)
    {
      var step := steps[|codes|];
      assert Allowed(fourBytes, step.action);
      LinkedArrive(a, b);
      var code, n, frames;
      if step.left {
        code, n, frames := Act(a, b, data, arrivedLeft, step.action);
        arrivedLeft, atLeft := arrivedLeft + n, atLeft + frames;
      } else {
        code, n, frames := Act(b, a, data, arrivedRight, step.action);
        LinkedArrive(b, a);
        arrivedRight, atRight := arrivedRight + n, atRight + frames;
      }
      AcceptedMore(steps, codes, code);
      codes := codes + [code];
    }
    LinkedArrive(a, b);
  }

  // ---------- everything arrives ----------

  /** Both ends open, nothing queued at `a`, and no frame longer than the buffer. */
  ghost predicate Flowing(a: TcpSocket, b: TcpSocket)
    reads a, b, a.recvBuffer, a.sendBuffer, b.recvBuffer, b.sendBuffer
  {
    && Linked(a, b) && a.IsOpen() && b.IsOpen() && a.sendHead == a.sendTail
    && forall k :: 0 <= k < |a.accepted| ==> |a.accepted[k]| <= CAPACITY
  }

  /** Nothing more can be taken out at `b`. */
  ghost predicate Drained(b: TcpSocket)
    reads b, b.recvBuffer
  {
    b.recvHead <= b.recvTail <= b.recvBuffer.Length && !Peek(b.fourBytes, b.Pending()).Whole?
  }

  lemma StartsFlowing(a: TcpSocket, b: TcpSocket)
    requires Linked(a, b) && a.IsOpen() && b.IsOpen()
    requires a.accepted == [] && a.wire == [] && b.received == [] && b.delivered == []
    ensures Flowing(a, b) && Drained(b)
  {
    hide Parse;
  }

  /** When the receiver has drained all that was sent, all frames are out. */
  lemma AllOut(a: TcpSocket, b: TcpSocket)
    requires Flowing(a, b) && Drained(b) && |b.received| == |a.wire|
    ensures b.delivered == a.accepted
  {
    hide Parse, Peek, Flatten;
    assert a.Queued() == [] && a.wire + [] == a.wire;
    assert b.received == a.wire;
    AllFramesArrive(a, b);
  }

  /** While bytes are still to come, a drained receiver has room for them. */
  lemma RoomToReceive(a: TcpSocket, b: TcpSocket)
    requires Flowing(a, b) && Drained(b) && |b.received| < |a.wire|
    ensures |b.Pending()| < CAPACITY
  {
    hide Parse, Peek, Flatten;
    DrainedIsParsed(b);
    assert a.Queued() == [] && a.wire + [] == a.wire;
    assert b.received != a.wire;
    PartShort(a.fourBytes, a.accepted, b.received);
  }

  /** `a` sends a frame to a kernel that always has some room. */
  method SendThrough(a: TcpSocket, frame: seq<byte>, room: nat -> nat)
    requires a.Valid() && a.IsOpen() && a.sendHead == a.sendTail && frame != [] && |frame| <= CAPACITY
    modifies a`fd, a`status, a`recvHead, a`recvTail, a`sendHead, a`sendTail, a`wire, a`accepted, a`torn, a.sendBuffer
    ensures a.Valid() && a.IsOpen() && a.sendHead == a.sendTail && old(a.wire) <= a.wire
    ensures a.accepted == old(a.accepted) + [frame] && a.torn == old(a.torn)
  {
    QueueLength(a);
    hide TcpSocket.Valid, Sends;
    var net := (k: nat) => Room(room(k));
    SendsUntil(net, 0, 0);
    SendsUntil(net, 0, |frame|);
    var code := a.SendData(frame, net);
    QueueLength(a);
  }

  method SendOne(a: TcpSocket, b: TcpSocket, frame: seq<byte>, room: nat -> nat)
    requires Flowing(a, b) && IsFrame(a.fourBytes, frame) && |frame| <= CAPACITY
    modifies a, a.sendBuffer
    ensures Flowing(a, b) && a.accepted == old(a.accepted) + [frame]
  {
    FrameNotEmpty(a.fourBytes, frame);
    MoreFrames(a.fourBytes, a.accepted, frame);
    hide IsFrame, AllFrames, TcpSocket.Valid;
    SendThrough(a, frame, room);
  }

  lemma QueueLength(a: TcpSocket)
    requires a.Valid()
    ensures |a.Queued()| == a.sendTail - a.sendHead
  {
  }

  /** `b` takes out all frames that are whole. */
  method TakeAll(b: TcpSocket, data: array<byte>) returns (frames: seq<seq<byte>>)
    requires b.Valid() && data.Length == CAPACITY && data != b.recvBuffer && data != b.sendBuffer
    modifies b`recvHead, b`recvTail, b`delivered, b.recvBuffer, data
    ensures b.Valid() && b.received == old(b.received) && (old(b.IsOpen()) <==> b.IsOpen())
    ensures b.delivered == old(b.delivered) + frames && Drained(b)
  {
    hide Parse, Peek, Flatten, TcpSocket.RecvPast, TcpSocket.RecvOk, TcpSocket.SendPast, TcpSocket.SendOk;
    ParsedFits(b.fourBytes, b.Pending());
    var code;
    frames, code := b.Drain(data, CAPACITY);
    ParseStep(b.fourBytes, b.Pending());
  }

  /** `b` receives some of the bytes under way and takes out all frames that are whole. */
  method Fetch(a: TcpSocket, b: TcpSocket, data: array<byte>, arrived: nat, limit: nat)
    returns (n: nat, frames: seq<seq<byte>>)
    requires Flowing(a, b) && Drained(b) && arrived == |b.received| < |a.wire| && data.Length == CAPACITY
    requires data !in {a.recvBuffer, a.sendBuffer, b.recvBuffer, b.sendBuffer}
    modifies b, b.recvBuffer, data
    ensures Flowing(a, b) && Drained(b) && n > 0 && |b.received| == arrived + n
    ensures b.delivered == old(b.delivered) + frames
  {
    hide Parse, Peek, Flatten, IsFrame, AllFrames, TcpSocket.Valid, Drained;
    RoomToReceive(a, b);
    var code;
    var coming := a.wire[arrived..];
    assert b.received + coming == a.wire;
    code, n := b.RecvData(Bytes(coming[..if limit == 0 then 1 else Min(limit, |coming|)]));
    frames := TakeAll(b, data);
  }

  lemma FlowingSame(a: TcpSocket, b: TcpSocket)
    requires Flowing(a, b)
    ensures a != b && |b.received| <= |a.wire|
  {
    hide TcpSocket.Valid;
  }

  /** `b` fetches all that is under way. */
  method FetchAll(a: TcpSocket, b: TcpSocket, data: array<byte>, arrived0: nat, chunk: nat -> nat)
    returns (arrived: nat, frames: seq<seq<byte>>)
    requires Flowing(a, b) && Drained(b) && arrived0 == |b.received| && data.Length == CAPACITY
    requires data !in {a.recvBuffer, a.sendBuffer, b.recvBuffer, b.sendBuffer}
    modifies b, b.recvBuffer, data
    ensures Flowing(a, b) && Drained(b) && arrived == |b.received|
    ensures b.delivered == a.accepted == old(b.delivered) + frames
  {
    hide Flowing, Drained;
    arrived, frames := arrived0, [];
    FlowingSame(a, b);
    while arrived < |a.wire|
      invariant Flowing(a, b) && Drained(b) && arrived == |b.received| <= |a.wire|
      invariant b.delivered == old(b.delivered) + frames
      decreases |a.wire| - arrived
    {
      var n, more := Fetch(a, b, data, arrived, chunk(arrived));
      arrived, frames := arrived + n, frames + more;
      FlowingSame(a, b);
    }
    AllOut(a, b);
  }

  /**
   Frames sent one after the other through a connection that stays up come out complete, however much
   room the kernel has for each call of `send` and in whatever chunks the bytes arrive.
   */
  method Exchange(fourBytes: bool, frames: seq<seq<byte>>, room: nat -> nat, chunk: nat -> nat)
    returns (delivered: seq<seq<byte>>)
    requires forall k :: 0 <= k < |frames| ==> IsFrame(fourBytes, frames[k]) && |frames[k]| <= CAPACITY
    ensures delivered == frames
  {
    hide IsFrame, Flowing, Linked, Drained;
    var a, b, data := Connect(fourBytes);
    var arrived: nat := 0;
    delivered := [];
    StartsFlowing(a, b);
    var i := 0;
    while i < |frames|
      invariant 0 <= i <= |frames| && Flowing(a, b) && Drained(b) && a.fourBytes == fourBytes
      invariant arrived == |b.received| && a.accepted == b.delivered == delivered == frames[..i]
    {
      SendOne(a, b, frames[i], room);
      var more;
      arrived, more := FetchAll(a, b, data, arrived, chunk);
      delivered := delivered + more;
      assert frames[..i] + [frames[i]] == frames[..i + 1];
      i := i + 1;
    }
  }
}
