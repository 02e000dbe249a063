/** One connection of the single-threaded server: socket state and application state, fed
    by arbitrary read and write chunk sizes.  The ghost fields record what crossed the
    socket and the processor boundary; `Valid` ties them to the streams' framing. */
module Connection {
  import opened FramedStream

  datatype SocketState = RecvFraming | Recv | Send
  datatype AppState = AppInit | ReadFrameSize | ReadRequest | Parked | SendResult

  /** What a socket read yields: at least one byte, the end of the stream, or an exception. */
  datatype Read = Data(bytes: seq<byte>) | Eof | Fault

  /** What a socket write does: take the next bytes, or throw. */
  datatype Written = Took(n: nat) | Refused

  /** What the processor does with a request: answer (nothing at all for a one-way call),
      park the connection, or throw. */
  datatype Processed = Reply(bytes: seq<byte>) | Park | Throws

  /** The bytes sent for one output buffer, whose first four bytes are reserved for the
      length; a buffer of four bytes or fewer is taken for a one-way call. */
  function Wire(out: seq<byte>): seq<byte>
    requires |out| < TWO_32
  {
    if |out| > 4 then Frame(out[4..]) else []
  }

  ghost predicate Small(outs: seq<seq<byte>>) {
    forall i :: 0 <= i < |outs| ==> |outs[i]| < TWO_32
  }

  function WireAll(outs: seq<seq<byte>>): seq<byte>
    requires Small(outs)
  {
    if outs == [] then [] else WireAll(outs[..|outs| - 1]) + Wire(outs[|outs| - 1])
  }

  lemma WireAllSnoc(outs: seq<seq<byte>>, out: seq<byte>)
    requires Small(outs) && |out| < TWO_32
    ensures Small(outs + [out]) && WireAll(outs + [out]) == WireAll(outs) + Wire(out)
  {
    assert (outs + [out])[..|outs|] == outs;
  }

  lemma FrameAllSnoc(ms: seq<seq<byte>>, m: seq<byte>, max: nat)
    requires max < TWO_32 && Fits(ms, max) && 0 < |m| <= max
    ensures Fits(ms + [m], max) && FrameAll(ms + [m], max) == FrameAll(ms, max) + (Big(|m|) + m)
  {
    assert (ms + [m])[..|ms|] == ms;
  }

  lemma NothingFramed(max: nat)
    requires max < TWO_32
    ensures FrameAll([], max) == [] && WireAll([]) == []
  {
  }

  /** The smallest doubling of `size` that holds `want`, in 32-bit arithmetic. */
  method DoubleTo(size: nat, want: nat) returns (newSize: nat)
    requires IsPowerOfTwo(size) && size < TWO_32 && want <= 0x8000_0000
    ensures IsPowerOfTwo(newSize) && want <= newSize <= 0x8000_0000 && size <= newSize
    ensures newSize == size || newSize / 2 < want
  {
    newSize := size;
    PowersBelow(size);
    while want > newSize
      invariant IsPowerOfTwo(newSize) && size <= newSize <= 0x8000_0000
      invariant newSize == size || newSize / 2 < want
      decreases 0x8000_0000 - newSize
    {
      PowersBelow(newSize);
      newSize := newSize * 2 % TWO_32;
    }
  }

  /** What crossed the socket and the processor boundary: the bytes read, the buffers handed
      to the processor, the output buffers of the finished requests, the bytes written. */
  datatype Trace = Trace(received: seq<byte>, requests: seq<seq<byte>>, outs: seq<seq<byte>>, sent: seq<byte>)

  class TConnection {
    const maxFrame: nat
    const resizeEveryN: int
    const idleReadLimit: nat
    const idleWriteLimit: nat

    var socketState: SocketState
    var appState: AppState
    var readWant: nat
    var readBufferPos: nat
    var readBuffer: array<byte>
    var output: seq<byte>             // contents of outputTransport_
    var writeBufferSize: nat
    var writeBufferPos: nat
    var largestWriteBufferSize: nat
    var callsForResize: int
    var open: bool
    var aborted: bool                 // an assertion of the source failed

    ghost var h: Trace

    /** The read buffer's size is zero or a power of two. */
    ghost predicate Sizes()
      reads this
    {
      && maxFrame <= 0x8000_0000
      && (readBuffer.Length == 0 || IsPowerOfTwo(readBuffer.Length)) && readBuffer.Length <= 0x8000_0000
      && readWant < TWO_32
    }

    /** The pairing of the two states. */
    ghost predicate Paired()
      reads this
    {
      match appState
      case AppInit => socketState == RecvFraming
      case ReadFrameSize => socketState == RecvFraming
      case ReadRequest => socketState == Recv
      case Parked => socketState == Recv
      case SendResult => socketState == Send
    }

    /** Sizes and pairing, and while the connection is open the positions. */
    ghost predicate Shape()
      reads this
    {
      && Sizes() && Paired()
      && (open ==>
            && (appState.ReadFrameSize? ==> readBufferPos < 4)
            && (appState.ReadRequest? ==> ReadingOk())
            && (appState.SendResult? ==> SendingOk()))
    }

    /** A frame of length zero is accepted by the framing step and trips an assertion at
        the next read; otherwise there is something left to read and room for it. */
    ghost predicate ReadingOk()
      reads this
    {
      readWant <= maxFrame && readWant <= readBuffer.Length && (readBufferPos < readWant || readWant == readBufferPos == 0)
    }

    ghost predicate SendingOk()
      reads this
    {
      writeBufferPos <= writeBufferSize && writeBufferSize == |output| && 4 < |output| < TWO_32
    }

    /** The part of the current frame received so far. */
    ghost function Partial(): seq<byte>
      reads this, readBuffer
      requires Shape() && open
    {
      match appState
      case AppInit => []
      case ReadFrameSize => Little(readWant)[..readBufferPos]
      case ReadRequest => Big(readWant) + readBuffer[..readBufferPos]
      case Parked => []
      case SendResult => []
    }

    /** What is still to be sent of the answers given so far. */
    ghost function Unsent(): seq<byte>
      reads this
      requires Shape() && open
    {
      if appState.SendResult? then output[writeBufferPos..] else []
    }

    /** The requests are exactly the complete frames received; the sent bytes are framed
        answers; at most one request is unanswered. */
    ghost predicate Told()
      reads this
      requires maxFrame < TWO_32
    {
      && Fits(h.requests, maxFrame) && Small(h.outs)
      && |h.outs| <= |h.requests| <= |h.outs| + 1
      && Frames(h.received, maxFrame).frames == h.requests
      && h.sent <= WireAll(h.outs)
    }

    /** While the connection is open, the received bytes are the framed requests and a partial
        frame, the sent bytes the framed answers but for the unsent rest, and a request is
        unanswered only when parked.  What it has told by then stays true once closed. */
    ghost predicate Valid()
      reads this, readBuffer
    {
      && Shape()
      && (!open ==> Told())
      && (open ==>
            && Fits(h.requests, maxFrame) && Small(h.outs)
            && |h.outs| <= |h.requests| <= |h.outs| + 1
            && h.received == FrameAll(h.requests, maxFrame) + Partial()
            && WireAll(h.outs) == h.sent + Unsent()
            && (|h.requests| == |h.outs| + 1 <==> appState.Parked?))
    }

    /** A new connection object. */
    constructor (maxFrame: nat, resizeEveryN: int, idleReadLimit: nat, idleWriteLimit: nat)
      requires maxFrame <= 0x8000_0000
      ensures Valid() && open && appState.AppInit? && fresh(readBuffer) && h == Trace([], [], [], [])
    {
      this.maxFrame, this.resizeEveryN := maxFrame, resizeEveryN;
      this.idleReadLimit, this.idleWriteLimit := idleReadLimit, idleWriteLimit;
      readBuffer := new byte[0];
      socketState, appState, readWant, readBufferPos := RecvFraming, AppInit, 0, 0;
      output, writeBufferSize, writeBufferPos, largestWriteBufferSize, callsForResize := [], 0, 0, 0, 0;
      open, aborted := true, false;
      h := Trace([], [], [], []);
    }

    /** init: a pooled object is reused for another client and keeps its read buffer. */
    method Init()
      requires Valid() && !open
      modifies this
      ensures Valid() && open && appState.AppInit? && readBuffer == old(readBuffer)
      ensures h == Trace([], [], [], [])
    {
      hide Big, Little, IsPowerOfTwo, FrameAll, WireAll, Frames;
      NothingFramed(maxFrame);
      appState, readBufferPos, readWant := AppInit, 0, 0;
      writeBufferSize, writeBufferPos, largestWriteBufferSize := 0, 0, 0;
      socketState, callsForResize := RecvFraming, 0;
      open, aborted := true, false;
      h := Trace([], [], [], []);
    }

    /** close, from whatever point of a step. */
    method Close()
      requires Sizes() && Paired() && Told()
      modifies this`open
      ensures Valid() && !open
    {
      hide FrameAll, WireAll, Frames, IsPowerOfTwo;
      open := false;
    }

    /** checkIdleBufferMemLimit.  It runs between an answer and the next frame, when the
        read buffer holds no unread byte. */
    method CheckIdleBufferMemLimit()
      requires maxFrame <= 0x8000_0000
      modifies this`readBuffer, this`output, this`largestWriteBufferSize
      ensures if idleReadLimit > 0 && old(readBuffer.Length) > idleReadLimit
              then fresh(readBuffer) && readBuffer.Length == 0 else readBuffer == old(readBuffer)
      ensures if idleWriteLimit > 0 && old(largestWriteBufferSize) > idleWriteLimit
              then output == [] && largestWriteBufferSize == 0
              else output == old(output) && largestWriteBufferSize == old(largestWriteBufferSize)
    {
      if idleReadLimit > 0 && readBuffer.Length > idleReadLimit {
        readBuffer := new byte[0];
      }
      if idleWriteLimit > 0 && largestWriteBufferSize > idleWriteLimit {
        output := [];
        largestWriteBufferSize := 0;
      }
    }

    /** LABEL_APP_INIT: back to reading a frame length. */
    method ToFraming()
      requires Valid() && open && Partial() == [] && Unsent() == [] && !appState.Parked?
      modifies this
      ensures Valid() && open && appState.ReadFrameSize? && readBufferPos == 0 && readBuffer == old(readBuffer)
      ensures h == old(h) && aborted == old(aborted)
    {
      hide Big, Little, IsPowerOfTwo, FrameAll, WireAll;
      writeBufferPos, writeBufferSize := 0, 0;
      socketState, appState := RecvFraming, ReadFrameSize;
      readBufferPos := 0;
      assert Little(readWant)[..0] == [];
    }

    /** This answer is the one after which the buffers are looked at. */
    ghost predicate ResizeDue()
      reads this
    {
      resizeEveryN > 0 && callsForResize + 1 >= resizeEveryN
    }

    /** transition in APP_SEND_RESULT. */
    method AfterSend()
      requires Valid() && open && appState.SendResult? && writeBufferPos == writeBufferSize
      modifies this
      ensures Valid() && open && appState.ReadFrameSize? && (readBuffer == old(readBuffer) || fresh(readBuffer))
      ensures h == old(h) && aborted == old(aborted)
      ensures callsForResize == if resizeEveryN <= 0 then old(callsForResize) else if old(ResizeDue()) then 0 else old(callsForResize) + 1
      ensures !old(ResizeDue()) ==> readBuffer == old(readBuffer)
      ensures old(ResizeDue()) && idleReadLimit > 0 ==> readBuffer.Length <= idleReadLimit
    {
      hide Big, Little, IsPowerOfTwo, FrameAll, WireAll;
      if writeBufferSize > largestWriteBufferSize {
        largestWriteBufferSize := writeBufferSize;
      }
      writeBufferPos, writeBufferSize := 0, 0;
      socketState, appState := RecvFraming, ReadFrameSize;
      readBufferPos := 0;
      if resizeEveryN > 0 {
        callsForResize := callsForResize + 1;
        if callsForResize >= resizeEveryN {
          CheckIdleBufferMemLimit();
          callsForResize := 0;
        }
      }
      assert Little(readWant)[..0] == [];
    }

    /** transition in APP_READ_FRAME_SIZE: make room for the announced frame. */
    method AfterFrameSize()
      requires Shape() && open && appState.ReadFrameSize? && readWant <= maxFrame
      modifies this`readBuffer, this`readBufferPos, this`socketState, this`appState
      ensures Shape() && appState.ReadRequest? && readBufferPos == 0 && readWant <= readBuffer.Length
      ensures if readWant <= old(readBuffer.Length) then readBuffer == old(readBuffer) else fresh(readBuffer) && readBuffer.Length / 2 < readWant
    {
      if readWant > readBuffer.Length {
        var size := if readBuffer.Length == 0 then 1 else readBuffer.Length;
        var newSize := DoubleTo(size, readWant);
        readBuffer := new byte[newSize];
      }
      readBufferPos := 0;
      socketState, appState := Recv, ReadRequest;
    }

    /** transition in APP_PARKED, also reached by falling through from APP_READ_REQUEST: the
        output buffer becomes the answer to the outstanding request. */
    method Answer()
      requires Sizes() && open && (appState.Parked? || appState.ReadRequest?) && |output| < TWO_32
      requires Fits(h.requests, maxFrame) && Small(h.outs) && |h.requests| == |h.outs| + 1
      requires h.received == FrameAll(h.requests, maxFrame) && h.sent == WireAll(h.outs)
      modifies this
      ensures Valid() && open && !appState.Parked? && readBuffer == old(readBuffer) && aborted == old(aborted)
      ensures h == old(h).(outs := old(h).outs + [old(output)])
    {
      hide Big, Little, IsPowerOfTwo, FrameAll, WireAll;
      WireAllSnoc(h.outs, output);
      h := h.(outs := h.outs + [output]);
      writeBufferSize := |output|;
      if writeBufferSize > 4 {
        writeBufferPos := 0;
        output := Big(writeBufferSize - 4) + output[4..];
        socketState, appState := Send, SendResult;
        return;
      }
      writeBufferPos, writeBufferSize := 0, 0;
      socketState, appState := RecvFraming, ReadFrameSize;
      readBufferPos := 0;
      assert Little(readWant)[..0] == [];
    }

    /** transition in APP_READ_REQUEST: hand the frame to the processor. */
    method AfterRequest(outcome: Processed)
      requires Sizes() && open && appState.ReadRequest? && socketState.Recv?
      requires 0 < readWant == readBufferPos <= maxFrame && readWant <= readBuffer.Length
      requires Fits(h.requests, maxFrame) && Small(h.outs) && |h.requests| == |h.outs|
      requires h.received == FrameAll(h.requests, maxFrame) + (Big(readWant) + readBuffer[..readBufferPos])
      requires h.sent == WireAll(h.outs)
      requires outcome.Reply? ==> |outcome.bytes| + 4 < TWO_32
      modifies this
      ensures Valid() && readBuffer == old(readBuffer) && aborted == old(aborted)
      ensures open <==> !outcome.Throws?
      ensures appState.Parked? <==> outcome.Park?
      ensures h == old(h).(requests := old(h).requests + [old(readBuffer[..readBufferPos])],
                           outs := old(h).outs + (if outcome.Reply? then [[0, 0, 0, 0] + outcome.bytes] else []))
    {
      hide Big, Little, IsPowerOfTwo, FrameAll, WireAll, Frames;
      FrameAllSnoc(h.requests, readBuffer[..readBufferPos], maxFrame);
      h := h.(requests := h.requests + [readBuffer[..readBufferPos]]);
      output := [0, 0, 0, 0];
      match outcome
      case Throws =>
        Handed();
        Close();
      case Park => appState := Parked;
      case Reply(bytes) =>
        output := output + bytes;
        Answer();
    }

    /** workSocket in SOCKET_RECV_FRAMING.  The bytes of an incomplete length are kept in
        readWant, as the memory image of a 32-bit number. */
    method WorkFraming(read: Read)
      requires Valid() && open && appState.ReadFrameSize?
      requires read.Data? ==> 0 < |read.bytes| <= 4 - readBufferPos
      modifies this
      ensures Valid() && (readBuffer == old(readBuffer) || fresh(readBuffer)) && aborted == old(aborted)
      ensures h == old(h).(received := old(h).received + (if read.Data? then read.bytes else []))
      ensures open <==> read.Data? && (old(readBufferPos) + |read.bytes| == 4 ==>
                                         |h.received| >= 4 && FromBig(h.received[|h.received| - 4..]) <= maxFrame)
    {
      hide Big, Little, FromBig, FromLittle, IsPowerOfTwo, FrameAll, WireAll, Frames;
      ghost var framed := FrameAll(h.requests, maxFrame);
      if !read.Data? {
        RequestsAreFrames();
        Close();
        return;
      }
      var framing := Little(readWant);
      ghost var before := framing[..readBufferPos];
      framing := framing[..readBufferPos] + read.bytes + framing[readBufferPos + |read.bytes|..];
      readBufferPos := readBufferPos + |read.bytes|;
      h := h.(received := h.received + read.bytes);
      assert framing[..readBufferPos] == before + read.bytes;
      assert h.received == framed + framing[..readBufferPos];
      assert h.received[|framed|..] == framing[..readBufferPos];
      if readBufferPos < 4 {
        LittleOfBytes(framing);
        readWant := FromLittle(framing);
        return;
      }
      assert framing[..4] == framing && h.received[|h.received| - 4..] == framing;
      readWant := FromBig(framing);
      if readWant > maxFrame {
        FramesOfFrameAll(h.requests, framing, maxFrame);
        BadFrame(framing, maxFrame);
        assert h.requests + [] == h.requests;
        Close();
        return;
      }
      BigOfBytes(framing);
      readBufferPos := 0;
      AfterFrameSize();
      assert Big(readWant) + readBuffer[..0] == framing;
    }

    /** workSocket in SOCKET_RECV.  With nothing left to read the source's assertion fails. */
    method WorkRecv(read: Read, outcome: Processed)
      requires Valid() && open && appState.ReadRequest?
      requires read.Data? && readWant > 0 ==> 0 < |read.bytes| <= readWant - readBufferPos
      requires outcome.Reply? ==> |outcome.bytes| + 4 < TWO_32
      modifies this, readBuffer
      ensures Valid() && readBuffer == old(readBuffer) && h.sent == old(h).sent
      ensures aborted <==> old(aborted) || old(readWant) == 0
      ensures old(readWant) == 0 ==> !open && h == old(h)
      ensures |old(h).requests| <= |h.requests|
      ensures h.outs == old(h).outs + (if |h.requests| > |old(h).requests| && outcome.Reply? then [[0, 0, 0, 0] + outcome.bytes] else [])
      ensures h.received == old(h).received + (if read.Data? && old(readWant) > 0 then read.bytes else [])
      ensures open ==> read.Data? && old(readWant) > 0
    {
      hide Big, Little, FromBig, FromLittle, IsPowerOfTwo, FrameAll, WireAll, Frames;
      if readWant <= readBufferPos || !read.Data? {
        RequestsAreFrames();
        aborted := aborted || readWant <= readBufferPos;
        Close();
        return;
      }
      var got := |read.bytes|;
      ghost var framed := FrameAll(h.requests, maxFrame);
      ghost var before := readBuffer[..readBufferPos];
      forall i | 0 <= i < got {
        readBuffer[readBufferPos + i] := read.bytes[i];
      }
      readBufferPos := readBufferPos + got;
      h := h.(received := h.received + read.bytes);
      assert readBuffer[..readBufferPos] == before + read.bytes;
      assert h.received == framed + (Big(readWant) + readBuffer[..readBufferPos]);
      if readBufferPos == readWant {
        AfterRequest(outcome);
      }
    }

    /** The socket has taken the next n bytes. */
    method AfterWrite(n: nat)
      requires Valid() && open && appState.SendResult? && n <= writeBufferSize - writeBufferPos
      modifies this
      ensures Valid() && open && (readBuffer == old(readBuffer) || fresh(readBuffer)) && aborted == old(aborted)
      ensures h == old(h).(sent := old(h).sent + old(output[writeBufferPos..writeBufferPos + n]))
    {
      hide Big, Little, FromBig, FromLittle, IsPowerOfTwo, FrameAll, WireAll, Frames;
      h := h.(sent := h.sent + output[writeBufferPos..writeBufferPos + n]);
      assert output[writeBufferPos..writeBufferPos + n] + output[writeBufferPos + n..] == output[writeBufferPos..];
      writeBufferPos := writeBufferPos + n;
      if writeBufferPos == writeBufferSize {
        AfterSend();
      }
    }

    /** workSocket in SOCKET_SEND: the socket takes the next bytes, or the write throws.  With
        nothing left to send no write is tried. */
    method WorkSend(write: Written)
      requires Valid() && open && appState.SendResult?
      requires write.Took? ==> write.n <= writeBufferSize - writeBufferPos
      modifies this
      ensures Valid() && (readBuffer == old(readBuffer) || fresh(readBuffer)) && aborted == old(aborted)
      ensures open <==> write.Took? || old(writeBufferPos) == old(writeBufferSize)
      ensures h == old(h).(sent := old(h).sent + if write.Took? then old(output[writeBufferPos..writeBufferPos + write.n]) else [])
    {
      hide Big, Little, FromBig, FromLittle, IsPowerOfTwo, FrameAll, WireAll, Frames;
      assert h.sent + [] == h.sent;
      if writeBufferPos == writeBufferSize {
        assert output[writeBufferPos..writeBufferPos] == [];
        AfterSend();
        return;
      }
      if write.Refused? {
        RequestsAreFrames();
        Close();
        return;
      }
      AfterWrite(write.n);
    }

    /** StoreHandler::unpark: `data` replaces the output buffer and the answer goes out. */
    method Unpark(data: seq<byte>)
      requires Valid() && open && appState.Parked? && |data| < TWO_32
      modifies this
      ensures Valid() && open && !appState.Parked? && readBuffer == old(readBuffer) && aborted == old(aborted)
      ensures h == old(h).(outs := old(h).outs + [data])
    {
      hide Big, Little, FromBig, FromLittle, IsPowerOfTwo, FrameAll, WireAll;
      output := data;
      Answer();
    }

    /** In every state, open or closed, the requests handed over are exactly the complete
        frames of the received bytes, however those were split.  While the connection is open
        only a zero length, never an oversized one, can be waiting. */
    lemma RequestsAreFrames()
      requires Valid()
      ensures Told()
      ensures open ==> (Frames(h.received, maxFrame).bad <==> appState.ReadRequest? && readWant == 0)
    {
      if open {
        hide Frames, FrameAll, Big, Little, FromBig, IsPowerOfTwo, WireAll;
        FramesOfFrameAll(h.requests, Partial(), maxFrame);
        PartialFrame();
        assert h.requests + [] == h.requests;
      }
    }

    /** Nothing but complete frames has been received. */
    lemma Handed()
      requires maxFrame < TWO_32 && Fits(h.requests, maxFrame) && h.received == FrameAll(h.requests, maxFrame)
      ensures Frames(h.received, maxFrame).frames == h.requests
    {
      hide FrameAll, Frames;
      FramesOfFrameAll(h.requests, [], maxFrame);
      NoFrames(maxFrame);
      assert h.received + [] == h.received && h.requests + [] == h.requests;
    }

    lemma PartialFrame()
      requires Valid() && open
      ensures Frames(Partial(), maxFrame).frames == []
      ensures Frames(Partial(), maxFrame).bad <==> appState.ReadRequest? && readWant == 0
    {
      hide FrameAll, Big, Little, FromBig, IsPowerOfTwo, WireAll;
      if appState.ReadRequest? {
        BigRoundTrip(readWant);
        assert Partial()[..4] == Big(readWant);
      }
    }
  }

  lemma NoFrames(max: nat)
    ensures Frames([], max).frames == []
  {
  }

  lemma BadFrame(framing: seq<byte>, max: nat)
    requires |framing| == 4 && FromBig(framing) > max
    ensures Frames(framing, max).frames == []
  {
    hide FromBig;
    assert framing[..4] == framing;
  }

  /** Two connections that received the same bytes handed over the same requests, however
      the bytes were split, whatever was sent in between, and however they ended. */
  lemma ChunkingIndependence(a: TConnection, b: TConnection)
    requires a.Valid() && b.Valid()
    requires a.maxFrame == b.maxFrame && a.h.received == b.h.received
    ensures a.h.requests == b.h.requests
  {
    a.RequestsAreFrames();
    b.RequestsAreFrames();
  }

  /** What the client of an unparked connection reads for unprefixed data: never the data.
      Four bytes or fewer send nothing — so a parked flush, unparked with the empty string, is
      never answered — and of anything longer the first four bytes are lost. */
  lemma UnparkLosesPrefix(data: seq<byte>, max: nat)
    requires |data| < TWO_32 && |data| <= max < TWO_32
    ensures Frames(Wire(data), max).frames == if |data| > 4 then [data[4..]] else []
    ensures Wire(data) != Frame(data)
  {
    hide Frames, Big;
    NoFrames(max);
    if |data| > 4 {
      FramesOfFrame(data[4..], [], max);
      assert Frame(data[4..]) + [] == Frame(data[4..]);
    }
    assert |Frame(data)| == 4 + |data|;
  }

  /** Unpark answers with a payload exactly when the payload comes with four bytes in front. */
  lemma UnparkAnswersIff(data: seq<byte>, payload: seq<byte>)
    requires |data| < TWO_32 && 0 < |payload| < TWO_32 - 4
    ensures Wire(data) == Frame(payload) <==> |data| > 4 && data[4..] == payload
  {
    hide Big;
    if Wire(data) == Frame(payload) && |data| > 4 {
      assert Frame(data[4..])[4..] == data[4..] && Frame(payload)[4..] == payload;
    }
  }

  // --- Whole runs ---

  /** What can happen to a connection between two looks of the poll loop. */
  datatype Event = Readable(read: Read, outcome: Processed) | Writable(write: Written) | Unparked(data: seq<byte>)

  /** How many bytes the connection asks the socket for. */
  function Wanted(c: TConnection): int
    reads c
  {
    if c.appState.ReadFrameSize? then 4 - c.readBufferPos else c.readWant - c.readBufferPos
  }

  /** The poll loop delivers only what the connection's state asks for, and a read never
      yields more than was asked for. */
  predicate Delivered(c: TConnection, e: Event)
    reads c
    requires c.Shape()
  {
    && c.open
    && match e
       case Readable(read, outcome) =>
         && (outcome.Reply? ==> |outcome.bytes| + 4 < TWO_32)
         && (c.appState.ReadFrameSize? || c.appState.ReadRequest?)
         && (read.Data? && Wanted(c) > 0 ==> 0 < |read.bytes| <= Wanted(c))
       case Writable(write) => c.appState.SendResult? && (write.Took? ==> write.n <= c.writeBufferSize - c.writeBufferPos)
       case Unparked(data) => c.appState.Parked? && |data| < TWO_32
  }

  /** The bytes an event brings in. */
  function BytesIn(e: Event): seq<byte> {
    if e.Readable? && e.read.Data? then e.read.bytes else []
  }

  function AllBytes(events: seq<Event>): seq<byte> {
    if events == [] then [] else AllBytes(events[..|events| - 1]) + BytesIn(events[|events| - 1])
  }

  /** The output buffer an event gives; a reply only comes with the last byte of a request. */
  function GivenBy(e: Event, completes: bool): seq<seq<byte>> {
    match e
    case Unparked(data) => [data]
    case Readable(_, Reply(bytes)) => if completes then [[0, 0, 0, 0] + bytes] else []
    case _ => []
  }

  /** The answers of a run, told from the bytes alone: an event completes a request if it
      completes a frame of the byte stream. */
  function Answers(events: seq<Event>, max: nat): seq<seq<byte>>
    requires max < TWO_32
  {
    if events == [] then []
    else
      var before := events[..|events| - 1];
      var completes := |Frames(AllBytes(events), max).frames| > |Frames(AllBytes(before), max).frames|;
      Answers(before, max) + GivenBy(events[|events| - 1], completes)
  }

  lemma RunSnoc(events: seq<Event>, n: nat, max: nat)
    requires max < TWO_32 && n < |events|
    ensures AllBytes(events[..n + 1]) == AllBytes(events[..n]) + BytesIn(events[n])
    ensures var completes := |Frames(AllBytes(events[..n + 1]), max).frames| > |Frames(AllBytes(events[..n]), max).frames|;
            Answers(events[..n + 1], max) == Answers(events[..n], max) + GivenBy(events[n], completes)
  {
    hide Frames;
    assert events[..n + 1][..n] == events[..n];
  }

  /** The history of a connection is that of the events it heard. */
  ghost predicate Tells(h: Trace, events: seq<Event>, max: nat)
    requires max < TWO_32
  {
    && h.received == AllBytes(events)
    && h.requests == Frames(AllBytes(events), max).frames
    && h.outs == Answers(events, max)
  }

  /** All events delivered, but for one at which the source's assertion failed: its bytes are
      not read. */
  function Heard(events: seq<Event>, aborted: bool): seq<Event> {
    if aborted && events != [] then events[..|events| - 1] else events
  }

  /** Any run: events are delivered in order until one does not fit the state, be it because
      the connection is closed.  The connection has then received the bytes of the events,
      has handed over exactly the frames of that byte stream, and has given the answers in
      order; it has sent the framed answers up to the rest of its write buffer, or, once
      closed, a prefix of them.  None of this depends on how the bytes were split. */
  method Serve(c: TConnection, events: seq<Event>) returns (handled: nat)
    requires c.Valid() && c.open && !c.aborted && c.appState.AppInit? && c.h == Trace([], [], [], [])
    modifies c, c.readBuffer
    ensures c.Valid() && handled <= |events|
    ensures handled < |events| ==> !Delivered(c, events[handled])
    ensures c.aborted ==> handled > 0 && !c.open
    ensures Tells(c.h, Heard(events[..handled], c.aborted), c.maxFrame)
    ensures c.open ==> c.h.sent + c.Unsent() == WireAll(Answers(events[..handled], c.maxFrame))
    ensures Small(Answers(Heard(events[..handled], c.aborted), c.maxFrame))
            && c.h.sent <= WireAll(Answers(Heard(events[..handled], c.aborted), c.maxFrame))
  {
    hide Big, Little, FromBig, FromLittle, IsPowerOfTwo, FrameAll, WireAll, Frames, Tells, Answers, AllBytes;
    c.ToFraming();
    handled := 0;
    assert Tells(c.h, events[..0], c.maxFrame) by { NothingTold(c.maxFrame); }
    while handled < |events| && Delivered(c, events[handled])
      invariant c.Valid() && handled <= |events| && (c.aborted ==> handled > 0 && !c.open)
      invariant c.readBuffer == old(c.readBuffer) || fresh(c.readBuffer)
      invariant Tells(c.h, Heard(events[..handled], c.aborted), c.maxFrame)
    {
      ghost var before := c.h;
      Deliver(c, events[handled]);
      c.RequestsAreFrames();
      if c.aborted {
        assert events[..handled + 1][..handled] == events[..handled];
        SameTold(before, c.h, events[..handled], c.maxFrame);
      } else {
        ToldMore(before, c.h, events, handled, c.maxFrame);
      }
      handled := handled + 1;
    }
    c.RequestsAreFrames();
    ToldOuts(c.h, Heard(events[..handled], c.aborted), c.maxFrame);
  }

  lemma NothingTold(max: nat)
    requires max < TWO_32
    ensures Tells(Trace([], [], [], []), [], max)
  {
  }

  lemma ToldOuts(h: Trace, events: seq<Event>, max: nat)
    requires max < TWO_32 && Tells(h, events, max)
    ensures h.outs == Answers(events, max)
  {
  }

  lemma SameTold(before: Trace, after: Trace, events: seq<Event>, max: nat)
    requires max < TWO_32 && Tells(before, events, max)
    requires after.received == before.received && after.requests == Frames(after.received, max).frames && after.outs == before.outs
    ensures Tells(after, events, max)
  {
  }

  lemma ToldMore(before: Trace, after: Trace, events: seq<Event>, n: nat, max: nat)
    requires max < TWO_32 && n < |events| && Tells(before, events[..n], max)
    requires after.received == before.received + BytesIn(events[n])
    requires after.requests == Frames(after.received, max).frames
    requires after.outs == before.outs + GivenBy(events[n], |after.requests| > |before.requests|)
    ensures Tells(after, events[..n + 1], max)
  {
    hide Frames;
    RunSnoc(events, n, max);
  }

  method Deliver(c: TConnection, e: Event)
    requires c.Valid() && Delivered(c, e) && !c.aborted
    modifies c, c.readBuffer
    ensures c.Valid() && (c.readBuffer == old(c.readBuffer) || fresh(c.readBuffer))
    ensures c.aborted <==> e.Readable? && old(c.appState).ReadRequest? && old(c.readWant) == 0
    ensures c.aborted ==> !c.open && c.h == old(c.h)
    ensures !c.aborted ==> c.h.received == old(c.h).received + BytesIn(e)
    ensures !c.aborted ==> c.h.outs == old(c.h).outs + GivenBy(e, |c.h.requests| > |old(c.h).requests|)
  {
    hide Big, Little, FromBig, FromLittle, IsPowerOfTwo, FrameAll, WireAll, Frames;
    match e
    case Readable(read, outcome) =>
      if c.appState.ReadFrameSize? {
        c.WorkFraming(read);
      } else {
        c.WorkRecv(read, outcome);
      }
    case Writable(write) => c.WorkSend(write);
    case Unparked(data) => c.Unpark(data);
  }
}
