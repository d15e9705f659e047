/** The client's writing half, byte by byte: a queue of messages whose frames are laid out in two static
    strings shared by the whole process, which an outstanding write reads while it progresses
    (client/source/chat_client.cpp, common/source/chat_message.cpp). */
module ClientStream {
  import opened Framing
  import WQ = WriteQueue

  /** A queued message: its serialized form, whether its buffers point at the static strings already, and the
      number of bytes these buffers cover. */
  datatype OutMessage = OutMessage(payload: string, buffersCached: bool, bufferSize: nat)

  /** The function-local static strings of `generate_buffers`. */
  class StaticBuffers {
    var header: string
    var data: string

    constructor ()
      ensures header == "" && data == ""
    {
      header, data := "", "";
    }

    /** What a write started earlier would read now. */
    function Bytes(): string
      reads this
    {
      header + data
    }
  }

  function Payloads(queue: seq<OutMessage>): (p: seq<string>)
    ensures |p| == |queue| && forall i | 0 <= i < |p| :: p[i] == queue[i].payload
  {
    seq(|queue|, i requires 0 <= i < |queue| => queue[i].payload)
  }

  /** Reading a wire that carries the sent frames and the beginning of the front one. */
  lemma WireIsRead(q: WQ.Queue<string>, written: nat, wire: string)
    requires q.waiting == [] ==> wire == Frames(q.sent)
    requires q.waiting != [] ==>
               (written <= |Frame(q.waiting[0])| && wire == Frames(q.sent) + Frame(q.waiting[0])[..written])
    ensures After(wire).events <= Bodies(q.All())
    ensures q.posted == [] && q.waiting == [] ==>
              After(wire).events == Bodies(q.All()) && !After(wire).readingBody && After(wire).rest == ""
  {
    hide Frame, Frames, After;
    if q.waiting == [] {
      FramesDecode(q.sent);
      assert q.All() == q.sent + q.posted;
      BodiesConcat(q.sent, q.posted);
      if q.posted == [] {
        assert q.All() == q.sent;
      }
    } else {
      var front, later := q.waiting[0], q.waiting[1..] + q.posted;
      StreamDecodes(q.sent, front, written);
      assert q.All() == q.sent + ([front] + later);
      BodiesConcat(q.sent, [front] + later);
      assert ([front] + later)[1..] == later;
    }
  }

  class ChatClient {
    const buffers: StaticBuffers

    var posted: seq<string>
    var writeMsgs: seq<OutMessage>

    // the operating system's side: an outstanding write of `size` bytes, `written` of which are on the wire
    var writing: bool
    var size: nat
    var written: nat
    var wire: string

    // `closePosted` tells whether a handler that closes the socket is posted
    var socketOpen: bool
    var closePosted: bool

    ghost var sent: seq<string>
    ghost var failed: bool

    constructor ()
      ensures Valid() && fresh(buffers) && wire == "" && Outbound() == WQ.Empty()
      ensures socketOpen && !closePosted
    {
      socketOpen, closePosted := true, false;
      buffers := new StaticBuffers();
      posted, writeMsgs, writing, size, written, wire, sent, failed := [], [], false, 0, 0, "", [], false;
    }

    ghost function Outbound(): WQ.Queue<string>
      reads this
    {
      WQ.Queue(posted, Payloads(writeMsgs), writing, sent, failed)
    }

    /** The part of the front message's frame that is on the wire. */
    function InFlight(): string
      reads this
    {
      if writeMsgs == [] || written > |Frame(writeMsgs[0].payload)| then ""
      else Frame(writeMsgs[0].payload)[..written]
    }

    /** The wire carries the frames of what was sent and the beginning of the front's frame; while a write is
        outstanding the static strings hold exactly that frame, and only the front can have cached buffers. */
    ghost predicate Valid()
      reads this, buffers
    {
      && Outbound().Good()
      && wire == Frames(sent) + InFlight()
      && (writeMsgs == [] ==> written == 0)
      && (writeMsgs != [] ==> written <= |Frame(writeMsgs[0].payload)|)
      && (writing ==> size == |Frame(writeMsgs[0].payload)|)
      && (writing && size > 0 ==> buffers.Bytes() == Frame(writeMsgs[0].payload))
      && (forall i | 0 < i < |writeMsgs| :: !writeMsgs[i].buffersCached)
    }

    /** `write`: post a handler through the strand. */
    method Write(payload: string)
      requires Valid()
      modifies this`posted
      ensures Valid() && Outbound() == WQ.Next(old(Outbound()), WQ.Write(payload))
    {
      posted := posted + [payload];
    }

    /** The posted handler: queue the message, and start a write only if the queue was empty. */
    method RunPostedWrite()
      requires Valid() && posted != []
      modifies this`posted, this`writeMsgs, this`writing, this`size, this`written, buffers
      ensures Valid() && Outbound() == WQ.Next(old(Outbound()), WQ.RunPosted) && wire == old(wire)
    {
      hide Frame, Frames;
      WQ.NextKeepsGood(Outbound(), WQ.RunPosted);
      var writeInProgress := writeMsgs != [];
      writeMsgs := writeMsgs + [OutMessage(posted[0], false, 0)];
      posted := posted[1..];
      if !writeInProgress {
        DoWrite();
      }
    }

    /** Lays out the front message's frame and starts to write it. Both callers come here only when no write
        is outstanding: that is what makes rewriting the static strings safe. */
    method DoWrite()
      requires !writing && writeMsgs != [] && !writeMsgs[0].buffersCached
      modifies this`writeMsgs, this`writing, this`size, this`written, buffers
      ensures writing && written == 0 && writeMsgs != [] && size == |Frame(writeMsgs[0].payload)|
      ensures size > 0 ==> buffers.Bytes() == Frame(writeMsgs[0].payload)
      ensures Payloads(writeMsgs) == Payloads(old(writeMsgs)) && writeMsgs[1..] == old(writeMsgs)[1..]
    {
      var n := GenerateBuffers();
      writing, size, written := true, n, 0;
    }

    /** `generate_buffers` of the front message: the number of bytes its buffers cover. Cached buffers are
        returned as they are, whatever the static strings hold by now. A message too long for the header gets
        no buffers at all, so its write completes at once with nothing on the wire. */
    method GenerateBuffers() returns (n: nat)
      requires writeMsgs != []
      modifies this`writeMsgs, buffers
      ensures writeMsgs != []
      ensures Payloads(writeMsgs) == Payloads(old(writeMsgs)) && writeMsgs[1..] == old(writeMsgs)[1..]
      ensures old(writeMsgs)[0].buffersCached ==>
                n == old(writeMsgs)[0].bufferSize && writeMsgs == old(writeMsgs) && buffers.Bytes() == old(buffers.Bytes())
      ensures !old(writeMsgs)[0].buffersCached ==>
                && n == |Frame(writeMsgs[0].payload)|
                && (n > 0 ==> buffers.Bytes() == Frame(writeMsgs[0].payload))
                && (writeMsgs[0].buffersCached <==> n > 0) && (n > 0 ==> writeMsgs[0].bufferSize == n)
    {
      var front := writeMsgs[0];
      if !front.buffersCached {
        buffers.data := front.payload;
        var os := Header(|buffers.data|);
        if |os| != HEADER_LENGTH {
          return 0;
        }
        buffers.header := os;
        front := OutMessage(front.payload, true, |os| + |front.payload|);
        writeMsgs := writeMsgs[0 := front];
      }
      n := front.bufferSize;
    }

    /** The outstanding write puts its next `k` bytes on the wire, as the static strings read at this moment. */
    method Transmit(k: nat)
      requires Valid() && writing && written + k <= size
      modifies this`written, this`wire
      ensures Valid() && Outbound() == old(Outbound()) && written == old(written) + k
      ensures old(wire) <= wire && |wire| == |old(wire)| + k
    {
      hide Frame, Frames, StaticBuffers.Bytes;
      ghost var frame := Frame(writeMsgs[0].payload);
      var bytes := if k == 0 then "" else buffers.Bytes()[written..written + k];
      assert frame[..written + k] == frame[..written] + bytes;
      wire := wire + bytes;
      written := written + k;
    }

    /** The write completed without error: pop the front and start the next write, if there is one. */
    method WriteCompleted()
      requires Valid() && writing && written == size
      modifies this`writeMsgs, this`writing, this`size, this`written, this`sent, buffers
      ensures Valid() && wire == old(wire)
      ensures WQ.Enabled(old(Outbound()), WQ.Completed) && Outbound() == WQ.Next(old(Outbound()), WQ.Completed)
    {
      hide Frame, Frames;
      WQ.NextKeepsGood(Outbound(), WQ.Completed);
      var front := writeMsgs[0].payload;
      assert Frame(front)[..written] == Frame(front);
      FramesSnoc(sent, front);
      sent := sent + [front];
      writeMsgs, writing, written := writeMsgs[1..], false, 0;
      if writeMsgs != [] {
        DoWrite();
      }
    }

    /** The write failed: the front stays in the queue, so nothing is ever written again, and closing the socket
        is posted. */
    method WriteFailed()
      requires Valid() && writing
      modifies this`writing, this`failed, this`closePosted
      ensures Valid() && wire == old(wire) && closePosted
      ensures WQ.Enabled(old(Outbound()), WQ.Failed) && Outbound() == WQ.Next(old(Outbound()), WQ.Failed)
    {
      writing, failed := false, true;
      Close();
    }

    /** `close`: post a handler that closes the socket. */
    method Close()
      modifies this`closePosted
      ensures closePosted
    {
      closePosted := true;
    }

    /** The handler posted by `Close`. */
    method RunPostedClose()
      requires Valid() && closePosted
      modifies this`closePosted, this`socketOpen
      ensures Valid() && !socketOpen && !closePosted && wire == old(wire) && Outbound() == old(Outbound())
    {
      closePosted := false;
      if socketOpen {
        socketOpen := false;
      }
    }

    /** End to end: whatever part of the wire a reader received, in whatever chunks, the bodies it read are
        the beginning of the posted payloads that fit a frame; once everything is written and received they
        are all of them. */
    lemma ReaderSeesWhatWasPosted(reader: FrameReader)
      requires Valid() && reader.Valid() && reader.received <= wire
      ensures reader.events <= Bodies(Outbound().All())
      ensures posted == [] && writeMsgs == [] && reader.received == wire ==>
                reader.events == Bodies(Outbound().All()) && !reader.readingBody && reader.arrived == ""
    {
      PrefixReadsPrefix(reader.received, wire);
      WireIsRead(Outbound(), written, wire);
    }
  }

  // ---------------------------------------------------------------- whole conversations

  /** Anything that can happen between a client and the server's reader: a post, a handler, progress or the
      end of the outstanding write, a call of `close`, or the arrival of some more bytes. */
  datatype Happening =
    | Post(payload: string)
    | Handler
    | Progress(bytes: nat)
    | Completion
    | Error
    | CloseCalled
    | CloseHandler
    | Arrival(bytes: nat)

  /** The payloads posted by `script`, in order. */
  function PostedBy(script: seq<Happening>): seq<string> {
    if script == [] then []
    else
      var h := script[|script| - 1];
      PostedBy(script[..|script| - 1]) + if h.Post? then [h.payload] else []
  }

  /** In every conversation the server reads the beginning of what the client posted, and all of it once
      nothing is left to write or to receive. Happenings that cannot occur are skipped. */
  method Converse(client: ChatClient, reader: FrameReader, script: seq<Happening>)
    requires client.Valid() && client.Outbound() == WQ.Empty() && client.wire == ""
    requires reader.Valid() && reader.received == ""
    modifies client, client.buffers, reader
    ensures client.Valid() && reader.Valid() && client.Outbound().All() == PostedBy(script)
    ensures reader.events <= Bodies(PostedBy(script))
    ensures client.posted == [] && client.writeMsgs == [] && |reader.received| == |client.wire| ==>
              reader.events == Bodies(PostedBy(script))
  {
    var at := 0;
    for i := 0 to |script|
      invariant client.Valid() && reader.Valid() && reader.received <= client.wire && at == |reader.received|
      invariant client.Outbound().All() == PostedBy(script[..i])
    {
      assert script[..i + 1][..i] == script[..i];
      at := OneHappening(client, reader, at, script[i]);
    }
    assert script[..|script|] == script;
    client.ReaderSeesWhatWasPosted(reader);
  }

  /** `at` counts the bytes received so far. */
  method OneHappening(client: ChatClient, reader: FrameReader, at: nat, h: Happening) returns (at': nat)
    requires client.Valid() && reader.Valid() && reader.received <= client.wire && at == |reader.received|
    modifies client, client.buffers, reader
    ensures client.Valid() && reader.Valid() && reader.received <= client.wire && at' == |reader.received|
    ensures client.Outbound().All() == old(client.Outbound().All()) + if h.Post? then [h.payload] else []
    ensures old(reader.events) <= reader.events && (!h.Arrival? ==> reader.events == old(reader.events))
  {
    hide Frame, Frames, After, Consume;
    at' := at;
    match h
    case Post(payload) =>
      WQ.NextKeepsGood(client.Outbound(), WQ.Write(payload));
      client.Write(payload);
    case Handler =>
      if client.posted != [] {
        WQ.NextKeepsGood(client.Outbound(), WQ.RunPosted);
        client.RunPostedWrite();
      }
    case Progress(k) =>
      if client.writing && client.written + k <= client.size {
        client.Transmit(k);
      }
    case Completion =>
      if client.writing && client.written == client.size {
        WQ.NextKeepsGood(client.Outbound(), WQ.Completed);
        client.WriteCompleted();
      }
    case Error =>
      if client.writing {
        WQ.NextKeepsGood(client.Outbound(), WQ.Failed);
        client.WriteFailed();
      }
    case CloseCalled =>
      client.Close();
    case CloseHandler =>
      if client.closePosted {
        client.RunPostedClose();
      }
    case Arrival(n) =>
      if at + n <= |client.wire| {
        reader.Receive(client.wire[at..at + n]);
        PrefixReadsPrefix(old(reader.received), reader.received);
        at' := at + n;
      }
  }
}
