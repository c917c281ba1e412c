/**
 * The relay itself: the four shared regions and the static queue state of
 * `ClientCommunication`, changed in place. Every method is proved to move the
 * relay's `View()` exactly as the function of the same name in RelaySpec or
 * PlaybackSpec moves a `RelayState`.
 */
module Relay {
  import opened Common
  import opened SharedMemory
  import opened RelaySpec
  import opened PlaybackSpec
  import opened RelayProperties
  import opened PlaybackProperties

  class ClientCommunication {
    const inRecv: Region
    const outRecv: Region
    const inSend: Region
    const outSend: Region
    var recvQueue: seq<Packet>
    var sendQueue: seq<Packet>
    var queueRecv: bool
    var queueSend: bool
    var ready: bool
    var playing: bool
    var recording: bool
    var recorded: seq<RecorderCall>
    var sendSignals: nat

    /** No two regions share a record or a data area; fixed once the regions are mapped. */
    ghost predicate Distinct() {
      inRecv != outRecv && inRecv != inSend && inRecv != outSend &&
      outRecv != inSend && outRecv != outSend && inSend != outSend &&
      inRecv.Buff != outRecv.Buff && inRecv.Buff != inSend.Buff && inRecv.Buff != outSend.Buff &&
      outRecv.Buff != inSend.Buff && outRecv.Buff != outSend.Buff && inSend.Buff != outSend.Buff
    }

    /** Four well-formed, separate regions. */
    ghost predicate Valid()
      reads this, inRecv, outRecv, inSend, outSend, inRecv.Buff, outRecv.Buff, inSend.Buff, outSend.Buff
    {
      Distinct() && inRecv.Valid() && outRecv.Valid() && inSend.Valid() && outSend.Valid()
    }

    ghost function View(): RelayState
      reads this, inRecv, outRecv, inSend, outSend
    {
      RelayState(inRecv.View(), outRecv.View(), inSend.View(), outSend.View(),
                 recvQueue, sendQueue, queueRecv, queueSend,
                 ready, playing, recording, recorded, sendSignals)
    }

    /** The shared area freshly mapped: empty regions, empty queues, flags lowered. */
    constructor (ready: bool, playing: bool, recording: bool)
      ensures Valid()
      ensures View() == RelayState(RegionView(0, []), RegionView(0, []), RegionView(0, []), RegionView(0, []),
                                   [], [], false, false, ready, playing, recording, [], 0)
    {
      inRecv := new Region();
      outRecv := new Region();
      inSend := new Region();
      outSend := new Region();
      recvQueue, sendQueue := [], [];
      queueRecv, queueSend := false, false;
      this.ready, this.playing, this.recording := ready, playing, recording;
      recorded, sendSignals := [], 0;
    }

    /** The recorder is handed `p` for `path`. */
    method Record(path: Path, p: Option<Packet>)
      requires Valid()
      modifies this`recorded
      ensures Valid() && View() == Recorded(old(View()), path, p)
    {
      recorded := recorded + [RecorderCall(path, p)];
    }

    method ForceSendToClient(p: Packet)
      requires Valid() && OutFits(RelaySpec.ForceSendToClient(View(), p))
      modifies outRecv, outRecv.Buff
      ensures Valid() && View() == RelaySpec.ForceSendToClient(old(View()), p)
    {
      outRecv.CopyToBuffer(p);
    }

    method InitSendFlush()
      requires Valid()
      modifies this`sendSignals
      ensures Valid() && View() == RelaySpec.InitSendFlush(old(View()))
    {
      if outSend.Length == 0 {
        sendSignals := sendSignals + 1;
      }
    }

    method ForceSendToServer(p: Option<Packet>)
      requires Valid() && OutFits(RelaySpec.ForceSendToServer(View(), p))
      modifies this`sendSignals, outSend, outSend.Buff
      ensures Valid() && View() == RelaySpec.ForceSendToServer(old(View()), p)
    {
      if p.None? || |p.value| == 0 {
        return;
      }
      InitSendFlush();
      outSend.CopyToBuffer(p.value);
    }

    method SendToServer(p: Packet)
      requires Valid() && OutFits(RelaySpec.SendToServer(View(), p))
      modifies this, outSend, outSend.Buff
      ensures Valid() && View() == RelaySpec.SendToServer(old(View()), p)
    {
      if !ready || playing {
        return;
      }
      if !queueSend {
        if recording {
          Record(ClientToServer, Some(p));
        }
        ForceSendToServer(Some(p));
      } else {
        sendQueue := sendQueue + [p];
      }
    }

    method SendToClient(p: Packet)
      requires Valid() && OutFits(RelaySpec.SendToClient(View(), p))
      modifies this, outRecv, outRecv.Buff
      ensures Valid() && View() == RelaySpec.SendToClient(old(View()), p)
    {
      if !ready || playing || |p| <= 0 {
        return;
      }
      if !queueRecv {
        if recording {
          Record(ServerToClient, Some(p));
        }
        ForceSendToClient(p);
      } else {
        recvQueue := recvQueue + [p];
      }
    }

    /** The sends a handler requested, in the order it requested them. */
    method RunSends(reqs: seq<SendRequest>)
      requires Valid() && OutFits(SendAll(View(), reqs))
      modifies this, outRecv, outRecv.Buff, outSend, outSend.Buff
      ensures Valid() && View() == SendAll(old(View()), reqs)
    {
      for i := 0 to |reqs|
        invariant Valid()
        invariant SendAll(View(), reqs[i..]) == SendAll(old(View()), reqs)
      {
        assert reqs[i..][1..] == reqs[i + 1..];
        match reqs[i]
        case ToServer(p) => SendToServer(p);
        case ToClient(p) => SendToClient(p);
      }
    }

    /** The region a drain of `path` reads. */
    function InFor(path: Path): (r: Region)
      ensures r == if path == ServerToClient then inRecv else inSend
    {
      if path == ServerToClient then inRecv else inSend
    }

    /** The region a drain of `path` writes. */
    function OutFor(path: Path): (r: Region)
      ensures r == if path == ServerToClient then outRecv else outSend
    {
      if path == ServerToClient then outRecv else outSend
    }

    /** One frame through the recorder, the handler, its sends and the write decision. */
    method DispatchFrame(o: Collaborators, path: Path, frame: Packet)
      requires Valid() && |frame| > 0 && OutFits(Dispatch(o, path, View(), frame))
      modifies this, outRecv, outRecv.Buff, outSend, outSend.Buff
      ensures Valid() && View() == Dispatch(o, path, old(View()), frame)
    {
      var viewer := o.hasViewer(path, frame[0]);
      var filter := o.hasFilter(path, frame[0]);
      if path == ClientToServer {
        DispatchToServer(o, frame, viewer, filter);
      } else {
        DispatchToClient(o, frame, viewer, filter);
      }
    }

    /** A client frame: the recorder may block it, then the handler may. */
    method DispatchToServer(o: Collaborators, frame: Packet, viewer: bool, filter: bool)
      requires Valid() && |frame| > 0 && OutFits(Dispatch(o, ClientToServer, View(), frame))
      requires viewer == o.hasViewer(ClientToServer, frame[0]) && filter == o.hasFilter(ClientToServer, frame[0])
      modifies this, outRecv, outRecv.Buff, outSend, outSend.Buff
      ensures Valid() && View() == Dispatch(o, ClientToServer, old(View()), frame)
    {
      var p: Option<Packet> := if filter then Some(frame) else None;
      Record(ClientToServer, p);
      if o.recorderAccepts(ClientToServer, p) {
        Handle(o, frame, viewer, filter);
      }
    }

    /** A client frame the recorder let through: the handler, its sends, then the write unless blocked. */
    method Handle(o: Collaborators, frame: Packet, viewer: bool, filter: bool)
      requires Valid() && OutFits(RelaySpec.Handle(o, View(), frame, viewer, filter))
      modifies this, outRecv, outRecv.Buff, outSend, outSend.Buff
      ensures Valid() && View() == RelaySpec.Handle(o, old(View()), frame, viewer, filter)
    {
      var v := o.handle(ClientToServer, frame, viewer, filter);
      RunSends(v.sends);
      if !v.blocked {
        outSend.CopyToBuffer(if filter then v.edited else frame);
      }
    }

    /** A server frame: dropped while playing back, else the handler and then the recorder may block it. */
    method DispatchToClient(o: Collaborators, frame: Packet, viewer: bool, filter: bool)
      requires Valid() && |frame| > 0 && OutFits(Dispatch(o, ServerToClient, View(), frame))
      requires viewer == o.hasViewer(ServerToClient, frame[0]) && filter == o.hasFilter(ServerToClient, frame[0])
      modifies this, outRecv, outRecv.Buff, outSend, outSend.Buff
      ensures Valid() && View() == Dispatch(o, ServerToClient, old(View()), frame)
    {
      ghost var s0 := View();
      ghost var goal := Dispatch(o, ServerToClient, s0, frame);
      if playing {
        assert goal == s0;
        return;
      }
      var v := o.handle(ServerToClient, frame, viewer, filter);
      assert OutGrows(SendAll(s0, v.sends), goal);
      RunSends(v.sends);
      Deliver(o, frame, filter, v);
    }

    /** A server frame after its handler's sends: unless blocked, the recorder sees it and may still block it. */
    method Deliver(o: Collaborators, frame: Packet, filter: bool, v: Verdict)
      requires Valid() && OutFits(RelaySpec.Deliver(o, View(), frame, filter, v))
      modifies this`recorded, outRecv, outRecv.Buff
      ensures Valid() && View() == RelaySpec.Deliver(o, old(View()), frame, filter, v)
    {
      if v.blocked {
        return;
      }
      var p2: Option<Packet> := if filter then Some(v.edited) else None;
      Record(ServerToClient, p2);
      if o.recorderAccepts(ServerToClient, p2) {
        outRecv.CopyToBuffer(if filter then v.edited else frame);
      }
    }

    /** After a frame: empty `path`'s queue into its outbound region in FIFO order, or discard it while playing back. */
    method FlushQueue(path: Path)
      requires Valid() && OutFits(RelaySpec.FlushQueue(View(), path))
      modifies this, outRecv, outRecv.Buff, outSend, outSend.Buff
      ensures Valid() && View() == RelaySpec.FlushQueue(old(View()), path)
    {
      if playing {
        if path == ServerToClient { recvQueue := []; } else { sendQueue := []; }
        return;
      }
      while (if path == ServerToClient then recvQueue else sendQueue) != []
        invariant Valid() && !playing
        invariant DequeueAll(View(), path) == DequeueAll(old(View()), path)
        invariant OutFits(DequeueAll(View(), path))
        decreases |View().Queue(path)|
      {
        Dequeue(path);
      }
    }

    /** One turn of the dequeue loop: the head packet goes to the recorder when recording, then out. */
    method Dequeue(path: Path)
      requires Valid() && View().Queue(path) != [] && OutFits(DequeueOne(View(), path))
      modifies this, outRecv, outRecv.Buff, outSend, outSend.Buff
      ensures Valid() && View() == DequeueOne(old(View()), path)
    {
      var p: Packet;
      if path == ServerToClient {
        p := recvQueue[0];
        recvQueue := recvQueue[1..];
      } else {
        p := sendQueue[0];
        sendQueue := sendQueue[1..];
      }
      if recording {
        recorded := recorded + [RecorderCall(path, Some(p))];
      }
      if path == ServerToClient {
        outRecv.CopyToBuffer(p);
      } else {
        outSend.CopyToBuffer(p);
      }
    }

    /** `HandleComm`: drain `path`'s inbound region frame by frame. */
    method HandleComm(o: Collaborators, path: Path)
      requires Valid() && OutFits(Drain(o, path, View()))
      modifies this, inRecv, inSend, outRecv, outRecv.Buff, outSend, outSend.Buff
      ensures Valid() && View() == Drain(o, path, old(View()))
    {
      var inBuff := InFor(path);
      while inBuff.Length > 0
        invariant Valid()
        invariant Drain(o, path, View()) == Drain(o, path, old(View()))
        invariant OutFits(Drain(o, path, View()))
        decreases inBuff.Length
      {
        ghost var before := View();
        var bytes := inBuff.Peek(inBuff.Length);
        var len := o.packetLength(bytes, inBuff.Length);
        if len > inBuff.Length || len <= 0 {
          assert bytes == before.In(path).pending;
          break;
        }
        assert bytes == before.In(path).pending;
        DrainUnfolds(o, path, before);
        assert OutGrows(Step(o, path, before), Drain(o, path, before));
        ForwardFrame(o, path, len);
      }
      DrainStops(o, path, View());
    }

    /** The body of the drain loop once a frame of `len` bytes is known to be there. */
    method ForwardFrame(o: Collaborators, path: Path, len: int)
      requires Valid() && HasFrame(o, View().In(path)) && len == NextLength(o, View().In(path))
      requires OutFits(Step(o, path, View()))
      modifies this, inRecv, inSend, outRecv, outRecv.Buff, outSend, outSend.Buff
      ensures Valid() && View() == Step(o, path, old(View()))
      ensures InFor(path).Length == old(InFor(path).Length) - len
    {
      ghost var s0 := View();
      var frame := TakeFrame(path, len);
      StepIs(o, path, s0);
      DispatchAndFlush(o, path, frame);
    }

    /** The next `len` unread bytes of `path`'s inbound region, copied out and consumed. */
    method TakeFrame(path: Path, len: int) returns (frame: Packet)
      requires Valid() && 0 < len <= InFor(path).Length
      modifies inRecv, inSend
      ensures Valid() && View() == RelaySpec.Consume(old(View()), path, len)
      ensures frame == old(View()).In(path).pending[..len]
      ensures InFor(path).Length == old(InFor(path).Length) - len
    {
      frame := InFor(path).Peek(len);
      Consume(path, len);
    }

    /** A taken frame through the handlers, then the queue flushed or cleared. */
    method DispatchAndFlush(o: Collaborators, path: Path, frame: Packet)
      requires Valid() && |frame| > 0 && OutFits(RelaySpec.FlushQueue(Dispatch(o, path, View(), frame), path))
      modifies this, outRecv, outRecv.Buff, outSend, outSend.Buff
      ensures Valid() && View() == RelaySpec.FlushQueue(Dispatch(o, path, old(View()), frame), path)
    {
      DispatchFrame(o, path, frame);
      FlushQueue(path);
    }

    /** `Start += len; Length -= len` on `path`'s inbound region. */
    method Consume(path: Path, len: int)
      requires Valid() && 0 < len <= InFor(path).Length
      modifies inRecv, inSend
      ensures Valid() && View() == RelaySpec.Consume(old(View()), path, len)
      ensures InFor(path).Length == old(InFor(path).Length) - len
    {
      if path == ServerToClient {
        inRecv.Advance(len);
      } else {
        inSend.Advance(len);
      }
    }

    /** `OnRecv`: drain the client-bound traffic with the receive queue flag raised. */
    method OnRecv(o: Collaborators)
      requires Valid() && OutFits(Drain(o, ServerToClient, View().WithQueuing(ServerToClient, true)))
      modifies this, inRecv, inSend, outRecv, outRecv.Buff, outSend, outSend.Buff
      ensures Valid() && View() == Pass(o, ServerToClient, old(View()))
    {
      ghost var s0 := View();
      queueRecv := true;
      assert View() == s0.WithQueuing(ServerToClient, true);
      HandleComm(o, ServerToClient);
      ghost var d := View();
      queueRecv := false;
      assert View() == d.WithQueuing(ServerToClient, false);
    }

    /** `OnSend`: drain the server-bound traffic with the send queue flag raised. */
    method OnSend(o: Collaborators)
      requires Valid() && OutFits(Drain(o, ClientToServer, View().WithQueuing(ClientToServer, true)))
      modifies this, inRecv, inSend, outRecv, outRecv.Buff, outSend, outSend.Buff
      ensures Valid() && View() == Pass(o, ClientToServer, old(View()))
    {
      ghost var s0 := View();
      queueSend := true;
      assert View() == s0.WithQueuing(ClientToServer, true);
      HandleComm(o, ClientToServer);
      ghost var d := View();
      queueSend := false;
      assert View() == d.WithQueuing(ClientToServer, false);
    }

    /**
     * `ProcessPlaybackData` on the recording `stream` read from `pos`; returns how
     * the call ended and the reader's new position.
     */
    method ProcessPlaybackData(o: Collaborators, h: PlaybackHooks, stream: seq<byte>, pos: int)
      returns (outcome: PlaybackOutcome, position: int)
      requires Valid() && 0 <= pos <= |stream| && OutFits(View())
      modifies this, outRecv, outRecv.Buff, outSend, outSend.Buff
      ensures Valid()
      ensures View() == Playback(o, h, old(View()), stream, pos).state
      ensures outcome == Playback(o, h, old(View()), stream, pos).outcome
      ensures position == Playback(o, h, old(View()), stream, pos).position
    {
      var read := ReadFrame(o, stream, pos);
      if read.SeekFailed? {
        return SeekFault, read.position;
      }
      if read.BadLength? {
        return InvalidLength, read.position;
      }
      var frame := read.bytes;
      position := read.position;
      if ExcludedFrame(h, frame) {
        return Excluded, position;
      }
      var scaled := Rescaled(h, frame);
      var viewer := o.hasViewer(ServerToClient, scaled[0]);
      var filter := o.hasFilter(ServerToClient, scaled[0]);
      var rewritten := Rewritten(h, scaled);
      if rewritten.None? || |rewritten.value| == 0 {
        return IndexFault, position;
      }
      var b := rewritten.value;
      outcome := ReplayFrame(o, b, viewer, filter);
    }

    /** A frame that passed every test: the handlers run with sends held back, then it is appended once it fits. */
    method ReplayFrame(o: Collaborators, b: Packet, viewer: bool, filter: bool) returns (outcome: PlaybackOutcome)
      requires Valid() && OutFits(View())
      modifies this, outRecv, outRecv.Buff, outSend, outSend.Buff
      ensures Valid()
      ensures View() == Replay(o, old(View()), b, viewer, filter, 0).state
      ensures outcome == Replay(o, old(View()), b, viewer, filter, 0).outcome
    {
      var v := o.handle(ServerToClient, b, viewer, filter);
      HandlerSendsVanish(View(), v.sends);
      RunQuietly(v.sends);
      if outRecv.Start + outRecv.Length + |b| >= SHARED_BUFF_SIZE {
        return Waiting;
      }
      outRecv.CopyToBuffer(b);
      outcome := Written;
    }

    /**
     * The replay handler's window: both queue flags raised while its sends run,
     * then both lowered and both queues cleared, so that the sends vanish.
     */
    method RunQuietly(sends: seq<SendRequest>)
      requires Valid() && OutFits(View())
      modifies this, outRecv, outRecv.Buff, outSend, outSend.Buff
      ensures Valid()
      ensures View() == old(View()).(queueRecv := false, queueSend := false, recvQueue := [], sendQueue := [])
    {
      queueRecv, queueSend := true, true;
      HoldSends(sends);
      queueRecv, queueSend := false, false;
    }

    /** With both flags raised, the sends only fill the queues, which are then cleared. */
    method HoldSends(sends: seq<SendRequest>)
      requires Valid() && queueRecv && queueSend && OutFits(View())
      modifies this, outRecv, outRecv.Buff, outSend, outSend.Buff
      ensures Valid() && View() == old(View()).(recvQueue := [], sendQueue := [])
    {
      SendsHeld(View(), sends);
      RunSends(sends);
      recvQueue, sendQueue := [], [];
    }
  }

  /** `Step` spelled out, so that the drain loop's body can be matched against it. */
  lemma StepIs(o: Collaborators, path: Path, s: RelayState)
    requires HasFrame(o, s.In(path))
    ensures var len := NextLength(o, s.In(path));
      Step(o, path, s) ==
      RelaySpec.FlushQueue(Dispatch(o, path, RelaySpec.Consume(s, path, len), s.In(path).pending[..len]), path)
  {
  }
}
