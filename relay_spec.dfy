/**
 * The packet relay as a state machine over values. Every operation of the
 * imperative relay (module Relay) is proved to move its state exactly as the
 * function of the same name here moves a `RelayState`; the properties the relay
 * promises are lemmas about these functions.
 */
module RelaySpec {
  import opened Common
  import opened SharedMemory

  /** The compiled byte image of a packet; its first byte is the opcode. */
  type Packet = seq<byte>

  /** The direction a drain works on (`PacketPath.ClientToServer` / `ServerToClient`). */
  datatype Path = ClientToServer | ServerToClient

  function Other(path: Path): Path {
    if path == ClientToServer then ServerToClient else ClientToServer
  }

  /** A packet a handler asks to send while it runs (`SendToServer` / `SendToClient`). */
  datatype SendRequest = ToServer(packet: Packet) | ToClient(packet: Packet)

  /**
   * What a packet handler hands back: whether to block the frame, the compiled
   * bytes of the filter packet after its edits (used only when a filter exists),
   * and the sends it requested, in the order it requested them.
   */
  datatype Verdict = Verdict(blocked: bool, edited: Packet, sends: seq<SendRequest>)

  /** One call into the session recorder; `None` stands for the null packet. */
  datatype RecorderCall = RecorderCall(path: Path, packet: Option<Packet>)

  /**
   * The collaborators the relay consults and cannot see into: the native frame
   * length classifier (`GetPacketLength(data, bufLen)`), the handler table
   * (`Has*Viewer`, `Has*Filter`, `On*Packet`) and the recorder's verdict
   * (`PacketPlayer.ClientPacket` / `ServerPacket` return false to block).
   */
  datatype Collaborators = Collaborators(
    packetLength: (seq<byte>, int) -> int,
    hasViewer: (Path, byte) -> bool,
    hasFilter: (Path, byte) -> bool,
    handle: (Path, Packet, bool, bool) -> Verdict,
    recorderAccepts: (Path, Option<Packet>) -> bool)

  /**
   * The relay's state: the four regions, the two direction queues and their
   * flags (`m_QueueRecv`, `m_QueueSend`), the session mode (`m_Ready`,
   * `PacketPlayer.Playing`, `PacketPlayer.Recording`), the calls made into the
   * recorder and the number of "send" signals posted to the client window.
   */
  datatype RelayState = RelayState(
    inRecv: RegionView, outRecv: RegionView, inSend: RegionView, outSend: RegionView,
    recvQueue: seq<Packet>, sendQueue: seq<Packet>,
    queueRecv: bool, queueSend: bool,
    ready: bool, playing: bool, recording: bool,
    recorded: seq<RecorderCall>, sendSignals: nat)
  {
    /** The region a drain of `path` reads. */
    function In(path: Path): RegionView {
      if path == ServerToClient then inRecv else inSend
    }

    /** The region a drain of `path` writes. */
    function Out(path: Path): RegionView {
      if path == ServerToClient then outRecv else outSend
    }

    function Queue(path: Path): seq<Packet> {
      if path == ServerToClient then recvQueue else sendQueue
    }

    function Queuing(path: Path): bool {
      if path == ServerToClient then queueRecv else queueSend
    }

    function WithIn(path: Path, r: RegionView): RelayState {
      if path == ServerToClient then this.(inRecv := r) else this.(inSend := r)
    }

    function WithOut(path: Path, r: RegionView): RelayState {
      if path == ServerToClient then this.(outRecv := r) else this.(outSend := r)
    }

    function WithQueue(path: Path, q: seq<Packet>): RelayState {
      if path == ServerToClient then this.(recvQueue := q) else this.(sendQueue := q)
    }

    function WithQueuing(path: Path, b: bool): RelayState {
      if path == ServerToClient then this.(queueRecv := b) else this.(queueSend := b)
    }
  }

  /** Both outbound regions keep their unread bytes inside their data areas. */
  predicate OutFits(s: RelayState) {
    Fits(s.outRecv) && Fits(s.outSend)
  }

  /**
   * From `s` to `r` the outbound regions kept their start and did not shrink,
   * so room that `r` needs was already there in `s`.
   */
  predicate OutGrows(s: RelayState, r: RelayState) {
    r.outRecv.start == s.outRecv.start && |s.outRecv.pending| <= |r.outRecv.pending| &&
    r.outSend.start == s.outSend.start && |s.outSend.pending| <= |r.outSend.pending|
  }

  /** The queue flags and the session mode agree. */
  predicate SameMode(s: RelayState, r: RelayState) {
    r.queueRecv == s.queueRecv && r.queueSend == s.queueSend &&
    r.ready == s.ready && r.playing == s.playing && r.recording == s.recording
  }

  /** What every send, dispatch and flush leaves alone or only grows. */
  predicate Steady(s: RelayState, r: RelayState) {
    r.inRecv == s.inRecv && r.inSend == s.inSend && SameMode(s, r) && OutGrows(s, r)
  }

  /** The recorder is handed `p` for `path`. */
  function Recorded(s: RelayState, path: Path, p: Option<Packet>): RelayState {
    s.(recorded := s.recorded + [RecorderCall(path, p)])
  }

  // ---------------------------------------------------------------- sends

  /** `ForceSendToClient`: the packet is copied to the client-bound region. */
  function ForceSendToClient(s: RelayState, p: Packet): (r: RelayState)
    ensures Steady(s, r)
  {
    s.(outRecv := Appended(s.outRecv, p))
  }

  /** `InitSendFlush`: signal the client only when its outbound region is empty. */
  function InitSendFlush(s: RelayState): RelayState {
    if |s.outSend.pending| == 0 then s.(sendSignals := s.sendSignals + 1) else s
  }

  /** `ForceSendToServer`: null or empty packets are ignored. */
  function ForceSendToServer(s: RelayState, p: Option<Packet>): (r: RelayState)
    ensures Steady(s, r)
  {
    if p.None? || |p.value| == 0 then s
    else
      var s1 := InitSendFlush(s);
      s1.(outSend := Appended(s1.outSend, p.value))
  }

  /** The sends only act when the session is ready and not playing back. */
  predicate Live(s: RelayState) {
    s.ready && !s.playing
  }

  /** `SendToServer`: dropped unless live; queued while a client drain runs; else recorded and written. */
  function SendToServer(s: RelayState, p: Packet): (r: RelayState)
    ensures Steady(s, r)
  {
    if !Live(s) then s
    else if !s.queueSend then
      ForceSendToServer(if s.recording then Recorded(s, ClientToServer, Some(p)) else s, Some(p))
    else s.(sendQueue := s.sendQueue + [p])
  }

  /** `SendToClient`: as `SendToServer`, and empty packets are dropped too. */
  function SendToClient(s: RelayState, p: Packet): (r: RelayState)
    ensures Steady(s, r)
  {
    if !Live(s) || |p| == 0 then s
    else if !s.queueRecv then
      ForceSendToClient(if s.recording then Recorded(s, ServerToClient, Some(p)) else s, p)
    else s.(recvQueue := s.recvQueue + [p])
  }

  function Send(s: RelayState, req: SendRequest): (r: RelayState)
    ensures Steady(s, r)
  {
    match req
    case ToServer(p) => SendToServer(s, p)
    case ToClient(p) => SendToClient(s, p)
  }

  /** The sends a handler requested, carried out in the order it requested them. */
  function SendAll(s: RelayState, reqs: seq<SendRequest>): (r: RelayState)
    ensures Steady(s, r)
    decreases |reqs|
  {
    if reqs == [] then s else SendAll(Send(s, reqs[0]), reqs[1..])
  }

  // ---------------------------------------------------------------- queues

  /** The packets of a queue, concatenated in FIFO order. */
  function Concat(q: seq<Packet>): seq<byte> {
    if q == [] then [] else q[0] + Concat(q[1..])
  }

  /** One recorder call per queued packet, in queue order. */
  function Calls(path: Path, q: seq<Packet>): seq<RecorderCall> {
    if q == [] then [] else [RecorderCall(path, Some(q[0]))] + Calls(path, q[1..])
  }

  /** One turn of the inner `while (queue.Count > 0)` loop: dequeue, hand to the recorder when recording, copy out. */
  function DequeueOne(s: RelayState, path: Path): (r: RelayState)
    requires s.Queue(path) != []
    ensures Steady(s, r)
    ensures |r.Queue(path)| < |s.Queue(path)|
  {
    var q := s.Queue(path);
    var rec := s.recorded + if s.recording then [RecorderCall(path, Some(q[0]))] else [];
    match path
    case ServerToClient =>
      s.(recvQueue := q[1..], outRecv := Appended(s.outRecv, q[0]), recorded := rec)
    case ClientToServer =>
      s.(sendQueue := q[1..], outSend := Appended(s.outSend, q[0]), recorded := rec)
  }

  /** The inner `while (queue.Count > 0)` loop run to the end. */
  function DequeueAll(s: RelayState, path: Path): (r: RelayState)
    ensures Steady(s, r)
    decreases |s.Queue(path)|
  {
    if s.Queue(path) == [] then s else DequeueAll(DequeueOne(s, path), path)
  }

  /**
   * The queue emptied into its outbound region: its packets appended in FIFO
   * order, each exactly once, and handed to the recorder in the same order when
   * recording.
   */
  function Flushed(s: RelayState, path: Path): RelayState {
    var rec := s.recorded + if s.recording then Calls(path, s.Queue(path)) else [];
    match path
    case ServerToClient =>
      s.(recvQueue := [], outRecv := Appended(s.outRecv, Concat(s.recvQueue)), recorded := rec)
    case ClientToServer =>
      s.(sendQueue := [], outSend := Appended(s.outSend, Concat(s.sendQueue)), recorded := rec)
  }

  /** The dequeue loop is the FIFO flush. */
  lemma {:induction false} DequeueAllFlushesInOrder(s: RelayState, path: Path)
    ensures DequeueAll(s, path) == Flushed(s, path)
    decreases |s.Queue(path)|
  {
    var q := s.Queue(path);
    if q != [] {
      var s1 := DequeueOne(s, path);
      DequeueAllFlushesInOrder(s1, path);
      assert s1.Queue(path) == q[1..];
      assert Concat(q) == q[0] + Concat(q[1..]);
      assert Calls(path, q) == [RecorderCall(path, Some(q[0]))] + Calls(path, q[1..]);
      match path
      case ServerToClient =>
        assert s1.outRecv.pending == s.outRecv.pending + q[0];
      case ClientToServer =>
        assert s1.outSend.pending == s.outSend.pending + q[0];
    }
  }

  /** After each frame: flush the queue when live traffic flows, discard it during playback. */
  function FlushQueue(s: RelayState, path: Path): (r: RelayState)
    ensures Steady(s, r)
  {
    if !s.playing then DequeueAll(s, path) else s.WithQueue(path, [])
  }

  // ---------------------------------------------------------------- drain

  /** The classifier's answer for the unread bytes of a region. */
  function NextLength(o: Collaborators, r: RegionView): int {
    o.packetLength(r.pending, |r.pending|)
  }

  /** The drain loop takes a frame: bytes are left and the classifier's length is in `1..Length`. */
  predicate HasFrame(o: Collaborators, r: RegionView) {
    |r.pending| > 0 && 0 < NextLength(o, r) <= |r.pending|
  }

  /** `Start += len; Length -= len`. */
  function Consume(s: RelayState, path: Path, len: int): (r: RelayState)
    requires 0 < len <= |s.In(path).pending|
  {
    s.WithIn(path, RegionView(s.In(path).start + len, s.In(path).pending[len..]))
  }

  /**
   * One frame through the handlers: the interest lookup, the recorder and the
   * handler, the handler's own sends, and the write of the recompiled packet
   * (a filter exists) or of the raw frame (none does) unless the frame is blocked.
   */
  function Dispatch(o: Collaborators, path: Path, s: RelayState, frame: Packet): (r: RelayState)
    requires |frame| > 0
    ensures Steady(s, r)
  {
    var viewer := o.hasViewer(path, frame[0]);
    var filter := o.hasFilter(path, frame[0]);
    var p: Option<Packet> := if filter then Some(frame) else None;
    match path
    case ClientToServer =>
      var s1 := Recorded(s, ClientToServer, p);
      if !o.recorderAccepts(ClientToServer, p) then s1
      else Handle(o, s1, frame, viewer, filter)
    case ServerToClient =>
      if s.playing then s
      else
        var v := o.handle(ServerToClient, frame, viewer, filter);
        Deliver(o, SendAll(s, v.sends), frame, filter, v)
  }

  /** A client frame the recorder let through: the handler, its sends, then the write unless it blocked the frame. */
  function Handle(o: Collaborators, s: RelayState, frame: Packet, viewer: bool, filter: bool): (r: RelayState)
    ensures Steady(s, r)
  {
    var v := o.handle(ClientToServer, frame, viewer, filter);
    var s2 := SendAll(s, v.sends);
    if v.blocked then s2
    else s2.(outSend := Appended(s2.outSend, if filter then v.edited else frame))
  }

  /** After a server frame's handler and its sends: unless blocked, the recorder sees it and may still block it. */
  function Deliver(o: Collaborators, s: RelayState, frame: Packet, filter: bool, v: Verdict): (r: RelayState)
    ensures Steady(s, r)
  {
    if v.blocked then s
    else
      var p2: Option<Packet> := if filter then Some(v.edited) else None;
      var s3 := Recorded(s, ServerToClient, p2);
      if !o.recorderAccepts(ServerToClient, p2) then s3
      else s3.(outRecv := Appended(s3.outRecv, if filter then v.edited else frame))
  }

  /** One iteration of the drain loop: take the frame, dispatch it, then flush or clear the queue. */
  function Step(o: Collaborators, path: Path, s: RelayState): (r: RelayState)
    requires HasFrame(o, s.In(path))
    ensures r.In(path) == RegionView(s.In(path).start + NextLength(o, s.In(path)),
                                     s.In(path).pending[NextLength(o, s.In(path))..])
    ensures r.In(Other(path)) == s.In(Other(path))
    ensures SameMode(s, r) && OutGrows(s, r)
  {
    var len := NextLength(o, s.In(path));
    var frame := s.In(path).pending[..len];
    FlushQueue(Dispatch(o, path, Consume(s, path, len), frame), path)
  }

  /**
   * `HandleComm`: take frames while the classifier reports a complete one. The
   * outbound regions are only appended to and the mode does not change.
   */
  function Drain(o: Collaborators, path: Path, s: RelayState): (r: RelayState)
    ensures SameMode(s, r) && OutGrows(s, r)
    decreases |s.In(path).pending|
  {
    if HasFrame(o, s.In(path)) then Drain(o, path, Step(o, path, s)) else s
  }

  /** `OnRecv` / `OnSend`: raise the direction's queue flag for the length of a drain. */
  function Pass(o: Collaborators, path: Path, s: RelayState): RelayState {
    Drain(o, path, s.WithQueuing(path, true)).WithQueuing(path, false)
  }
}

/**
 * What the relay promises about its state machine: sends are gated and deferred
 * while a drain of their direction runs, frames are forwarded or blocked as the
 * handlers decide, replay leaks nothing to the client, and a drain forwards its
 * frames in arrival order with each frame's deferred sends right after it.
 */
module RelayProperties {
  import opened Common
  import opened SharedMemory
  import opened RelaySpec

  /** A send while not ready or while playing back changes nothing; otherwise it is queued iff its direction's flag is raised and written iff it is not. */
  lemma SendGating(s: RelayState, p: Packet)
    ensures !Live(s) ==> SendToServer(s, p) == s && SendToClient(s, p) == s
    ensures |p| == 0 ==> SendToClient(s, p) == s
    ensures Live(s) && s.queueSend ==>
      SendToServer(s, p).sendQueue == s.sendQueue + [p] && SendToServer(s, p).outSend == s.outSend
    ensures Live(s) && !s.queueSend ==>
      SendToServer(s, p).sendQueue == s.sendQueue &&
      SendToServer(s, p).outSend.pending == s.outSend.pending + p
    ensures Live(s) && |p| > 0 && s.queueRecv ==>
      SendToClient(s, p).recvQueue == s.recvQueue + [p] && SendToClient(s, p).outRecv == s.outRecv
    ensures Live(s) && |p| > 0 && !s.queueRecv ==>
      SendToClient(s, p).recvQueue == s.recvQueue &&
      SendToClient(s, p).outRecv.pending == s.outRecv.pending + p
  {
  }

  /** `InitSendFlush` signals exactly when the server-bound region holds nothing unread. */
  lemma SendSignalOnlyWhenEmpty(s: RelayState, p: Packet)
    requires |p| > 0
    ensures ForceSendToServer(s, Some(p)).sendSignals ==
            s.sendSignals + if |s.outSend.pending| == 0 then 1 else 0
    ensures ForceSendToServer(s, None) == s && ForceSendToServer(s, Some([])) == s
  {
  }

  /** The packet a request puts on `path`'s queue, if the session accepts it. */
  function QueuedOne(path: Path, live: bool, req: SendRequest): seq<Packet> {
    match req
    case ToServer(p) => if path == ClientToServer && live then [p] else []
    case ToClient(p) => if path == ServerToClient && live && |p| > 0 then [p] else []
  }

  /** The packets of `reqs` bound for `path` that a session accepts onto that direction's queue. */
  function QueuedBy(path: Path, live: bool, reqs: seq<SendRequest>): seq<Packet> {
    if reqs == [] then [] else QueuedOne(path, live, reqs[0]) + QueuedBy(path, live, reqs[1..])
  }

  /** One send while `path`'s flag is raised. */
  lemma SendWaits(s: RelayState, path: Path, req: SendRequest)
    requires s.Queuing(path)
    ensures Send(s, req).Out(path) == s.Out(path)
    ensures Send(s, req).Queue(path) == s.Queue(path) + QueuedOne(path, Live(s), req)
  {
    match path
    case ServerToClient =>
      match req {
        case ToServer(p) =>
        case ToClient(p) =>
      }
    case ClientToServer =>
      match req {
        case ToServer(p) =>
        case ToClient(p) =>
      }
  }

  /**
   * While `path`'s flag is raised, whatever a handler sends toward `path` goes to
   * the queue in request order and nothing reaches `path`'s outbound region.
   */
  lemma {:induction false} QueuedSendsWait(s: RelayState, path: Path, reqs: seq<SendRequest>)
    requires s.Queuing(path)
    ensures SendAll(s, reqs).Out(path) == s.Out(path)
    ensures SendAll(s, reqs).Queue(path) == s.Queue(path) + QueuedBy(path, Live(s), reqs)
    decreases |reqs|
  {
    if reqs != [] {
      var s1 := Send(s, reqs[0]);
      SendWaits(s, path, reqs[0]);
      assert SameMode(s, s1);
      QueuedSendsWait(s1, path, reqs[1..]);
    }
  }

  /** Whether the handler runs for a frame, and what it decides. */
  function HandlerVerdict(o: Collaborators, path: Path, playing: bool, frame: Packet): Option<Verdict>
    requires |frame| > 0
  {
    var viewer := o.hasViewer(path, frame[0]);
    var filter := o.hasFilter(path, frame[0]);
    var p: Option<Packet> := if filter then Some(frame) else None;
    match path
    case ClientToServer =>
      if o.recorderAccepts(ClientToServer, p) then Some(o.handle(path, frame, viewer, filter)) else None
    case ServerToClient =>
      if playing then None else Some(o.handle(path, frame, viewer, filter))
  }

  /**
   * The bytes a frame itself puts on its outbound region: nothing when the
   * recorder, the handler or playback blocks it; otherwise the recompiled packet
   * when a filter exists and the raw frame when none does.
   */
  function Forwarded(o: Collaborators, path: Path, playing: bool, frame: Packet): seq<byte>
    requires |frame| > 0
  {
    var filter := o.hasFilter(path, frame[0]);
    match HandlerVerdict(o, path, playing, frame)
    case None => []
    case Some(v) =>
      var image := if filter then v.edited else frame;
      if v.blocked then []
      else if path == ServerToClient && !o.recorderAccepts(ServerToClient, if filter then Some(v.edited) else None) then []
      else image
  }

  /** The sends the handler requested for a frame (none when it did not run). */
  function Requested(o: Collaborators, path: Path, playing: bool, frame: Packet): seq<SendRequest>
    requires |frame| > 0
  {
    match HandlerVerdict(o, path, playing, frame)
    case None => []
    case Some(v) => v.sends
  }

  /**
   * The write decision: with the direction's flag raised, a frame adds exactly
   * `Forwarded` to its outbound region, and its handler's sends toward the same
   * direction join the queue.
   */
  lemma WriteDecision(o: Collaborators, path: Path, s: RelayState, frame: Packet)
    requires |frame| > 0 && s.Queuing(path)
    ensures Dispatch(o, path, s, frame).Out(path).pending ==
            s.Out(path).pending + Forwarded(o, path, s.playing, frame)
    ensures Dispatch(o, path, s, frame).Queue(path) ==
            s.Queue(path) + QueuedBy(path, Live(s), Requested(o, path, s.playing, frame))
  {
    match path
    case ClientToServer => ServerBoundWrite(o, s, frame);
    case ServerToClient => ClientBoundWrite(o, s, frame);
  }

  /** `WriteDecision` for a client frame. */
  lemma ServerBoundWrite(o: Collaborators, s: RelayState, frame: Packet)
    requires |frame| > 0 && s.queueSend
    ensures Dispatch(o, ClientToServer, s, frame).outSend.pending ==
            s.outSend.pending + Forwarded(o, ClientToServer, s.playing, frame)
    ensures Dispatch(o, ClientToServer, s, frame).sendQueue ==
            s.sendQueue + QueuedBy(ClientToServer, Live(s), Requested(o, ClientToServer, s.playing, frame))
  {
    var filter := o.hasFilter(ClientToServer, frame[0]);
    var p: Option<Packet> := if filter then Some(frame) else None;
    if o.recorderAccepts(ClientToServer, p) {
      var viewer := o.hasViewer(ClientToServer, frame[0]);
      var v := o.handle(ClientToServer, frame, viewer, filter);
      assert HandlerVerdict(o, ClientToServer, s.playing, frame) == Some(v);
      QueuedSendsWait(Recorded(s, ClientToServer, p), ClientToServer, v.sends);
    }
  }

  /** `WriteDecision` for a server frame. */
  lemma ClientBoundWrite(o: Collaborators, s: RelayState, frame: Packet)
    requires |frame| > 0 && s.queueRecv
    ensures Dispatch(o, ServerToClient, s, frame).outRecv.pending ==
            s.outRecv.pending + Forwarded(o, ServerToClient, s.playing, frame)
    ensures Dispatch(o, ServerToClient, s, frame).recvQueue ==
            s.recvQueue + QueuedBy(ServerToClient, Live(s), Requested(o, ServerToClient, s.playing, frame))
  {
    if !s.playing {
      var viewer := o.hasViewer(ServerToClient, frame[0]);
      var filter := o.hasFilter(ServerToClient, frame[0]);
      var v := o.handle(ServerToClient, frame, viewer, filter);
      assert HandlerVerdict(o, ServerToClient, s.playing, frame) == Some(v);
      QueuedSendsWait(s, ServerToClient, v.sends);
    }
  }

  /**
   * No leak during playback: a server-to-client drain while playing back writes
   * nothing to either outbound region and hands nothing to the recorder.
   */
  lemma {:induction false} NoLeakDuringPlayback(o: Collaborators, s: RelayState)
    requires s.playing
    ensures Drain(o, ServerToClient, s).outRecv == s.outRecv
    ensures Drain(o, ServerToClient, s).outSend == s.outSend
    ensures Drain(o, ServerToClient, s).recorded == s.recorded
    decreases |s.inRecv.pending|
  {
    if HasFrame(o, s.inRecv) {
      var len := NextLength(o, s.inRecv);
      var c := Consume(s, ServerToClient, len);
      assert Step(o, ServerToClient, s) == c.(recvQueue := []);
      NoLeakDuringPlayback(o, Step(o, ServerToClient, s));
    }
  }

  /** The frames the classifier cuts from a region's unread bytes, in order. */
  function Frames(o: Collaborators, bytes: seq<byte>): (fs: seq<Packet>)
    ensures forall i :: 0 <= i < |fs| ==> |fs[i]| > 0
    decreases |bytes|
  {
    var len := o.packetLength(bytes, |bytes|);
    if |bytes| > 0 && 0 < len <= |bytes| then [bytes[..len]] + Frames(o, bytes[len..]) else []
  }

  /**
   * What a live drain puts on its outbound region for `frames`: each frame's
   * own bytes (nothing if blocked) followed by the packets its handler sent
   * toward the same direction, in request order.
   */
  function Emitted(o: Collaborators, path: Path, ready: bool, frames: seq<Packet>): seq<byte>
    requires forall i :: 0 <= i < |frames| ==> |frames[i]| > 0
  {
    if frames == [] then []
    else
      Forwarded(o, path, false, frames[0]) +
      Concat(QueuedBy(path, ready, Requested(o, path, false, frames[0]))) +
      Emitted(o, path, ready, frames[1..])
  }

  /** One step of a live drain with an empty queue emits its frame and leaves the queue empty. */
  lemma StepEmits(o: Collaborators, path: Path, s: RelayState)
    requires HasFrame(o, s.In(path))
    requires s.Queuing(path) && !s.playing && s.Queue(path) == []
    ensures Step(o, path, s).Out(path).pending == s.Out(path).pending +
              Forwarded(o, path, false, s.In(path).pending[..NextLength(o, s.In(path))]) +
              Concat(QueuedBy(path, s.ready,
                Requested(o, path, false, s.In(path).pending[..NextLength(o, s.In(path))])))
    ensures Step(o, path, s).Queue(path) == []
  {
    var len := NextLength(o, s.In(path));
    var frame := s.In(path).pending[..len];
    var c := Consume(s, path, len);
    assert c.Queuing(path) && c.Queue(path) == [] && c.Out(path) == s.Out(path) && Live(c) == s.ready;
    WriteDecision(o, path, c, frame);
    var d := Dispatch(o, path, c, frame);
    DequeueAllFlushesInOrder(d, path);
    assert Step(o, path, s) == DequeueAll(d, path);
    assert Flushed(d, path).Out(path).pending == d.Out(path).pending + Concat(d.Queue(path));
    assert d.Out(path).pending == s.Out(path).pending + Forwarded(o, path, false, frame);
    assert d.Queue(path) == QueuedBy(path, s.ready, Requested(o, path, false, frame));
  }

  lemma Associative(a: seq<byte>, b: seq<byte>, c: seq<byte>)
    ensures (a + b) + c == a + (b + c)
  {
  }

  /** The classifier cuts the first frame, then the rest of the bytes. */
  lemma FramesCons(o: Collaborators, r: RegionView)
    requires HasFrame(o, r)
    ensures Frames(o, r.pending) ==
            [r.pending[..NextLength(o, r)]] + Frames(o, r.pending[NextLength(o, r)..])
  {
  }

  /** `Emitted` of a frame followed by more frames. */
  lemma EmittedCons(o: Collaborators, path: Path, ready: bool, frame: Packet, rest: seq<Packet>)
    requires |frame| > 0 && forall i :: 0 <= i < |rest| ==> |rest[i]| > 0
    ensures Emitted(o, path, ready, [frame] + rest) ==
            Forwarded(o, path, false, frame) +
            Concat(QueuedBy(path, ready, Requested(o, path, false, frame))) +
            Emitted(o, path, ready, rest)
  {
    assert ([frame] + rest)[1..] == rest;
  }

  /** A drain that finds a frame takes one step and drains on. */
  lemma DrainUnfolds(o: Collaborators, path: Path, s: RelayState)
    requires HasFrame(o, s.In(path))
    ensures Drain(o, path, s) == Drain(o, path, Step(o, path, s))
  {
  }

  lemma DrainStops(o: Collaborators, path: Path, s: RelayState)
    requires !HasFrame(o, s.In(path))
    ensures Drain(o, path, s) == s
  {
  }

  /**
   * A drain of `path` with its flag raised, live traffic and an empty queue
   * appends to the outbound region exactly the frames of the inbound region in
   * arrival order, blocked ones left out, each followed by the sends its handler
   * made toward the same direction; nothing is duplicated or reordered.
   */
  lemma {:induction false} DrainForwardsInOrder(o: Collaborators, path: Path, s: RelayState)
    requires s.Queuing(path) && !s.playing && s.Queue(path) == []
    ensures Drain(o, path, s).Out(path).pending ==
            s.Out(path).pending + Emitted(o, path, s.ready, Frames(o, s.In(path).pending))
    ensures Drain(o, path, s).Queue(path) == []
    decreases |s.In(path).pending|
  {
    var bytes := s.In(path).pending;
    if HasFrame(o, s.In(path)) {
      var len := NextLength(o, s.In(path));
      var frame := bytes[..len];
      var t := Step(o, path, s);
      StepEmits(o, path, s);
      assert SameMode(s, t) && t.Queuing(path) && t.In(path).pending == bytes[len..];
      DrainForwardsInOrder(o, path, t);
      FramesCons(o, s.In(path));
      EmittedCons(o, path, s.ready, frame, Frames(o, bytes[len..]));
      DrainUnfolds(o, path, s);
      var rest := Frames(o, bytes[len..]);
      var own := Forwarded(o, path, false, frame) +
                 Concat(QueuedBy(path, s.ready, Requested(o, path, false, frame)));
      calc {
        Drain(o, path, s).Out(path).pending;
        Drain(o, path, t).Out(path).pending;
        t.Out(path).pending + Emitted(o, path, s.ready, rest);
        { Associative(s.Out(path).pending, Forwarded(o, path, false, frame),
                      Concat(QueuedBy(path, s.ready, Requested(o, path, false, frame)))); }
        (s.Out(path).pending + own) + Emitted(o, path, s.ready, rest);
        { Associative(s.Out(path).pending, own, Emitted(o, path, s.ready, rest)); }
        s.Out(path).pending + (own + Emitted(o, path, s.ready, rest));
        s.Out(path).pending + Emitted(o, path, s.ready, [frame] + rest);
      }
    }
  }

  /** `OnRecv` / `OnSend` leave their flag lowered and run the drain with it raised. */
  lemma PassForwardsInOrder(o: Collaborators, path: Path, s: RelayState)
    requires !s.playing && s.Queue(path) == []
    ensures !Pass(o, path, s).Queuing(path)
    ensures Pass(o, path, s).Queuing(Other(path)) == s.Queuing(Other(path))
    ensures Pass(o, path, s).Out(path).pending ==
            s.Out(path).pending + Emitted(o, path, s.ready, Frames(o, s.In(path).pending))
  {
    DrainForwardsInOrder(o, path, s.WithQueuing(path, true));
  }
}
