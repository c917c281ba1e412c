/**
 * Replay of a recorded session (`ProcessPlaybackData`) as a function over
 * `RelayState`: read one frame from the recording, drop the excluded ones, let
 * the server handlers see it with every send held back, and append it verbatim
 * to the client-bound region once it fits.
 */
module PlaybackSpec {
  import opened Common
  import opened SharedMemory
  import opened RelaySpec

  /**
   * What replay consults besides the relay's collaborators: whether the replay
   * speed differs from 1 and the byte the scaled animation delay becomes (the
   * `double` arithmetic itself is not modelled), the two container rewrites of
   * the recorder, and the player's feature level (`None` while there is no player).
   */
  datatype PlaybackHooks = PlaybackHooks(
    speedScaled: bool,
    scale: byte -> byte,
    containerUpdate: Packet -> Packet,
    containerContent: Packet -> Packet,
    playerFeatures: Option<int>)

  /** How one call of `ProcessPlaybackData` ends. */
  datatype PlaybackOutcome =
    | SeekFault      // the three-byte rewind moved before the start of the recording
    | InvalidLength  // the classifier's length is not in `1..maxLen`: nothing is read
    | Excluded       // an opcode replay never shows the client
    | IndexFault     // the frame is too short for the byte the rewrite tests
    | Waiting        // the frame does not fit yet; the source spins until the client drains
    | Written        // the frame was appended to the client-bound region

  /** The new relay state, how the call ended and where the reader now stands. */
  datatype PlaybackResult = PlaybackResult(state: RelayState, outcome: PlaybackOutcome, position: int)

  /** What reading a frame from the recording yields. */
  datatype FrameRead =
    | SeekFailed(position: int)
    | BadLength(position: int)
    | Frame(bytes: Packet, position: int)

  /**
   * `ReadBytes(3)`, `Seek(-3, Current)`, the classifier on those (at most)
   * three bytes with `maxLen` = the bytes left, then `ReadBytes(len)`. Near the
   * end of the recording fewer than three bytes are read, so the rewind lands
   * before `pos`.
   */
  function ReadFrame(o: Collaborators, stream: seq<byte>, pos: int): (r: FrameRead)
    requires 0 <= pos <= |stream|
    ensures r.SeekFailed? <==> |stream| < 3
    ensures r.BadLength? ==> 0 <= r.position <= pos
    ensures r.Frame? ==> 0 < |r.bytes| && |r.bytes| <= r.position <= |stream| &&
                         r.bytes == stream[r.position - |r.bytes|..r.position]
  {
    var peek := stream[pos..if pos + 3 <= |stream| then pos + 3 else |stream|];
    var at := pos + |peek| - 3;
    if at < 0 then SeekFailed(pos + |peek|)
    else
      var maxLen := |stream| - at;
      var len := o.packetLength(peek, maxLen);
      if len > maxLen || len <= 0 then BadLength(at)
      else Frame(stream[at..at + len], at + len)
  }

  /** The early returns of the opcode test chain: frames replay never forwards. */
  predicate ExcludedFrame(h: PlaybackHooks, b: Packet)
    requires |b| > 0
  {
    if b[0] == 0x6E && |b| >= 14 then false
    else if b[0] == 0xBF && |b| >= 5 then
      (b[4] == 0x10 && h.playerFeatures.Some? && h.playerFeatures.value <= 3) || b[4] == 0x06
    else b[0] == 0x6C || b[0] == 0xBA || b[0] == 0xB2 || b[0] == 0xFF
  }

  /** The animation packet's delay byte, raised from 0 to 1 and scaled when the replay speed is not 1. */
  function Rescaled(h: PlaybackHooks, b: Packet): (r: Packet)
    ensures |r| == |b|
    ensures forall i :: 0 <= i < |b| && i != 13 ==> r[i] == b[i]
  {
    if |b| >= 14 && b[0] == 0x6E && h.speedScaled then
      b[13 := h.scale(if b[13] == 0 then 1 else b[13])]
    else b
  }

  /** The recorder's container rewrites; `None` where the test of `buff[1]` faults. */
  function Rewritten(h: PlaybackHooks, b: Packet): (r: Option<Packet>)
    requires |b| > 0
    ensures r.None? <==> b[0] != 0x25 && |b| < 2
  {
    if b[0] == 0x25 then Some(h.containerUpdate(b))
    else if |b| < 2 then None
    else if b[1] == 0x3C then Some(h.containerContent(b))
    else Some(b)
  }

  /**
   * Both queue flags raised around the handler, both queues cleared and both
   * flags lowered after it.
   */
  function Quiet(s: RelayState, sends: seq<SendRequest>): RelayState {
    SendAll(s.(queueRecv := true, queueSend := true), sends)
      .(queueRecv := false, queueSend := false, recvQueue := [], sendQueue := [])
  }

  /** One call of `ProcessPlaybackData` on the recording `stream` read from `pos`. */
  function Playback(o: Collaborators, h: PlaybackHooks, s: RelayState, stream: seq<byte>, pos: int): PlaybackResult
    requires 0 <= pos <= |stream|
  {
    match ReadFrame(o, stream, pos)
    case SeekFailed(at) => PlaybackResult(s, SeekFault, at)
    case BadLength(at) => PlaybackResult(s, InvalidLength, at)
    case Frame(frame, next) =>
      if ExcludedFrame(h, frame) then PlaybackResult(s, Excluded, next)
      else
        var scaled := Rescaled(h, frame);
        var viewer := o.hasViewer(ServerToClient, scaled[0]);
        var filter := o.hasFilter(ServerToClient, scaled[0]);
        match Rewritten(h, scaled)
        case None => PlaybackResult(s, IndexFault, next)
        case Some(b) =>
          if |b| == 0 then PlaybackResult(s, IndexFault, next)
          else Replay(o, s, b, viewer, filter, next)
  }

  /**
   * A frame that passed every test: the server handlers see it with the sends
   * held back, then it is appended verbatim once it fits.
   */
  function Replay(o: Collaborators, s: RelayState, b: Packet, viewer: bool, filter: bool, next: int): PlaybackResult
  {
    var s1 := Quiet(s, o.handle(ServerToClient, b, viewer, filter).sends);
    if s1.outRecv.start + |s1.outRecv.pending| + |b| >= SHARED_BUFF_SIZE then
      PlaybackResult(s1, Waiting, next)
    else PlaybackResult(s1.(outRecv := Appended(s1.outRecv, b)), Written, next)
  }
}

/** What replay promises: excluded frames and faults change nothing, handler sends vanish, and a written frame is the only output. */
module PlaybackProperties {
  import opened Common
  import opened SharedMemory
  import opened RelaySpec
  import opened PlaybackSpec

  /** The early-return chain, flattened: which frames replay drops. */
  lemma ExclusionRules(h: PlaybackHooks, b: Packet)
    requires |b| > 0
    ensures ExcludedFrame(h, b) <==>
      (b[0] in {0x6C, 0xBA, 0xB2, 0xFF}) ||
      (b[0] == 0xBF && |b| >= 5 && b[4] == 0x06) ||
      (b[0] == 0xBF && |b| >= 5 && b[4] == 0x10 && h.playerFeatures.Some? && h.playerFeatures.value <= 3)
  {
  }

  /** One send while both flags are raised changes nothing but the queues. */
  lemma SendHeld(s: RelayState, req: SendRequest)
    requires s.queueRecv && s.queueSend
    ensures Send(s, req).(recvQueue := [], sendQueue := []) == s.(recvQueue := [], sendQueue := [])
  {
    match req {
      case ToServer(p) =>
      case ToClient(p) =>
    }
  }

  /** With both flags raised, whatever a handler sends only joins a queue. */
  lemma {:induction false} SendsHeld(s: RelayState, reqs: seq<SendRequest>)
    requires s.queueRecv && s.queueSend
    ensures SendAll(s, reqs).(recvQueue := [], sendQueue := []) == s.(recvQueue := [], sendQueue := [])
    decreases |reqs|
  {
    if reqs != [] {
      var s1 := Send(s, reqs[0]);
      SendHeld(s, reqs[0]);
      assert SameMode(s, s1);
      SendsHeld(s1, reqs[1..]);
    }
  }

  /** The handler's sends during replay vanish: only the flags and the (now empty) queues differ. */
  lemma HandlerSendsVanish(s: RelayState, reqs: seq<SendRequest>)
    ensures Quiet(s, reqs) ==
      s.(queueRecv := false, queueSend := false, recvQueue := [], sendQueue := [])
  {
    SendsHeld(s.(queueRecv := true, queueSend := true), reqs);
  }

  /** Every early return, faults included, leaves the relay untouched; an excluded frame is still consumed. */
  lemma PlaybackSkipsLeaveStateAlone(o: Collaborators, h: PlaybackHooks, s: RelayState, stream: seq<byte>, pos: int)
    requires 0 <= pos <= |stream|
    ensures var r := Playback(o, h, s, stream, pos);
      r.outcome !in {Waiting, Written} ==> r.state == s
    ensures var r := Playback(o, h, s, stream, pos);
      (r.outcome == Excluded <==> ReadFrame(o, stream, pos).Frame? && ExcludedFrame(h, ReadFrame(o, stream, pos).bytes)) &&
      (r.outcome == Excluded ==> r.position == ReadFrame(o, stream, pos).position)
  {
  }

  /**
   * A frame that is not excluded and survives the rewrite is appended verbatim
   * to the client-bound region exactly when `Start + Length + len` stays below
   * SHARED_BUFF_SIZE; the handler's sends reach neither outbound region nor the
   * recorder, and both queues end empty with both flags lowered.
   */
  lemma PlaybackWritesOnlyTheFrame(o: Collaborators, h: PlaybackHooks, s: RelayState, stream: seq<byte>, pos: int,
                                   frame: Packet, next: int, b: Packet)
    requires 0 <= pos <= |stream|
    requires ReadFrame(o, stream, pos) == Frame(frame, next) && !ExcludedFrame(h, frame)
    requires Rewritten(h, Rescaled(h, frame)) == Some(b) && |b| > 0
    ensures var r := Playback(o, h, s, stream, pos);
      r.position == next &&
      (r.outcome == Written <==> s.outRecv.start + |s.outRecv.pending| + |b| < SHARED_BUFF_SIZE) &&
      (r.outcome != Written ==> r.outcome == Waiting) &&
      r.state == s.(queueRecv := false, queueSend := false, recvQueue := [], sendQueue := [],
                    outRecv := if r.outcome == Written then Appended(s.outRecv, b) else s.outRecv)
  {
    var scaled := Rescaled(h, frame);
    var viewer := o.hasViewer(ServerToClient, scaled[0]);
    var filter := o.hasFilter(ServerToClient, scaled[0]);
    HandlerSendsVanish(s, o.handle(ServerToClient, b, viewer, filter).sends);
  }
}
