/** The per-connection loop: pre-flight, nonce gate, decode, dispatch, reply, close. */
module Connection {
  import opened Wrappers
  import opened Bytes
  import opened ProtocolErrors
  import opened Messages
  import opened Envelopes
  import opened Nonces
  import opened Pairings
  import opened Keystore
  import opened Transport
  import opened SharedState
  import R = Reauth

  // ---------------------------------------------------------- specification

  /** What serving one request does to the shared state, and the reply. */
  function Dispatched(c: Cipher, h: Host, spki: SpkiHash, frame: ClientFrame, nonce: uint64, turn: Turn): (Host, DaemonFrame) {
    var k := h.contents;
    match frame
    case Pair(_, _) => (h, Error(nonce, NotPaired))
    case Sleep => Commanded(h, CallSleep, nonce, turn)
    case Lock => Commanded(h, CallLock, nonce, turn)
    case PowerOff => Commanded(h, CallPowerOff, nonce, turn)
    case StateProbe =>
      (h.(calls := h.calls + [OsCall(CallProbe, nonce)]),
       match turn.session case Ok(s) => StateReport(s) case Err(_) => Error(nonce, Internal))
    case ReauthStatus =>
      (h, ReauthInfo(k.lastAuthenticatedAt, R.IntervalFromDays(k.reauthDays), R.ExpiresAt(k.lastAuthenticatedAt, k.reauthDays)))
    case ReauthConfig(interval) =>
      var k' := WithInterval(k, interval);
      var (disk, r) := Saved(c, h.disk, k', turn.save);
      (h.(contents := k', disk := disk), if r.Ok? then Ack(nonce) else Error(nonce, Internal))
    case RevokeAck =>
      var kept := WithoutRevoked(k.pairings, spki);
      var k' := k.(pairings := kept);
      var disk := if |kept| < |k.pairings| then Saved(c, h.disk, k', turn.save).0 else h.disk;
      (h.(contents := k', disk := disk), Ack(nonce))
  }

  /** A state-changing command passes the re-authentication gate or leaves no trace. */
  function Commanded(h: Host, command: Command, nonce: uint64, turn: Turn): (Host, DaemonFrame) {
    match R.Evaluate(turn.now, h.contents.lastAuthenticatedAt, h.contents.reauthDays).BlockStateChange()
    case Some(code) => (h, Error(nonce, code))
    case None =>
      (h.(calls := h.calls + [OsCall(command, nonce)]),
       if turn.handler.Ok? then Ack(nonce) else Error(nonce, turn.handler.error.ToWireCode()))
  }

  predicate ClosesConnection(reply: DaemonFrame) {
    reply.Error? && reply.code in {NotPaired, Revoked, VersionMismatch, MalformedFrame, NonceReplay}
  }

  function ReplyBytes(nonce: uint64, reply: DaemonFrame): seq<uint8> {
    FrameBytes(Envelope(PROTOCOL_VERSION, nonce, EncodeDaemonFrame(reply)))
  }

  /** One request that reached dispatch, with the reply it was given. */
  datatype Request = Request(nonce: uint64, frame: ClientFrame, reply: DaemonFrame)

  datatype Session = Session(
    host: Host,
    lastSeen: uint64,
    lastSent: uint64,
    writesLeft: nat,
    outbound: seq<seq<uint8>>,
    handled: seq<Request>)
  {
    function Write(bytes: seq<uint8>): Session {
      if writesLeft == 0 then this else this.(writesLeft := writesLeft - 1, outbound := outbound + [bytes])
    }
  }

  datatype Outcome =
    | PeerClosed
    | StreamFailed(end: StreamEnd)
    | Refused(code: ProtocolError)
    | ClosedByReply
    | NonceExhausted
    | WriteFailure

  type Environment = nat -> Turn

  /** What one frame does to a session, and how it ends the connection if it does. */
  function Stepped(c: Cipher, spki: SpkiHash, s: Session, e: Envelope, turn: Turn): (Session, Option<Outcome>) {
    if e.nonce <= s.lastSeen then
      (s.Write(ReplyBytes(1, Error(e.nonce, NonceReplay))), Some(Refused(NonceReplay)))
    else
      match DecodeClientFrame(e.payload)
      case Err(error) =>
        (s.(lastSeen := e.nonce).Write(ReplyBytes(1, Error(e.nonce, error.ToWireCode()))), Some(Refused(error.ToWireCode())))
      case Ok(frame) =>
        var (host, reply) := Dispatched(c, s.host.Meanwhile(turn.found), spki, frame, e.nonce, turn);
        var s' := s.(host := host, lastSeen := e.nonce, handled := s.handled + [Request(e.nonce, frame, reply)]);
        if s.lastSent == U64_MAX then (s', Some(NonceExhausted))
        else if s.writesLeft == 0 then (s'.(lastSent := s.lastSent + 1), Some(WriteFailure))
        else (s'.(lastSent := s.lastSent + 1).Write(ReplyBytes(s.lastSent + 1, reply)),
              if ClosesConnection(reply) then Some(ClosedByReply) else None)
  }

  /** The loop over the frames of a stream; `turn` counts the frames that reached dispatch. */
  function Served(c: Cipher, spki: SpkiHash, s: Session, envs: seq<Envelope>, end: StreamEnd, env: Environment, turn: nat)
    : (Session, Outcome)
    decreases |envs|
  {
    if envs == [] then (s, if end.CleanEof? then PeerClosed else StreamFailed(end))
    else
      match Stepped(c, spki, s, envs[0], env(turn))
      case (s', Some(outcome)) => (s', outcome)
      case (s', None) => Served(c, spki, s', envs[1..], end, env, turn + 1)
  }

  function AddressRecorded(c: Cipher, h: Host, spki: SpkiHash, addr: SocketAddr, fault: SaveFault): Host {
    var (pairings, changed) := WithAddress(h.contents.pairings, spki, addr);
    var k := h.contents.(pairings := pairings);
    h.(contents := k, disk := if changed then Saved(c, h.disk, k, fault).0 else h.disk)
  }

  function OpenSession(h: Host, writesLeft: nat): Session { Session(h, 0, 0, writesLeft, [], []) }

  /** A whole connection: whatever arrives in whatever chunks, and whatever others do to the shared state meanwhile. */
  function Connected(c: Cipher, spki: SpkiHash, addr: SocketAddr, h: Host, writesLeft: nat,
                     chunks: seq<seq<uint8>>, ending: Ending, env: Environment): (Session, Outcome)
  {
    if ActivePairing(h.contents.pairings, spki).None? then
      (OpenSession(h, writesLeft).Write(ReplyBytes(1, Error(0, Revoked))), Refused(Revoked))
    else
      var h' := AddressRecorded(c, h.Meanwhile(env(0).found), spki, addr, env(0).save);
      var (envs, end) := Reassemble([], chunks, ending);
      Served(c, spki, OpenSession(h', writesLeft), envs, end, env, 1)
  }

  // ------------------------------------------------------------- the methods

  method HandlerToResponse(result: Result<(), OsHandlerError>, nonce: uint64) returns (reply: DaemonFrame)
    ensures reply == if result.Ok? then Ack(nonce) else Error(nonce, Internal)
  {
    match result
    case Ok(_) => return Ack(nonce);
    case Err(e) => return Error(nonce, e.ToWireCode());
  }

  method Dispatch(state: ServerState, spki: SpkiHash, frame: ClientFrame, nonce: uint64, turn: Turn) returns (reply: DaemonFrame)
    modifies state, state.fs
    ensures (state.AsHost(), reply) == Dispatched(state.cipher, old(state.AsHost()), spki, frame, nonce, turn)
  {
    var snap := state.contents;
    var blocked := R.Evaluate(turn.now, snap.lastAuthenticatedAt, snap.reauthDays).BlockStateChange();
    match frame {
      case Pair(_, _) =>
        reply := Error(nonce, NotPaired);
      case Sleep =>
        if blocked.Some? {
          return Error(nonce, blocked.value);
        }
        var r := state.Invoke(CallSleep, nonce, turn.handler);
        reply := HandlerToResponse(r, nonce);
      case Lock =>
        if blocked.Some? {
          return Error(nonce, blocked.value);
        }
        var r := state.Invoke(CallLock, nonce, turn.handler);
        reply := HandlerToResponse(r, nonce);
      case PowerOff =>
        if blocked.Some? {
          return Error(nonce, blocked.value);
        }
        var r := state.Invoke(CallPowerOff, nonce, turn.handler);
        reply := HandlerToResponse(r, nonce);
      case StateProbe =>
        var r := state.CurrentSessionState(nonce, turn.session);
        reply := if r.Ok? then StateReport(r.value) else Error(nonce, Internal);
      case ReauthStatus =>
        reply := ReauthInfo(snap.lastAuthenticatedAt, R.IntervalFromDays(snap.reauthDays),
                            R.ExpiresAt(snap.lastAuthenticatedAt, snap.reauthDays));
      case ReauthConfig(interval) =>
        state.contents := state.contents.(reauthDays := R.IntervalToDays(interval));
        var r := state.Save(turn.save);
        reply := if r.Ok? then Ack(nonce) else Error(nonce, Internal);
      case RevokeAck =>
        var before := |state.contents.pairings|;
        state.contents := state.contents.(pairings := WithoutRevoked(state.contents.pairings, spki));
        if before - |state.contents.pairings| > 0 {
          var _ := state.Save(turn.save);
        }
        reply := Ack(nonce);
    }
  }

  method RecordAddress(state: ServerState, spki: SpkiHash, addr: SocketAddr, fault: SaveFault)
    modifies state, state.fs
    ensures state.AsHost() == AddressRecorded(state.cipher, old(state.AsHost()), spki, addr, fault)
  {
    ghost var before := state.contents.pairings;
    var changed := false;
    var i := 0;
    while i < |state.contents.pairings|
      invariant i <= |before| && state.AsHost() == old(state.AsHost())
      invariant forall j :: 0 <= j < i ==> !Stale(before[j], spki, addr)
    {
      var p := state.contents.pairings[i];
      if Stale(p, spki, addr) {
        state.contents := state.contents.(pairings := state.contents.pairings[i := p.(lastKnownAddress := Some(addr))]);
        changed := true;
        break;
      }
      i := i + 1;
    }
    hide Saved;
    SkipsFresh(before, i, spki, addr);
    assert state.contents.pairings == WithAddress(before, spki, addr).0;
    if changed {
      var _ := state.Save(fault);
    }
  }

  /** Encodes a daemon frame for the wire; it always fits. */
  method FrameFor(nonce: uint64, reply: DaemonFrame) returns (bytes: seq<uint8>)
    ensures bytes == ReplyBytes(nonce, reply)
  {
    DaemonFrameLength(reply);
    var r := EncodeEnvelope(Envelope(PROTOCOL_VERSION, nonce, EncodeDaemonFrame(reply)));
    return r.value;
  }

  method WriteFrame(tls: TlsStream, nonces: NonceCounter, reply: DaemonFrame) returns (r: Result<(), Outcome>)
    modifies tls, nonces.send
    ensures tls.inbound == old(tls.inbound)
    ensures old(nonces.send.next) == U64_MAX ==>
              r == Err(NonceExhausted) && nonces.send.next == U64_MAX
              && tls.outbound == old(tls.outbound) && tls.writesLeft == old(tls.writesLeft)
    ensures old(nonces.send.next) < U64_MAX ==>
              && nonces.send.next == old(nonces.send.next) + 1
              && r == (if old(tls.writesLeft) > 0 then Ok(()) else Err(WriteFailure))
              && tls.outbound == (if r.Ok? then old(tls.outbound) + [ReplyBytes(nonces.send.next, reply)] else old(tls.outbound))
              && tls.writesLeft == if r.Ok? then old(tls.writesLeft) - 1 else 0
  {
    var nonce := nonces.send.Issue();
    if nonce.None? {
      return Err(NonceExhausted);
    }
    var bytes := FrameFor(nonce.value, reply);
    var w := tls.WriteAll(bytes);
    return if w.Ok? then Ok(()) else Err(WriteFailure);
  }

  /** Stamps nonce 1 whatever was sent before, and ignores a failed write. */
  method SendErrorAndClose(tls: TlsStream, requestNonce: uint64, code: ProtocolError)
    modifies tls
    ensures tls.inbound == old(tls.inbound)
    ensures tls.outbound == if old(tls.writesLeft) > 0 then old(tls.outbound) + [ReplyBytes(1, Error(requestNonce, code))] else old(tls.outbound)
    ensures tls.writesLeft == if old(tls.writesLeft) > 0 then old(tls.writesLeft) - 1 else 0
  {
    var bytes := FrameFor(1, Error(requestNonce, code));
    var _ := tls.WriteAll(bytes);
  }

  ghost function AsSession(tls: TlsStream, state: ServerState, nonces: NonceCounter, handled: seq<Request>): Session
    reads tls, state, state.fs, nonces.recv, nonces.send
  {
    Session(state.AsHost(), nonces.recv.lastSeen, nonces.send.next, tls.writesLeft, tls.outbound, handled)
  }

  /** The body of the loop: gate, decode, dispatch, reply. */
  method ServeFrame(tls: TlsStream, state: ServerState, nonces: NonceCounter, spki: SpkiHash, envelope: Envelope, turn: Turn,
                    ghost before: seq<Request>) returns (closed: Option<Outcome>, ghost handled: seq<Request>)
    modifies tls, state, state.fs, nonces.recv, nonces.send
    ensures tls.inbound == old(tls.inbound)
    ensures (AsSession(tls, state, nonces, handled), closed) ==
            Stepped(state.cipher, spki, old(AsSession(tls, state, nonces, before)), envelope, turn)
  {
    hide Dispatched, ReplyBytes, DecodeClientFrame;
    handled := before;
    var accepted := nonces.recv.Accept(envelope.nonce);
    if accepted.Err? {
      SendErrorAndClose(tls, envelope.nonce, NonceReplay);
      return Some(Refused(NonceReplay)), handled;
    }
    var frame := DecodeClientFrame(envelope.payload);
    if frame.Err? {
      SendErrorAndClose(tls, envelope.nonce, frame.error.ToWireCode());
      return Some(Refused(frame.error.ToWireCode())), handled;
    }
    state.LetOthersRun(turn.found);
    var response := Dispatch(state, spki, frame.value, envelope.nonce, turn);
    handled := handled + [Request(envelope.nonce, frame.value, response)];
    var written := WriteFrame(tls, nonces, response);
    if written.Err? {
      return Some(written.error), handled;
    }
    return if ClosesConnection(response) then Some(ClosedByReply) else None, handled;
  }

  method Run(tls: TlsStream, state: ServerState, spki: SpkiHash, peerAddr: SocketAddr, env: Environment)
      returns (outcome: Outcome, ghost final: Session)
    requires Chunked(tls.inbound) && tls.outbound == []
    modifies tls, state, state.fs
    ensures (final, outcome) == Connected(state.cipher, spki, peerAddr, old(state.AsHost()), old(tls.writesLeft),
                                          old(tls.inbound), tls.ending, env)
    ensures state.AsHost() == final.host
    ensures tls.outbound == final.outbound && tls.writesLeft == final.writesLeft
  {
    hide NextFrame, AddressRecorded, ReplyBytes, Stepped, Reassemble;
    ghost var spec :=
      Connected(state.cipher, spki, peerAddr, state.AsHost(), tls.writesLeft, tls.inbound, tls.ending, env);
    if ActivePairing(state.contents.pairings, spki).None? {
      SendErrorAndClose(tls, 0, Revoked);
      return Refused(Revoked), spec.0;
    }
    state.LetOthersRun(env(0).found);
    RecordAddress(state, spki, peerAddr, env(0).save);
    var nonces := new NonceCounter();
    var buf := new RecvBuffer();
    var turn := 1;
    ghost var handled: seq<Request> := [];
    ChunkingIndependence([], tls.inbound, tls.ending);
    while true
      invariant Chunked(tls.inbound) && |buf.data| <= BUFFER_LIMIT
      invariant
        var (envs, end) := ParseStream(buf.data + Flatten(tls.inbound), tls.ending);
        Served(state.cipher, spki, AsSession(tls, state, nonces, handled), envs, end, env, turn) == spec
      decreases |buf.data + Flatten(tls.inbound)|
    {
      var read := ReadEnvelope(tls, buf);
      if read.Err? {
        return StreamFailed(read.error), spec.0;
      }
      if read.value.None? {
        return PeerClosed, spec.0;
      }
      var closed;
      closed, handled := ServeFrame(tls, state, nonces, spki, read.value.value, env(turn), handled);
      if closed.Some? {
        return closed.value, spec.0;
      }
      turn := turn + 1;
    }
  }
}
