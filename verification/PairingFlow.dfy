/** The one-shot pairing command: a window, a listener, one attempt per connection. */
module PairingFlow {
  import opened Wrappers
  import opened Bytes
  import opened ProtocolErrors
  import opened Postcard
  import opened Messages
  import opened Envelopes
  import opened Nonces
  import opened Pairings
  import opened Keystore
  import opened Transport
  import opened Connection
  import H = Handshake

  /** One connection during the window, with everything the environment decides for it. */
  datatype Peer = Peer(
    spki: Option<SpkiHash>,
    chunks: seq<seq<uint8>>,
    ending: Ending,
    writes: nat,
    now: uint64,
    save: SaveFault)

  datatype Event = DeadlineFires | AcceptFails | TlsFails | Connects(peer: Peer)

  /** One turn of the accept loop: the clock at its tick, then what the select yields. */
  datatype Arrival = Arrival(tickNow: uint64, event: Event)

  /** A frame sent to a peer, and the keystore file at that moment. */
  datatype Reply = Reply(frame: DaemonFrame, fileThen: Option<seq<uint8>>)

  datatype Flow = Flow(handshake: H.PairingState, contents: KeystoreContents, disk: Disk, log: seq<Reply>)

  datatype AttemptResult = Accepted | TurnedDown | AttemptFailed

  datatype FlowEnd = PairingDone | WindowExpired | WindowClosed | ListenerFailed | StillOpen

  // ---------------------------------------------------------- specification

  /** The records of other phones, in order. */
  function Others(pairings: seq<PairingRecord>, spki: SpkiHash): seq<PairingRecord> {
    if pairings == [] then []
    else if pairings[0].clientSpki != spki then [pairings[0]] + Others(pairings[1..], spki)
    else Others(pairings[1..], spki)
  }

  function Replaced(k: KeystoreContents, p: H.NewPairing): KeystoreContents {
    k.(pairings := Others(k.pairings, p.clientSpki) + [FreshRecord(p.phoneName, p.clientSpki, p.pairedAt)])
  }

  /** Sends one frame on a fresh connection, if the connection takes it. */
  function Told(fl: Flow, frame: DaemonFrame, writes: nat, ifSent: AttemptResult): (Flow, AttemptResult) {
    if writes == 0 then (fl, AttemptFailed) else (fl.(log := fl.log + [Reply(frame, fl.disk.file)]), ifSent)
  }

  function Attempted(c: Cipher, fl: Flow, peer: Peer): (Flow, AttemptResult) {
    if peer.spki.None? then (fl, AttemptFailed)
    else
      match NextFrame(Flatten(peer.chunks), peer.ending)
      case Stopped(_) => (fl, AttemptFailed)
      case Next(env, _) =>
        match DecodeClientFrame(env.payload)
        case Err(e) => Told(fl, Error(env.nonce, e.ToWireCode()), peer.writes, TurnedDown)
        case Ok(Pair(name, code)) => Offered(c, fl, peer, env.nonce, name, code)
        case Ok(_) => Told(fl, Error(env.nonce, Unsupported), peer.writes, TurnedDown)
  }

  function Offered(c: Cipher, fl: Flow, peer: Peer, nonce: uint64, name: Utf8String, code: uint32): (Flow, AttemptResult)
    requires peer.spki.Some?
  {
    var (state, t) := H.OfferStep(fl.handshake, peer.now, code, name, peer.spki.value);
    match t
    case Succeeded(record) =>
      var k := Replaced(fl.contents, record);
      var (disk, r) := Saved(c, fl.disk, k, peer.save);
      var fl' := fl.(handshake := state, contents := k, disk := disk);
      if r.Err? then (fl', AttemptFailed) else Told(fl', Ack(nonce), peer.writes, Accepted)
    case _ => Told(fl.(handshake := state), Error(nonce, NotPaired), peer.writes, TurnedDown)
  }

  /** The accept loop over the arrivals so far. */
  function Looped(c: Cipher, fl: Flow, arrivals: seq<Arrival>): (Flow, FlowEnd)
    decreases |arrivals|
  {
    if arrivals == [] then (fl, StillOpen)
    else
      var (state, t) := H.TickStep(fl.handshake, arrivals[0].tickNow);
      var ticked := fl.(handshake := state);
      if t.Expired? then (ticked, WindowExpired)
      else
        match arrivals[0].event
        case DeadlineFires => (ticked, WindowExpired)
        case AcceptFails => (ticked, ListenerFailed)
        case TlsFails => Looped(c, ticked, arrivals[1..])
        case Connects(peer) =>
          var (after, result) := Attempted(c, ticked, peer);
          if result.Accepted? then (after, PairingDone)
          else if after.handshake.Idle? then (after, WindowClosed)
          else Looped(c, after, arrivals[1..])
  }

  /** Everything the environment decides while the command starts. */
  datatype Startup = Startup(
    dataDirReady: bool,
    readable: bool,
    newIdentity: Option<DeviceIdentity>,
    identityParses: bool,
    now: uint64,
    draws: seq<H.Draw>,
    configBuilt: bool,
    bound: bool)

  datatype StartError =
    | NoDataDir
    | KeystoreUnusable(error: KeystoreError)
    | NoIdentity
    | IdentityUnparsable
    | NoRandomness
    | NoTlsConfig
    | NoListener

  /** Loads or bootstraps the keystore, opens the window, and binds its listener. */
  function Opened(c: Cipher, disk: Disk, st: Startup): Result<Flow, StartError> {
    if !st.dataDirReady then Err(NoDataDir)
    else
      match Loaded(c, disk, st.readable)
      case Err(e) => Err(KeystoreUnusable(e))
      case Ok(found) =>
        if found.None? && st.newIdentity.None? then Err(NoIdentity)
        else if !st.identityParses then Err(IdentityUnparsable)
        else
          var k := if found.Some? then found.value else FromIdentity(st.newIdentity.value);
          match H.StartStep(H.Idle, st.now, H.PAIRING_WINDOW_DEFAULT_MS, st.draws)
          case (_, Err(_)) => Err(NoRandomness)
          case (state, Ok(_)) =>
            if !st.configBuilt then Err(NoTlsConfig)
            else if !st.bound then Err(NoListener)
            else Ok(Flow(state, k, disk, []))
  }

  predicate ChunkedArrivals(arrivals: seq<Arrival>) {
    forall a :: a in arrivals && a.event.Connects? ==> Chunked(a.event.peer.chunks)
  }

  // ------------------------------------------------------------- the command

  class PairCommand {
    var contents: KeystoreContents
    ghost var log: seq<Reply>
    const handshake: H.PairingHandshake
    const fs: FileSystem
    const cipher: Cipher

    constructor (contents: KeystoreContents, handshake: H.PairingHandshake, fs: FileSystem, cipher: Cipher)
      ensures this.contents == contents && this.handshake == handshake && this.fs == fs && this.cipher == cipher && log == []
    {
      this.contents, this.handshake, this.fs, this.cipher, this.log := contents, handshake, fs, cipher, [];
    }

    ghost function AsFlow(): Flow
      reads this, handshake, fs
    {
      Flow(handshake.state, contents, fs.disk, log)
    }

    /** Sends the first and only frame of a pairing connection. */
    method Send(tls: TlsStream, frame: DaemonFrame) returns (r: Result<(), Outcome>)
      requires tls.outbound == []
      modifies tls, `log
      ensures r.Ok? <==> old(tls.writesLeft) > 0
      ensures tls.outbound == if r.Ok? then [ReplyBytes(1, frame)] else []
      ensures log == if r.Ok? then old(log) + [Reply(frame, fs.disk.file)] else old(log)
    {
      var nonces := new NonceCounter();
      r := WriteFrame(tls, nonces, frame);
      if r.Ok? {
        log := log + [Reply(frame, fs.disk.file)];
      }
    }

    method HandlePairAttempt(tls: TlsStream, peer: Peer) returns (r: AttemptResult)
      requires Chunked(peer.chunks)
      requires tls.inbound == peer.chunks && tls.ending == peer.ending && tls.writesLeft == peer.writes && tls.outbound == []
      modifies this, handshake, fs, tls
      ensures (AsFlow(), r) == Attempted(cipher, old(AsFlow()), peer)
      ensures tls.outbound == if log == old(log) then [] else [ReplyBytes(1, log[|log| - 1].frame)]
    {
      hide NextFrame, DecodeClientFrame, ReplyBytes, Saved;
      if peer.spki.None? {
        return AttemptFailed;
      }
      var buf := new RecvBuffer();
      assert buf.data + Flatten(tls.inbound) == Flatten(peer.chunks);
      var read := ReadOneEnvelope(tls, buf);
      if read.Err? {
        return AttemptFailed;
      }
      var nonce := read.value.nonce;
      var frame := DecodeClientFrame(read.value.payload);
      if frame.Err? {
        var sent := Send(tls, Error(nonce, frame.error.ToWireCode()));
        return if sent.Ok? then TurnedDown else AttemptFailed;
      }
      if !frame.value.Pair? {
        var sent := Send(tls, Error(nonce, Unsupported));
        return if sent.Ok? then TurnedDown else AttemptFailed;
      }
      r := OfferCode(tls, peer, nonce, frame.value.phoneName, frame.value.pairingCode);
    }

    method OfferCode(tls: TlsStream, peer: Peer, nonce: uint64, name: Utf8String, code: uint32) returns (r: AttemptResult)
      requires peer.spki.Some? && tls.writesLeft == peer.writes && tls.outbound == []
      modifies this, handshake, fs, tls
      ensures (AsFlow(), r) == Offered(cipher, old(AsFlow()), peer, nonce, name, code)
      ensures tls.outbound == if log == old(log) then [] else [ReplyBytes(1, log[|log| - 1].frame)]
    {
      hide ReplyBytes, Saved;
      var transition := handshake.AcceptPair(peer.now, code, name, peer.spki.value);
      if transition.Succeeded? {
        var p := FreshRecord(transition.record.phoneName, transition.record.clientSpki, transition.record.pairedAt);
        contents := contents.(pairings := Others(contents.pairings, p.clientSpki));
        contents := contents.(pairings := contents.pairings + [p]);
        var saved := Keystore.Save(fs, cipher, contents, peer.save);
        if saved.Err? {
          return AttemptFailed;
        }
        var sent := Send(tls, Ack(nonce));
        return if sent.Ok? then Accepted else AttemptFailed;
      }
      var sent := Send(tls, Error(nonce, NotPaired));
      return if sent.Ok? then TurnedDown else AttemptFailed;
    }

    method AcceptLoop(arrivals: seq<Arrival>) returns (end: FlowEnd)
      requires ChunkedArrivals(arrivals)
      modifies this, handshake, fs
      ensures (AsFlow(), end) == Looped(cipher, old(AsFlow()), arrivals)
    {
      hide Attempted;
      var i := 0;
      while i < |arrivals|
        invariant i <= |arrivals|
        invariant Looped(cipher, AsFlow(), arrivals[i..]) == Looped(cipher, old(AsFlow()), arrivals)
      {
        assert arrivals[i..][1..] == arrivals[i + 1..];
        var ticked := handshake.Tick(arrivals[i].tickNow);
        if ticked.Expired? {
          return WindowExpired;
        }
        match arrivals[i].event {
          case DeadlineFires => return WindowExpired;
          case AcceptFails => return ListenerFailed;
          case TlsFails =>
          case Connects(peer) =>
            var tls := new TlsStream(peer.chunks, peer.ending, peer.writes);
            var result := HandlePairAttempt(tls, peer);
            if result.Accepted? {
              return PairingDone;
            }
            if handshake.state.Idle? {
              return WindowClosed;
            }
        }
        i := i + 1;
      }
      return StillOpen;
    }
  }

  method Run(fs: FileSystem, c: Cipher, st: Startup, arrivals: seq<Arrival>) returns (r: Result<FlowEnd, StartError>)
    requires ChunkedArrivals(arrivals)
    modifies fs
    ensures
      match Opened(c, old(fs.disk), st)
      case Err(e) => r == Err(e) && fs.disk == old(fs.disk)
      case Ok(fl) => r == Ok(Looped(c, fl, arrivals).1) && fs.disk == Looped(c, fl, arrivals).0.disk
  {
    hide Looped;
    if !st.dataDirReady {
      return Err(NoDataDir);
    }
    var loaded := Load(fs, c, st.readable);
    if loaded.Err? {
      return Err(KeystoreUnusable(loaded.error));
    }
    if loaded.value.None? && st.newIdentity.None? {
      return Err(NoIdentity);
    }
    var contents := if loaded.value.Some? then loaded.value.value else FromIdentity(st.newIdentity.value);
    if !st.identityParses {
      return Err(IdentityUnparsable);
    }
    var handshake := new H.PairingHandshake();
    var started := handshake.Start(st.now, H.PAIRING_WINDOW_DEFAULT_MS, st.draws);
    if started.Err? {
      return Err(NoRandomness);
    }
    if !st.configBuilt {
      return Err(NoTlsConfig);
    }
    if !st.bound {
      return Err(NoListener);
    }
    var command := new PairCommand(contents, handshake, fs, c);
    var end := command.AcceptLoop(arrivals);
    return Ok(end);
  }
}
