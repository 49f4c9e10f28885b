/**
  What each request does and how it is answered, in numbers and outcomes, and
  that a connection does and answers nothing else.
*/
module Requests {
  import opened Wrappers
  import opened Bytes
  import opened ProtocolErrors
  import opened Messages
  import opened Envelopes
  import opened Pairings
  import opened Keystore
  import opened Transport
  import opened SharedState
  import opened Connection
  import opened Delivery
  import opened Admin
  import R = Reauth

  // ------------------------------------------------------------ one request

  /** The re-authentication window of these contents is over, in milliseconds. */
  predicate WindowOver(k: KeystoreContents, now: uint64) {
    k.reauthDays != 0 &&
    (now >= k.lastAuthenticatedAt + k.reauthDays * 86_400_000 || now == 18_446_744_073_709_551_615)
  }

  /** The call a state-changing command makes. */
  function CallFor(frame: ClientFrame): Command
    requires StateChanging(frame)
  {
    if frame.Sleep? then CallSleep else if frame.Lock? then CallLock else CallPowerOff
  }

  /**
    Past the window a state-changing command is refused and leaves no trace.
    Within it the matching handler is called, and its outcome is the reply: an
    acknowledgement if it succeeded, an internal error if it failed.
  */
  lemma CommandByOutcome(c: Cipher, h: Host, spki: SpkiHash, frame: ClientFrame, nonce: uint64, turn: Turn)
    requires StateChanging(frame)
    ensures Dispatched(c, h, spki, frame, nonce, turn) ==
            if WindowOver(h.contents, turn.now) then (h, Error(nonce, RequiresReauth))
            else (h.(calls := h.calls + [OsCall(CallFor(frame), nonce)]),
                  if turn.handler.Ok? then Ack(nonce) else Error(nonce, Internal))
  {
    R.WindowInMilliseconds(turn.now, h.contents.lastAuthenticatedAt, h.contents.reauthDays);
  }

  /** A probe reports exactly the state the handler returned, or an internal error if it failed. */
  lemma ProbeByOutcome(c: Cipher, h: Host, spki: SpkiHash, nonce: uint64, turn: Turn)
    ensures Dispatched(c, h, spki, StateProbe, nonce, turn) ==
            (h.(calls := h.calls + [OsCall(CallProbe, nonce)]),
             if turn.session.Ok? then StateReport(turn.session.value) else Error(nonce, Internal))
  {
  }

  /** When the window of this interval, counted from then, is over. */
  function WindowEnd(interval: ReauthInterval, lastAuth: uint64): int {
    match interval
    case Never => 18_446_744_073_709_551_615
    case OneDay => Least(lastAuth + 86_400_000)
    case SevenDays => Least(lastAuth + 604_800_000)
    case ThirtyDays => Least(lastAuth + 2_592_000_000)
  }

  function Least(ms: int): int { if ms < 18_446_744_073_709_551_615 then ms else 18_446_744_073_709_551_615 }

  /**
    Once an interval has been configured: a status request reports that
    interval, the last authentication, and the end of the window in
    milliseconds; and a state-changing command is refused from then on, and
    never under `Never`.
  */
  lemma GateByInterval(c: Cipher, h: Host, spki: SpkiHash, interval: ReauthInterval, nonce: uint64, turn: Turn,
                       frame: ClientFrame, later: Turn)
    requires StateChanging(frame)
    ensures
      var h' := Dispatched(c, h, spki, ReauthConfig(interval), nonce, turn).0;
      var last := h.contents.lastAuthenticatedAt;
      && Dispatched(c, h', spki, ReauthStatus, nonce, later) == (h', ReauthInfo(last, interval, WindowEnd(interval, last)))
      && (Dispatched(c, h', spki, frame, nonce, later).1 == Error(nonce, RequiresReauth) <==>
            interval != Never && later.now >= WindowEnd(interval, last))
  {
    hide Saved;
    var h' := Dispatched(c, h, spki, ReauthConfig(interval), nonce, turn).0;
    R.IntervalDays(h'.contents.reauthDays);
    R.WindowInMilliseconds(later.now, h.contents.lastAuthenticatedAt, h'.contents.reauthDays);
    CommandByOutcome(c, h', spki, frame, nonce, later);
  }

  lemma AuthenticationIsSaved(c: Cipher, disk: Disk, k: KeystoreContents, at: uint64, fault: SaveFault)
    requires Inverts(c) && Representable(k.pairings) && Loaded(c, disk, true) == Ok(Some(k))
    requires Edited(c, disk, true, ReauthAt(at), fault).1.Ok?
    ensures Loaded(c, Edited(c, disk, true, ReauthAt(at), fault).0, true) ==
            Ok(Some(KeystoreContents(k.identity, k.pairings, k.reauthDays, at)))
  {
    hide Loaded, Plaintext, Saved;
    SaveIsAtomic(c, disk, KeystoreContents(k.identity, k.pairings, k.reauthDays, at), fault);
  }

  /** After a local re-authentication has been saved, a server that loads the file reports that time, and its window runs from it. */
  lemma AuthenticationIsSeen(c: Cipher, disk: Disk, k: KeystoreContents, at: uint64, fault: SaveFault, h: Host, spki: SpkiHash,
                             frame: ClientFrame, nonce: uint64, turn: Turn)
    requires Inverts(c) && Representable(k.pairings) && Loaded(c, disk, true) == Ok(Some(k)) && StateChanging(frame)
    requires Edited(c, disk, true, ReauthAt(at), fault).1.Ok?
    requires Loaded(c, Edited(c, disk, true, ReauthAt(at), fault).0, true) == Ok(Some(h.contents))
    ensures
      var info := Dispatched(c, h, spki, ReauthStatus, nonce, turn).1;
      && info.ReauthInfo? && info.lastAuthenticatedAt == at
      && (Dispatched(c, h, spki, frame, nonce, turn).1 == Error(nonce, RequiresReauth) <==>
            k.reauthDays != 0 && (turn.now >= at + k.reauthDays * 86_400_000 || turn.now == 18_446_744_073_709_551_615))
  {
    hide Loaded, Edited;
    AuthenticationIsSaved(c, disk, k, at, fault);
    CommandByOutcome(c, h, spki, frame, nonce, turn);
  }

  /** Configuring changes the interval alone and saves, and is acknowledged iff the save succeeded. */
  lemma ConfigByOutcome(c: Cipher, h: Host, spki: SpkiHash, interval: ReauthInterval, nonce: uint64, turn: Turn)
    ensures
      var (h', reply) := Dispatched(c, h, spki, ReauthConfig(interval), nonce, turn);
      var days := match interval case Never => 0 case OneDay => 1 case SevenDays => 7 case ThirtyDays => 30;
      var (disk, saved) := Saved(c, h.disk, h.contents.(reauthDays := days), turn.save);
      && h' == Host(h.contents.(reauthDays := days), disk, h.calls)
      && reply == if saved.Ok? then Ack(nonce) else Error(nonce, Internal)
  {
    hide Saved;
  }

  /** Acknowledging a revocation is always acknowledged; it saves iff it removed something. */
  lemma RevokeAckByOutcome(c: Cipher, h: Host, spki: SpkiHash, nonce: uint64, turn: Turn)
    ensures
      var (h', reply) := Dispatched(c, h, spki, RevokeAck, nonce, turn);
      var kept := WithoutRevoked(h.contents.pairings, spki);
      && reply == Ack(nonce) && h'.contents == h.contents.(pairings := kept) && h'.calls == h.calls
      && h'.disk == if kept == h.contents.pairings then h.disk else Saved(c, h.disk, h'.contents, turn.save).0
  {
    hide Saved;
    RemovesOrKeeps(h.contents.pairings, spki);
  }

  lemma {:induction false} RemovesOrKeeps(pairings: seq<PairingRecord>, spki: SpkiHash)
    ensures |WithoutRevoked(pairings, spki)| == |pairings| ==> WithoutRevoked(pairings, spki) == pairings
  {
    if pairings != [] {
      RemovesOrKeeps(pairings[1..], spki);
      assert pairings == [pairings[0]] + pairings[1..];
    }
  }

  /** A reply closes the connection iff it is an error other than these three. */
  lemma ClosingCodes(reply: DaemonFrame)
    ensures ClosesConnection(reply) <==> reply.Error? && reply.code !in {RequiresReauth, Unsupported, Internal}
  {
    if reply.Error? {
      match reply.code
      case NotPaired =>
      case Revoked =>
      case RequiresReauth =>
      case VersionMismatch =>
      case MalformedFrame =>
      case NonceReplay =>
      case Unsupported =>
      case Internal =>
    }
  }

  /** A pairing attempt on the running server changes nothing. */
  lemma PairIsTurnedDown(c: Cipher, h: Host, spki: SpkiHash, frame: ClientFrame, nonce: uint64, turn: Turn)
    requires frame.Pair?
    ensures Dispatched(c, h, spki, frame, nonce, turn) == (h, Error(nonce, NotPaired))
  {
  }

  // ------------------------------------------------------ a whole connection

  /** The shared state once the first i requests have taken effect, one after the other. */
  function HostAfter(c: Cipher, spki: SpkiHash, start: Host, handled: seq<Request>, env: Environment, i: nat): Host
    requires i <= |handled|
    decreases i, 0
  {
    if i == 0 then start
    else Dispatched(c, HostFound(c, spki, start, handled, env, i - 1), spki, handled[i - 1].frame, handled[i - 1].nonce, env(i)).0
  }

  /** What request i finds: that, and whatever others have made of it. */
  function HostFound(c: Cipher, spki: SpkiHash, start: Host, handled: seq<Request>, env: Environment, i: nat): Host
    requires i <= |handled|
    decreases i, 1
  {
    HostAfter(c, spki, start, handled, env, i).Meanwhile(env(i + 1).found)
  }

  /** Every request had its effect in turn, and was given its own reply. */
  ghost predicate AllTookEffect(c: Cipher, spki: SpkiHash, start: Host, handled: seq<Request>, env: Environment) {
    forall i :: 0 <= i < |handled| ==>
      handled[i].reply ==
      Dispatched(c, HostFound(c, spki, start, handled, env, i), spki, handled[i].frame, handled[i].nonce, env(i + 1)).1
  }

  lemma {:induction false} LaterRequestsDoNotMatter(c: Cipher, spki: SpkiHash, start: Host, handled: seq<Request>, r: Request, env: Environment, i: nat)
    requires i <= |handled|
    ensures HostAfter(c, spki, start, handled + [r], env, i) == HostAfter(c, spki, start, handled, env, i)
    ensures HostFound(c, spki, start, handled + [r], env, i) == HostFound(c, spki, start, handled, env, i)
  {
    hide Dispatched;
    if i > 0 {
      LaterRequestsDoNotMatter(c, spki, start, handled, r, env, i - 1);
    }
  }

  lemma OneMoreTakesEffect(c: Cipher, spki: SpkiHash, start: Host, s: Session, nonce: uint64, frame: ClientFrame, env: Environment)
    requires s.host == HostAfter(c, spki, start, s.handled, env, |s.handled|) && AllTookEffect(c, spki, start, s.handled, env)
    ensures
      var s' := AfterDispatch(c, spki, s, nonce, frame, env(|s.handled| + 1));
      && s'.host == HostAfter(c, spki, start, s'.handled, env, |s'.handled|)
      && AllTookEffect(c, spki, start, s'.handled, env)
  {
    hide Dispatched;
    var n := |s.handled|;
    var s' := AfterDispatch(c, spki, s, nonce, frame, env(n + 1));
    forall i | 0 <= i <= n
      ensures HostFound(c, spki, start, s'.handled, env, i) == HostFound(c, spki, start, s.handled, env, i)
    {
      LaterRequestsDoNotMatter(c, spki, start, s.handled, s'.handled[n], env, i);
    }
    LaterRequestsDoNotMatter(c, spki, start, s.handled, s'.handled[n], env, n);
  }

  lemma StepTakesEffect(c: Cipher, spki: SpkiHash, start: Host, s: Session, e: Envelope, env: Environment)
    requires s.host == HostAfter(c, spki, start, s.handled, env, |s.handled|) && AllTookEffect(c, spki, start, s.handled, env)
    ensures
      var (s', o) := Stepped(c, spki, s, e, env(|s.handled| + 1));
      && s'.host == HostAfter(c, spki, start, s'.handled, env, |s'.handled|)
      && AllTookEffect(c, spki, start, s'.handled, env)
      && (o.None? ==> |s'.handled| == |s.handled| + 1)
  {
    hide Dispatched, DecodeClientFrame, ReplyBytes, AllTookEffect, HostAfter;
    var frame := DecodeClientFrame(e.payload);
    if e.nonce > s.lastSeen && frame.Ok? {
      OneMoreTakesEffect(c, spki, start, s, e.nonce, frame.value, env);
    }
  }

  lemma {:induction false} ServedTakesEffect(c: Cipher, spki: SpkiHash, start: Host, s: Session, envs: seq<Envelope>, end: StreamEnd, env: Environment)
    requires s.host == HostAfter(c, spki, start, s.handled, env, |s.handled|) && AllTookEffect(c, spki, start, s.handled, env)
    ensures
      var f := Served(c, spki, s, envs, end, env, |s.handled| + 1).0;
      f.host == HostAfter(c, spki, start, f.handled, env, |f.handled|) && AllTookEffect(c, spki, start, f.handled, env)
    decreases |envs|
  {
    hide Stepped, AllTookEffect, HostAfter;
    if envs != [] {
      StepTakesEffect(c, spki, start, s, envs[0], env);
      var (s', o) := Stepped(c, spki, s, envs[0], env(|s.handled| + 1));
      if o.None? {
        ServedTakesEffect(c, spki, start, s', envs[1..], end, env);
      }
    }
  }

  /**
    What a connection leaves is the address update followed by the effect of
    each of its requests, in order, each on what the one before and the other
    connections left; and reply i is the one that request i has there.
  */
  lemma ConnectionTakesEffect(c: Cipher, spki: SpkiHash, addr: SocketAddr, h: Host, writes: nat,
                              chunks: seq<seq<uint8>>, ending: Ending, env: Environment)
    requires ActivePairing(h.contents.pairings, spki).Some?
    ensures
      var f := Connected(c, spki, addr, h, writes, chunks, ending, env).0;
      var start := AddressRecorded(c, h.Meanwhile(env(0).found), spki, addr, env(0).save);
      && f.host == HostAfter(c, spki, start, f.handled, env, |f.handled|)
      && AllTookEffect(c, spki, start, f.handled, env)
  {
    hide AddressRecorded, Served, Reassemble;
    var start := AddressRecorded(c, h.Meanwhile(env(0).found), spki, addr, env(0).save);
    var (envs, end) := Reassemble([], chunks, ending);
    ServedTakesEffect(c, spki, start, OpenSession(start, writes), envs, end, env);
  }

  /** The reply that the handlers, the clock and the save of its turn call for, on the contents it found. */
  predicate CalledFor(c: Cipher, found: Host, r: Request, turn: Turn) {
    match r.frame
    case Pair(_, _) => r.reply == Error(r.nonce, NotPaired)
    case StateProbe => r.reply == if turn.session.Ok? then StateReport(turn.session.value) else Error(r.nonce, Internal)
    case ReauthStatus =>
      && r.reply.ReauthInfo? && r.reply.lastAuthenticatedAt == found.contents.lastAuthenticatedAt
      && r.reply.interval == (match found.contents.reauthDays case 0 => Never case 1 => OneDay case 30 => ThirtyDays case _ => SevenDays)
      && (found.contents.reauthDays in {0, 1, 7, 30} ==>
            r.reply.expiresAt == WindowEnd(r.reply.interval, found.contents.lastAuthenticatedAt))
    case ReauthConfig(interval) =>
      r.reply == if c.encrypt(Plaintext(WithInterval(found.contents, interval))).Ok? && turn.save.Healthy?
                 then Ack(r.nonce) else Error(r.nonce, Internal)
    case RevokeAck => r.reply == Ack(r.nonce)
    case _ =>
      r.reply == if WindowOver(found.contents, turn.now) then Error(r.nonce, RequiresReauth)
                 else if turn.handler.Ok? then Ack(r.nonce) else Error(r.nonce, Internal)
  }

  ghost predicate AllCalledFor(c: Cipher, spki: SpkiHash, start: Host, handled: seq<Request>, env: Environment) {
    forall i :: 0 <= i < |handled| ==> CalledFor(c, HostFound(c, spki, start, handled, env, i), handled[i], env(i + 1))
  }

  lemma AllEffectsAreCalledFor(c: Cipher, spki: SpkiHash, start: Host, handled: seq<Request>, env: Environment)
    requires AllTookEffect(c, spki, start, handled, env)
    ensures AllCalledFor(c, spki, start, handled, env)
  {
    hide HostFound, CalledFor, Dispatched;
    forall i | 0 <= i < |handled| ensures CalledFor(c, HostFound(c, spki, start, handled, env, i), handled[i], env(i + 1)) {
      var r := handled[i];
      DispatchCallsFor(c, HostFound(c, spki, start, handled, env, i), spki, r.frame, r.nonce, env(i + 1));
    }
  }

  lemma DispatchCallsFor(c: Cipher, h: Host, spki: SpkiHash, frame: ClientFrame, nonce: uint64, turn: Turn)
    ensures CalledFor(c, h, Request(nonce, frame, Dispatched(c, h, spki, frame, nonce, turn).1), turn)
  {
    hide Plaintext;
    match frame
    case Sleep => CommandByOutcome(c, h, spki, frame, nonce, turn);
    case Lock => CommandByOutcome(c, h, spki, frame, nonce, turn);
    case PowerOff => CommandByOutcome(c, h, spki, frame, nonce, turn);
    case ReauthStatus =>
      R.IntervalDays(h.contents.reauthDays);
      R.WindowInMilliseconds(turn.now, h.contents.lastAuthenticatedAt, h.contents.reauthDays);
    case _ =>
  }

  /**
    Over a whole connection: every request that could be answered was sent, as
    reply i under nonce i, the answer that the outcome of its own handler call,
    the clock and its own save call for on the contents it found.
  */
  lemma RepliesAreCalledFor(c: Cipher, spki: SpkiHash, addr: SocketAddr, h: Host, writes: nat,
                            chunks: seq<seq<uint8>>, ending: Ending, env: Environment)
    requires ActivePairing(h.contents.pairings, spki).Some?
    ensures
      var (f, o) := Connected(c, spki, addr, h, writes, chunks, ending, env);
      var start := AddressRecorded(c, h.Meanwhile(env(0).found), spki, addr, env(0).save);
      && AllCalledFor(c, spki, start, f.handled, env)
      && Delivered(f, o) >= 0 && RepliesInOrder(f.outbound, f.handled, Delivered(f, o))
  {
    hide Connected, AddressRecorded, AllTookEffect, AllCalledFor, ParseStream, GateCount, RepliesInOrder, AllCalls;
    ConnectionFinishes(c, spki, addr, h, writes, chunks, ending, env);
    ConnectionTakesEffect(c, spki, addr, h, writes, chunks, ending, env);
    var f := Connected(c, spki, addr, h, writes, chunks, ending, env).0;
    var start := AddressRecorded(c, h.Meanwhile(env(0).found), spki, addr, env(0).save);
    AllEffectsAreCalledFor(c, spki, start, f.handled, env);
  }

  /** A peer without an active record is told that it is revoked, and nothing it sends is read. */
  lemma UnlistedIsTurnedAway(c: Cipher, spki: SpkiHash, addr: SocketAddr, h: Host, writes: nat,
                             chunks: seq<seq<uint8>>, ending: Ending, env: Environment)
    requires forall p :: p in h.contents.pairings && p.clientSpki == spki ==> p.revoked
    ensures
      var (f, o) := Connected(c, spki, addr, h, writes, chunks, ending, env);
      && f.host == h && f.handled == [] && o == Refused(Revoked)
      && f.outbound == if writes > 0 then [ReplyBytes(1, Error(0, Revoked))] else []
  {
    hide AddressRecorded, Served, Reassemble, ReplyBytes;
    PinnedIffActive(h.contents.pairings, spki);
  }
}
