/** What a connection guarantees over all of its frames. */
module Delivery {
  import opened Wrappers
  import opened Bytes
  import Postcard
  import opened ProtocolErrors
  import opened Messages
  import opened Envelopes
  import opened Nonces
  import opened Keystore
  import opened Pairings
  import opened Transport
  import opened SharedState
  import opened Connection

  // ------------------------------------------------------------ one request

  /** The only request whose reply closes the connection is a pairing attempt. */
  lemma OnlyPairCloses(c: Cipher, h: Host, spki: SpkiHash, frame: ClientFrame, nonce: uint64, turn: Turn)
    ensures ClosesConnection(Dispatched(c, h, spki, frame, nonce, turn).1) <==> frame.Pair?
  {
  }

  /** Acknowledgements and errors carry the nonce of the request they answer, and errors one of three codes. */
  predicate Correlates(r: Request) {
    && (r.reply.Ack? ==> r.reply.requestNonce == r.nonce)
    && (r.reply.Error? ==> r.reply.requestNonce == r.nonce && r.reply.code in {NotPaired, RequiresReauth, Internal})
    && (r.frame.Pair? <==> r.reply.Error? && r.reply.code == NotPaired)
    && !r.reply.Revoke?
  }

  predicate StateChanging(frame: ClientFrame) { frame.Sleep? || frame.Lock? || frame.PowerOff? }

  /**
    A state-changing command is refused exactly when a status request on the
    same state would report an interval other than `Never` and an expiry the
    clock has reached; a refused command leaves the whole state as it was, any
    other makes exactly one call.
  */
  lemma RefusedIffReportedExpired(c: Cipher, h: Host, spki: SpkiHash, frame: ClientFrame, nonce: uint64, turn: Turn)
    requires StateChanging(frame)
    ensures
      var info := Dispatched(c, h, spki, ReauthStatus, nonce, turn).1;
      var (h', reply) := Dispatched(c, h, spki, frame, nonce, turn);
      && info.ReauthInfo?
      && (reply == Error(nonce, RequiresReauth) <==> info.interval != Never && turn.now >= info.expiresAt)
      && (if reply == Error(nonce, RequiresReauth) then h' == h
          else h' == h.(calls := h'.calls) && |h'.calls| == |h.calls| + 1
               && h'.calls[..|h.calls|] == h.calls && h'.calls[|h.calls|].nonce == nonce)
  {
  }

  /**
    A configured interval is the one later reported, and it is acknowledged
    exactly when the keystore file has it; records are never touched by it.
  */
  lemma ConfigureThenStatus(c: Cipher, h: Host, spki: SpkiHash, interval: ReauthInterval, nonce: uint64, turn: Turn, later: Turn)
    requires Inverts(c) && Representable(h.contents.pairings)
    ensures
      var (h', reply) := Dispatched(c, h, spki, ReauthConfig(interval), nonce, turn);
      var info := Dispatched(c, h', spki, ReauthStatus, nonce, later).1;
      && info.ReauthInfo? && info.interval == interval && info.lastAuthenticatedAt == h.contents.lastAuthenticatedAt
      && h'.contents.pairings == h.contents.pairings && h'.contents.identity == h.contents.identity
      && (if reply == Ack(nonce) then Loaded(c, h'.disk, true) == Ok(Some(h'.contents))
          else reply == Error(nonce, Internal) && h'.disk.file == h.disk.file)
  {
    hide Loaded;
    SaveIsAtomic(c, h.disk, WithInterval(h.contents, interval), turn.save);
  }

  /** Acknowledging a revocation forgets exactly the peer's own revoked records. */
  lemma {:induction false} ForgetsOnlyOwnRevoked(pairings: seq<PairingRecord>, spki: SpkiHash)
    ensures forall p :: p in WithoutRevoked(pairings, spki) <==> p in pairings && !(p.clientSpki == spki && p.revoked)
    ensures ActiveSpkis(WithoutRevoked(pairings, spki)) == ActiveSpkis(pairings)
  {
    if pairings != [] {
      ForgetsOnlyOwnRevoked(pairings[1..], spki);
      assert forall p :: p in pairings <==> p == pairings[0] || p in pairings[1..];
    }
  }

  // ---------------------------------------------------------------- the gate

  /** How many frames pass both the nonce gate and the payload decoder. */
  function GateCount(lastSeen: uint64, envs: seq<Envelope>): (n: nat)
    ensures n <= |envs|
    decreases |envs|
  {
    if envs == [] || envs[0].nonce <= lastSeen || DecodeClientFrame(envs[0].payload).Err? then 0
    else 1 + GateCount(envs[0].nonce, envs[1..])
  }

  function NoncesOf(envs: seq<Envelope>): (r: seq<uint64>)
    ensures |r| == |envs| && forall i :: 0 <= i < |r| ==> r[i] == envs[i].nonce
  {
    if envs == [] then [] else [envs[0].nonce] + NoncesOf(envs[1..])
  }

  predicate PassesGate(lastSeen: uint64, envs: seq<Envelope>) {
    && Increasing(NoncesOf(envs))
    && (envs != [] ==> envs[0].nonce > lastSeen)
    && AllDecode(envs)
  }

  predicate Decodes(e: Envelope) { DecodeClientFrame(e.payload).Ok? }

  predicate AllDecode(envs: seq<Envelope>) { forall e :: e in envs ==> Decodes(e) }

  /** The gate count is the length of the longest prefix with increasing nonces and decodable payloads. */
  lemma {:induction false} GateIsLongestPrefix(lastSeen: uint64, envs: seq<Envelope>, n: nat)
    requires n <= |envs|
    ensures n <= GateCount(lastSeen, envs) <==> PassesGate(lastSeen, envs[..n])
    decreases n
  {
    hide DecodeClientFrame, PassesGate;
    if n > 0 {
      GateIsLongestPrefix(envs[0].nonce, envs[1..], n - 1);
      assert envs[..n] == [envs[0]] + envs[1..][..n - 1];
      GateCons(lastSeen, envs[0], envs[1..][..n - 1]);
    } else {
      EmptyPasses(lastSeen, envs[..0]);
    }
  }

  lemma EmptyPasses(lastSeen: uint64, envs: seq<Envelope>)
    requires envs == []
    ensures PassesGate(lastSeen, envs)
  {
  }

  lemma GateCons(lastSeen: uint64, head: Envelope, tail: seq<Envelope>)
    ensures PassesGate(lastSeen, [head] + tail) <==>
            head.nonce > lastSeen && Decodes(head) && PassesGate(head.nonce, tail)
  {
    hide Decodes, Increasing;
    var all := [head] + tail;
    assert all[1..] == tail;
    assert NoncesOf(all) == [head.nonce] + NoncesOf(tail);
    IncreasingCons(head.nonce, NoncesOf(tail));
    assert AllDecode(all) <==> Decodes(head) && AllDecode(tail) by {
      assert forall e :: e in all <==> e == head || e in tail;
    }
  }

  /** One more frame passes exactly when its nonce is above the previous one and its payload decodes. */
  lemma {:induction false} GateExtends(lastSeen: uint64, envs: seq<Envelope>, n: nat)
    requires n < |envs| && n <= GateCount(lastSeen, envs)
    ensures n + 1 <= GateCount(lastSeen, envs) <==>
            && envs[n].nonce > (if n == 0 then lastSeen else envs[n - 1].nonce)
            && DecodeClientFrame(envs[n].payload).Ok?
    decreases n
  {
    hide DecodeClientFrame;
    if n > 0 {
      GateExtends(envs[0].nonce, envs[1..], n - 1);
    }
  }

  // --------------------------------------------------------- the effect log

  /** The operating-system calls one request made. */
  function CallsOf(r: Request): seq<OsCall> {
    match r.frame
    case StateProbe => [OsCall(CallProbe, r.nonce)]
    case Sleep => if r.reply == Error(r.nonce, RequiresReauth) then [] else [OsCall(CallSleep, r.nonce)]
    case Lock => if r.reply == Error(r.nonce, RequiresReauth) then [] else [OsCall(CallLock, r.nonce)]
    case PowerOff => if r.reply == Error(r.nonce, RequiresReauth) then [] else [OsCall(CallPowerOff, r.nonce)]
    case _ => []
  }

  function AllCalls(handled: seq<Request>): seq<OsCall> {
    if handled == [] then [] else AllCalls(handled[..|handled| - 1]) + CallsOf(handled[|handled| - 1])
  }

  predicate IncreasingRequests(handled: seq<Request>) {
    forall i, j :: 0 <= i < j < |handled| ==> handled[i].nonce < handled[j].nonce
  }

  predicate IncreasingCalls(calls: seq<OsCall>) {
    forall i, j :: 0 <= i < j < |calls| ==> calls[i].nonce < calls[j].nonce
  }

  predicate MadeFor(call: OsCall, handled: seq<Request>) {
    exists j :: 0 <= j < |handled| && handled[j].nonce == call.nonce
  }

  lemma {:induction false} EveryCallHasARequest(handled: seq<Request>)
    ensures forall call :: call in AllCalls(handled) ==> MadeFor(call, handled)
  {
    if handled != [] {
      var front, last := handled[..|handled| - 1], handled[|handled| - 1];
      EveryCallHasARequest(front);
      forall call | call in AllCalls(handled) ensures MadeFor(call, handled) {
        if call in AllCalls(front) {
          var j :| 0 <= j < |front| && front[j].nonce == call.nonce;
          assert handled[j] == front[j];
        } else {
          assert call in CallsOf(last);
          assert handled[|handled| - 1].nonce == call.nonce;
        }
      }
    }
  }

  /** Distinct calls were made for distinct requests, in request order. */
  lemma {:induction false} CallsMapInjectively(handled: seq<Request>)
    requires IncreasingRequests(handled)
    ensures IncreasingCalls(AllCalls(handled))
    ensures forall call :: call in AllCalls(handled) ==> MadeFor(call, handled)
  {
    EveryCallHasARequest(handled);
    if handled != [] {
      var front, last := handled[..|handled| - 1], handled[|handled| - 1];
      CallsMapInjectively(front);
      forall call | call in AllCalls(front) ensures call.nonce < last.nonce {
        var j :| 0 <= j < |front| && front[j].nonce == call.nonce;
        assert handled[j].nonce < handled[|handled| - 1].nonce;
      }
      LastCallIsLargest(AllCalls(front), CallsOf(last), last.nonce);
    }
  }

  lemma LastCallIsLargest(calls: seq<OsCall>, more: seq<OsCall>, nonce: uint64)
    requires IncreasingCalls(calls) && forall call :: call in calls ==> call.nonce < nonce
    requires |more| <= 1 && forall call :: call in more ==> call.nonce == nonce
    ensures IncreasingCalls(calls + more)
  {
    var all := calls + more;
    forall i, j | 0 <= i < j < |all| ensures all[i].nonce < all[j].nonce {
      assert i < |calls| && all[i] in calls;
      assert j == |calls| ==> all[j] in more;
    }
  }

  // ------------------------------------------------------- a whole connection

  predicate Answers(r: Request, e: Envelope) {
    r.nonce == e.nonce && DecodeClientFrame(e.payload) == Ok(r.frame) && Correlates(r)
  }

  /** Request i is the one frame i asked for. */
  predicate AnswersAll(handled: seq<Request>, all: seq<Envelope>) {
    |handled| <= |all| && forall i :: 0 <= i < |handled| ==> Answers(handled[i], all[i])
  }

  /** The first m frames sent are the first m replies, with nonces 1 to m. */
  predicate RepliesInOrder(outbound: seq<seq<uint8>>, handled: seq<Request>, m: nat) {
    && m <= |outbound| && m <= |handled| && m <= U64_MAX
    && forall i :: 0 <= i < m ==> outbound[i] == ReplyBytes(i + 1, handled[i].reply)
  }

  predicate NoPairBefore(handled: seq<Request>, n: int) {
    forall i :: 0 <= i < n && i < |handled| ==> !handled[i].frame.Pair?
  }

  /** While the loop runs: every frame so far passed the gate, was dispatched once and answered in order. */
  ghost predicate Running(s: Session, all: seq<Envelope>, calls: seq<OsCall>, writes: nat) {
    var n := |s.handled|;
    && AnswersAll(s.handled, all)
    && n <= GateCount(0, all)
    && s.lastSeen == (if n == 0 then 0 else all[n - 1].nonce)
    && s.lastSent == n == |s.outbound|
    && s.writesLeft + n == writes
    && s.host.calls == calls + AllCalls(s.handled)
    && RepliesInOrder(s.outbound, s.handled, n)
    && NoPairBefore(s.handled, n)
  }

  /** How many replies were written: all but the last when the last one could not be. */
  function Delivered(f: Session, o: Outcome): int {
    if o.NonceExhausted? || o.WriteFailure? then |f.handled| - 1 else |f.handled|
  }

  /** What a refused frame is refused as, after the given nonce. */
  function RefusalCode(lastSeen: uint64, e: Envelope): ProtocolError {
    if e.nonce <= lastSeen then NonceReplay else MalformedFrame
  }

  /** Why the loop stopped where it did. */
  predicate StopReason(f: Session, o: Outcome, all: seq<Envelope>, end: StreamEnd, writes: nat) {
    var n := |f.handled|;
    match o
    case PeerClosed => n == |all| && end.CleanEof?
    case StreamFailed(why) => n == |all| && why == end && !end.CleanEof?
    case Refused(code) => n == GateCount(0, all) < |all| && code == RefusalCode(if n == 0 then 0 else all[n - 1].nonce, all[n])
    case ClosedByReply => n > 0 && f.handled[n - 1].frame.Pair?
    case NonceExhausted => n > 0 && n - 1 == U64_MAX
    case WriteFailure => n > 0 && n - 1 == writes
  }

  /** The one frame that may follow the replies: an error for the first frame that was refused. */
  predicate ClosingError(f: Session, o: Outcome, m: nat, all: seq<Envelope>, writes: nat) {
    match o
    case Refused(code) =>
      if m == writes then |f.outbound| == m
      else |f.outbound| == m + 1 && |f.handled| < |all| && f.outbound[m] == ReplyBytes(1, Error(all[|f.handled|].nonce, code))
    case _ => |f.outbound| == m
  }

  /** When a connection has ended: the same, and at most one closing error after the replies. */
  ghost predicate Finished(f: Session, o: Outcome, all: seq<Envelope>, end: StreamEnd, calls: seq<OsCall>, writes: nat) {
    && AnswersAll(f.handled, all)
    && |f.handled| <= GateCount(0, all)
    && f.host.calls == calls + AllCalls(f.handled)
    && 0 <= Delivered(f, o) <= writes
    && RepliesInOrder(f.outbound, f.handled, Delivered(f, o))
    && ClosingError(f, o, Delivered(f, o), all, writes)
    && NoPairBefore(f.handled, if o.PeerClosed? || o.StreamFailed? || o.Refused? then |f.handled| else |f.handled| - 1)
    && StopReason(f, o, all, end, writes)
  }

  lemma DispatchCorrelates(c: Cipher, h: Host, spki: SpkiHash, frame: ClientFrame, nonce: uint64, turn: Turn)
    ensures
      var (h', reply) := Dispatched(c, h, spki, frame, nonce, turn);
      Correlates(Request(nonce, frame, reply)) && h'.calls == h.calls + CallsOf(Request(nonce, frame, reply))
  {
  }

  /** The session once a frame has been dispatched, before its reply is written. */
  function AfterDispatch(c: Cipher, spki: SpkiHash, s: Session, nonce: uint64, frame: ClientFrame, turn: Turn): Session {
    var (host, reply) := Dispatched(c, s.host.Meanwhile(turn.found), spki, frame, nonce, turn);
    s.(host := host, lastSeen := nonce, handled := s.handled + [Request(nonce, frame, reply)])
  }

  lemma DispatchExtends(c: Cipher, spki: SpkiHash, s: Session, all: seq<Envelope>, frame: ClientFrame, turn: Turn,
                        calls: seq<OsCall>, writes: nat)
    requires Running(s, all, calls, writes) && |s.handled| < |all|
    requires all[|s.handled|].nonce > s.lastSeen && DecodeClientFrame(all[|s.handled|].payload) == Ok(frame)
    ensures
      var s' := AfterDispatch(c, spki, s, all[|s.handled|].nonce, frame, turn);
      var n := |s.handled|;
      && |s'.handled| == n + 1 && s'.handled[..n] == s.handled
      && AnswersAll(s'.handled, all)
      && n + 1 <= GateCount(0, all)
      && s'.host.calls == calls + AllCalls(s'.handled)
      && (ClosesConnection(s'.handled[n].reply) <==> s'.handled[n].frame.Pair?)
  {
    hide DecodeClientFrame, Dispatched, GateCount, CallsOf, ClosesConnection, RepliesInOrder, NoPairBefore;
    var n, e := |s.handled|, all[|s.handled|];
    GateExtends(0, all, n);
    DispatchCorrelates(c, s.host.Meanwhile(turn.found), spki, frame, e.nonce, turn);
    OnlyPairCloses(c, s.host.Meanwhile(turn.found), spki, frame, e.nonce, turn);
    var s' := AfterDispatch(c, spki, s, e.nonce, frame, turn);
    assert s'.handled[..n] == s.handled;
    Associate(calls, AllCalls(s.handled), CallsOf(s'.handled[n]));
  }

  lemma ReplyExtends(outbound: seq<seq<uint8>>, handled: seq<Request>, n: nat)
    requires n <= U64_MAX && |outbound| == n && |handled| == n + 1
    requires RepliesInOrder(outbound, handled[..n], n)
    ensures RepliesInOrder(outbound, handled, n)
    ensures n < U64_MAX ==> RepliesInOrder(outbound + [ReplyBytes(n + 1, handled[n].reply)], handled, n + 1)
  {
    hide ReplyBytes;
    assert forall i :: 0 <= i < n ==> handled[..n][i] == handled[i];
  }

  lemma NoPairExtends(handled: seq<Request>, n: nat)
    requires |handled| == n + 1 && NoPairBefore(handled[..n], n)
    ensures NoPairBefore(handled, n)
    ensures !handled[n].frame.Pair? ==> NoPairBefore(handled, n + 1)
  {
    assert forall i :: 0 <= i < n ==> handled[..n][i] == handled[i];
  }

  lemma UndecodableIsMalformed(payload: seq<uint8>)
    ensures DecodeClientFrame(payload).Err? ==> DecodeClientFrame(payload).error.ToWireCode() == MalformedFrame
  {
    hide TakeClientFrame;
  }

  /** A frame the gate refuses ends the connection where the gate count says. */
  lemma RefusalFinishes(c: Cipher, spki: SpkiHash, s: Session, all: seq<Envelope>, turn: Turn, calls: seq<OsCall>, writes: nat, end: StreamEnd)
    requires Running(s, all, calls, writes) && |s.handled| < |all|
    requires all[|s.handled|].nonce <= s.lastSeen || DecodeClientFrame(all[|s.handled|].payload).Err?
    ensures
      var (f, o) := Stepped(c, spki, s, all[|s.handled|], turn);
      o.Some? && Finished(f, o.value, all, end, calls, writes)
  {
    hide DecodeClientFrame, ReplyBytes, GateCount, AllCalls, AnswersAll, RepliesInOrder;
    var n, e := |s.handled|, all[|s.handled|];
    GateExtends(0, all, n);
    UndecodableIsMalformed(e.payload);
    var code := if e.nonce <= s.lastSeen then NonceReplay else DecodeClientFrame(e.payload).error.ToWireCode();
    RefusalKeepsReplies(s, ReplyBytes(1, Error(e.nonce, code)));
  }

  lemma DispatchKeepsRunning(c: Cipher, spki: SpkiHash, s: Session, all: seq<Envelope>, turn: Turn, calls: seq<OsCall>, writes: nat, end: StreamEnd)
    requires Running(s, all, calls, writes) && |s.handled| < |all|
    requires all[|s.handled|].nonce > s.lastSeen && DecodeClientFrame(all[|s.handled|].payload).Ok?
    ensures
      match Stepped(c, spki, s, all[|s.handled|], turn)
      case (f, Some(o)) => Finished(f, o, all, end, calls, writes)
      case (s', None) => Running(s', all, calls, writes) && |s'.handled| == |s.handled| + 1
  {
    hide DecodeClientFrame, Dispatched, ReplyBytes, GateCount, CallsOf, AllCalls, ClosesConnection, AnswersAll, RepliesInOrder, NoPairBefore;
    var n, e := |s.handled|, all[|s.handled|];
    var frame := DecodeClientFrame(e.payload).value;
    DispatchExtends(c, spki, s, all, frame, turn, calls, writes);
    var handled := AfterDispatch(c, spki, s, e.nonce, frame, turn).handled;
    ReplyExtends(s.outbound, handled, n);
    NoPairExtends(handled, n);
  }

  lemma StepKeepsRunning(c: Cipher, spki: SpkiHash, s: Session, all: seq<Envelope>, turn: Turn, calls: seq<OsCall>, writes: nat, end: StreamEnd)
    requires Running(s, all, calls, writes) && |s.handled| < |all|
    ensures
      match Stepped(c, spki, s, all[|s.handled|], turn)
      case (f, Some(o)) => Finished(f, o, all, end, calls, writes)
      case (s', None) => Running(s', all, calls, writes) && |s'.handled| == |s.handled| + 1
  {
    hide *;
    var e := all[|s.handled|];
    if e.nonce > s.lastSeen && DecodeClientFrame(e.payload).Ok? {
      DispatchKeepsRunning(c, spki, s, all, turn, calls, writes, end);
    } else {
      RefusalFinishes(c, spki, s, all, turn, calls, writes, end);
    }
  }

  lemma RefusalKeepsReplies(s: Session, bytes: seq<uint8>)
    requires RepliesInOrder(s.outbound, s.handled, |s.handled|)
    ensures RepliesInOrder(s.outbound + [bytes], s.handled, |s.handled|)
  {
    hide ReplyBytes;
  }

  lemma {:induction false} ServedFinishes(c: Cipher, spki: SpkiHash, s: Session, all: seq<Envelope>, end: StreamEnd,
                                          env: Environment, turn: nat, calls: seq<OsCall>, writes: nat)
    requires Running(s, all, calls, writes)
    ensures
      var (f, o) := Served(c, spki, s, all[|s.handled|..], end, env, turn);
      Finished(f, o, all, end, calls, writes)
    decreases |all| - |s.handled|
  {
    hide Stepped, ReplyBytes, GateCount, Answers, AnswersAll, RepliesInOrder, NoPairBefore, AllCalls, RefusalCode;
    var n := |s.handled|;
    if n < |all| {
      StepKeepsRunning(c, spki, s, all, env(turn), calls, writes, end);
      var (s', closed) := Stepped(c, spki, s, all[n], env(turn));
      assert all[n..][1..] == all[n + 1..];
      if closed.None? {
        ServedFinishes(c, spki, s', all, end, env, turn + 1, calls, writes);
      }
    }
  }

  lemma ConnectionFinishes(c: Cipher, spki: SpkiHash, addr: SocketAddr, h: Host, writes: nat,
                           chunks: seq<seq<uint8>>, ending: Ending, env: Environment)
    requires ActivePairing(h.contents.pairings, spki).Some?
    ensures
      var (f, o) := Connected(c, spki, addr, h, writes, chunks, ending, env);
      var (envs, end) := ParseStream(Flatten(chunks), ending);
      Finished(f, o, envs, end, h.calls, writes)
  {
    hide ParseStream, Reassemble, WithAddress, Saved, Finished, Served;
    ChunkingIndependence([], chunks, ending);
    assert [] + Flatten(chunks) == Flatten(chunks);
    var (envs, end) := ParseStream(Flatten(chunks), ending);
    var s := OpenSession(AddressRecorded(c, h.Meanwhile(env(0).found), spki, addr, env(0).save), writes);
    assert h.calls + AllCalls(s.handled) == h.calls;
    assert Running(s, envs, h.calls, writes);
    ServedFinishes(c, spki, s, envs, end, env, 1, h.calls, writes);
    assert envs[0..] == envs;
  }

  /**
    The replay gate, over whole connections: the frames dispatched are a prefix
    of the stream with strictly increasing nonces from 1 and decodable
    payloads, and the longest such prefix unless a reply closed the connection
    or could not be sent. Every operating-system call was made for exactly one
    of them.
  */
  lemma ReplayGate(c: Cipher, spki: SpkiHash, addr: SocketAddr, h: Host, writes: nat,
                   chunks: seq<seq<uint8>>, ending: Ending, env: Environment)
    requires ActivePairing(h.contents.pairings, spki).Some?
    ensures
      var (f, o) := Connected(c, spki, addr, h, writes, chunks, ending, env);
      var envs := ParseStream(Flatten(chunks), ending).0;
      && AnswersAll(f.handled, envs)
      && PassesGate(0, envs[..|f.handled|]) && IncreasingRequests(f.handled)
      && (o.PeerClosed? || o.StreamFailed? || o.Refused? ==>
            forall n :: |f.handled| < n <= |envs| ==> !PassesGate(0, envs[..n]))
      && f.host.calls == h.calls + AllCalls(f.handled)
      && IncreasingCalls(AllCalls(f.handled))
  {
    hide Connected, PassesGate, ParseStream, GateCount, RepliesInOrder, ClosingError, Answers, AllCalls;
    ConnectionFinishes(c, spki, addr, h, writes, chunks, ending, env);
    var (f, o) := Connected(c, spki, addr, h, writes, chunks, ending, env);
    var envs := ParseStream(Flatten(chunks), ending).0;
    forall n | 0 <= n <= |envs| ensures n <= GateCount(0, envs) <==> PassesGate(0, envs[..n]) {
      GateIsLongestPrefix(0, envs, n);
    }
    GatedRequestsIncrease(f.handled, envs);
    CallsMapInjectively(f.handled);
  }

  /**
    The only error codes a listed peer is ever sent: a version mismatch and an
    unknown tag have no code of their own here, whatever the stream.
  */
  lemma CodesOnTheWire(c: Cipher, spki: SpkiHash, addr: SocketAddr, h: Host, writes: nat,
                       chunks: seq<seq<uint8>>, ending: Ending, env: Environment)
    requires ActivePairing(h.contents.pairings, spki).Some?
    ensures
      var (f, o) := Connected(c, spki, addr, h, writes, chunks, ending, env);
      && (forall r :: r in f.handled && r.reply.Error? ==> r.reply.code in {NotPaired, RequiresReauth, Internal})
      && (o.Refused? ==> o.code in {NonceReplay, MalformedFrame})
      && (o.StreamFailed? ==> |f.outbound| == |f.handled|)
  {
    hide Connected, ParseStream, GateCount, RepliesInOrder, AllCalls, DecodeClientFrame;
    ConnectionFinishes(c, spki, addr, h, writes, chunks, ending, env);
    var f := Connected(c, spki, addr, h, writes, chunks, ending, env).0;
    forall i | 0 <= i < |f.handled| ensures Correlates(f.handled[i]) {
      assert Answers(f.handled[i], ParseStream(Flatten(chunks), ending).0[i]);
    }
  }

  lemma GatedRequestsIncrease(handled: seq<Request>, envs: seq<Envelope>)
    requires AnswersAll(handled, envs) && PassesGate(0, envs[..|handled|])
    ensures IncreasingRequests(handled)
  {
    hide DecodeClientFrame, Correlates;
    var nonces := NoncesOf(envs[..|handled|]);
    assert forall i :: 0 <= i < |handled| ==> handled[i].nonce == nonces[i];
  }

  // --------------------------------------------------------- the client side

  function ReplyEnvelope(nonce: uint64, reply: DaemonFrame): Envelope {
    Envelope(PROTOCOL_VERSION, nonce, EncodeDaemonFrame(reply))
  }

  function RepliesAsEnvelopes(handled: seq<Request>, m: nat): (r: seq<Envelope>)
    requires m <= |handled| && m <= U64_MAX
    ensures |r| == m && forall i :: 0 <= i < m ==> r[i] == ReplyEnvelope(i + 1, handled[i].reply)
  {
    if m == 0 then [] else RepliesAsEnvelopes(handled, m - 1) + [ReplyEnvelope(m, handled[m - 1].reply)]
  }

  lemma {:induction false} CountingUpIsAccepted(last: uint64, nonces: seq<uint64>, m: nat)
    requires m <= |nonces| && forall i :: 0 <= i < m ==> nonces[i] == last + i + 1
    ensures AcceptedCount(last, nonces) ==
            m + AcceptedCount(if m == 0 then last else nonces[m - 1], nonces[m..])
    decreases m
  {
    if m == 0 {
      assert nonces[0..] == nonces;
    } else {
      CountingUpIsAccepted(nonces[0], nonces[1..], m - 1);
      assert nonces[1..][m - 1..] == nonces[m..];
    }
  }

  /** The envelopes a finished connection sent: its replies, then the closing error if there was one. */
  ghost function Sent(f: Session, o: Outcome, envs: seq<Envelope>, end: StreamEnd, calls: seq<OsCall>, writes: nat): (r: seq<Envelope>)
    requires Finished(f, o, envs, end, calls, writes)
    ensures Delivered(f, o) <= |r| <= Delivered(f, o) + 1 && |r| == |f.outbound|
    ensures |r| > Delivered(f, o) ==> o.Refused?
  {
    RepliesAsEnvelopes(f.handled, Delivered(f, o)) +
    (if |f.outbound| == Delivered(f, o) then [] else [ReplyEnvelope(1, Error(envs[|f.handled|].nonce, o.code))])
  }

  lemma SentAreWritten(f: Session, o: Outcome, envs: seq<Envelope>, end: StreamEnd, calls: seq<OsCall>, writes: nat)
    requires Finished(f, o, envs, end, calls, writes)
    ensures
      var sent := Sent(f, o, envs, end, calls, writes);
      f.outbound == WireForms(sent) && forall e :: e in sent ==> Sendable(e)
  {
    hide FrameBytes, EncodeDaemonFrame, Answers, GateCount, AllCalls, AnswersAll, StopReason, NoPairBefore;
    var sent, m := Sent(f, o, envs, end, calls, writes), Delivered(f, o);
    forall i | 0 <= i < |sent| ensures Sendable(sent[i]) {
      DaemonFrameLength(if i < m then f.handled[i].reply else Error(envs[|f.handled|].nonce, o.code));
    }
    assert f.outbound == WireForms(sent);
  }

  /**
    The client parses exactly the replies, the k-th with nonce k, and its own
    replay check accepts them all. The closing error, stamped 1 whatever went
    before, passes that check exactly when no reply preceded it.
  */
  lemma ClientSeesReplies(f: Session, o: Outcome, envs: seq<Envelope>, end: StreamEnd, calls: seq<OsCall>, writes: nat)
    requires Finished(f, o, envs, end, calls, writes)
    ensures
      var sent, m := Sent(f, o, envs, end, calls, writes), Delivered(f, o);
      && ParseStream(Flatten(f.outbound), Eof) == (sent, CleanEof)
      && (forall i :: 0 <= i < m ==> sent[i].nonce == i + 1 && DecodeDaemonFrame(sent[i].payload) == Ok(f.handled[i].reply))
      && AcceptedCount(0, NoncesOf(sent)) == (if m == 0 then |sent| else m)
  {
    hide FrameBytes, EncodeDaemonFrame, DecodeDaemonFrame, ParseStream, Finished;
    var sent, m := Sent(f, o, envs, end, calls, writes), Delivered(f, o);
    SentAreWritten(f, o, envs, end, calls, writes);
    WholeStreamRoundTrip(sent);
    forall i | 0 <= i < m ensures DecodeDaemonFrame(sent[i].payload) == Ok(f.handled[i].reply) {
      DaemonRoundTrip(f.handled[i].reply);
    }
    CountingUpIsAccepted(0, NoncesOf(sent), m);
  }

  lemma WholeStreamRoundTrip(envs: seq<Envelope>)
    requires forall e :: e in envs ==> Sendable(e)
    ensures ParseStream(Flatten(WireForms(envs)), Eof) == (envs, CleanEof)
  {
    hide DecodeEnvelope, FrameBytes, Sendable;
    StreamRoundTrip(envs, [], Eof);
    assert ParseStream([], Eof) == ([], CleanEof) by {
      DecodeCases([]);
    }
    assert Flatten(WireForms(envs)) + [] == Flatten(WireForms(envs)) && envs + [] == envs;
  }

  /** The client's replay check turns one of the frames it was sent down. */
  ghost predicate DropsAFrame(f: Session, o: Outcome, envs: seq<Envelope>, end: StreamEnd, calls: seq<OsCall>, writes: nat)
    requires Finished(f, o, envs, end, calls, writes)
  {
    var nonces := NoncesOf(Sent(f, o, envs, end, calls, writes));
    AcceptedCount(0, nonces) < |nonces|
  }

  predicate AsksToPair(e: Envelope) {
    DecodeClientFrame(e.payload).Ok? && DecodeClientFrame(e.payload).value.Pair?
  }

  /** What a client can tell from what it sends: some frame is refused after an answered one, and nothing ends the connection before. */
  predicate RefusedLate(envs: seq<Envelope>, writes: nat) {
    var g := GateCount(0, envs);
    1 <= g < |envs| && g < writes && forall i :: 0 <= i < g ==> !AsksToPair(envs[i])
  }

  /** Nonces run out before the gate can pass that many frames. */
  lemma {:induction false} GateIsBounded(lastSeen: uint64, envs: seq<Envelope>)
    ensures lastSeen + GateCount(lastSeen, envs) <= U64_MAX
    decreases |envs|
  {
    hide DecodeClientFrame;
    if GateCount(lastSeen, envs) > 0 {
      GateIsBounded(envs[0].nonce, envs[1..]);
    }
  }

  lemma AnsweredPairs(handled: seq<Request>, envs: seq<Envelope>)
    requires AnswersAll(handled, envs)
    ensures forall i :: 0 <= i < |handled| ==> (AsksToPair(envs[i]) <==> handled[i].frame.Pair?)
  {
    hide DecodeClientFrame, Correlates;
    forall i | 0 <= i < |handled| ensures AsksToPair(envs[i]) <==> handled[i].frame.Pair? {
      assert Answers(handled[i], envs[i]);
    }
  }

  lemma DropsTheClosingError(f: Session, o: Outcome, envs: seq<Envelope>, end: StreamEnd, calls: seq<OsCall>, writes: nat)
    requires Finished(f, o, envs, end, calls, writes)
    ensures DropsAFrame(f, o, envs, end, calls, writes) <==> |f.outbound| > Delivered(f, o) >= 1
  {
    ClientSeesReplies(f, o, envs, end, calls, writes);
    hide DecodeClientFrame, DecodeDaemonFrame, EncodeDaemonFrame, ParseStream, GateCount, AllCalls, AnswersAll, RepliesInOrder, ReplyBytes,
         NoPairBefore, StopReason, ClosingError, Answers;
  }

  lemma DropsIff(f: Session, o: Outcome, envs: seq<Envelope>, end: StreamEnd, calls: seq<OsCall>, writes: nat)
    requires Finished(f, o, envs, end, calls, writes)
    ensures DropsAFrame(f, o, envs, end, calls, writes) <==> RefusedLate(envs, writes)
    ensures RefusedLate(envs, writes) ==> o == Refused(RefusalCode(envs[GateCount(0, envs) - 1].nonce, envs[GateCount(0, envs)]))
  {
    hide GateCount, AllCalls, AnswersAll, RepliesInOrder, ReplyBytes, AsksToPair, DropsAFrame;
    DropsTheClosingError(f, o, envs, end, calls, writes);
    GateIsBounded(0, envs);
    AnsweredPairs(f.handled, envs);
  }

  /**
    The client accepts every frame it is sent unless a frame of its own is
    refused after at least one was answered: the closing error, stamped 1, is
    then the frame it drops. The condition is on the bytes sent alone, and on
    the connection taking one more write.
  */
  lemma ClosingErrorIsDroppedIff(c: Cipher, spki: SpkiHash, addr: SocketAddr, h: Host, writes: nat,
                                 chunks: seq<seq<uint8>>, ending: Ending, env: Environment)
    requires ActivePairing(h.contents.pairings, spki).Some?
    ensures
      var (f, o) := Connected(c, spki, addr, h, writes, chunks, ending, env);
      var (envs, end) := ParseStream(Flatten(chunks), ending);
      && Finished(f, o, envs, end, h.calls, writes)
      && (DropsAFrame(f, o, envs, end, h.calls, writes) <==> RefusedLate(envs, writes))
      && (RefusedLate(envs, writes) ==> o == Refused(RefusalCode(envs[GateCount(0, envs) - 1].nonce, envs[GateCount(0, envs)])))
  {
    hide Connected, ParseStream, Finished, DropsAFrame, GateCount, AsksToPair, Reassemble;
    ConnectionFinishes(c, spki, addr, h, writes, chunks, ending, env);
    var (f, o) := Connected(c, spki, addr, h, writes, chunks, ending, env);
    var (envs, end) := ParseStream(Flatten(chunks), ending);
    DropsIff(f, o, envs, end, h.calls, writes);
  }

  /** A reply answers an accepted nonce, so the daemon's own counter cannot run out first. */
  lemma NonceNeverRunsOut(c: Cipher, spki: SpkiHash, addr: SocketAddr, h: Host, writes: nat,
                          chunks: seq<seq<uint8>>, ending: Ending, env: Environment)
    ensures !Connected(c, spki, addr, h, writes, chunks, ending, env).1.NonceExhausted?
  {
    if ActivePairing(h.contents.pairings, spki).Some? {
      hide Connected, ParseStream, GateCount, RepliesInOrder, AllCalls, AnswersAll;
      ConnectionFinishes(c, spki, addr, h, writes, chunks, ending, env);
      GateIsBounded(0, ParseStream(Flatten(chunks), ending).0);
    }
  }

  /** A request to sleep sent twice under nonce 1. */
  const REPLAYED: seq<Envelope> := [Envelope(1, 1, EncodeClientFrame(Sleep)), Envelope(1, 1, EncodeClientFrame(Sleep))]

  lemma ReplayedIsRefusedLate(writes: nat)
    requires writes >= 2
    ensures GateCount(0, REPLAYED) == 1 && RefusedLate(REPLAYED, writes)
  {
    hide EncodeClientFrame, DecodeClientFrame;
    ClientRoundTrip(Sleep);
    assert GateCount(1, REPLAYED[1..]) == 0;
  }

  /** For one, a replayed request: the client drops the error that says so. */
  lemma ReplayErrorIsDropped(c: Cipher, spki: SpkiHash, addr: SocketAddr, h: Host, writes: nat, env: Environment)
    requires ActivePairing(h.contents.pairings, spki).Some? && writes >= 2
    ensures
      var (f, o) := Connected(c, spki, addr, h, writes, WireForms(REPLAYED), Eof, env);
      && Finished(f, o, REPLAYED, CleanEof, h.calls, writes) && o == Refused(NonceReplay)
      && DropsAFrame(f, o, REPLAYED, CleanEof, h.calls, writes)
  {
    hide Connected, ParseStream, Finished, DropsAFrame;
    ReplayedIsRefusedLate(writes);
    ClientFrameNotEmpty(Sleep);
    WholeStreamRoundTrip(REPLAYED);
    ClosingErrorIsDroppedIff(c, spki, addr, h, writes, WireForms(REPLAYED), Eof, env);
  }

  // ------------------------------------------------- the outcome, in advance

  /** How many frames are dispatched when every reply can be written: all the gate passes, up to the first that asks to pair. */
  function DispatchedCount(envs: seq<Envelope>, g: nat): (n: nat)
    requires g <= |envs|
    ensures n <= g
  {
    if g == 0 then 0 else if AsksToPair(envs[0]) then 1 else 1 + DispatchedCount(envs[1..], g - 1)
  }

  /** How many frames are dispatched and how the connection ends, from the bytes received and the writes it takes. */
  function Foreseen(envs: seq<Envelope>, end: StreamEnd, writes: nat): (nat, Outcome) {
    var g := GateCount(0, envs);
    var n := DispatchedCount(envs, g);
    if writes < n then (writes + 1, WriteFailure)
    else if n > 0 && AsksToPair(envs[n - 1]) then (n, ClosedByReply)
    else if n < |envs| then (n, Refused(RefusalCode(if n == 0 then 0 else envs[n - 1].nonce, envs[n])))
    else (n, if end.CleanEof? then PeerClosed else StreamFailed(end))
  }

  lemma {:induction false} DispatchedCountIs(envs: seq<Envelope>, g: nat, n: nat)
    requires n <= g <= |envs| && forall i :: 0 <= i < n - 1 ==> !AsksToPair(envs[i])
    ensures n <= DispatchedCount(envs, g)
    ensures n == g || (n > 0 && AsksToPair(envs[n - 1])) ==> DispatchedCount(envs, g) == n
    ensures n == g && n > 0 && !AsksToPair(envs[n - 1]) ==> !AsksToPair(envs[DispatchedCount(envs, g) - 1])
  {
    hide AsksToPair;
    if n > 0 && !AsksToPair(envs[0]) {
      DispatchedCountIs(envs[1..], g - 1, n - 1);
    }
  }

  lemma FinishedAsForeseen(f: Session, o: Outcome, envs: seq<Envelope>, end: StreamEnd, calls: seq<OsCall>, writes: nat)
    requires Finished(f, o, envs, end, calls, writes)
    ensures (|f.handled|, o) == Foreseen(envs, end, writes)
  {
    hide GateCount, AllCalls, AnswersAll, RepliesInOrder, ReplyBytes, AsksToPair, ClosingError, DispatchedCount;
    GateIsBounded(0, envs);
    AnsweredPairs(f.handled, envs);
    var n, g := |f.handled|, GateCount(0, envs);
    DispatchedCountIs(envs, g, n);
  }

  /** The outcome of every connection of a listed peer is settled by what it is sent and how many writes it takes. */
  lemma OutcomeIsForeseen(c: Cipher, spki: SpkiHash, addr: SocketAddr, h: Host, writes: nat,
                          chunks: seq<seq<uint8>>, ending: Ending, env: Environment)
    requires ActivePairing(h.contents.pairings, spki).Some?
    ensures
      var (f, o) := Connected(c, spki, addr, h, writes, chunks, ending, env);
      var (envs, end) := ParseStream(Flatten(chunks), ending);
      (|f.handled|, o) == Foreseen(envs, end, writes)
  {
    hide Connected, ParseStream, Finished, Foreseen;
    ConnectionFinishes(c, spki, addr, h, writes, chunks, ending, env);
    var (f, o) := Connected(c, spki, addr, h, writes, chunks, ending, env);
    var (envs, end) := ParseStream(Flatten(chunks), ending);
    FinishedAsForeseen(f, o, envs, end, h.calls, writes);
  }

  /** For one: a first frame with an unknown tag, whatever follows, is answered as malformed and ends the connection. */
  lemma UnknownTagCloses(c: Cipher, spki: SpkiHash, addr: SocketAddr, h: Host, writes: nat,
                         chunks: seq<seq<uint8>>, ending: Ending, env: Environment)
    requires ActivePairing(h.contents.pairings, spki).Some? && writes > 0
    requires
      var envs := ParseStream(Flatten(chunks), ending).0;
      && envs != [] && envs[0].nonce > 0
      && Postcard.TakeUint32(envs[0].payload).Parsed? && Postcard.TakeUint32(envs[0].payload).value >= 8
    ensures
      var (f, o) := Connected(c, spki, addr, h, writes, chunks, ending, env);
      var e := ParseStream(Flatten(chunks), ending).0[0];
      && o == Refused(MalformedFrame) && f.handled == [] && f.host.calls == h.calls
      && f.outbound == [ReplyBytes(1, Error(e.nonce, MalformedFrame))]
  {
    hide Connected, ParseStream, Finished, Foreseen;
    var (envs, end) := ParseStream(Flatten(chunks), ending);
    UnknownTagIsMalformed(envs[0].payload);
    ConnectionFinishes(c, spki, addr, h, writes, chunks, ending, env);
    OutcomeIsForeseen(c, spki, addr, h, writes, chunks, ending, env);
    var (f, o) := Connected(c, spki, addr, h, writes, chunks, ending, env);
    RefusedAtOnce(f, o, envs, end, h.calls, writes);
  }

  lemma RefusedAtOnce(f: Session, o: Outcome, envs: seq<Envelope>, end: StreamEnd, calls: seq<OsCall>, writes: nat)
    requires Finished(f, o, envs, end, calls, writes) && (|f.handled|, o) == Foreseen(envs, end, writes)
    requires envs != [] && envs[0].nonce > 0 && DecodeClientFrame(envs[0].payload).Err? && writes > 0
    ensures o == Refused(MalformedFrame) && f.handled == [] && f.host.calls == calls
    ensures f.outbound == [ReplyBytes(1, Error(envs[0].nonce, MalformedFrame))]
  {
    hide DecodeClientFrame, ReplyBytes, AsksToPair;
    assert GateCount(0, envs) == 0 && DispatchedCount(envs, 0) == 0;
    assert f.handled == [] && calls + [] == calls;
  }

  // -------------------------------------------------------------- end to end

  /** The envelopes a client sends for a list of requests, stamped by one nonce sender. */
  function Stamped(last: uint64, frames: seq<ClientFrame>): seq<Envelope>
    decreases |frames|
  {
    if frames == [] then []
    else
      match NextNonce(last)
      case None => []
      case Some(nonce) =>
        [Envelope(PROTOCOL_VERSION, nonce, EncodeClientFrame(frames[0]))] + Stamped(nonce, frames[1..])
  }

  /** The frames up to and including the first pairing attempt. */
  function UntilPair(frames: seq<ClientFrame>): (n: nat)
    ensures n <= |frames|
  {
    if frames == [] then 0 else if frames[0].Pair? then 1 else 1 + UntilPair(frames[1..])
  }

  lemma {:induction false} UntilPairIs(frames: seq<ClientFrame>, n: nat)
    requires n <= |frames| && forall i :: 0 <= i < n - 1 ==> !frames[i].Pair?
    requires n == |frames| || (n > 0 && frames[n - 1].Pair?)
    ensures UntilPair(frames) == n
  {
    if frames != [] && !frames[0].Pair? {
      UntilPairIs(frames[1..], n - 1);
    }
  }

  lemma {:induction false} StampedPassGate(last: uint64, frames: seq<ClientFrame>)
    requires last + |frames| <= U64_MAX
    ensures |Stamped(last, frames)| == |frames| == GateCount(last, Stamped(last, frames))
    ensures forall i :: 0 <= i < |frames| ==>
              var e := Stamped(last, frames)[i];
              e.version == PROTOCOL_VERSION && e.nonce == last + i + 1 && e.payload == EncodeClientFrame(frames[i])
              && DecodeClientFrame(e.payload) == Ok(frames[i])
    decreases |frames|
  {
    hide EncodeClientFrame, DecodeClientFrame;
    if frames != [] {
      ClientRoundTrip(frames[0]);
      StampedPassGate(last + 1, frames[1..]);
      assert Stamped(last, frames)[1..] == Stamped(last + 1, frames[1..]);
    }
  }

  /**
    End to end: any requests that fit an envelope, stamped, encoded, and cut
    into any chunks, are dispatched exactly once each, in order, none refused,
    up to and including the first pairing attempt, whose reply closes; every
    one of them is answered. Failing keystore saves and failing
    operating-system calls do not change that.
  */
  lemma EndToEndDelivery(c: Cipher, spki: SpkiHash, addr: SocketAddr, h: Host, writes: nat,
                         frames: seq<ClientFrame>, chunks: seq<seq<uint8>>, env: Environment)
    requires ActivePairing(h.contents.pairings, spki).Some?
    requires |frames| <= writes && |frames| <= U64_MAX
    requires forall f :: f in frames ==> |EncodeClientFrame(f)| <= MAX_PAYLOAD_LEN
    requires Flatten(chunks) == Flatten(WireForms(Stamped(0, frames)))
    ensures
      var (f, o) := Connected(c, spki, addr, h, writes, chunks, Eof, env);
      var n := UntilPair(frames);
      && |f.handled| == n == |f.outbound|
      && (forall i :: 0 <= i < n ==>
            && f.handled[i].frame == frames[i] && f.handled[i].nonce == i + 1
            && f.outbound[i] == ReplyBytes(i + 1, f.handled[i].reply))
      && o == if n > 0 && frames[n - 1].Pair? then ClosedByReply else PeerClosed
  {
    hide Connected, ParseStream, Finished, Stamped;
    StampedAreSendable(frames);
    WholeStreamRoundTrip(Stamped(0, frames));
    ConnectionFinishes(c, spki, addr, h, writes, chunks, Eof, env);
    var (f, o) := Connected(c, spki, addr, h, writes, chunks, Eof, env);
    StampedAreDelivered(f, o, frames, h.calls, writes);
  }

  lemma StampedAreSendable(frames: seq<ClientFrame>)
    requires |frames| <= U64_MAX
    requires forall f :: f in frames ==> |EncodeClientFrame(f)| <= MAX_PAYLOAD_LEN
    ensures forall e :: e in Stamped(0, frames) ==> Sendable(e)
  {
    hide EncodeClientFrame, DecodeClientFrame, Stamped, GateCount;
    StampedPassGate(0, frames);
    forall i | 0 <= i < |frames| ensures Sendable(Stamped(0, frames)[i]) {
      ClientFrameNotEmpty(frames[i]);
    }
  }

  /** How many were dispatched, and why it stopped there. */
  lemma StampedAreCounted(f: Session, o: Outcome, frames: seq<ClientFrame>, calls: seq<OsCall>, writes: nat)
    requires |frames| <= writes && |frames| <= U64_MAX
    requires Finished(f, o, Stamped(0, frames), CleanEof, calls, writes)
    requires |f.handled| <= |frames| && forall i :: 0 <= i < |f.handled| ==> f.handled[i].frame == frames[i]
    ensures
      var n := UntilPair(frames);
      && |f.handled| == n == |f.outbound| == Delivered(f, o)
      && o == if n > 0 && frames[n - 1].Pair? then ClosedByReply else PeerClosed
  {
    hide AnswersAll, RepliesInOrder, AllCalls, GateCount, Stamped, ReplyBytes, EncodeClientFrame, DecodeClientFrame, RefusalCode;
    StampedLengths(frames);
    UntilPairIs(frames, |f.handled|);
  }

  lemma StampedLengths(frames: seq<ClientFrame>)
    requires |frames| <= U64_MAX
    ensures |Stamped(0, frames)| == |frames| == GateCount(0, Stamped(0, frames))
  {
    hide EncodeClientFrame, DecodeClientFrame, Stamped, GateCount;
    StampedPassGate(0, frames);
  }

  lemma StampedAreDelivered(f: Session, o: Outcome, frames: seq<ClientFrame>, calls: seq<OsCall>, writes: nat)
    requires |frames| <= writes && |frames| <= U64_MAX
    requires Finished(f, o, Stamped(0, frames), CleanEof, calls, writes)
    ensures
      var n := UntilPair(frames);
      && |f.handled| == n == |f.outbound|
      && (forall i :: 0 <= i < n ==>
            && f.handled[i].frame == frames[i] && f.handled[i].nonce == i + 1
            && f.outbound[i] == ReplyBytes(i + 1, f.handled[i].reply))
      && o == if n > 0 && frames[n - 1].Pair? then ClosedByReply else PeerClosed
  {
    hide AnswersAll, RepliesInOrder, AllCalls, GateCount, Stamped, ReplyBytes, EncodeClientFrame, DecodeClientFrame,
         StopReason, ClosingError, NoPairBefore;
    StampedAreAnswered(f.handled, frames);
    StampedAreCounted(f, o, frames, calls, writes);
    RepliesAre(f.outbound, f.handled, Delivered(f, o));
  }

  lemma RepliesAre(outbound: seq<seq<uint8>>, handled: seq<Request>, m: nat)
    requires RepliesInOrder(outbound, handled, m)
    ensures m <= |outbound| && m <= |handled| && m <= U64_MAX
    ensures forall i :: 0 <= i < m ==> outbound[i] == ReplyBytes(i + 1, handled[i].reply)
  {
    hide ReplyBytes;
  }

  lemma StampedAreAnswered(handled: seq<Request>, frames: seq<ClientFrame>)
    requires |frames| <= U64_MAX && AnswersAll(handled, Stamped(0, frames))
    ensures |handled| <= |frames|
    ensures forall i :: 0 <= i < |handled| ==> handled[i].frame == frames[i] && handled[i].nonce == i + 1
  {
    hide DecodeClientFrame, EncodeClientFrame, Correlates, Stamped, GateCount;
    StampedPassGate(0, frames);
    forall i | 0 <= i < |handled| ensures handled[i].frame == frames[i] && handled[i].nonce == i + 1 {
      assert Answers(handled[i], Stamped(0, frames)[i]);
    }
  }

  lemma ClientFrameNotEmpty(f: ClientFrame)
    ensures |EncodeClientFrame(f)| >= 1
  {
  }
}
