/** The two message catalogues and their payload codec. Tags follow declaration order. */
module Messages {
  import opened Wrappers
  import opened Bytes
  import opened Postcard
  import opened ProtocolErrors

  type SpkiHash = s: seq<uint8> | |s| == 32 witness seq(32, i => 0)

  datatype PcState = Off | Sleeping | OnLoggedOut | OnLocked | OnLoggedIn

  datatype ReauthInterval = Never | OneDay | SevenDays | ThirtyDays

  datatype ClientFrame =
    | Pair(phoneName: Utf8String, pairingCode: uint32)
    | Sleep
    | Lock
    | PowerOff
    | StateProbe
    | ReauthStatus
    | ReauthConfig(interval: ReauthInterval)
    | RevokeAck

  datatype DaemonFrame =
    | Ack(requestNonce: uint64)
    | StateReport(state: PcState)
    | Revoke(daemonSpki: SpkiHash, revokeNonce: uint64)
    | Error(requestNonce: uint64, code: ProtocolError)
    | ReauthInfo(lastAuthenticatedAt: uint64, interval: ReauthInterval, expiresAt: uint64)

  // ------------------------------------------------------------ unit enums

  function PcStateTag(s: PcState): uint32 {
    match s
    case Off => 0
    case Sleeping => 1
    case OnLoggedOut => 2
    case OnLocked => 3
    case OnLoggedIn => 4
  }

  function TakePcState(s: seq<uint8>): Parsed<PcState> {
    var (tag, rest) :- TakeUint32(s);
    match tag
    case 0 => Parsed(Off, rest)
    case 1 => Parsed(Sleeping, rest)
    case 2 => Parsed(OnLoggedOut, rest)
    case 3 => Parsed(OnLocked, rest)
    case 4 => Parsed(OnLoggedIn, rest)
    case _ => Failed
  }

  function IntervalTag(i: ReauthInterval): uint32 {
    match i
    case Never => 0
    case OneDay => 1
    case SevenDays => 2
    case ThirtyDays => 3
  }

  function TakeInterval(s: seq<uint8>): Parsed<ReauthInterval> {
    var (tag, rest) :- TakeUint32(s);
    match tag
    case 0 => Parsed(Never, rest)
    case 1 => Parsed(OneDay, rest)
    case 2 => Parsed(SevenDays, rest)
    case 3 => Parsed(ThirtyDays, rest)
    case _ => Failed
  }

  function CodeTag(c: ProtocolError): uint32 {
    match c
    case NotPaired => 0
    case Revoked => 1
    case RequiresReauth => 2
    case VersionMismatch => 3
    case MalformedFrame => 4
    case NonceReplay => 5
    case Unsupported => 6
    case Internal => 7
  }

  function TakeCode(s: seq<uint8>): Parsed<ProtocolError> {
    var (tag, rest) :- TakeUint32(s);
    match tag
    case 0 => Parsed(NotPaired, rest)
    case 1 => Parsed(Revoked, rest)
    case 2 => Parsed(RequiresReauth, rest)
    case 3 => Parsed(VersionMismatch, rest)
    case 4 => Parsed(MalformedFrame, rest)
    case 5 => Parsed(NonceReplay, rest)
    case 6 => Parsed(Unsupported, rest)
    case 7 => Parsed(Internal, rest)
    case _ => Failed
  }

  lemma PcStateRoundTrip(p: PcState, s: seq<uint8>)
    ensures TakePcState(PutVarint(PcStateTag(p)) + s) == Parsed(p, s)
  {
    hide PutVarint, TakeUint32;
    UintRoundTrip(PcStateTag(p), s);
  }

  lemma IntervalRoundTrip(i: ReauthInterval, s: seq<uint8>)
    ensures TakeInterval(PutVarint(IntervalTag(i)) + s) == Parsed(i, s)
  {
    hide PutVarint, TakeUint32;
    UintRoundTrip(IntervalTag(i), s);
  }

  lemma CodeRoundTrip(c: ProtocolError, s: seq<uint8>)
    ensures TakeCode(PutVarint(CodeTag(c)) + s) == Parsed(c, s)
  {
    hide PutVarint, TakeUint32;
    UintRoundTrip(CodeTag(c), s);
  }

  // ---------------------------------------------------------- client frames

  function ClientTag(f: ClientFrame): uint32 {
    match f
    case Pair(_, _) => 0
    case Sleep => 1
    case Lock => 2
    case PowerOff => 3
    case StateProbe => 4
    case ReauthStatus => 5
    case ReauthConfig(_) => 6
    case RevokeAck => 7
  }

  function ClientBody(f: ClientFrame): seq<uint8> {
    match f
    case Pair(name, code) => PutBlob(name) + PutVarint(code)
    case ReauthConfig(interval) => PutVarint(IntervalTag(interval))
    case _ => []
  }

  function EncodeClientFrame(f: ClientFrame): seq<uint8> {
    PutVarint(ClientTag(f)) + ClientBody(f)
  }

  function TakeClientFrame(s: seq<uint8>): Parsed<ClientFrame> {
    var (tag, rest) :- TakeUint32(s);
    match tag
    case 0 =>
      var (name, afterName) :- TakeString(rest);
      var (code, afterCode) :- TakeUint32(afterName);
      Parsed(Pair(name, code), afterCode)
    case 1 => Parsed(Sleep, rest)
    case 2 => Parsed(Lock, rest)
    case 3 => Parsed(PowerOff, rest)
    case 4 => Parsed(StateProbe, rest)
    case 5 => Parsed(ReauthStatus, rest)
    case 6 =>
      var (interval, afterInterval) :- TakeInterval(rest);
      Parsed(ReauthConfig(interval), afterInterval)
    case 7 => Parsed(RevokeAck, rest)
    case _ => Failed
  }

  // ---------------------------------------------------------- daemon frames

  function DaemonTag(f: DaemonFrame): uint32 {
    match f
    case Ack(_) => 0
    case StateReport(_) => 1
    case Revoke(_, _) => 2
    case Error(_, _) => 3
    case ReauthInfo(_, _, _) => 4
  }

  function DaemonBody(f: DaemonFrame): seq<uint8> {
    match f
    case Ack(nonce) => PutVarint(nonce)
    case StateReport(state) => PutVarint(PcStateTag(state))
    case Revoke(spki, nonce) => spki + PutVarint(nonce)
    case Error(nonce, code) => PutVarint(nonce) + PutVarint(CodeTag(code))
    case ReauthInfo(last, interval, expires) =>
      PutVarint(last) + (PutVarint(IntervalTag(interval)) + PutVarint(expires))
  }

  function EncodeDaemonFrame(f: DaemonFrame): seq<uint8> {
    PutVarint(DaemonTag(f)) + DaemonBody(f)
  }

  function TakeDaemonFrame(s: seq<uint8>): Parsed<DaemonFrame> {
    var (tag, rest) :- TakeUint32(s);
    TakeDaemonBody(tag, rest)
  }

  function TakeDaemonBody(tag: uint32, rest: seq<uint8>): Parsed<DaemonFrame> {
    match tag
    case 0 =>
      var (nonce, r) :- TakeUint64(rest);
      Parsed(Ack(nonce), r)
    case 1 =>
      var (state, r) :- TakePcState(rest);
      Parsed(StateReport(state), r)
    case 2 =>
      var (spki, r) :- TakeRaw(rest, 32);
      var (nonce, r') :- TakeUint64(r);
      Parsed(Revoke(spki, nonce), r')
    case 3 =>
      var (nonce, r) :- TakeUint64(rest);
      var (code, r') :- TakeCode(r);
      Parsed(Error(nonce, code), r')
    case 4 =>
      var (last, r) :- TakeUint64(rest);
      var (interval, r') :- TakeInterval(r);
      var (expires, r'') :- TakeUint64(r');
      Parsed(ReauthInfo(last, interval, expires), r'')
    case _ => Failed
  }

  // --------------------------------------------------------------- payloads

  /** Decodes one value and refuses bytes left over inside the envelope. */
  function DecodePayload<T>(take: seq<uint8> -> Parsed<T>, payload: seq<uint8>): Result<T, ProtocolErrors.Error> {
    match take(payload)
    case Failed => Err(Decoding)
    case Parsed(frame, rest) => if rest == [] then Ok(frame) else Err(TrailingBytes(|rest|))
  }

  function DecodeClientFrame(payload: seq<uint8>): Result<ClientFrame, ProtocolErrors.Error> {
    DecodePayload(TakeClientFrame, payload)
  }

  function DecodeDaemonFrame(payload: seq<uint8>): Result<DaemonFrame, ProtocolErrors.Error> {
    DecodePayload(TakeDaemonFrame, payload)
  }

  // ------------------------------------------------------------- properties

  /** No client payload is a prefix of another: whatever follows is seen as left over. */
  lemma ClientPrefixFree(f: ClientFrame, s: seq<uint8>)
    ensures TakeClientFrame(EncodeClientFrame(f) + s) == Parsed(f, s)
    ensures DecodeClientFrame(EncodeClientFrame(f) + s) == if s == [] then Ok(f) else Err(TrailingBytes(|s|))
  {
    Associate(PutVarint(ClientTag(f)), ClientBody(f), s);
    UintRoundTrip(ClientTag(f), ClientBody(f) + s);
    match f
    case Pair(name, code) =>
      Associate(PutBlob(name), PutVarint(code), s);
      StringRoundTrip(name, PutVarint(code) + s);
      UintRoundTrip(code, s);
    case ReauthConfig(interval) =>
      IntervalRoundTrip(interval, s);
    case _ =>
      assert ClientBody(f) + s == s;
  }

  /** A tag the catalogue does not know, however it is encoded, is a malformed frame to the peer, never an unsupported one. */
  lemma UnknownTagIsMalformed(payload: seq<uint8>)
    requires TakeUint32(payload).Parsed? && TakeUint32(payload).value >= 8
    ensures DecodeClientFrame(payload) == Err(Decoding)
    ensures DecodeClientFrame(payload).error.ToWireCode() == MalformedFrame
  {
    hide TakeUint32;
  }

  lemma DaemonPrefixFree(f: DaemonFrame, s: seq<uint8>)
    ensures TakeDaemonFrame(EncodeDaemonFrame(f) + s) == Parsed(f, s)
    ensures DecodeDaemonFrame(EncodeDaemonFrame(f) + s) == if s == [] then Ok(f) else Err(TrailingBytes(|s|))
  {
    Associate(PutVarint(DaemonTag(f)), DaemonBody(f), s);
    UintRoundTrip(DaemonTag(f), DaemonBody(f) + s);
    if f.ReauthInfo? {
      ReauthInfoRoundTrip(f, s);
    } else {
      DaemonBodyRoundTrip(f, s);
    }
  }

  lemma DaemonBodyRoundTrip(f: DaemonFrame, s: seq<uint8>)
    requires !f.ReauthInfo?
    ensures TakeDaemonBody(DaemonTag(f), DaemonBody(f) + s) == Parsed(f, s)
  {
    hide PutVarint, PutBlob, TakeUint32, TakeUint64, TakeString, TakeRaw, TakePcState, TakeInterval, TakeCode, PcStateTag, IntervalTag, CodeTag;
    match f
    case Ack(nonce) =>
      UintRoundTrip(nonce, s);
    case StateReport(state) =>
      PcStateRoundTrip(state, s);
    case Revoke(spki, nonce) =>
      Associate(spki, PutVarint(nonce), s);
      RawRoundTrip(spki, PutVarint(nonce) + s);
      UintRoundTrip(nonce, s);
    case Error(nonce, code) =>
      Associate(PutVarint(nonce), PutVarint(CodeTag(code)), s);
      UintRoundTrip(nonce, PutVarint(CodeTag(code)) + s);
      CodeRoundTrip(code, s);
  }

  lemma ReauthInfoRoundTrip(f: DaemonFrame, s: seq<uint8>)
    requires f.ReauthInfo?
    ensures TakeDaemonBody(4, DaemonBody(f) + s) == Parsed(f, s)
  {
    hide PutVarint, PutBlob, TakeUint32, TakeUint64, TakeString, TakeRaw, TakePcState, TakeInterval, TakeCode, PcStateTag, IntervalTag, CodeTag;
    var last, interval, expires := PutVarint(f.lastAuthenticatedAt), PutVarint(IntervalTag(f.interval)), PutVarint(f.expiresAt);
    assert (last + (interval + expires)) + s == last + (interval + (expires + s));
    assert TakeUint64(last + (interval + (expires + s))) == Parsed(f.lastAuthenticatedAt, interval + (expires + s)) by {
      UintRoundTrip(f.lastAuthenticatedAt, interval + (expires + s));
    }
    assert TakeInterval(interval + (expires + s)) == Parsed(f.interval, expires + s) by {
      IntervalRoundTrip(f.interval, expires + s);
    }
    assert TakeUint64(expires + s) == Parsed(f.expiresAt, s) by {
      UintRoundTrip(f.expiresAt, s);
    }
  }

  lemma ClientRoundTrip(f: ClientFrame)
    ensures DecodeClientFrame(EncodeClientFrame(f)) == Ok(f)
  {
    hide EncodeClientFrame, DecodeClientFrame;
    ClientPrefixFree(f, []);
    assert EncodeClientFrame(f) + [] == EncodeClientFrame(f);
  }

  lemma DaemonRoundTrip(f: DaemonFrame)
    ensures DecodeDaemonFrame(EncodeDaemonFrame(f)) == Ok(f)
  {
    hide EncodeDaemonFrame, DecodeDaemonFrame;
    DaemonPrefixFree(f, []);
    assert EncodeDaemonFrame(f) + [] == EncodeDaemonFrame(f);
  }

  /** A daemon payload is never empty and always fits an envelope with room to spare. */
  lemma DaemonFrameLength(f: DaemonFrame)
    ensures 2 <= |EncodeDaemonFrame(f)| <= 43
  {
    match f
    case Ack(nonce) => UintLength(nonce);
    case StateReport(_) =>
    case Revoke(_, nonce) => UintLength(nonce);
    case Error(nonce, _) => UintLength(nonce);
    case ReauthInfo(last, _, expires) => UintLength(last); UintLength(expires);
  }

  /** The frozen requests, byte for byte, in both directions. */
  lemma FrozenRequests()
    ensures EncodeClientFrame(Sleep) == [0x01] && DecodeClientFrame([0x01]) == Ok(Sleep)
    ensures EncodeClientFrame(Lock) == [0x02] && DecodeClientFrame([0x02]) == Ok(Lock)
    ensures EncodeClientFrame(PowerOff) == [0x03] && DecodeClientFrame([0x03]) == Ok(PowerOff)
    ensures EncodeClientFrame(StateProbe) == [0x04] && DecodeClientFrame([0x04]) == Ok(StateProbe)
    ensures EncodeClientFrame(ReauthStatus) == [0x05] && DecodeClientFrame([0x05]) == Ok(ReauthStatus)
    ensures EncodeClientFrame(RevokeAck) == [0x07] && DecodeClientFrame([0x07]) == Ok(RevokeAck)
    ensures EncodeClientFrame(ReauthConfig(Never)) == [0x06, 0x00] && DecodeClientFrame([0x06, 0x00]) == Ok(ReauthConfig(Never))
    ensures EncodeClientFrame(ReauthConfig(OneDay)) == [0x06, 0x01] && DecodeClientFrame([0x06, 0x01]) == Ok(ReauthConfig(OneDay))
    ensures EncodeClientFrame(ReauthConfig(SevenDays)) == [0x06, 0x02] && DecodeClientFrame([0x06, 0x02]) == Ok(ReauthConfig(SevenDays))
    ensures EncodeClientFrame(ReauthConfig(ThirtyDays)) == [0x06, 0x03] && DecodeClientFrame([0x06, 0x03]) == Ok(ReauthConfig(ThirtyDays))
  {
    hide DecodeClientFrame, DecodeDaemonFrame;
    ClientRoundTrip(Sleep);
    ClientRoundTrip(Lock);
    ClientRoundTrip(PowerOff);
    ClientRoundTrip(StateProbe);
    ClientRoundTrip(ReauthStatus);
    ClientRoundTrip(RevokeAck);
    ClientRoundTrip(ReauthConfig(Never));
    ClientRoundTrip(ReauthConfig(OneDay));
    ClientRoundTrip(ReauthConfig(SevenDays));
    ClientRoundTrip(ReauthConfig(ThirtyDays));
  }

  /** Every state of the PC. */
  lemma FrozenStates()
    ensures EncodeDaemonFrame(StateReport(Off)) == [0x01, 0x00] && DecodeDaemonFrame([0x01, 0x00]) == Ok(StateReport(Off))
    ensures EncodeDaemonFrame(StateReport(Sleeping)) == [0x01, 0x01] && DecodeDaemonFrame([0x01, 0x01]) == Ok(StateReport(Sleeping))
    ensures EncodeDaemonFrame(StateReport(OnLoggedOut)) == [0x01, 0x02] && DecodeDaemonFrame([0x01, 0x02]) == Ok(StateReport(OnLoggedOut))
    ensures EncodeDaemonFrame(StateReport(OnLocked)) == [0x01, 0x03] && DecodeDaemonFrame([0x01, 0x03]) == Ok(StateReport(OnLocked))
    ensures EncodeDaemonFrame(StateReport(OnLoggedIn)) == [0x01, 0x04] && DecodeDaemonFrame([0x01, 0x04]) == Ok(StateReport(OnLoggedIn))
  {
    hide DecodeClientFrame, DecodeDaemonFrame;
    DaemonRoundTrip(StateReport(Off));
    DaemonRoundTrip(StateReport(Sleeping));
    DaemonRoundTrip(StateReport(OnLoggedOut));
    DaemonRoundTrip(StateReport(OnLocked));
    DaemonRoundTrip(StateReport(OnLoggedIn));
  }

  /** The first four error codes. */
  lemma FrozenErrors()
    ensures EncodeDaemonFrame(Error(0, NotPaired)) == [0x03, 0x00, 0x00] && DecodeDaemonFrame([0x03, 0x00, 0x00]) == Ok(Error(0, NotPaired))
    ensures EncodeDaemonFrame(Error(0, Revoked)) == [0x03, 0x00, 0x01] && DecodeDaemonFrame([0x03, 0x00, 0x01]) == Ok(Error(0, Revoked))
    ensures EncodeDaemonFrame(Error(0, RequiresReauth)) == [0x03, 0x00, 0x02] && DecodeDaemonFrame([0x03, 0x00, 0x02]) == Ok(Error(0, RequiresReauth))
    ensures EncodeDaemonFrame(Error(0, VersionMismatch)) == [0x03, 0x00, 0x03] && DecodeDaemonFrame([0x03, 0x00, 0x03]) == Ok(Error(0, VersionMismatch))
  {
    hide DecodeDaemonFrame;
    DaemonRoundTrip(Error(0, NotPaired));
    DaemonRoundTrip(Error(0, Revoked));
    DaemonRoundTrip(Error(0, RequiresReauth));
    DaemonRoundTrip(Error(0, VersionMismatch));
  }

  /** The other four. */
  lemma FrozenClosingErrors()
    ensures EncodeDaemonFrame(Error(0, MalformedFrame)) == [0x03, 0x00, 0x04] && DecodeDaemonFrame([0x03, 0x00, 0x04]) == Ok(Error(0, MalformedFrame))
    ensures EncodeDaemonFrame(Error(0, NonceReplay)) == [0x03, 0x00, 0x05] && DecodeDaemonFrame([0x03, 0x00, 0x05]) == Ok(Error(0, NonceReplay))
    ensures EncodeDaemonFrame(Error(0, Unsupported)) == [0x03, 0x00, 0x06] && DecodeDaemonFrame([0x03, 0x00, 0x06]) == Ok(Error(0, Unsupported))
    ensures EncodeDaemonFrame(Error(0, Internal)) == [0x03, 0x00, 0x07] && DecodeDaemonFrame([0x03, 0x00, 0x07]) == Ok(Error(0, Internal))
  {
    hide DecodeDaemonFrame;
    DaemonRoundTrip(Error(0, MalformedFrame));
    DaemonRoundTrip(Error(0, NonceReplay));
    DaemonRoundTrip(Error(0, Unsupported));
    DaemonRoundTrip(Error(0, Internal));
  }

  /** A small acknowledgement, and the re-authentication report under every interval. */
  lemma FrozenReports()
    ensures EncodeDaemonFrame(Ack(1)) == [0x00, 0x01] && DecodeDaemonFrame([0x00, 0x01]) == Ok(Ack(1))
    ensures EncodeDaemonFrame(ReauthInfo(1, Never, 2)) == [0x04, 0x01, 0x00, 0x02] && DecodeDaemonFrame([0x04, 0x01, 0x00, 0x02]) == Ok(ReauthInfo(1, Never, 2))
    ensures EncodeDaemonFrame(ReauthInfo(1, OneDay, 2)) == [0x04, 0x01, 0x01, 0x02] && DecodeDaemonFrame([0x04, 0x01, 0x01, 0x02]) == Ok(ReauthInfo(1, OneDay, 2))
    ensures EncodeDaemonFrame(ReauthInfo(1, SevenDays, 2)) == [0x04, 0x01, 0x02, 0x02] && DecodeDaemonFrame([0x04, 0x01, 0x02, 0x02]) == Ok(ReauthInfo(1, SevenDays, 2))
    ensures EncodeDaemonFrame(ReauthInfo(1, ThirtyDays, 2)) == [0x04, 0x01, 0x03, 0x02] && DecodeDaemonFrame([0x04, 0x01, 0x03, 0x02]) == Ok(ReauthInfo(1, ThirtyDays, 2))
  {
    hide DecodeDaemonFrame;
    DaemonRoundTrip(Ack(1));
    DaemonRoundTrip(ReauthInfo(1, Never, 2));
    DaemonRoundTrip(ReauthInfo(1, OneDay, 2));
    DaemonRoundTrip(ReauthInfo(1, SevenDays, 2));
    DaemonRoundTrip(ReauthInfo(1, ThirtyDays, 2));
  }

  /** A pairing attempt of Alice with code 7. */
  lemma FrozenPairing()
    ensures EncodeClientFrame(Pair([0x41, 0x6C, 0x69, 0x63, 0x65], 7)) == [0x00, 0x05, 0x41, 0x6C, 0x69, 0x63, 0x65, 0x07]
    ensures DecodeClientFrame([0x00, 0x05, 0x41, 0x6C, 0x69, 0x63, 0x65, 0x07]) == Ok(Pair([0x41, 0x6C, 0x69, 0x63, 0x65], 7))
  {
    hide DecodeClientFrame;
    ClientRoundTrip(Pair([0x41, 0x6C, 0x69, 0x63, 0x65], 7));
  }

  /** A revocation: the daemon's key as it is, then the nonce. */
  lemma FrozenRevocation(spki: SpkiHash)
    ensures EncodeDaemonFrame(Revoke(spki, 3)) == [0x02] + spki + [0x03]
    ensures DecodeDaemonFrame([0x02] + spki + [0x03]) == Ok(Revoke(spki, 3))
  {
    hide DecodeDaemonFrame;
    DaemonRoundTrip(Revoke(spki, 3));
    assert EncodeDaemonFrame(Revoke(spki, 3)) == [0x02] + (spki + [0x03]);
  }

  /** Bytes that are no text are no phone name, wherever they are sent. */
  lemma NamesAreText(b: seq<uint8>, tail: seq<uint8>)
    requires |b| < 0x1_0000_0000_0000_0000 && !ValidUtf8(b)
    ensures DecodeClientFrame([0x00] + (PutBlob(b) + tail)) == Err(Decoding)
  {
    hide PutBlob, TakeBlob, ValidUtf8;
    UintRoundTrip(0, PutBlob(b) + tail);
    BlobRoundTrip(b, tail);
    assert PutVarint(0) == [0x00];
  }
}
