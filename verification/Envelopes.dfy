/**
  The length-prefixed envelope: four length bytes, then version, nonce and
  payload. Integers are big-endian.
*/
module Envelopes {
  import opened Wrappers
  import opened Bytes
  import opened ProtocolErrors

  const PROTOCOL_VERSION: uint8 := 1
  const ENVELOPE_HEADER_LEN: nat := 9
  const MIN_FRAME_LEN: nat := 10
  const MAX_FRAME_LEN: nat := 65_536
  const LENGTH_PREFIX_LEN: nat := 4
  const MAX_PAYLOAD_LEN: nat := 65_527

  datatype Envelope = Envelope(version: uint8, nonce: uint64, payload: seq<uint8>)

  datatype DecodeOutcome = Frame(envelope: Envelope, remainder: seq<uint8>) | Incomplete

  /** The wire form of an envelope. */
  function FrameBytes(env: Envelope): (s: seq<uint8>)
    ensures |s| == 13 + |env.payload|
  {
    ToBe(9 + |env.payload|, 4) + BodyBytes(env)
  }

  function BodyBytes(env: Envelope): (s: seq<uint8>)
    ensures |s| == 9 + |env.payload|
  {
    [env.version] + (ToBe(env.nonce, 8) + env.payload)
  }

  /** Appends the wire form piece by piece; refuses what exceeds the frame limit. */
  method EncodeEnvelope(env: Envelope) returns (r: Result<seq<uint8>, Error>)
    ensures r.Ok? <==> |env.payload| <= MAX_PAYLOAD_LEN
    ensures r.Ok? ==> r.value == FrameBytes(env)
    ensures MAX_PAYLOAD_LEN < |env.payload| <= U64_MAX - ENVELOPE_HEADER_LEN ==>
              r == Err(OversizedFrame(ENVELOPE_HEADER_LEN + |env.payload|, MAX_FRAME_LEN))
    ensures |env.payload| > U64_MAX - ENVELOPE_HEADER_LEN ==> r == Err(LengthOverflow)
  {
    if |env.payload| > U64_MAX - ENVELOPE_HEADER_LEN {
      return Err(LengthOverflow);
    }
    var envLen := ENVELOPE_HEADER_LEN + |env.payload|;
    if envLen > MAX_FRAME_LEN {
      return Err(OversizedFrame(envLen, MAX_FRAME_LEN));
    }
    var out: seq<uint8> := [];
    out := out + ToBe(envLen, 4);
    out := out + [env.version];
    out := out + ToBe(env.nonce, 8);
    out := out + env.payload;
    assert out == FrameBytes(env);
    return Ok(out);
  }

  function Get(s: seq<uint8>, lo: nat, hi: nat): (r: Option<seq<uint8>>)
    ensures r.Some? <==> lo <= hi <= |s|
    ensures r.Some? ==> r.value == s[lo..hi]
  {
    if lo <= hi <= |s| then Some(s[lo..hi]) else None
  }

  /** Parses one envelope from the front of the buffer, holding no state between calls. */
  function DecodeEnvelope(buf: seq<uint8>): Result<DecodeOutcome, Error> {
    match Get(buf, 0, LENGTH_PREFIX_LEN)
    case None => Ok(Incomplete)
    case Some(lenBytes) =>
      var envLen := FromBe(lenBytes);
      if envLen < MIN_FRAME_LEN then Err(UndersizedFrame(envLen, MIN_FRAME_LEN))
      else if envLen > MAX_FRAME_LEN then Err(OversizedFrame(envLen, MAX_FRAME_LEN))
      else if |buf| < LENGTH_PREFIX_LEN + envLen then Ok(Incomplete)
      else
        match Get(buf, LENGTH_PREFIX_LEN, LENGTH_PREFIX_LEN + envLen)
        case None => Err(LengthOverflow)
        case Some(body) => DecodeBody(envLen, body, buf[LENGTH_PREFIX_LEN + envLen..])
  }

  function DecodeBody(envLen: nat, body: seq<uint8>, remainder: seq<uint8>): Result<DecodeOutcome, Error> {
    match Get(body, 0, 1)
    case None => Err(UndersizedFrame(envLen, MIN_FRAME_LEN))
    case Some(version) =>
      if version[0] != PROTOCOL_VERSION then Err(BadVersion(version[0], PROTOCOL_VERSION))
      else
        match Get(body, 1, ENVELOPE_HEADER_LEN)
        case None => Err(UndersizedFrame(envLen, MIN_FRAME_LEN))
        case Some(nonceBytes) =>
          WordSizes();
          match Get(body, ENVELOPE_HEADER_LEN, |body|)
          case None => Err(UndersizedFrame(envLen, MIN_FRAME_LEN))
          case Some(payload) => Ok(Frame(Envelope(version[0], FromBe(nonceBytes), payload), remainder))
  }

  /** The buffer a longer read would have produced decodes to the outcome with the extra bytes left over. */
  function Extend(r: Result<DecodeOutcome, Error>, more: seq<uint8>): Result<DecodeOutcome, Error> {
    match r
    case Ok(Frame(env, remainder)) => Ok(Frame(env, remainder + more))
    case _ => r
  }

  /** Once a frame or an error is decided, later bytes cannot change it. */
  lemma DecisionIsStable(buf: seq<uint8>, more: seq<uint8>)
    requires DecodeEnvelope(buf) != Ok(Incomplete)
    ensures DecodeEnvelope(buf + more) == Extend(DecodeEnvelope(buf), more)
  {
    assert (buf + more)[0..4] == buf[0..4];
    var envLen := FromBe(buf[0..4]);
    if MIN_FRAME_LEN <= envLen <= MAX_FRAME_LEN {
      assert (buf + more)[4..4 + envLen] == buf[4..4 + envLen];
      assert (buf + more)[4 + envLen..] == buf[4 + envLen..] + more;
    }
  }

  /** Exactly when each outcome arises; the length-overflow result never does. */
  lemma DecodeCases(buf: seq<uint8>)
    ensures DecodeEnvelope(buf) != Err(LengthOverflow)
    ensures |buf| < 4 ==> DecodeEnvelope(buf) == Ok(Incomplete)
    ensures |buf| >= 4 ==>
              var len := FromBe(buf[..4]);
              && (DecodeEnvelope(buf) == Err(UndersizedFrame(len, MIN_FRAME_LEN)) <==> len < MIN_FRAME_LEN)
              && (DecodeEnvelope(buf) == Err(OversizedFrame(len, MAX_FRAME_LEN)) <==> len > MAX_FRAME_LEN)
              && (DecodeEnvelope(buf) == Ok(Incomplete) <==>
                  MIN_FRAME_LEN <= len <= MAX_FRAME_LEN && |buf| < 4 + len)
              && (MIN_FRAME_LEN <= len <= MAX_FRAME_LEN && |buf| >= 4 + len ==>
                  if buf[4] == PROTOCOL_VERSION
                  then DecodeEnvelope(buf).Ok? && DecodeEnvelope(buf).value.Frame?
                  else DecodeEnvelope(buf) == Err(BadVersion(buf[4], PROTOCOL_VERSION)))
    ensures DecodeEnvelope(buf) == Ok(Incomplete) ==> |buf| < LENGTH_PREFIX_LEN + MAX_FRAME_LEN
  {
    if |buf| >= 4 {
      assert buf[0..4] == buf[..4];
    }
  }

  /** Whatever is decoded re-encodes to exactly the bytes it was read from. */
  lemma DecodedIsCanonical(buf: seq<uint8>)
    requires DecodeEnvelope(buf).Ok? && DecodeEnvelope(buf).value.Frame?
    ensures
      var Frame(env, rest) := DecodeEnvelope(buf).value;
      && env.version == PROTOCOL_VERSION
      && 1 <= |env.payload| <= MAX_PAYLOAD_LEN
      && buf == FrameBytes(env) + rest
  {
    hide ToBe;
    var envLen := FromBe(buf[0..4]);
    var body, rest := buf[4..4 + envLen], buf[4 + envLen..];
    BeCanonical(buf[0..4]);
    BodyIsCanonical(envLen, body, rest);
    assert buf == buf[0..4] + body + rest;
  }

  lemma BodyIsCanonical(envLen: nat, body: seq<uint8>, rest: seq<uint8>)
    requires DecodeBody(envLen, body, rest).Ok?
    ensures DecodeBody(envLen, body, rest).value.Frame?
    ensures
      var Frame(env, remainder) := DecodeBody(envLen, body, rest).value;
      env.version == PROTOCOL_VERSION && BodyBytes(env) == body && remainder == rest
  {
    BeCanonical(body[1..9]);
    assert body == body[0..1] + (body[1..9] + body[9..|body|]);
  }

  /**
    An encoded envelope followed by anything decodes back to itself, leaving
    what followed, exactly when it has this protocol version and some payload.
  */
  lemma RoundTripIff(env: Envelope, s: seq<uint8>)
    requires |env.payload| <= MAX_PAYLOAD_LEN
    ensures DecodeEnvelope(FrameBytes(env) + s) == Ok(Frame(env, s))
       <==> env.version == PROTOCOL_VERSION && env.payload != []
  {
    var buf, body, envLen := FrameBytes(env) + s, BodyBytes(env), 9 + |env.payload|;
    assert envLen < Pow256(4) by { WordSizes(); }
    BeRoundTrip(envLen, 4);
    BodyRoundTrip(env, s);
    assert buf == ToBe(envLen, 4) + (body + s);
    assert buf[0..4] == ToBe(envLen, 4);
    assert buf[4..4 + envLen] == body;
    assert buf[4 + envLen..] == s;
  }

  lemma BodyRoundTrip(env: Envelope, s: seq<uint8>)
    ensures DecodeBody(9 + |env.payload|, BodyBytes(env), s) ==
            if env.version == PROTOCOL_VERSION then Ok(Frame(env, s))
            else Err(BadVersion(env.version, PROTOCOL_VERSION))
  {
    var body := BodyBytes(env);
    assert env.nonce < Pow256(8) by { WordSizes(); }
    BeRoundTrip(env.nonce, 8);
    assert body[0..1][0] == env.version;
    assert body[1..9] == ToBe(env.nonce, 8);
    assert body[9..|body|] == env.payload;
  }

  /**
    The frame byte by byte: the length of what follows it, the version, the
    nonce, the payload; both integers most significant byte first.
  */
  lemma FrameLayout(env: Envelope)
    requires |env.payload| <= MAX_PAYLOAD_LEN
    ensures
      var frame, length := FrameBytes(env), 9 + |env.payload|;
      && |frame| == 4 + length
      && (forall i :: 0 <= i < 4 ==> frame[i] == length / Pow256(3 - i) % 256)
      && frame[4] == env.version
      && (forall i :: 5 <= i < 13 ==> frame[i] == env.nonce / Pow256(12 - i) % 256)
      && frame[13..] == env.payload
  {
    var length, body := 9 + |env.payload|, BodyBytes(env);
    forall i | 0 <= i < 4 ensures FrameBytes(env)[i] == length / Pow256(3 - i) % 256 {
      BeDigits(length, 4, i);
    }
    forall i | 5 <= i < 13 ensures FrameBytes(env)[i] == env.nonce / Pow256(12 - i) % 256 {
      BeDigits(env.nonce, 8, i - 5);
      assert FrameBytes(env)[i] == body[i - 4] == ToBe(env.nonce, 8)[i - 5];
    }
  }

  /** The frozen frame: a sleep request under nonce 1. */
  lemma FrozenFrame()
    ensures FrameBytes(Envelope(1, 1, [0x01])) ==
            [0x00, 0x00, 0x00, 0x0A, 0x01, 0x00, 0x00, 0x00, 0x00, 0x00, 0x00, 0x00, 0x01, 0x01]
  {
    hide ToBe;
    SmallInBigEndian(10, 4);
    SmallInBigEndian(1, 8);
    assert ToBe(10, 4) == [0x00, 0x00, 0x00, 0x0A];
    assert ToBe(1, 8) == [0x00, 0x00, 0x00, 0x00, 0x00, 0x00, 0x00, 0x01];
  }

  lemma {:induction false} SmallInBigEndian(v: uint8, n: nat)
    requires n > 0
    ensures forall i :: 0 <= i < n - 1 ==> ToBe(v, n)[i] == 0
    ensures ToBe(v, n)[n - 1] == v
  {
    if n > 1 {
      SmallInBigEndian(0, n - 1);
    }
  }
}
