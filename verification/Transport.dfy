/**
  The byte stream under a connection, and the loop that reassembles envelopes
  from it. The peer's bytes arrive in chunks of any size a single read can
  return; nothing here depends on where the cuts fall.
*/
module Transport {
  import opened Wrappers
  import opened Bytes
  import opened ProtocolErrors
  import opened Envelopes

  const READ_CHUNK: nat := 4096

  /** The most the receive buffer ever holds: an unfinished largest frame plus one read. */
  const BUFFER_LIMIT: nat := LENGTH_PREFIX_LEN + MAX_FRAME_LEN - 1 + READ_CHUNK

  /** What a read reports once every chunk has been delivered. */
  datatype Ending = Eof | Broken

  datatype IoError = ReadFailed | WriteFailed

  predicate Chunked(chunks: seq<seq<uint8>>) {
    forall c :: c in chunks ==> 1 <= |c| <= READ_CHUNK
  }

  /** A TLS session seen from the daemon: bytes to come, and frames written so far. */
  class TlsStream {
    var inbound: seq<seq<uint8>>
    var outbound: seq<seq<uint8>>
    var writesLeft: nat
    const ending: Ending

    constructor (inbound: seq<seq<uint8>>, ending: Ending, writesLeft: nat)
      ensures this.inbound == inbound && this.ending == ending && this.writesLeft == writesLeft
      ensures outbound == []
    {
      this.inbound, this.outbound := inbound, [];
      this.writesLeft, this.ending := writesLeft, ending;
    }

    /** The next chunk; an empty one at the end of the stream. */
    method Read() returns (r: Result<seq<uint8>, IoError>)
      modifies this`inbound
      ensures old(inbound) != [] ==> r == Ok(old(inbound)[0]) && inbound == old(inbound)[1..]
      ensures old(inbound) == [] ==> inbound == []
      ensures old(inbound) == [] ==> r == if ending.Eof? then Ok([]) else Err(ReadFailed)
    {
      if inbound == [] {
        return if ending.Eof? then Ok([]) else Err(ReadFailed);
      }
      r := Ok(inbound[0]);
      inbound := inbound[1..];
    }

    /** Succeeds while writes are left; the first failure is what the connection ends on. */
    method WriteAll(bytes: seq<uint8>) returns (r: Result<(), IoError>)
      modifies this`outbound, this`writesLeft
      ensures r == if old(writesLeft) > 0 then Ok(()) else Err(WriteFailed)
      ensures outbound == if r.Ok? then old(outbound) + [bytes] else old(outbound)
      ensures writesLeft == if r.Ok? then old(writesLeft) - 1 else 0
    {
      if writesLeft == 0 {
        return Err(WriteFailed);
      }
      outbound, writesLeft := outbound + [bytes], writesLeft - 1;
      return Ok(());
    }
  }

  /** The receive buffer a connection keeps between frames. */
  class RecvBuffer {
    var data: seq<uint8>

    constructor ()
      ensures data == []
    {
      data := [];
    }
  }

  // ---------------------------------------------------------- specification

  datatype StreamEnd = CleanEof | MidFrameEof | ReadError | FramingError(error: Error)

  datatype NextResult = Next(envelope: Envelope, rest: seq<uint8>) | Stopped(end: StreamEnd)

  /** What the whole of the remaining stream, taken at once, says about the next frame. */
  function NextFrame(pending: seq<uint8>, ending: Ending): (r: NextResult)
    ensures r.Next? ==> |r.rest| + 14 <= |pending|
  {
    match DecodeEnvelope(pending)
    case Ok(Frame(env, rest)) =>
      DecodedIsCanonical(pending);
      Next(env, rest)
    case Ok(Incomplete) =>
      Stopped(if ending.Broken? then ReadError else if pending == [] then CleanEof else MidFrameEof)
    case Err(e) => Stopped(FramingError(e))
  }

  /** Every frame of a stream, parsed in one go, and how the stream ends. */
  function ParseStream(pending: seq<uint8>, ending: Ending): (seq<Envelope>, StreamEnd)
    decreases |pending|
  {
    match NextFrame(pending, ending)
    case Stopped(end) => ([], end)
    case Next(env, rest) =>
      var (envs, end) := ParseStream(rest, ending);
      ([env] + envs, end)
  }

  /** What is decided on the buffered bytes is decided for the whole stream. */
  lemma DecidedOnBuffer(buf: seq<uint8>, more: seq<uint8>, ending: Ending)
    ensures
      match DecodeEnvelope(buf)
      case Ok(Frame(env, rest)) =>
        && NextFrame(buf + more, ending) == Next(env, rest + more)
        && |rest| < |buf| && buf[|buf| - |rest|..] == rest
      case Ok(Incomplete) => |buf| < LENGTH_PREFIX_LEN + MAX_FRAME_LEN
      case Err(e) => NextFrame(buf + more, ending) == Stopped(FramingError(e))
  {
    hide DecodeEnvelope;
    if DecodeEnvelope(buf) == Ok(Incomplete) {
      DecodeCases(buf);
    } else {
      DecisionIsStable(buf, more);
      if DecodeEnvelope(buf).Ok? {
        DecodedIsCanonical(buf);
      }
    }
  }

  // ---------------------------------------------------------------- reading

  /**
    Reads one envelope, growing the buffer as bytes arrive. `Ok(None)` is a
    clean end of stream before any frame begins.
  */
  method ReadEnvelope(tls: TlsStream, buf: RecvBuffer) returns (r: Result<Option<Envelope>, StreamEnd>)
    requires Chunked(tls.inbound) && |buf.data| <= BUFFER_LIMIT
    modifies tls`inbound, buf
    ensures Chunked(tls.inbound) && |buf.data| <= BUFFER_LIMIT
    ensures
      match NextFrame(old(buf.data + Flatten(tls.inbound)), tls.ending)
      case Next(env, rest) => r == Ok(Some(env)) && buf.data + Flatten(tls.inbound) == rest
      case Stopped(end) => r == if end.CleanEof? then Ok(None) else Err(end)
  {
    hide DecodeEnvelope;
    ghost var pending := buf.data + Flatten(tls.inbound);
    while true
      invariant Chunked(tls.inbound) && |buf.data| <= BUFFER_LIMIT
      invariant buf.data + Flatten(tls.inbound) == pending
      decreases |tls.inbound|
    {
      DecidedOnBuffer(buf.data, Flatten(tls.inbound), tls.ending);
      match DecodeEnvelope(buf.data) {
        case Ok(Frame(envelope, remainder)) =>
          var consumed := |buf.data| - |remainder|;
          buf.data := buf.data[consumed..];
          return Ok(Some(envelope));
        case Err(e) =>
          return Err(FramingError(e));
        case Ok(Incomplete) =>
      }
      ghost var before, chunks := buf.data, tls.inbound;
      var read := tls.Read();
      if read.Err? {
        assert pending == before;
        return Err(ReadError);
      }
      if read.value == [] {
        assert pending == before;
        if buf.data == [] {
          return Ok(None);
        }
        return Err(MidFrameEof);
      }
      buf.data := buf.data + read.value;
      assert before + (chunks[0] + Flatten(chunks[1..])) == (before + chunks[0]) + Flatten(chunks[1..]);
    }
  }

  /** The one-message reader of the pairing window: any end of stream is an error. */
  method ReadOneEnvelope(tls: TlsStream, buf: RecvBuffer) returns (r: Result<Envelope, StreamEnd>)
    requires Chunked(tls.inbound) && |buf.data| <= BUFFER_LIMIT
    modifies tls`inbound, buf
    ensures |buf.data| <= BUFFER_LIMIT
    ensures
      match NextFrame(old(buf.data + Flatten(tls.inbound)), tls.ending)
      case Next(env, rest) => r == Ok(env) && buf.data + Flatten(tls.inbound) == rest
      case Stopped(end) => r == Err(if end.CleanEof? then MidFrameEof else end)
  {
    hide DecodeEnvelope;
    ghost var pending := buf.data + Flatten(tls.inbound);
    while true
      invariant Chunked(tls.inbound) && |buf.data| <= BUFFER_LIMIT
      invariant buf.data + Flatten(tls.inbound) == pending
      decreases |tls.inbound|
    {
      DecidedOnBuffer(buf.data, Flatten(tls.inbound), tls.ending);
      match DecodeEnvelope(buf.data) {
        case Ok(Frame(envelope, remainder)) =>
          var consumed := |buf.data| - |remainder|;
          buf.data := buf.data[consumed..];
          return Ok(envelope);
        case Err(e) =>
          return Err(FramingError(e));
        case Ok(Incomplete) =>
      }
      ghost var before, chunks := buf.data, tls.inbound;
      var read := tls.Read();
      if read.Err? {
        assert pending == before;
        return Err(ReadError);
      }
      if read.value == [] {
        assert pending == before;
        return Err(MidFrameEof);
      }
      buf.data := buf.data + read.value;
      assert before + (chunks[0] + Flatten(chunks[1..])) == (before + chunks[0]) + Flatten(chunks[1..]);
    }
  }

  // ------------------------------------------------------------- properties

  /** The reader's loop on values: decode what is buffered, else take one more chunk. */
  function Reassemble(buf: seq<uint8>, chunks: seq<seq<uint8>>, ending: Ending): (seq<Envelope>, StreamEnd)
    decreases |buf| + |Flatten(chunks)|, |chunks|
  {
    match DecodeEnvelope(buf)
    case Ok(Frame(env, rest)) =>
      DecodedIsCanonical(buf);
      var (envs, end) := Reassemble(rest, chunks, ending);
      ([env] + envs, end)
    case Err(e) => ([], FramingError(e))
    case Ok(Incomplete) =>
      if chunks == [] then
        ([], if ending.Broken? then ReadError else if buf == [] then CleanEof else MidFrameEof)
      else
        Reassemble(buf + chunks[0], chunks[1..], ending)
  }

  /** Where the chunk boundaries fall never matters, for any bytes at all. */
  lemma {:induction false} ChunkingIndependence(buf: seq<uint8>, chunks: seq<seq<uint8>>, ending: Ending)
    ensures Reassemble(buf, chunks, ending) == ParseStream(buf + Flatten(chunks), ending)
    decreases |buf| + |Flatten(chunks)|, |chunks|
  {
    var pending := buf + Flatten(chunks);
    match DecodeEnvelope(buf)
    case Ok(Frame(env, rest)) =>
      DecodedIsCanonical(buf);
      DecisionIsStable(buf, Flatten(chunks));
      ChunkingIndependence(rest, chunks, ending);
    case Err(e) =>
      DecisionIsStable(buf, Flatten(chunks));
    case Ok(Incomplete) =>
      if chunks == [] {
        assert pending == buf;
      } else {
        ChunkingIndependence(buf + chunks[0], chunks[1..], ending);
        assert pending == (buf + chunks[0]) + Flatten(chunks[1..]);
      }
  }

  predicate Sendable(env: Envelope) {
    env.version == PROTOCOL_VERSION && 1 <= |env.payload| <= MAX_PAYLOAD_LEN
  }

  function WireForms(envs: seq<Envelope>): (parts: seq<seq<uint8>>)
    ensures |parts| == |envs| && forall i :: 0 <= i < |envs| ==> parts[i] == FrameBytes(envs[i])
  {
    if envs == [] then [] else [FrameBytes(envs[0])] + WireForms(envs[1..])
  }

  /** A stream of encoded envelopes parses back to those envelopes, then whatever follows them. */
  lemma {:induction false} StreamRoundTrip(envs: seq<Envelope>, tail: seq<uint8>, ending: Ending)
    requires forall e :: e in envs ==> Sendable(e)
    ensures
      var (more, end) := ParseStream(tail, ending);
      ParseStream(Flatten(WireForms(envs)) + tail, ending) == (envs + more, end)
  {
    hide DecodeEnvelope;
    hide FrameBytes;
    if envs == [] {
      assert Flatten(WireForms(envs)) + tail == tail;
      assert envs + ParseStream(tail, ending).0 == ParseStream(tail, ending).0;
    } else {
      var others := Flatten(WireForms(envs[1..])) + tail;
      assert Sendable(envs[0]);
      RoundTripIff(envs[0], others);
      assert Flatten(WireForms(envs)) + tail == FrameBytes(envs[0]) + others;
      StreamRoundTrip(envs[1..], tail, ending);
      assert [envs[0]] + (envs[1..] + ParseStream(tail, ending).0) == envs + ParseStream(tail, ending).0;
    }
  }

  /** Every stream is the wire form of what was parsed from it, then an unparsed remainder. */
  lemma {:induction false} ParsedIsCanonical(pending: seq<uint8>, ending: Ending) returns (tail: seq<uint8>)
    ensures
      var (envs, end) := ParseStream(pending, ending);
      && pending == Flatten(WireForms(envs)) + tail
      && (forall e :: e in envs ==> Sendable(e))
      && ParseStream(tail, ending) == ([], end)
      && (end.CleanEof? ==> tail == [])
    decreases |pending|
  {
    hide DecodeEnvelope;
    hide FrameBytes;
    match NextFrame(pending, ending)
    case Stopped(end) =>
      tail := pending;
    case Next(env, rest) =>
      DecodedIsCanonical(pending);
      tail := ParsedIsCanonical(rest, ending);
      var envs := ParseStream(rest, ending).0;
      assert ([env] + envs)[1..] == envs;
      assert pending == (FrameBytes(env) + Flatten(WireForms(envs))) + tail;
  }

  /** Why a parse stops: a framing error, a broken read, or an end of stream, clean iff nothing is left over. */
  lemma EndByRemainder(tail: seq<uint8>, ending: Ending)
    ensures NextFrame(tail, ending).Stopped? <==> DecodeEnvelope(tail).Err? || DecodeEnvelope(tail) == Ok(Incomplete)
    ensures DecodeEnvelope(tail).Err? ==> NextFrame(tail, ending) == Stopped(FramingError(DecodeEnvelope(tail).error))
    ensures DecodeEnvelope(tail) == Ok(Incomplete) ==>
              NextFrame(tail, ending) == Stopped(match ending case Broken => ReadError case Eof => if tail == [] then CleanEof else MidFrameEof)
  {
    hide DecodeEnvelope;
  }
}
