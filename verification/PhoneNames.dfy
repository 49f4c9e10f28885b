/** How long a phone name can be: no code caps it, so the envelope does. */
module PhoneNames {
  import opened Wrappers
  import opened Bytes
  import opened Postcard
  import opened Messages
  import opened Envelopes
  import opened Transport
  import opened Pairings
  import opened Keystore
  import opened PairingFlow
  import H = Handshake

  lemma PairIsShortest(s: seq<uint8>, name: Utf8String, code: uint32)
    requires TakeClientFrame(s) == Parsed(Pair(name, code), [])
    ensures |EncodeClientFrame(Pair(name, code))| <= |s|
  {
    var tag := TakeVarint(s, 5, 15);
    EncodedVarintIsShortest(s, 5, 15);
    var length := TakeVarint(tag.rest, 10, 1);
    EncodedVarintIsShortest(tag.rest, 10, 1);
    var afterName := TakeRaw(length.rest, length.value).rest;
    EncodedVarintIsShortest(afterName, 5, 15);
  }

  /** The name and the code of a pairing attempt fit one envelope. */
  predicate FitsEnvelope(name: Utf8String, code: uint32) { |EncodeClientFrame(Pair(name, code))| <= MAX_PAYLOAD_LEN }

  /** In bytes of name and of encoded code. */
  lemma FitsIff(name: Utf8String, code: uint32)
    ensures FitsEnvelope(name, code) <==> |name| + |PutVarint(code)| <= 65_523
  {
    UintLength(code);
    LengthOfLength(|name|);
  }

  lemma LengthOfLength(n: nat)
    ensures |PutVarint(n)| == 1 || n >= 128
    ensures n < 16_384 ==> |PutVarint(n)| <= 2
    ensures 16_384 <= n < 2_097_152 ==> |PutVarint(n)| == 3
    ensures n >= 2_097_152 ==> |PutVarint(n)| >= 3
  {
    if n >= 128 {
      assert PutVarint(n) == [n % 128 + 128] + PutVarint(n / 128);
      if n >= 16_384 {
        assert PutVarint(n / 128) == [n / 128 % 128 + 128] + PutVarint(n / 128 / 128);
      }
    }
  }

  // ------------------------------------------------- through the connection

  /** This connection puts a record of this name into the contents, and saves them as the file system lets it. */
  predicate StoresName(c: Cipher, fl: Flow, peer: Peer, name: Utf8String) {
    var f := Attempted(c, fl, peer).0;
    && f.handshake.Paired? && f.handshake.record.phoneName == name
    && f.contents == Replaced(fl.contents, f.handshake.record)
    && f.disk == Saved(c, fl.disk, f.contents, peer.save).0
  }

  /** Some peer, within what one read can return, gets this name stored. */
  ghost predicate Storable(c: Cipher, fl: Flow, name: Utf8String) {
    exists peer: Peer :: Chunked(peer.chunks) && StoresName(c, fl, peer, name)
  }

  predicate WindowOpen(fl: Flow, code: uint32) {
    && fl.handshake.Awaiting? && fl.handshake.code == code < H.PAIRING_CODE_MODULUS && fl.handshake.expiresAt > 0
  }

  lemma StoredNameFits(c: Cipher, fl: Flow, peer: Peer, name: Utf8String, code: uint32)
    requires WindowOpen(fl, code) && StoresName(c, fl, peer, name)
    ensures FitsEnvelope(name, code)
  {
    hide DecodeEnvelope, TakeClientFrame, EncodeClientFrame, Saved, Replaced, FrameBytes;
    var stream := Flatten(peer.chunks);
    DecodedIsCanonical(stream);
    var env := NextFrame(stream, peer.ending).envelope;
    PairIsShortest(env.payload, name, code);
  }

  function Cut(bytes: seq<uint8>): (chunks: seq<seq<uint8>>)
    ensures Chunked(chunks)
  {
    if bytes == [] then [] else if |bytes| <= READ_CHUNK then [bytes] else [bytes[..READ_CHUNK]] + Cut(bytes[READ_CHUNK..])
  }

  lemma {:induction false} CutIsWhole(bytes: seq<uint8>)
    ensures Flatten(Cut(bytes)) == bytes
  {
    if |bytes| > READ_CHUNK {
      CutIsWhole(bytes[READ_CHUNK..]);
      assert Flatten(Cut(bytes)) == bytes[..READ_CHUNK] + Flatten(Cut(bytes[READ_CHUNK..]));
    } else if bytes != [] {
      assert [bytes][1..] == [];
    }
  }

  /** A phone that offers this name and code, in a window that expires after time 0. */
  function PairingPeer(spki: SpkiHash, name: Utf8String, code: uint32): Peer {
    Peer(Some(spki), Cut(FrameBytes(Envelope(PROTOCOL_VERSION, 1, EncodeClientFrame(Pair(name, code))))), Eof, 1, 0, Healthy)
  }

  lemma FittingNameIsStored(c: Cipher, fl: Flow, spki: SpkiHash, name: Utf8String, code: uint32)
    requires WindowOpen(fl, code) && FitsEnvelope(name, code)
    ensures StoresName(c, fl, PairingPeer(spki, name, code), name)
  {
    hide DecodeEnvelope, DecodeClientFrame, EncodeClientFrame, Saved, Replaced, FrameBytes;
    var env := Envelope(PROTOCOL_VERSION, 1, EncodeClientFrame(Pair(name, code)));
    assert env.payload != [] by { NotEmpty(name, code); }
    RoundTripIff(env, []);
    CutIsWhole(FrameBytes(env));
    assert FrameBytes(env) + [] == FrameBytes(env);
    ClientRoundTrip(Pair(name, code));
  }

  lemma NotEmpty(name: Utf8String, code: uint32)
    ensures EncodeClientFrame(Pair(name, code)) != []
  {
  }

  /**
    A phone name reaches the keystore through a pairing connection exactly when
    it and the right code fit one envelope, whatever the catalogue says of 64 bytes.
  */
  lemma NameIsStorableIff(c: Cipher, fl: Flow, name: Utf8String, code: uint32)
    requires WindowOpen(fl, code)
    ensures Storable(c, fl, name) <==> |name| + |PutVarint(code)| <= 65_523
  {
    hide StoresName, EncodeClientFrame, PutVarint;
    FitsIff(name, code);
    if Storable(c, fl, name) {
      var peer: Peer :| Chunked(peer.chunks) && StoresName(c, fl, peer, name);
      StoredNameFits(c, fl, peer, name, code);
    }
    if FitsEnvelope(name, code) {
      var spki: SpkiHash := seq(32, i => 0);
      FittingNameIsStored(c, fl, spki, name, code);
      assert Chunked(PairingPeer(spki, name, code).chunks);
    }
  }

  // --------------------------------------------------------------- an input

  lemma {:induction false} AsciiIsValid(s: seq<uint8>)
    requires forall b :: b in s ==> b <= 0x7F
    ensures ValidUtf8(s)
  {
    if s != [] {
      assert s[0] in s && forall b :: b in s[1..] ==> b in s;
      AsciiIsValid(s[1..]);
    }
  }

  /** The letter a, n times. */
  function Letters(n: nat): (name: Utf8String)
    requires n < 0x1_0000_0000_0000_0000
    ensures |name| == n
  {
    AsciiIsValid(seq(n, i => 0x61));
    seq(n, i => 0x61)
  }

  /** Whatever the code, names of every length up to 65520 bytes are stored, those past the documented cap among them. */
  lemma LongNamesAreStored(c: Cipher, fl: Flow, code: uint32, n: nat)
    requires WindowOpen(fl, code) && n <= 65_520
    ensures Storable(c, fl, Letters(n))
  {
    hide Storable, PutVarint;
    NameIsStorableIff(c, fl, Letters(n), code);
    LengthOfCode(code);
  }

  lemma LengthOfCode(code: uint32)
    requires code < H.PAIRING_CODE_MODULUS
    ensures |PutVarint(code)| <= 3
  {
    LengthOfLength(code);
  }
}
