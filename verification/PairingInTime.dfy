/** That a pairing window works: the phone with the right code gets in while there is time, and nobody after. */
module PairingInTime {
  import opened Wrappers
  import opened Bytes
  import opened ProtocolErrors
  import opened Messages
  import opened Pairings
  import opened Keystore
  import opened Transport
  import opened Envelopes
  import opened PairingFlow
  import opened PairingDurability
  import H = Handshake
  import Postcard

  /** The window is open, with this code, until then, and this many attempts are left. */
  predicate OpenWith(fl: Flow, code: uint32, expiresAt: uint64, left: nat) {
    && 1 <= left <= 5 && code < 1_000_000
    && fl.handshake == H.Awaiting(code, expiresAt, 5 - left)
  }

  /** This connection offers that code, in a frame that arrives whole. */
  predicate Offers(peer: Peer, name: Postcard.Utf8String, code: uint32, nonce: uint64) {
    && peer.spki.Some?
    && match NextFrame(Flatten(peer.chunks), peer.ending)
       case Next(env, _) => env.nonce == nonce && DecodeClientFrame(env.payload) == Ok(Pair(name, code))
       case Stopped(_) => false
  }

  predicate OffersSomething(peer: Peer) {
    && peer.spki.Some?
    && match NextFrame(Flatten(peer.chunks), peer.ending)
       case Next(env, _) => DecodeClientFrame(env.payload).Ok? && DecodeClientFrame(env.payload).value.Pair?
       case Stopped(_) => false
  }

  predicate OffersRight(peer: Peer, code: uint32) {
    && OffersSomething(peer)
    && DecodeClientFrame(NextFrame(Flatten(peer.chunks), peer.ending).envelope.payload).value.pairingCode == code
  }

  /** An arrival before the deadline that does not use the right code: a failed handshake, no offer, or a wrong one. */
  predicate Early(a: Arrival, code: uint32, expiresAt: uint64) {
    && a.tickNow < expiresAt
    && (a.event.TlsFails? || (a.event.Connects? && a.event.peer.now < expiresAt && !OffersRight(a.event.peer, code)))
  }

  /** How many attempts these arrivals use up. */
  function Attempts(arrivals: seq<Arrival>): nat {
    if arrivals == [] then 0
    else (if arrivals[0].event.Connects? && OffersSomething(arrivals[0].event.peer) then 1 else 0) + Attempts(arrivals[1..])
  }

  /** A connection before the deadline without the right code costs an attempt iff it offers one, and changes no record and no file. */
  lemma EarlyAttempt(c: Cipher, fl: Flow, peer: Peer, code: uint32, expiresAt: uint64, left: nat)
    requires OpenWith(fl, code, expiresAt, left) && peer.now < expiresAt && !OffersRight(peer, code)
    requires OffersSomething(peer) ==> left > 1
    ensures
      var (f, r) := Attempted(c, fl, peer);
      && !r.Accepted? && f.contents == fl.contents && f.disk == fl.disk
      && OpenWith(f, code, expiresAt, if OffersSomething(peer) then left - 1 else left)
  {
    hide NextFrame, DecodeClientFrame, Saved, Replaced;
  }

  /** One turn of the loop with a connection and a tick in time. */
  lemma InTimeTurn(c: Cipher, fl: Flow, tickNow: uint64, peer: Peer, later: seq<Arrival>)
    requires fl.handshake.Awaiting? && tickNow < fl.handshake.expiresAt
    ensures
      var (after, r) := Attempted(c, fl, peer);
      Looped(c, fl, [Arrival(tickNow, Connects(peer))] + later) ==
      if r.Accepted? then (after, PairingDone)
      else if after.handshake.Idle? then (after, WindowClosed)
      else Looped(c, after, later)
  {
    hide Attempted;
    H.TickByTime(fl.handshake, tickNow, tickNow);
    assert ([Arrival(tickNow, Connects(peer))] + later)[1..] == later;
  }

  /** Early arrivals leave the window open as long as attempts are left, and the loop goes on behind them. */
  lemma {:induction false} EarlyArrivals(c: Cipher, fl: Flow, early: seq<Arrival>, others: seq<Arrival>, code: uint32, expiresAt: uint64, left: nat)
      returns (f: Flow)
    requires OpenWith(fl, code, expiresAt, left)
    requires (forall a :: a in early ==> Early(a, code, expiresAt)) && Attempts(early) < left
    ensures OpenWith(f, code, expiresAt, left - Attempts(early)) && f.contents == fl.contents && f.disk == fl.disk
    ensures Looped(c, fl, early + others) == Looped(c, f, others)
    decreases |early|
  {
    hide Attempted, OffersSomething, OffersRight;
    if early == [] {
      f := fl;
      assert early + others == others;
    } else {
      var a := early[0];
      assert Early(a, code, expiresAt);
      assert (early + others)[1..] == early[1..] + others && (early + others)[0] == a;
      H.TickByTime(fl.handshake, a.tickNow, a.tickNow);
      if a.event.TlsFails? {
        f := EarlyArrivals(c, fl, early[1..], others, code, expiresAt, left);
      } else {
        EarlyAttempt(c, fl, a.event.peer, code, expiresAt, left);
        var after := Attempted(c, fl, a.event.peer).0;
        f := EarlyArrivals(c, after, early[1..], others, code, expiresAt, if OffersSomething(a.event.peer) then left - 1 else left);
      }
    }
  }

  lemma RightAttempt(c: Cipher, fl: Flow, peer: Peer, name: Postcard.Utf8String, code: uint32, nonce: uint64, expiresAt: uint64, left: nat)
    requires OpenWith(fl, code, expiresAt, left) && Offers(peer, name, code, nonce) && peer.now < expiresAt
    requires peer.save.Healthy? && peer.writes > 0
    requires c.encrypt(Plaintext(Replaced(fl.contents, H.NewPairing(name, peer.spki.value, peer.now)))).Ok?
    ensures
      var (f, r) := Attempted(c, fl, peer);
      var k := Replaced(fl.contents, H.NewPairing(name, peer.spki.value, peer.now));
      && r.Accepted? && f.contents == k
      && f.disk == Disk(Some(c.encrypt(Plaintext(k)).value), None)
      && f.log == fl.log + [Reply(Ack(nonce), f.disk.file)]
  {
    hide NextFrame, DecodeClientFrame, Plaintext, Replaced;
  }

  /**
    In an open window, whatever arrives before without the right code, as long
    as it leaves an attempt and everything is before the deadline: the phone
    that offers the right code, if its save and its reply work, ends the command
    as paired, acknowledged, with its record last in the file under its name,
    its key and the time.
  */
  lemma RightCodeInTimePairs(c: Cipher, fl: Flow, early: seq<Arrival>, tickNow: uint64, peer: Peer, later: seq<Arrival>,
                             name: Postcard.Utf8String, code: uint32, nonce: uint64, expiresAt: uint64, left: nat)
    requires OpenWith(fl, code, expiresAt, left)
    requires (forall a :: a in early ==> Early(a, code, expiresAt)) && Attempts(early) < left
    requires tickNow < expiresAt && peer.now < expiresAt && Offers(peer, name, code, nonce)
    requires peer.save.Healthy? && peer.writes > 0
    requires c.encrypt(Plaintext(Replaced(fl.contents, H.NewPairing(name, peer.spki.value, peer.now)))).Ok?
    ensures
      var (f, end) := Looped(c, fl, early + [Arrival(tickNow, Connects(peer))] + later);
      var record := PairingRecord(name, peer.spki.value, peer.now, peer.now, false, false, None);
      && end == PairingDone
      && f.contents == fl.contents.(pairings := Others(fl.contents.pairings, peer.spki.value) + [record])
      && f.disk.file == Some(c.encrypt(Plaintext(f.contents)).value)
      && f.log != [] && f.log[|f.log| - 1] == Reply(Ack(nonce), f.disk.file)
  {
    hide Attempted, Plaintext, Offers, Looped;
    var arrival := Arrival(tickNow, Connects(peer));
    var f := EarlyArrivals(c, fl, early, [arrival] + later, code, expiresAt, left);
    assert early + [arrival] + later == early + ([arrival] + later);
    InTimeTurn(c, f, tickNow, peer, later);
    RightAttempt(c, f, peer, name, code, nonce, expiresAt, left - Attempts(early));
  }

  lemma LateTurn(c: Cipher, fl: Flow, last: Arrival, later: seq<Arrival>)
    requires fl.handshake.Awaiting?
    requires last.tickNow >= fl.handshake.expiresAt || last.event.DeadlineFires? || last.event.AcceptFails?
    ensures
      var (f, end) := Looped(c, fl, [last] + later);
      && f.contents == fl.contents && f.disk == fl.disk
      && end == if last.tickNow >= fl.handshake.expiresAt || last.event.DeadlineFires? then PairingFlow.WindowExpired else ListenerFailed
  {
    hide Attempted;
    H.TickByTime(fl.handshake, last.tickNow, last.tickNow);
  }

  /** And after the deadline nobody: a late tick ends the command as expired, records and file as they were; so does its own deadline, and a failing listener ends it too. */
  lemma LateTickExpires(c: Cipher, fl: Flow, early: seq<Arrival>, last: Arrival, later: seq<Arrival>, code: uint32, expiresAt: uint64, left: nat)
    requires OpenWith(fl, code, expiresAt, left)
    requires (forall a :: a in early ==> Early(a, code, expiresAt)) && Attempts(early) < left
    requires last.tickNow >= expiresAt || last.event.DeadlineFires? || last.event.AcceptFails?
    ensures
      var (f, end) := Looped(c, fl, early + [last] + later);
      && f.contents == fl.contents && f.disk == fl.disk
      && end == if last.tickNow >= expiresAt || last.event.DeadlineFires? then PairingFlow.WindowExpired else ListenerFailed
  {
    var f := EarlyArrivals(c, fl, early, [last] + later, code, expiresAt, left);
    LateTurn(c, f, last, later);
    hide Attempted, OffersSomething, OffersRight, Looped;
    assert early + [last] + later == early + ([last] + later);
  }

  lemma ClosingAttempt(c: Cipher, fl: Flow, peer: Peer, code: uint32, expiresAt: uint64, left: nat)
    requires OpenWith(fl, code, expiresAt, left) && OffersSomething(peer)
    requires peer.now >= expiresAt || (left == 1 && !OffersRight(peer, code))
    ensures
      var (f, r) := Attempted(c, fl, peer);
      !r.Accepted? && f.contents == fl.contents && f.disk == fl.disk && f.handshake == H.Idle
  {
    hide NextFrame, DecodeClientFrame, Saved, Replaced;
  }

  /** The last wrong attempt, or any offer after the deadline, closes the window and ends the command so. */
  lemma LastAttemptCloses(c: Cipher, fl: Flow, early: seq<Arrival>, tickNow: uint64, peer: Peer, later: seq<Arrival>,
                          code: uint32, expiresAt: uint64, left: nat)
    requires OpenWith(fl, code, expiresAt, left)
    requires (forall a :: a in early ==> Early(a, code, expiresAt)) && Attempts(early) < left
    requires tickNow < expiresAt && OffersSomething(peer)
    requires peer.now >= expiresAt || (Attempts(early) + 1 == left && !OffersRight(peer, code))
    ensures
      var (f, end) := Looped(c, fl, early + [Arrival(tickNow, Connects(peer))] + later);
      f.contents == fl.contents && f.disk == fl.disk && end == WindowClosed
  {
    var last := Arrival(tickNow, Connects(peer));
    var f := EarlyArrivals(c, fl, early, [last] + later, code, expiresAt, left);
    hide Attempted, OffersSomething, OffersRight, Looped;
    assert early + [last] + later == early + ([last] + later);
    InTimeTurn(c, f, tickNow, peer, later);
    ClosingAttempt(c, f, peer, code, expiresAt, left - Attempts(early));
  }

  /** The command starts with a window that is open for five minutes, over the records it loaded or none. */
  lemma OpensForFiveMinutes(c: Cipher, disk: Disk, st: Startup)
    requires Opened(c, disk, st).Ok? && st.now + 300_000 <= U64_MAX
    ensures
      var fl := Opened(c, disk, st).value;
      && H.SampledCode(st.draws).Ok? && OpenWith(fl, H.SampledCode(st.draws).value, st.now + 300_000, 5)
      && fl.disk == disk && fl.log == []
      && match Loaded(c, disk, st.readable)
         case Ok(Some(k)) => fl.contents == k
         case Ok(None) => st.newIdentity.Some? && fl.contents == KeystoreContents(st.newIdentity.value, [], 7, 0)
         case Err(_) => false
  {
    hide Loaded;
  }

  /** And exactly when everything it needs is there. */
  lemma OpensIff(c: Cipher, disk: Disk, st: Startup)
    ensures Opened(c, disk, st).Ok? <==>
            && st.dataDirReady && Loaded(c, disk, st.readable).Ok?
            && (Loaded(c, disk, st.readable).value.Some? || st.newIdentity.Some?)
            && st.identityParses && H.SampledCode(st.draws).Ok? && st.configBuilt && st.bound
  {
    hide Loaded;
  }

  /** What the first frame of a connection is told, when it is no offer. */
  lemma OtherFramesAreRefused(c: Cipher, fl: Flow, peer: Peer)
    requires peer.spki.Some? && peer.writes > 0
    requires NextFrame(Flatten(peer.chunks), peer.ending).Next? && !OffersSomething(peer)
    ensures
      var env := NextFrame(Flatten(peer.chunks), peer.ending).envelope;
      var code := if DecodeClientFrame(env.payload).Ok? then Unsupported else MalformedFrame;
      Attempted(c, fl, peer) == (fl.(log := fl.log + [Reply(Error(env.nonce, code), fl.disk.file)]), TurnedDown)
  {
    hide NextFrame, TakeClientFrame;
  }

  /** A connection with no key, no whole frame, or a broken one is told nothing and changes nothing. */
  lemma SilentFailures(c: Cipher, fl: Flow, peer: Peer)
    requires peer.spki.None? || NextFrame(Flatten(peer.chunks), peer.ending).Stopped?
    ensures Attempted(c, fl, peer) == (fl, AttemptFailed)
  {
    hide NextFrame;
  }
}
