/** What a pairing window leaves behind, whoever connects and whatever fails. */
module PairingDurability {
  import opened Wrappers
  import opened Bytes
  import opened Messages
  import ProtocolErrors
  import Postcard
  import opened Pairings
  import opened Keystore
  import opened Transport
  import opened PairingFlow
  import H = Handshake

  predicate NoAck(log: seq<Reply>) { forall r :: r in log ==> !r.frame.Ack? }

  /** At most one phone has been added, and the file is one save away from where it was. */
  ghost predicate AtMostOnePairing(c: Cipher, start: Flow, f: Flow) {
    if f.handshake.Paired? then
      && f.contents == Replaced(start.contents, f.handshake.record)
      && exists fault :: f.disk == Saved(c, start.disk, f.contents, fault).0
    else f.contents == start.contents && f.disk == start.disk
  }

  /** The new contents are in the keystore file. */
  ghost predicate Persisted(c: Cipher, f: Flow) {
    && c.encrypt(Plaintext(f.contents)).Ok?
    && f.disk.file == Some(c.encrypt(Plaintext(f.contents)).value)
  }

  ghost predicate AckedLast(c: Cipher, f: Flow) {
    && f.handshake.Paired? && Persisted(c, f) && f.log != []
    && var last := |f.log| - 1;
    && NoAck(f.log[..last]) && f.log[last].frame.Ack? && f.log[last].fileThen == f.disk.file
  }

  lemma OfferKeeps(c: Cipher, start: Flow, fl: Flow, peer: Peer, nonce: uint64, name: Postcard.Utf8String, code: uint32)
    requires AtMostOnePairing(c, start, fl) && NoAck(fl.log) && peer.spki.Some?
    ensures
      var (f, r) := Offered(c, fl, peer, nonce, name, code);
      AtMostOnePairing(c, start, f) && if r.Accepted? then AckedLast(c, f) else NoAck(f.log)
  {
    hide Plaintext, Replaced, NoAck;
    var (f, r) := Offered(c, fl, peer, nonce, name, code);
    if fl.handshake != f.handshake && f.handshake.Paired? {
      assert f.disk == Saved(c, start.disk, f.contents, peer.save).0;
    }
    if r.Accepted? {
      assert f.log[..|f.log| - 1] == fl.log;
    } else {
      OneMoreReply(fl.log, f.log);
    }
  }

  /** A refused offer is answered alike whatever the reason: wrong code, no window, expired, or out of attempts. */
  lemma RefusalTellsNothing(c: Cipher, one: Flow, other: Flow, peer: Peer, nonce: uint64, name: Postcard.Utf8String, code: uint32)
    requires peer.spki.Some? && peer.writes > 0
    requires !one.handshake.Paired? && !Offered(c, one, peer, nonce, name, code).0.handshake.Paired?
    ensures
      var (f, r) := Offered(c, one, peer, nonce, name, code);
      && r.TurnedDown? && f.contents == one.contents && f.disk == one.disk
      && f.log == one.log + [Reply(Error(nonce, ProtocolErrors.NotPaired), one.disk.file)]
    ensures
      other.handshake.Idle? || other.handshake.Paired? ==>
        Offered(c, other, peer, nonce, name, code) ==
        (other.(log := other.log + [Reply(Error(nonce, ProtocolErrors.NotPaired), other.disk.file)]), TurnedDown)
  {
  }

  lemma OneMoreReply(before: seq<Reply>, after: seq<Reply>)
    requires NoAck(before)
    ensures after == before ==> NoAck(after)
    ensures |after| == |before| + 1 && after[..|before|] == before && !after[|before|].frame.Ack? ==> NoAck(after)
  {
    if |after| == |before| + 1 && after[..|before|] == before {
      assert after == before + [after[|before|]];
    }
  }

  lemma AttemptKeeps(c: Cipher, start: Flow, fl: Flow, peer: Peer)
    requires AtMostOnePairing(c, start, fl) && NoAck(fl.log)
    ensures
      var (f, r) := Attempted(c, fl, peer);
      AtMostOnePairing(c, start, f) && if r.Accepted? then AckedLast(c, f) else NoAck(f.log)
  {
    hide NextFrame, DecodeClientFrame, Offered, AtMostOnePairing, NoAck;
    var (f, r) := Attempted(c, fl, peer);
    if peer.spki.Some? && NextFrame(Flatten(peer.chunks), peer.ending).Next? {
      var env := NextFrame(Flatten(peer.chunks), peer.ending).envelope;
      var frame := DecodeClientFrame(env.payload);
      if frame.Ok? && frame.value.Pair? {
        OfferKeeps(c, start, fl, peer, env.nonce, frame.value.phoneName, frame.value.pairingCode);
      } else {
        OneMoreReply(fl.log, f.log);
        SameButLog(c, start, fl, f);
      }
    }
  }

  lemma SameButLog(c: Cipher, start: Flow, fl: Flow, f: Flow)
    requires AtMostOnePairing(c, start, fl) && f == fl.(log := f.log)
    ensures AtMostOnePairing(c, start, f)
  {
  }

  lemma {:induction false} LoopKeeps(c: Cipher, start: Flow, fl: Flow, arrivals: seq<Arrival>)
    requires AtMostOnePairing(c, start, fl) && NoAck(fl.log)
    ensures
      var (f, end) := Looped(c, fl, arrivals);
      AtMostOnePairing(c, start, f) && if end.PairingDone? then AckedLast(c, f) else NoAck(f.log)
    decreases |arrivals|
  {
    hide Attempted, NoAck, AckedLast;
    if arrivals != [] {
      var (state, t) := H.TickStep(fl.handshake, arrivals[0].tickNow);
      var ticked := fl.(handshake := state);
      assert AtMostOnePairing(c, start, ticked);
      if !t.Expired? {
        match arrivals[0].event
        case TlsFails => LoopKeeps(c, start, ticked, arrivals[1..]);
        case Connects(peer) =>
          AttemptKeeps(c, start, ticked, peer);
          var (after, result) := Attempted(c, ticked, peer);
          if !result.Accepted? && !after.handshake.Idle? {
            LoopKeeps(c, start, after, arrivals[1..]);
          }
        case _ =>
      }
    }
  }

  /**
    In any run of a pairing window at most one record is added; records of
    other phones keep their order and contents; an acknowledgement is sent at
    most once, last, and only when the keystore file already loads to the new
    contents. When no attempt succeeded, nothing changed at all.
  */
  lemma PairOnceDurability(c: Cipher, start: Flow, arrivals: seq<Arrival>)
    requires Inverts(c) && start.handshake.Awaiting? && start.log == []
    requires |start.contents.pairings| < U64_MAX
    ensures
      var (f, end) := Looped(c, start, arrivals);
      && (!f.handshake.Paired? ==> f.contents == start.contents && f.disk == start.disk)
      && (f.handshake.Paired? ==>
            var p := f.handshake.record;
            && f.contents == start.contents.(pairings := f.contents.pairings)
            && f.contents.pairings == Others(start.contents.pairings, p.clientSpki) + [FreshRecord(p.phoneName, p.clientSpki, p.pairedAt)]
            && (f.disk.file == start.disk.file || Loaded(c, f.disk, true) == Ok(Some(f.contents))))
      && (forall i :: 0 <= i < |f.log| && f.log[i].frame.Ack? ==>
            && i == |f.log| - 1 && end.PairingDone? && f.handshake.Paired?
            && f.log[i].fileThen == f.disk.file && Loaded(c, f.disk, true) == Ok(Some(f.contents)))
      && (end.PairingDone? ==> f.log != [] && f.log[|f.log| - 1].frame.Ack?)
  {
    hide Looped, Plaintext, FromPlaintext, Others;
    LoopKeeps(c, start, start, arrivals);
    var (f, end) := Looped(c, start, arrivals);
    if f.handshake.Paired? {
      OthersAreFewer(start.contents.pairings, f.handshake.record.clientSpki);
      var fault :| f.disk == Saved(c, start.disk, f.contents, fault).0;
      SaveIsAtomic(c, start.disk, f.contents, fault);
      PlaintextRoundTrip(f.contents, []);
      assert Plaintext(f.contents) + [] == Plaintext(f.contents);
    }
    assert f.log != [] ==> forall i :: 0 <= i < |f.log| - 1 ==> f.log[i] == f.log[..|f.log| - 1][i];
  }

  lemma {:induction false} OthersAreFewer(pairings: seq<PairingRecord>, spki: SpkiHash)
    ensures |Others(pairings, spki)| <= |pairings|
  {
    if pairings != [] {
      OthersAreFewer(pairings[1..], spki);
    }
  }

  // --------------------------------------------------- what the command says

  /** Once a phone has been accepted, no later arrival changes anything or is told that it is paired. */
  lemma {:induction false} PairedLoopIsOver(c: Cipher, fl: Flow, arrivals: seq<Arrival>)
    requires fl.handshake.Paired?
    ensures
      var (f, end) := Looped(c, fl, arrivals);
      && f.handshake == fl.handshake && f.contents == fl.contents && f.disk == fl.disk
      && !end.PairingDone? && !end.WindowClosed?
    decreases |arrivals|
  {
    hide NextFrame, DecodeClientFrame, Saved;
    if arrivals != [] {
      match arrivals[0].event
      case TlsFails => PairedLoopIsOver(c, fl, arrivals[1..]);
      case Connects(peer) =>
        PairedAttempt(c, fl, peer);
        PairedLoopIsOver(c, Attempted(c, fl, peer).0, arrivals[1..]);
      case _ =>
    }
  }

  lemma PairedAttempt(c: Cipher, fl: Flow, peer: Peer)
    requires fl.handshake.Paired?
    ensures
      var (f, r) := Attempted(c, fl, peer);
      f == fl.(log := f.log) && !r.Accepted?
  {
    hide NextFrame, DecodeClientFrame, Saved;
  }

  /** The attempt that pairs: what it leaves depends on its save, and what it says on its save and its reply. */
  predicate PairedBy(c: Cipher, start: Flow, f: Flow, end: FlowEnd, peer: Peer) {
    var (disk, saved) := Saved(c, start.disk, f.contents, peer.save);
    && f.disk == disk
    && (end.PairingDone? <==> saved.Ok? && peer.writes > 0)
  }

  lemma OfferPairs(c: Cipher, fl: Flow, peer: Peer, nonce: uint64, name: Postcard.Utf8String, code: uint32)
    requires !fl.handshake.Paired? && peer.spki.Some?
    ensures
      var (f, r) := Offered(c, fl, peer, nonce, name, code);
      && (f.handshake.Paired? ==>
            var (disk, saved) := Saved(c, fl.disk, f.contents, peer.save);
            f.disk == disk && (r.Accepted? <==> saved.Ok? && peer.writes > 0))
      && (!f.handshake.Paired? ==> f.contents == fl.contents && f.disk == fl.disk && !r.Accepted?)
  {
    hide Plaintext, Replaced;
  }

  lemma AttemptPairs(c: Cipher, fl: Flow, peer: Peer)
    requires !fl.handshake.Paired?
    ensures
      var (f, r) := Attempted(c, fl, peer);
      && (f.handshake.Paired? ==>
            var (disk, saved) := Saved(c, fl.disk, f.contents, peer.save);
            f.disk == disk && (r.Accepted? <==> saved.Ok? && peer.writes > 0))
      && (!f.handshake.Paired? ==> f.contents == fl.contents && f.disk == fl.disk && !r.Accepted?)
  {
    hide NextFrame, DecodeClientFrame, Saved, Offered;
    if peer.spki.Some? && NextFrame(Flatten(peer.chunks), peer.ending).Next? {
      var env := NextFrame(Flatten(peer.chunks), peer.ending).envelope;
      var frame := DecodeClientFrame(env.payload);
      if frame.Ok? && frame.value.Pair? {
        OfferPairs(c, fl, peer, env.nonce, frame.value.phoneName, frame.value.pairingCode);
      }
    }
  }

  lemma {:induction false} SomeAttemptPairs(c: Cipher, fl: Flow, arrivals: seq<Arrival>) returns (i: nat)
    requires !fl.handshake.Paired? && Looped(c, fl, arrivals).0.handshake.Paired?
    ensures i < |arrivals| && arrivals[i].event.Connects?
    ensures
      var (f, end) := Looped(c, fl, arrivals);
      PairedBy(c, fl, f, end, arrivals[i].event.peer)
    decreases |arrivals|
  {
    hide Attempted, Saved;
    var ticked := fl.(handshake := H.TickStep(fl.handshake, arrivals[0].tickNow).0);
    match arrivals[0].event
    case TlsFails =>
      var j := SomeAttemptPairs(c, ticked, arrivals[1..]);
      i := j + 1;
    case Connects(peer) =>
      AttemptPairs(c, ticked, peer);
      var (after, result) := Attempted(c, ticked, peer);
      if after.handshake.Paired? {
        i := 0;
        PairedLoopIsOver(c, after, arrivals[1..]);
      } else {
        var j := SomeAttemptPairs(c, after, arrivals[1..]);
        i := j + 1;
      }
  }

  /**
    What the command reports when a phone got through: success exactly when the
    record was saved and the phone could be told. So it reports failure, and
    never success again, although the keystore file has the new record exactly
    when the save worked and the reply did not.
  */
  lemma ReportsSuccessIff(c: Cipher, start: Flow, arrivals: seq<Arrival>) returns (i: nat)
    requires Inverts(c) && start.handshake.Awaiting? && start.log == []
    requires |start.contents.pairings| < U64_MAX
    requires Looped(c, start, arrivals).0.handshake.Paired?
    ensures i < |arrivals| && arrivals[i].event.Connects?
    ensures
      var (f, end) := Looped(c, start, arrivals);
      var peer := arrivals[i].event.peer;
      var saved := Saved(c, start.disk, f.contents, peer.save).1.Ok?;
      && (end.PairingDone? <==> saved && peer.writes > 0)
      && (if saved then Loaded(c, f.disk, true) == Ok(Some(f.contents)) else f.disk.file == start.disk.file)
      && (!end.PairingDone? && Loaded(c, f.disk, true) == Ok(Some(f.contents)) && f.disk.file != start.disk.file ==>
            saved && peer.writes == 0)
      && (saved && peer.writes == 0 ==> !end.PairingDone? && Loaded(c, f.disk, true) == Ok(Some(f.contents)))
  {
    hide Looped, Saved, Loaded, Others;
    i := SomeAttemptPairs(c, start, arrivals);
    LoopKeeps(c, start, start, arrivals);
    var f := Looped(c, start, arrivals).0;
    OthersAreFewer(start.contents.pairings, f.handshake.record.clientSpki);
    SaveIsAtomic(c, start.disk, f.contents, arrivals[i].event.peer.save);
  }

  // ------------------------------------------------------------- replacement

  /** What stays beside a new record is decided record by record, and the order stays. */
  lemma {:induction false} ReplacingIsRecordByRecord(front: seq<PairingRecord>, back: seq<PairingRecord>, spki: SpkiHash)
    ensures Others(front + back, spki) == Others(front, spki) + Others(back, spki)
    ensures |front| == 1 ==> Others(front, spki) == if front[0].clientSpki == spki then [] else front
  {
    if front == [] {
      assert front + back == back;
      assert Others(front, spki) + Others(back, spki) == Others(back, spki);
    } else {
      var all := front + back;
      assert all[0] == front[0] && all[1..] == front[1..] + back;
      ReplacingIsRecordByRecord(front[1..], back, spki);
      Associate([front[0]], Others(front[1..], spki), Others(back, spki));
      assert |front| == 1 ==> front[1..] == [] && front == [front[0]];
    }
  }

  lemma {:induction false} OthersMembers(pairings: seq<PairingRecord>, spki: SpkiHash)
    ensures forall p :: p in Others(pairings, spki) <==> p in pairings && p.clientSpki != spki
    ensures DistinctSpkis(pairings) ==> DistinctSpkis(Others(pairings, spki))
  {
    if pairings != [] {
      var tail := pairings[1..];
      OthersMembers(tail, spki);
      assert pairings == [pairings[0]] + tail;
      DistinctCons(pairings[0], tail);
      DistinctCons(pairings[0], Others(tail, spki));
    }
  }

  /** Pairing leaves one record for the phone, and pins exactly its key in addition. */
  lemma ReplacedPins(k: KeystoreContents, p: H.NewPairing, spki: SpkiHash)
    ensures DistinctSpkis(k.pairings) ==> DistinctSpkis(Replaced(k, p).pairings)
    ensures spki in PinSet(Replaced(k, p).pairings) <==> spki == p.clientSpki || spki in PinSet(k.pairings)
    ensures forall r :: r in Replaced(k, p).pairings && r.clientSpki == p.clientSpki ==> r == FreshRecord(p.phoneName, p.clientSpki, p.pairedAt)
  {
    var others, new' := Others(k.pairings, p.clientSpki), FreshRecord(p.phoneName, p.clientSpki, p.pairedAt);
    OthersMembers(k.pairings, p.clientSpki);
    PinnedIffActive(k.pairings, spki);
    PinnedIffActive(Replaced(k, p).pairings, spki);
    assert forall r :: r in others + [new'] <==> r in others || r == new';
    assert new' in others + [new'];
  }
}
