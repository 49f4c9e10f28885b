/** One record per paired phone, and the pin set derived from the active ones. */
module Pairings {
  import opened Wrappers
  import opened Bytes
  import opened Postcard
  import opened Messages

  type Ipv4 = s: seq<uint8> | |s| == 4 witness [0, 0, 0, 0]
  type Ipv6 = s: seq<uint8> | |s| == 16 witness seq(16, i => 0)

  datatype SocketAddr = V4(ip4: Ipv4, port: uint16) | V6(ip6: Ipv6, port: uint16)

  datatype PairingRecord = PairingRecord(
    phoneName: Utf8String,
    clientSpki: SpkiHash,
    pairedAt: uint64,
    lastAuthenticatedAt: uint64,
    revoked: bool,
    revokePending: bool,
    lastKnownAddress: Option<SocketAddr>)
  {
    predicate IsActive() { !revoked }
  }

  /** The record as format 1 stored it. */
  datatype PairingRecordV1 = PairingRecordV1(
    phoneName: Utf8String,
    clientSpki: SpkiHash,
    pairedAt: uint64,
    lastAuthenticatedAt: uint64,
    revoked: bool,
    revokePending: bool)
  {
    function Upgrade(): PairingRecord {
      PairingRecord(phoneName, clientSpki, pairedAt, lastAuthenticatedAt, revoked, revokePending, None)
    }
  }

  function FreshRecord(phoneName: Utf8String, clientSpki: SpkiHash, pairedAt: uint64): PairingRecord {
    PairingRecord(phoneName, clientSpki, pairedAt, pairedAt, false, false, None)
  }

  /** A new record: the phone's name and key, authenticated when it was paired, not revoked, at no address yet. */
  lemma FreshRecordFields(phoneName: Utf8String, clientSpki: SpkiHash, pairedAt: uint64)
    ensures
      var p := FreshRecord(phoneName, clientSpki, pairedAt);
      && p.phoneName == phoneName && p.clientSpki == clientSpki
      && p.pairedAt == pairedAt && p.lastAuthenticatedAt == pairedAt
      && !p.revoked && !p.revokePending && p.lastKnownAddress == None && p.IsActive()
  {
  }

  /** The first record that is active and has this key. */
  function ActivePairing(pairings: seq<PairingRecord>, spki: SpkiHash): Option<PairingRecord> {
    if pairings == [] then None
    else if pairings[0].IsActive() && pairings[0].clientSpki == spki then Some(pairings[0])
    else ActivePairing(pairings[1..], spki)
  }

  /** The keys of the active records, in record order. */
  function ActiveSpkis(pairings: seq<PairingRecord>): seq<SpkiHash> {
    if pairings == [] then []
    else if pairings[0].IsActive() then [pairings[0].clientSpki] + ActiveSpkis(pairings[1..])
    else ActiveSpkis(pairings[1..])
  }

  function PinSet(pairings: seq<PairingRecord>): set<SpkiHash> {
    set s | s in ActiveSpkis(pairings)
  }

  predicate DistinctSpkis(pairings: seq<PairingRecord>) {
    forall i, j :: 0 <= i < j < |pairings| ==> pairings[i].clientSpki != pairings[j].clientSpki
  }

  /** The pin set the listener serves and the pre-flight lookup agree, for any list of records. */
  lemma {:induction false} PinnedIffActive(pairings: seq<PairingRecord>, spki: SpkiHash)
    ensures spki in PinSet(pairings) <==> ActivePairing(pairings, spki).Some?
    ensures spki in PinSet(pairings) <==> exists p :: p in pairings && p.IsActive() && p.clientSpki == spki
    ensures ActivePairing(pairings, spki).Some? ==>
              var p := ActivePairing(pairings, spki).value;
              p in pairings && p.IsActive() && p.clientSpki == spki
  {
    if pairings != [] {
      PinnedIffActive(pairings[1..], spki);
      assert forall p :: p in pairings <==> p == pairings[0] || p in pairings[1..];
    }
  }

  lemma DistinctCons(first: PairingRecord, others: seq<PairingRecord>)
    ensures DistinctSpkis([first] + others) <==>
            DistinctSpkis(others) && forall p :: p in others ==> p.clientSpki != first.clientSpki
  {
    var all := [first] + others;
    if DistinctSpkis(all) {
      forall i, j | 0 <= i < j < |others| ensures others[i].clientSpki != others[j].clientSpki {
        assert all[i + 1].clientSpki != all[j + 1].clientSpki;
      }
      forall p | p in others ensures p.clientSpki != first.clientSpki {
        var i :| 0 <= i < |others| && others[i] == p;
        assert all[0].clientSpki != all[i + 1].clientSpki;
      }
    }
  }
}
