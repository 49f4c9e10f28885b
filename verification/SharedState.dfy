/** The keystore every connection shares, the operating system behind it, and the lock sections that change it. */
module SharedState {
  import opened Wrappers
  import opened Bytes
  import opened ProtocolErrors
  import opened Messages
  import opened Pairings
  import opened Keystore
  import R = Reauth

  datatype OsHandlerError = OsApi(detail: string) | NotPermitted(detail: string) {
    function ToWireCode(): ProtocolError { Internal }
  }

  datatype Command = CallSleep | CallLock | CallPowerOff | CallProbe

  /** One operating-system call, with the nonce of the request it was made for. */
  datatype OsCall = OsCall(command: Command, nonce: uint64)

  /** What every connection of the process shares. */
  datatype Shared = Shared(contents: KeystoreContents, disk: Disk)

  /**
    Everything the environment decides while one request is served: among it
    what the other connections have meanwhile made of the shared state, if
    anything.
  */
  datatype Turn = Turn(
    found: Option<Shared>,
    now: uint64,
    handler: Result<(), OsHandlerError>,
    session: Result<PcState, OsHandlerError>,
    save: SaveFault)

  /** The shared state as one connection sees it, with the calls made for its requests. */
  datatype Host = Host(contents: KeystoreContents, disk: Disk, calls: seq<OsCall>) {
    function Meanwhile(found: Option<Shared>): Host {
      if found.None? then this else Host(found.value.contents, found.value.disk, calls)
    }
  }

  class ServerState {
    var contents: KeystoreContents
    var calls: seq<OsCall>
    const fs: FileSystem
    const cipher: Cipher

    constructor (contents: KeystoreContents, fs: FileSystem, cipher: Cipher)
      ensures this.contents == contents && this.fs == fs && this.cipher == cipher && calls == []
    {
      this.contents, this.fs, this.cipher, this.calls := contents, fs, cipher, [];
    }

    function AsHost(): Host
      reads this, fs
    {
      Host(contents, fs.disk, calls)
    }

    /** Other connections run for a while and leave what the environment says they leave. */
    method LetOthersRun(found: Option<Shared>)
      modifies this`contents, fs
      ensures AsHost() == old(AsHost()).Meanwhile(found)
    {
      if found.Some? {
        contents := found.value.contents;
        fs.disk := found.value.disk;
      }
    }

    /** Persists a snapshot of the current contents. */
    method Save(fault: SaveFault) returns (r: Result<(), KeystoreError>)
      modifies fs
      ensures (fs.disk, r) == Saved(cipher, old(fs.disk), contents, fault)
    {
      r := Keystore.Save(fs, cipher, contents, fault);
    }

    method Invoke(command: Command, nonce: uint64, outcome: Result<(), OsHandlerError>)
        returns (r: Result<(), OsHandlerError>)
      modifies this`calls
      ensures calls == old(calls) + [OsCall(command, nonce)] && r == outcome
    {
      calls := calls + [OsCall(command, nonce)];
      return outcome;
    }

    method CurrentSessionState(nonce: uint64, outcome: Result<PcState, OsHandlerError>)
        returns (r: Result<PcState, OsHandlerError>)
      modifies this`calls
      ensures calls == old(calls) + [OsCall(CallProbe, nonce)] && r == outcome
    {
      calls := calls + [OsCall(CallProbe, nonce)];
      return outcome;
    }
  }

  // ---------------------------------------------------------- lock sections

  /** A record of this peer at another address, or at none. */
  predicate Stale(p: PairingRecord, spki: SpkiHash, addr: SocketAddr) {
    p.clientSpki == spki && p.lastKnownAddress != Some(addr)
  }

  /** Moves the first stale record of this peer to the address it connected from. */
  function WithAddress(pairings: seq<PairingRecord>, spki: SpkiHash, addr: SocketAddr): (r: (seq<PairingRecord>, bool))
    ensures |r.0| == |pairings|
  {
    if pairings == [] then ([], false)
    else if Stale(pairings[0], spki, addr) then
      ([pairings[0].(lastKnownAddress := Some(addr))] + pairings[1..], true)
    else
      var (others, changed) := WithAddress(pairings[1..], spki, addr);
      ([pairings[0]] + others, changed)
  }

  /** Forgets this peer's revoked records. */
  function WithoutRevoked(pairings: seq<PairingRecord>, spki: SpkiHash): (r: seq<PairingRecord>)
    ensures |r| <= |pairings|
  {
    if pairings == [] then []
    else if pairings[0].clientSpki == spki && pairings[0].revoked then WithoutRevoked(pairings[1..], spki)
    else [pairings[0]] + WithoutRevoked(pairings[1..], spki)
  }

  /** What is forgotten is decided record by record, and the order stays. */
  lemma {:induction false} ForgettingIsRecordByRecord(front: seq<PairingRecord>, back: seq<PairingRecord>, spki: SpkiHash)
    ensures WithoutRevoked(front + back, spki) == WithoutRevoked(front, spki) + WithoutRevoked(back, spki)
    ensures |front| == 1 ==> WithoutRevoked(front, spki) == if front[0].clientSpki == spki && front[0].revoked then [] else front
  {
    if front == [] {
      assert front + back == back;
      assert WithoutRevoked(front, spki) + WithoutRevoked(back, spki) == WithoutRevoked(back, spki);
    } else {
      var all := front + back;
      assert all[0] == front[0] && all[1..] == front[1..] + back;
      ForgettingIsRecordByRecord(front[1..], back, spki);
      Associate([front[0]], WithoutRevoked(front[1..], spki), WithoutRevoked(back, spki));
      assert |front| == 1 ==> front[1..] == [] && front == [front[0]];
    }
  }

  function WithInterval(k: KeystoreContents, interval: ReauthInterval): KeystoreContents {
    k.(reauthDays := R.IntervalToDays(interval))
  }

  function Moved(p: PairingRecord, spki: SpkiHash, addr: SocketAddr): PairingRecord {
    if p.clientSpki == spki then p.(lastKnownAddress := Some(addr)) else p
  }

  /** The update puts the peer's record at the new address, changes no other, and reports whether anything differed. */
  lemma {:induction false} AddressUpdateIsTargeted(pairings: seq<PairingRecord>, spki: SpkiHash, addr: SocketAddr)
    requires DistinctSpkis(pairings)
    ensures forall i :: 0 <= i < |pairings| ==> WithAddress(pairings, spki, addr).0[i] == Moved(pairings[i], spki, addr)
    ensures WithAddress(pairings, spki, addr).1 <==> WithAddress(pairings, spki, addr).0 != pairings
  {
    if pairings != [] {
      var tail := pairings[1..];
      assert pairings == [pairings[0]] + tail;
      DistinctCons(pairings[0], tail);
      if pairings[0].clientSpki == spki {
        NoRecordNoUpdate(tail, spki, addr);
      } else {
        AddressUpdateIsTargeted(tail, spki, addr);
        assert WithAddress(pairings, spki, addr).0[1..] == WithAddress(tail, spki, addr).0;
      }
    }
  }

  lemma {:induction false} NoRecordNoUpdate(pairings: seq<PairingRecord>, spki: SpkiHash, addr: SocketAddr)
    requires forall i :: 0 <= i < |pairings| ==> pairings[i].clientSpki != spki
    ensures WithAddress(pairings, spki, addr) == (pairings, false)
  {
    if pairings != [] {
      NoRecordNoUpdate(pairings[1..], spki, addr);
      assert pairings == [pairings[0]] + pairings[1..];
    }
  }

  /** The update passes over records that are not stale. */
  lemma {:induction false} SkipsFresh(pairings: seq<PairingRecord>, n: nat, spki: SpkiHash, addr: SocketAddr)
    requires n <= |pairings| && forall i :: 0 <= i < n ==> !Stale(pairings[i], spki, addr)
    ensures
      var (others, changed) := WithAddress(pairings[n..], spki, addr);
      WithAddress(pairings, spki, addr) == (pairings[..n] + others, changed)
  {
    if n == 0 {
      assert pairings[0..] == pairings;
      assert pairings[..0] + WithAddress(pairings, spki, addr).0 == WithAddress(pairings, spki, addr).0;
    } else {
      SkipsFresh(pairings[1..], n - 1, spki, addr);
      assert pairings[1..][n - 1..] == pairings[n..];
      assert pairings[..n] == [pairings[0]] + pairings[1..][..n - 1];
      Associate([pairings[0]], pairings[1..][..n - 1], WithAddress(pairings[n..], spki, addr).0);
    }
  }
}
