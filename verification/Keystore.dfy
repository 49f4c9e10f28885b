/**
  The keystore: device identity and pairing records, encoded behind a format
  byte, encrypted, and written to a sibling file that is then renamed into place.
*/
module Keystore {
  import opened Wrappers
  import opened Bytes
  import opened Postcard
  import opened Messages
  import opened Pairings

  const KEYSTORE_FORMAT_VERSION: uint8 := 2

  type Blob = b: seq<uint8> | |b| < 0x1_0000_0000_0000_0000

  datatype DeviceIdentity = DeviceIdentity(keyPkcs8: Blob, cert: Blob)

  datatype KeystoreContents = KeystoreContents(
    identity: DeviceIdentity,
    pairings: seq<PairingRecord>,
    reauthDays: uint8,
    lastAuthenticatedAt: uint64)

  datatype KeystoreContentsV1 = KeystoreContentsV1(
    identity: DeviceIdentity,
    pairings: seq<PairingRecordV1>,
    reauthDays: uint8,
    lastAuthenticatedAt: uint64)

  datatype KeystoreError =
    | Io
    | Encryption(reason: string)
    | Decode
    | FormatVersion(got: uint8, expected: uint8)

  function FromIdentity(identity: DeviceIdentity): KeystoreContents {
    KeystoreContents(identity, [], 7, 0)
  }

  function Upgrades(records: seq<PairingRecordV1>): (r: seq<PairingRecord>)
    ensures |r| == |records| && forall i :: 0 <= i < |r| ==> r[i] == records[i].Upgrade()
  {
    if records == [] then [] else [records[0].Upgrade()] + Upgrades(records[1..])
  }

  function Migrate(v1: KeystoreContentsV1): KeystoreContents {
    KeystoreContents(v1.identity, Upgrades(v1.pairings), v1.reauthDays, v1.lastAuthenticatedAt)
  }

  // ------------------------------------------------------------ plaintext

  function PutAddress(a: Option<SocketAddr>): seq<uint8> {
    match a
    case None => [0]
    case Some(V4(ip, port)) => [1, 0] + (ip + PutVarint(port))
    case Some(V6(ip, port)) => [1, 1] + (ip + PutVarint(port))
  }

  function TakeSocketAddr(s: seq<uint8>): Parsed<SocketAddr> {
    var (tag, rest) :- TakeUint32(s);
    match tag
    case 0 =>
      var (ip, r) :- TakeRaw(rest, 4);
      var (port, r') :- TakeUint16(r);
      Parsed(V4(ip, port), r')
    case 1 =>
      var (ip, r) :- TakeRaw(rest, 16);
      var (port, r') :- TakeUint16(r);
      Parsed(V6(ip, port), r')
    case _ => Failed
  }

  function TakeAddress(s: seq<uint8>): Parsed<Option<SocketAddr>> {
    var (present, rest) :- TakeBool(s);
    if !present then Parsed(None, rest)
    else
      var (a, r) :- TakeSocketAddr(rest);
      Parsed(Some(a), r)
  }

  function Downgrade(p: PairingRecord): PairingRecordV1 {
    PairingRecordV1(p.phoneName, p.clientSpki, p.pairedAt, p.lastAuthenticatedAt, p.revoked, p.revokePending)
  }

  function PutFlags(p: PairingRecordV1): seq<uint8> { PutBool(p.revoked) + PutBool(p.revokePending) }

  function PutTimes(p: PairingRecordV1): seq<uint8> { PutVarint(p.pairedAt) + PutVarint(p.lastAuthenticatedAt) }

  function PutRecordV1(p: PairingRecordV1): seq<uint8> {
    PutBlob(p.phoneName) + (p.clientSpki + (PutTimes(p) + PutFlags(p)))
  }

  function TakeRecordV1(s: seq<uint8>): Parsed<PairingRecordV1> {
    var (name, s1) :- TakeString(s);
    var (spki, s2) :- TakeRaw(s1, 32);
    var (times, s3) :- TakeTimes(s2);
    var (flags, s4) :- TakeFlags(s3);
    Parsed(PairingRecordV1(name, spki, times.0, times.1, flags.0, flags.1), s4)
  }

  function TakeTimes(s: seq<uint8>): Parsed<(uint64, uint64)> {
    var (paired, s1) :- TakeUint64(s);
    var (last, s2) :- TakeUint64(s1);
    Parsed((paired, last), s2)
  }

  function TakeFlags(s: seq<uint8>): Parsed<(bool, bool)> {
    var (revoked, s1) :- TakeBool(s);
    var (pending, s2) :- TakeBool(s1);
    Parsed((revoked, pending), s2)
  }

  function PutRecord(p: PairingRecord): seq<uint8> { PutRecordV1(Downgrade(p)) + PutAddress(p.lastKnownAddress) }

  function TakeRecord(s: seq<uint8>): Parsed<PairingRecord> {
    var (base, s1) :- TakeRecordV1(s);
    var (address, s2) :- TakeAddress(s1);
    Parsed(base.Upgrade().(lastKnownAddress := address), s2)
  }

  function PutItems<T>(put: T -> seq<uint8>, items: seq<T>): seq<uint8> {
    if items == [] then [] else put(items[0]) + PutItems(put, items[1..])
  }

  function TakeItems<T>(take: seq<uint8> -> Parsed<T>, n: nat, s: seq<uint8>): (p: Parsed<seq<T>>)
    ensures p.Parsed? ==> |p.value| == n
  {
    if n == 0 then Parsed([], s)
    else
      var (first, rest) :- take(s);
      var (others, rest') :- TakeItems(take, n - 1, rest);
      Parsed([first] + others, rest')
  }

  function PutList<T>(put: T -> seq<uint8>, items: seq<T>): seq<uint8> { PutVarint(|items|) + PutItems(put, items) }

  function TakeList<T>(take: seq<uint8> -> Parsed<T>, s: seq<uint8>): (p: Parsed<seq<T>>)
    ensures p.Parsed? ==> |p.value| < 0x1_0000_0000_0000_0000
  {
    var (n, rest) :- TakeUint64(s);
    TakeItems(take, n, rest)
  }

  function PutIdentity(id: DeviceIdentity): seq<uint8> { PutBlob(id.keyPkcs8) + PutBlob(id.cert) }

  function TakeIdentity(s: seq<uint8>): Parsed<DeviceIdentity> {
    var (key, s1) :- TakeBlob(s);
    var (cert, s2) :- TakeBlob(s1);
    Parsed(DeviceIdentity(key, cert), s2)
  }

  function PutReauth(days: uint8, last: uint64): seq<uint8> { [days] + PutVarint(last) }

  function TakeReauth(s: seq<uint8>): Parsed<(uint8, uint64)> {
    if s == [] then Failed
    else
      var (last, rest) :- TakeUint64(s[1..]);
      Parsed((s[0], last), rest)
  }

  function PutContents(k: KeystoreContents): seq<uint8> {
    PutIdentity(k.identity) + (PutList(PutRecord, k.pairings) + PutReauth(k.reauthDays, k.lastAuthenticatedAt))
  }

  function TakeContents(s: seq<uint8>): Parsed<KeystoreContents> {
    var (id, s1) :- TakeIdentity(s);
    var (pairings, s2) :- TakeList(TakeRecord, s1);
    var (reauth, s3) :- TakeReauth(s2);
    Parsed(KeystoreContents(id, pairings, reauth.0, reauth.1), s3)
  }

  function PutContentsV1(k: KeystoreContentsV1): seq<uint8> {
    PutIdentity(k.identity) + (PutList(PutRecordV1, k.pairings) + PutReauth(k.reauthDays, k.lastAuthenticatedAt))
  }

  function TakeContentsV1(s: seq<uint8>): Parsed<KeystoreContentsV1> {
    var (id, s1) :- TakeIdentity(s);
    var (pairings, s2) :- TakeList(TakeRecordV1, s1);
    var (reauth, s3) :- TakeReauth(s2);
    Parsed(KeystoreContentsV1(id, pairings, reauth.0, reauth.1), s3)
  }

  /** The plaintext a save writes. */
  function Plaintext(k: KeystoreContents): seq<uint8> { [KEYSTORE_FORMAT_VERSION] + PutContents(k) }

  /** Decodes a plaintext of either format; bytes after the value are ignored. */
  function FromPlaintext(plain: seq<uint8>): Result<KeystoreContents, KeystoreError> {
    if plain == [] then Err(Decode)
    else
      match plain[0]
      case 1 =>
        (match TakeContentsV1(plain[1..])
         case Parsed(v1, _) => Ok(Migrate(v1))
         case Failed => Err(Decode))
      case 2 =>
        (match TakeContents(plain[1..])
         case Parsed(k, _) => Ok(k)
         case Failed => Err(Decode))
      case other => Err(FormatVersion(other, KEYSTORE_FORMAT_VERSION))
  }

  // ------------------------------------------------------------ round trips

  /** The list is one a Rust vector can hold. */
  predicate Representable<T>(items: seq<T>) { |items| < 0x1_0000_0000_0000_0000 }

  lemma SocketAddrRoundTrip(addr: SocketAddr, s: seq<uint8>)
    ensures
      var tag: uint32 := if addr.V4? then 0 else 1;
      var ip: seq<uint8> := if addr.V4? then addr.ip4 else addr.ip6;
      TakeSocketAddr(PutVarint(tag) + (ip + (PutVarint(addr.port) + s))) == Parsed(addr, s)
  {
    hide TakeUint32, TakeUint16, PutVarint;
    var tag: uint32 := if addr.V4? then 0 else 1;
    var ip: seq<uint8> := if addr.V4? then addr.ip4 else addr.ip6;
    var port := PutVarint(addr.port);
    UintRoundTrip(tag, ip + (port + s));
    RawRoundTrip(ip, port + s);
    UintRoundTrip(addr.port, s);
  }

  lemma AddressRoundTrip(a: Option<SocketAddr>, s: seq<uint8>)
    ensures TakeAddress(PutAddress(a) + s) == Parsed(a, s)
  {
    hide TakeSocketAddr;
    match a
    case None =>
      assert (PutAddress(a) + s)[1..] == s;
    case Some(addr) =>
      var tag: uint32 := if addr.V4? then 0 else 1;
      var ip: seq<uint8> := if addr.V4? then addr.ip4 else addr.ip6;
      SocketAddrRoundTrip(addr, s);
      assert PutVarint(tag) == [tag];
      hide PutVarint;
      assert (PutAddress(a) + s)[1..] == [tag] + (ip + (PutVarint(addr.port) + s));
  }

  lemma TimesAndFlagsRoundTrip(p: PairingRecordV1, s: seq<uint8>)
    ensures TakeTimes(PutTimes(p) + s) == Parsed((p.pairedAt, p.lastAuthenticatedAt), s)
    ensures TakeFlags(PutFlags(p) + s) == Parsed((p.revoked, p.revokePending), s)
  {
    var last, pending := PutVarint(p.lastAuthenticatedAt), PutBool(p.revokePending);
    Associate(PutVarint(p.pairedAt), last, s);
    UintRoundTrip(p.pairedAt, last + s);
    UintRoundTrip(p.lastAuthenticatedAt, s);
    Associate(PutBool(p.revoked), pending, s);
    BoolRoundTrip(p.revoked, pending + s);
    BoolRoundTrip(p.revokePending, s);
  }

  lemma RecordV1RoundTrip(p: PairingRecordV1, s: seq<uint8>)
    ensures TakeRecordV1(PutRecordV1(p) + s) == Parsed(p, s)
  {
    hide TakeString, TakeTimes, TakeFlags, PutBlob, PutTimes, PutFlags;
    var times, flags := PutTimes(p), PutFlags(p);
    assert PutRecordV1(p) + s == PutBlob(p.phoneName) + (p.clientSpki + (times + (flags + s)));
    StringRoundTrip(p.phoneName, p.clientSpki + (times + (flags + s)));
    RawRoundTrip(p.clientSpki, times + (flags + s));
    TimesAndFlagsRoundTrip(p, flags + s);
    TimesAndFlagsRoundTrip(p, s);
  }

  lemma RecordRoundTrip(p: PairingRecord, s: seq<uint8>)
    ensures TakeRecord(PutRecord(p) + s) == Parsed(p, s)
  {
    Associate(PutRecordV1(Downgrade(p)), PutAddress(p.lastKnownAddress), s);
    RecordV1RoundTrip(Downgrade(p), PutAddress(p.lastKnownAddress) + s);
    AddressRoundTrip(p.lastKnownAddress, s);
  }

  lemma {:induction false} ItemsRoundTrip<T(!new)>(put: T -> seq<uint8>, take: seq<uint8> -> Parsed<T>, items: seq<T>, s: seq<uint8>)
    requires forall x, t: seq<uint8> :: take(put(x) + t) == Parsed(x, t)
    ensures TakeItems(take, |items|, PutItems(put, items) + s) == Parsed(items, s)
  {
    if items == [] {
      assert PutItems(put, items) + s == s;
    } else {
      ItemsRoundTrip(put, take, items[1..], s);
      Associate(put(items[0]), PutItems(put, items[1..]), s);
      assert items == [items[0]] + items[1..];
    }
  }

  lemma ListRoundTrip<T(!new)>(put: T -> seq<uint8>, take: seq<uint8> -> Parsed<T>, items: seq<T>, s: seq<uint8>)
    requires forall x, t: seq<uint8> :: take(put(x) + t) == Parsed(x, t)
    requires Representable(items)
    ensures TakeList(take, PutList(put, items) + s) == Parsed(items, s)
  {
    Associate(PutVarint(|items|), PutItems(put, items), s);
    UintRoundTrip(|items|, PutItems(put, items) + s);
    ItemsRoundTrip(put, take, items, s);
  }

  lemma IdentityRoundTrip(id: DeviceIdentity, s: seq<uint8>)
    ensures TakeIdentity(PutIdentity(id) + s) == Parsed(id, s)
  {
    Associate(PutBlob(id.keyPkcs8), PutBlob(id.cert), s);
    BlobRoundTrip(id.keyPkcs8, PutBlob(id.cert) + s);
    BlobRoundTrip(id.cert, s);
  }

  lemma ReauthRoundTrip(days: uint8, last: uint64, s: seq<uint8>)
    ensures TakeReauth(PutReauth(days, last) + s) == Parsed((days, last), s)
  {
    assert (PutReauth(days, last) + s)[1..] == PutVarint(last) + s;
    UintRoundTrip(last, s);
  }

  lemma ContentsRoundTrip(k: KeystoreContents, s: seq<uint8>)
    requires Representable(k.pairings)
    ensures TakeContents(PutContents(k) + s) == Parsed(k, s)
  {
    hide TakeIdentity, PutIdentity, TakeReauth, PutReauth, TakeList, PutList;
    var list, reauth := PutList(PutRecord, k.pairings), PutReauth(k.reauthDays, k.lastAuthenticatedAt);
    assert PutContents(k) + s == PutIdentity(k.identity) + (list + (reauth + s));
    IdentityRoundTrip(k.identity, list + (reauth + s));
    forall p, t: seq<uint8> ensures TakeRecord(PutRecord(p) + t) == Parsed(p, t) { RecordRoundTrip(p, t); }
    ListRoundTrip(PutRecord, TakeRecord, k.pairings, reauth + s);
    ReauthRoundTrip(k.reauthDays, k.lastAuthenticatedAt, s);
  }

  lemma ContentsV1RoundTrip(k: KeystoreContentsV1, s: seq<uint8>)
    requires Representable(k.pairings)
    ensures TakeContentsV1(PutContentsV1(k) + s) == Parsed(k, s)
  {
    hide TakeIdentity, PutIdentity, TakeReauth, PutReauth, TakeList, PutList;
    var list, reauth := PutList(PutRecordV1, k.pairings), PutReauth(k.reauthDays, k.lastAuthenticatedAt);
    assert PutContentsV1(k) + s == PutIdentity(k.identity) + (list + (reauth + s));
    IdentityRoundTrip(k.identity, list + (reauth + s));
    forall p, t: seq<uint8> ensures TakeRecordV1(PutRecordV1(p) + t) == Parsed(p, t) { RecordV1RoundTrip(p, t); }
    ListRoundTrip(PutRecordV1, TakeRecordV1, k.pairings, reauth + s);
    ReauthRoundTrip(k.reauthDays, k.lastAuthenticatedAt, s);
  }

  /** What is saved is what is loaded, whatever bytes follow. */
  lemma PlaintextRoundTrip(k: KeystoreContents, junk: seq<uint8>)
    requires Representable(k.pairings)
    ensures FromPlaintext(Plaintext(k) + junk) == Ok(k)
  {
    hide PutContents, TakeContents, TakeContentsV1;
    ContentsRoundTrip(k, junk);
    assert (Plaintext(k) + junk)[1..] == PutContents(k) + junk;
  }

  lemma LoadedIsRepresentable(s: seq<uint8>)
    ensures TakeContents(s).Parsed? ==> Representable(TakeContents(s).value.pairings)
    ensures TakeContentsV1(s).Parsed? ==> Representable(TakeContentsV1(s).value.pairings)
  {
    hide TakeIdentity, TakeReauth, TakeRecord, TakeRecordV1;
  }

  /** Saving anything that was ever loaded, from either format, and loading it again changes nothing. */
  lemma LoadSaveLoad(plain: seq<uint8>)
    requires FromPlaintext(plain).Ok?
    ensures FromPlaintext(Plaintext(FromPlaintext(plain).value)) == FromPlaintext(plain)
  {
    hide PutContents, TakeContents, TakeContentsV1;
    var k := FromPlaintext(plain).value;
    LoadedIsRepresentable(plain[1..]);
    PlaintextRoundTrip(k, []);
    assert Plaintext(k) + [] == Plaintext(k);
  }

  /** Record i is the first one of a format 1 list that is active and has this key. */
  predicate FirstActive(records: seq<PairingRecordV1>, spki: SpkiHash, i: nat) {
    && i < |records| && !records[i].revoked && records[i].clientSpki == spki
    && forall j :: 0 <= j < i ==> records[j].revoked || records[j].clientSpki != spki
  }

  /** A lookup after migration finds what it would have found before, or nothing if nothing was there. */
  ghost predicate SameLookup(records: seq<PairingRecordV1>, spki: SpkiHash, hit: Option<PairingRecord>) {
    match hit
    case None => forall p :: p in records ==> p.revoked || p.clientSpki != spki
    case Some(found) => exists i: nat :: FirstActive(records, spki, i) && found == records[i].Upgrade()
  }

  lemma {:induction false} UpgradeKeepsLookups(records: seq<PairingRecordV1>, spki: SpkiHash)
    ensures SameLookup(records, spki, ActivePairing(Upgrades(records), spki))
  {
    if records != [] {
      var tail := records[1..];
      UpgradeKeepsLookups(tail, spki);
      assert Upgrades(records)[1..] == Upgrades(tail);
      assert Upgrades(records)[0] == records[0].Upgrade();
      var hit := ActivePairing(Upgrades(records), spki);
      if !records[0].revoked && records[0].clientSpki == spki {
        assert FirstActive(records, spki, 0);
      } else if hit.Some? {
        var i: nat :| FirstActive(tail, spki, i) && hit.value == tail[i].Upgrade();
        assert FirstActive(records, spki, i + 1);
      } else {
        assert forall p :: p in records <==> p == records[0] || p in tail;
      }
    }
  }

  /**
    A format 1 file loads to the same records in the same order with no cached
    address; every lookup and the re-authentication inputs are unaffected.
  */
  lemma MigrationPreserves(v1: KeystoreContentsV1, junk: seq<uint8>)
    requires Representable(v1.pairings)
    ensures
      var loaded := FromPlaintext([1] + PutContentsV1(v1) + junk);
      && loaded.Ok?
      && var k := loaded.value;
      && k.identity == v1.identity
      && k.reauthDays == v1.reauthDays && k.lastAuthenticatedAt == v1.lastAuthenticatedAt
      && |k.pairings| == |v1.pairings|
      && (forall i :: 0 <= i < |k.pairings| ==>
            var p, was := k.pairings[i], v1.pairings[i];
            && p.phoneName == was.phoneName && p.clientSpki == was.clientSpki
            && p.pairedAt == was.pairedAt && p.lastAuthenticatedAt == was.lastAuthenticatedAt
            && p.revoked == was.revoked && p.revokePending == was.revokePending && p.lastKnownAddress == None)
      && (forall spki :: SameLookup(v1.pairings, spki, ActivePairing(k.pairings, spki)))
  {
    hide PutContentsV1, TakeContents, TakeContentsV1, SameLookup;
    ContentsV1RoundTrip(v1, junk);
    assert ([1] + PutContentsV1(v1) + junk)[1..] == PutContentsV1(v1) + junk;
    forall spki ensures SameLookup(v1.pairings, spki, ActivePairing(Upgrades(v1.pairings), spki)) {
      UpgradeKeepsLookups(v1.pairings, spki);
    }
  }

  // ------------------------------------------------------------------ files

  /** The platform's encryption, which this model does not look into. */
  datatype Cipher = Cipher(
    encrypt: seq<uint8> -> Result<seq<uint8>, string>,
    decrypt: seq<uint8> -> Result<seq<uint8>, string>)

  ghost predicate Inverts(c: Cipher) {
    forall plain :: c.encrypt(plain).Ok? ==> c.decrypt(c.encrypt(plain).value) == Ok(plain)
  }

  /** The keystore file and the sibling temporary file of this process. */
  datatype Disk = Disk(file: Option<seq<uint8>>, tmp: Option<seq<uint8>>)

  /** How the file system treats one save; a failed write may leave anything in the temporary file. */
  datatype SaveFault = Healthy | WriteFault(left: Option<seq<uint8>>) | RenameFault

  function Saved(c: Cipher, disk: Disk, k: KeystoreContents, fault: SaveFault): (Disk, Result<(), KeystoreError>) {
    match c.encrypt(Plaintext(k))
    case Err(reason) => (disk, Err(Encryption(reason)))
    case Ok(image) =>
      match fault
      case Healthy => (Disk(Some(image), None), Ok(()))
      case WriteFault(left) => (disk.(tmp := left), Err(Io))
      case RenameFault => (disk.(tmp := Some(image)), Err(Io))
  }

  function Loaded(c: Cipher, disk: Disk, readable: bool): Result<Option<KeystoreContents>, KeystoreError> {
    if disk.file.None? then Ok(None)
    else if !readable then Err(Io)
    else
      match c.decrypt(disk.file.value)
      case Err(reason) => Err(Encryption(reason))
      case Ok(plain) =>
        match FromPlaintext(plain)
        case Ok(k) => Ok(Some(k))
        case Err(e) => Err(e)
  }

  class FileSystem {
    var disk: Disk

    constructor (disk: Disk)
      ensures this.disk == disk
    {
      this.disk := disk;
    }

    method WriteTmp(bytes: seq<uint8>, fault: SaveFault) returns (r: Result<(), KeystoreError>)
      modifies this
      ensures disk == old(disk).(tmp := if fault.WriteFault? then fault.left else Some(bytes))
      ensures r == if fault.WriteFault? then Err(Io) else Ok(())
    {
      if fault.WriteFault? {
        disk := disk.(tmp := fault.left);
        return Err(Io);
      }
      disk := disk.(tmp := Some(bytes));
      return Ok(());
    }

    method RenameTmp(fault: SaveFault) returns (r: Result<(), KeystoreError>)
      modifies this
      ensures r == if fault.RenameFault? || old(disk).tmp.None? then Err(Io) else Ok(())
      ensures disk == if r.Ok? then Disk(old(disk).tmp, None) else old(disk)
    {
      if fault.RenameFault? || disk.tmp.None? {
        return Err(Io);
      }
      disk := Disk(disk.tmp, None);
      return Ok(());
    }
  }

  method Save(fs: FileSystem, c: Cipher, k: KeystoreContents, fault: SaveFault) returns (r: Result<(), KeystoreError>)
    modifies fs
    ensures (fs.disk, r) == Saved(c, old(fs.disk), k, fault)
  {
    var plain: seq<uint8> := [];
    plain := plain + [KEYSTORE_FORMAT_VERSION];
    plain := plain + PutContents(k);
    assert plain == Plaintext(k);
    var cipher := c.encrypt(plain);
    if cipher.Err? {
      return Err(Encryption(cipher.error));
    }
    r := fs.WriteTmp(cipher.value, fault);
    if r.Ok? {
      r := fs.RenameTmp(fault);
    }
  }

  method Load(fs: FileSystem, c: Cipher, readable: bool) returns (r: Result<Option<KeystoreContents>, KeystoreError>)
    ensures r == Loaded(c, fs.disk, readable)
  {
    if fs.disk.file.None? {
      return Ok(None);
    }
    if !readable {
      return Err(Io);
    }
    var plain := c.decrypt(fs.disk.file.value);
    if plain.Err? {
      return Err(Encryption(plain.error));
    }
    var k := FromPlaintext(plain.value);
    return if k.Ok? then Ok(Some(k.value)) else Err(k.error);
  }

  /** A save either takes full effect or leaves the keystore file as it was. */
  lemma SaveIsAtomic(c: Cipher, disk: Disk, k: KeystoreContents, fault: SaveFault)
    requires Inverts(c) && Representable(k.pairings)
    ensures
      var (after, r) := Saved(c, disk, k, fault);
      if r.Ok? then Loaded(c, after, true) == Ok(Some(k)) && after.tmp == None else after.file == disk.file
  {
    hide PutContents, TakeContents, TakeContentsV1;
    PlaintextRoundTrip(k, []);
    assert Plaintext(k) + [] == Plaintext(k);
  }

  /** When a save succeeds, what it then leaves, and what each failure leaves. */
  lemma SaveByFault(c: Cipher, disk: Disk, k: KeystoreContents, fault: SaveFault)
    ensures Saved(c, disk, k, fault).1.Ok? <==> c.encrypt(Plaintext(k)).Ok? && fault.Healthy?
    ensures c.encrypt(Plaintext(k)).Ok? && fault.Healthy? ==>
              Saved(c, disk, k, fault).0 == Disk(Some(c.encrypt(Plaintext(k)).value), None)
    ensures c.encrypt(Plaintext(k)).Err? ==> Saved(c, disk, k, fault) == (disk, Err(Encryption(c.encrypt(Plaintext(k)).error)))
    ensures c.encrypt(Plaintext(k)).Ok? && !fault.Healthy? ==>
              var (after, r) := Saved(c, disk, k, fault);
              && r == Err(Io) && after.file == disk.file
              && after.tmp == if fault.WriteFault? then fault.left else Some(c.encrypt(Plaintext(k)).value)
  {
    hide Plaintext;
  }

  /**
    What each file loads as. Only a file that is not there counts as no
    keystore: one that cannot be read, decrypted or decoded, or is of another
    format, is an error of its own kind.
  */
  lemma LoadByFile(c: Cipher, disk: Disk, readable: bool)
    ensures Loaded(c, disk, readable) == Ok(None) <==> disk.file.None?
    ensures disk.file.Some? && !readable ==> Loaded(c, disk, readable) == Err(Io)
    ensures disk.file.Some? && readable ==>
              match c.decrypt(disk.file.value)
              case Err(reason) => Loaded(c, disk, readable) == Err(Encryption(reason))
              case Ok(plain) =>
                && (plain == [] ==> Loaded(c, disk, readable) == Err(Decode))
                && (plain != [] && plain[0] !in {1, 2} ==> Loaded(c, disk, readable) == Err(FormatVersion(plain[0], 2)))
                && (plain != [] && plain[0] == 1 && TakeContentsV1(plain[1..]).Failed? ==> Loaded(c, disk, readable) == Err(Decode))
                && (plain != [] && plain[0] == 2 && TakeContents(plain[1..]).Failed? ==> Loaded(c, disk, readable) == Err(Decode))
  {
    hide TakeContents, TakeContentsV1;
  }

  /** A new keystore: nobody paired, seven days, never authenticated. */
  lemma NewKeystore(identity: DeviceIdentity)
    ensures FromIdentity(identity) == KeystoreContents(identity, [], 7, 0)
  {
  }

  // ---------------------------------------------------------------- vectors

  function VectorRecord(spki: SpkiHash, address: Option<SocketAddr>): PairingRecord {
    PairingRecord([0x61], spki, 1000, 1001, true, false, address)
  }

  /** A record of format 1, byte for byte: name, key, both times, both flags. */
  lemma FrozenRecordV1(spki: SpkiHash)
    ensures PutRecordV1(Downgrade(VectorRecord(spki, None))) == [0x01, 0x61] + spki + [0xE8, 0x07, 0xE9, 0x07, 0x01, 0x00]
  {
    SmallVarints();
    hide PutVarint;
    var p := Downgrade(VectorRecord(spki, None));
    assert PutTimes(p) == [0xE8, 0x07, 0xE9, 0x07] && PutFlags(p) == [0x01, 0x00] && PutBlob(p.phoneName) == [0x01, 0x61];
    hide PutTimes, PutFlags, PutBlob;
    assert PutRecordV1(p) == [0x01, 0x61] + (spki + ([0xE8, 0x07, 0xE9, 0x07] + [0x01, 0x00]));
  }

  /** The current format adds the address: absent, or its kind, its bytes and its port. */
  lemma FrozenRecord(spki: SpkiHash)
    ensures PutRecord(VectorRecord(spki, None)) == [0x01, 0x61] + spki + [0xE8, 0x07, 0xE9, 0x07, 0x01, 0x00] + [0x00]
    ensures PutRecord(VectorRecord(spki, Some(V4([192, 168, 1, 42], 51_820)))) ==
            [0x01, 0x61] + spki + [0xE8, 0x07, 0xE9, 0x07, 0x01, 0x00] + [0x01, 0x00, 192, 168, 1, 42, 0xEC, 0x94, 0x03]
  {
    FrozenRecordV1(spki);
    SmallVarints();
    hide PutVarint, PutRecordV1;
    assert PutAddress(Some(V4([192, 168, 1, 42], 51_820))) == [0x01, 0x00, 192, 168, 1, 42, 0xEC, 0x94, 0x03];
  }

  lemma FrozenV6(ip: Ipv6)
    ensures PutAddress(Some(V6(ip, 7))) == [0x01, 0x01] + ip + [0x07]
  {
  }

  lemma SmallVarints()
    ensures PutVarint(1000) == [0xE8, 0x07] && PutVarint(1001) == [0xE9, 0x07]
    ensures PutVarint(51_820) == [0xEC, 0x94, 0x03]
    ensures forall n :: 0 <= n < 128 ==> PutVarint(n) == [n]
  {
    assert PutVarint(404) == [0x94, 0x03];
  }

  /** A whole keystore file before encryption, in the current format. */
  lemma FrozenKeystore(spki: SpkiHash)
    ensures Plaintext(KeystoreContents(DeviceIdentity([0xAA], [0xBB, 0xCC]), [VectorRecord(spki, None)], 30, 5)) ==
            [0x02] + ([0x01, 0xAA, 0x02, 0xBB, 0xCC] + (([0x01] + PutRecord(VectorRecord(spki, None))) + [0x1E, 0x05]))
  {
    SmallVarints();
    hide PutRecord, PutVarint;
    var r := VectorRecord(spki, None);
    assert PutItems(PutRecord, [r]) == PutRecord(r) by {
      assert [r][1..] == [];
    }
    assert PutIdentity(DeviceIdentity([0xAA], [0xBB, 0xCC])) == [0x01, 0xAA, 0x02, 0xBB, 0xCC];
  }
}
