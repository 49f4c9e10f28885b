/** The local commands that edit the keystore file. */
module Admin {
  import opened Wrappers
  import opened Bytes
  import opened Postcard
  import opened Messages
  import opened Pairings
  import opened Keystore

  datatype AdminError = NoKeystore | KeystoreFailed(error: KeystoreError) | NoSuchPairing

  function MarkRevoked(p: PairingRecord): PairingRecord { p.(revoked := true, revokePending := true) }

  predicate Matches(p: PairingRecord, name: Option<Utf8String>) { name.None? || p.phoneName == name.value }

  /** Marks the records with this name, or every record when no name is given. */
  function Marked(pairings: seq<PairingRecord>, name: Option<Utf8String>): (r: seq<PairingRecord>)
    ensures |r| == |pairings|
    ensures forall i :: 0 <= i < |r| ==>
              r[i] == if Matches(pairings[i], name) then MarkRevoked(pairings[i]) else pairings[i]
  {
    if pairings == [] then []
    else [if Matches(pairings[0], name) then MarkRevoked(pairings[0]) else pairings[0]] + Marked(pairings[1..], name)
  }

  predicate AnyMatches(pairings: seq<PairingRecord>, name: Option<Utf8String>) {
    exists i :: 0 <= i < |pairings| && Matches(pairings[i], name)
  }

  /** The three edits of the local commands. */
  datatype Edit = RevokeNamed(name: Utf8String) | RevokeAll | ReauthAt(now: uint64)

  function Apply(k: KeystoreContents, edit: Edit): Result<KeystoreContents, AdminError> {
    match edit
    case RevokeNamed(name) =>
      if AnyMatches(k.pairings, Some(name)) then Ok(k.(pairings := Marked(k.pairings, Some(name)))) else Err(NoSuchPairing)
    case RevokeAll => Ok(k.(pairings := Marked(k.pairings, None)))
    case ReauthAt(now) => Ok(k.(lastAuthenticatedAt := now))
  }

  /** Revoking sets the two flags of a record and nothing else. */
  lemma RevokedFields(p: PairingRecord)
    ensures MarkRevoked(p).revoked && MarkRevoked(p).revokePending
    ensures MarkRevoked(p).(revoked := p.revoked, revokePending := p.revokePending) == p
  {
  }

  /** What each command makes of the records: all of that name, all, or none; and which fail. */
  lemma EditsByRecord(k: KeystoreContents, name: Utf8String, now: uint64)
    ensures Apply(k, RevokeNamed(name)).Ok? <==> exists p :: p in k.pairings && p.phoneName == name
    ensures Apply(k, RevokeNamed(name)).Err? ==> Apply(k, RevokeNamed(name)) == Err(NoSuchPairing)
    ensures Apply(k, RevokeNamed(name)).Ok? ==>
              var k' := Apply(k, RevokeNamed(name)).value;
              && k' == k.(pairings := k'.pairings) && |k'.pairings| == |k.pairings|
              && forall i :: 0 <= i < |k.pairings| ==>
                   k'.pairings[i] == if k.pairings[i].phoneName == name then MarkRevoked(k.pairings[i]) else k.pairings[i]
    ensures Apply(k, RevokeAll).Ok?
    ensures
      var k' := Apply(k, RevokeAll).value;
      && k' == k.(pairings := k'.pairings) && |k'.pairings| == |k.pairings|
      && forall i :: 0 <= i < |k.pairings| ==> k'.pairings[i] == MarkRevoked(k.pairings[i])
    ensures Apply(k, ReauthAt(now)) ==
            Ok(KeystoreContents(k.identity, k.pairings, k.reauthDays, now))
  {
    if p :| p in k.pairings && p.phoneName == name {
      var i :| 0 <= i < |k.pairings| && k.pairings[i] == p;
      assert Matches(k.pairings[i], Some(name));
    }
  }

  /** Loads the keystore, which must exist, applies an edit, and saves. */
  function Edited(c: Cipher, disk: Disk, readable: bool, edit: Edit, fault: SaveFault)
    : (Disk, Result<(), AdminError>)
  {
    match Loaded(c, disk, readable)
    case Err(e) => (disk, Err(KeystoreFailed(e)))
    case Ok(None) => (disk, Err(NoKeystore))
    case Ok(Some(k)) =>
      match Apply(k, edit)
      case Err(e) => (disk, Err(e))
      case Ok(k') =>
        var (after, r) := Saved(c, disk, k', fault);
        (after, match r case Ok(_) => Ok(()) case Err(e) => Err(KeystoreFailed(e)))
  }

  /** A command succeeds iff there is a keystore it can load, it applies, and it is saved; each failure is told apart and leaves the file. */
  lemma EditByOutcome(c: Cipher, disk: Disk, readable: bool, edit: Edit, fault: SaveFault)
    ensures
      var (after, r) := Edited(c, disk, readable, edit, fault);
      match Loaded(c, disk, readable)
      case Err(e) => after == disk && r == Err(KeystoreFailed(e))
      case Ok(None) => after == disk && r == Err(NoKeystore)
      case Ok(Some(k)) =>
        if Apply(k, edit).Err? then after == disk && r == Err(NoSuchPairing)
        else
          var (saved, s) := Saved(c, disk, Apply(k, edit).value, fault);
          && after == saved && (r.Ok? <==> s.Ok?) && (r.Err? ==> after.file == disk.file)
  {
    hide Loaded, Plaintext;
  }

  method RequireKeystore(fs: FileSystem, c: Cipher, readable: bool) returns (r: Result<KeystoreContents, AdminError>)
    ensures r == match Loaded(c, fs.disk, readable)
                 case Err(e) => Err(KeystoreFailed(e))
                 case Ok(None) => Err(NoKeystore)
                 case Ok(Some(k)) => Ok(k)
  {
    var loaded := Load(fs, c, readable);
    if loaded.Err? {
      return Err(KeystoreFailed(loaded.error));
    }
    return if loaded.value.None? then Err(NoKeystore) else Ok(loaded.value.value);
  }

  method SaveEdited(fs: FileSystem, c: Cipher, k: KeystoreContents, fault: SaveFault) returns (r: Result<(), AdminError>)
    modifies fs
    ensures fs.disk == Saved(c, old(fs.disk), k, fault).0
    ensures r == match Saved(c, old(fs.disk), k, fault).1 case Ok(_) => Ok(()) case Err(e) => Err(KeystoreFailed(e))
  {
    var saved := Save(fs, c, k, fault);
    return if saved.Ok? then Ok(()) else Err(KeystoreFailed(saved.error));
  }

  /** Marks records in place, reporting whether any matched. */
  method MarkLoop(before: seq<PairingRecord>, name: Option<Utf8String>) returns (pairings: seq<PairingRecord>, found: bool)
    ensures pairings == Marked(before, name)
    ensures found <==> AnyMatches(before, name)
  {
    hide Marked, MarkRevoked, Matches;
    pairings, found := before, false;
    var i := 0;
    while i < |pairings|
      invariant i <= |pairings| == |before|
      invariant forall j :: i <= j < |before| ==> pairings[j] == before[j]
      invariant forall j :: 0 <= j < i ==> pairings[j] == Marked(before, name)[j]
      invariant found <==> exists j :: 0 <= j < i && Matches(before[j], name)
    {
      if Matches(pairings[i], name) {
        pairings := pairings[i := MarkRevoked(pairings[i])];
        found := true;
      }
      i := i + 1;
    }
    assert pairings == Marked(before, name);
  }

  method Revoke(fs: FileSystem, c: Cipher, readable: bool, name: Utf8String, fault: SaveFault) returns (r: Result<(), AdminError>)
    modifies fs
    ensures (fs.disk, r) == Edited(c, old(fs.disk), readable, RevokeNamed(name), fault)
  {
    hide Loaded, Saved, Marked, AnyMatches;
    var k := RequireKeystore(fs, c, readable);
    if k.Err? {
      return Err(k.error);
    }
    var pairings, found := MarkLoop(k.value.pairings, Some(name));
    if !found {
      return Err(NoSuchPairing);
    }
    r := SaveEdited(fs, c, k.value.(pairings := pairings), fault);
  }

  method UninstallRevokeBroadcast(fs: FileSystem, c: Cipher, readable: bool, fault: SaveFault) returns (r: Result<(), AdminError>)
    modifies fs
    ensures (fs.disk, r) == Edited(c, old(fs.disk), readable, RevokeAll, fault)
  {
    hide Loaded, Saved, Marked;
    var k := RequireKeystore(fs, c, readable);
    if k.Err? {
      return Err(k.error);
    }
    var pairings, _ := MarkLoop(k.value.pairings, None);
    r := SaveEdited(fs, c, k.value.(pairings := pairings), fault);
  }

  method ReauthNow(fs: FileSystem, c: Cipher, readable: bool, now: uint64, fault: SaveFault) returns (r: Result<(), AdminError>)
    modifies fs
    ensures (fs.disk, r) == Edited(c, old(fs.disk), readable, ReauthAt(now), fault)
  {
    var k := RequireKeystore(fs, c, readable);
    if k.Err? {
      return Err(k.error);
    }
    r := SaveEdited(fs, c, k.value.(lastAuthenticatedAt := now), fault);
  }

  /** A key is still pinned after marking exactly when one of its active records was not marked. */
  lemma {:induction false} MarkingUnpins(pairings: seq<PairingRecord>, name: Option<Utf8String>, spki: SpkiHash)
    ensures spki in PinSet(Marked(pairings, name)) <==>
            exists p :: p in pairings && p.IsActive() && p.clientSpki == spki && !Matches(p, name)
  {
    if pairings != [] {
      MarkingUnpins(pairings[1..], name, spki);
      assert Marked(pairings, name)[1..] == Marked(pairings[1..], name);
      assert forall p :: p in pairings <==> p == pairings[0] || p in pairings[1..];
    }
  }

  /** Marking pins nothing new. */
  lemma MarkingPinsLess(pairings: seq<PairingRecord>, name: Option<Utf8String>)
    ensures PinSet(Marked(pairings, name)) <= PinSet(pairings)
  {
    hide PinSet;
    forall spki | spki in PinSet(Marked(pairings, name)) ensures spki in PinSet(pairings) {
      MarkingUnpins(pairings, name, spki);
      PinnedIffActive(pairings, spki);
    }
  }

  lemma MarkingKeepsKeys(pairings: seq<PairingRecord>, name: Option<Utf8String>)
    requires DistinctSpkis(pairings)
    ensures DistinctSpkis(Marked(pairings, name))
  {
    var marked := Marked(pairings, name);
    assert forall i :: 0 <= i < |marked| ==> marked[i].clientSpki == pairings[i].clientSpki;
  }
}
