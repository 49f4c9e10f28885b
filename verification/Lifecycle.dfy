/**
  The keystore file over any sequence of commands, run one after the other:
  pairing windows, local edits, and server runs with any interleaving inside.
*/
module Lifecycle {
  import opened Wrappers
  import opened Bytes
  import opened Messages
  import opened Pairings
  import opened Keystore
  import opened Admin
  import opened PairingFlow
  import opened PairingDurability
  import I = Interleaving
  import H = Handshake
  import R = Reauth

  datatype Command =
    | PairPhone(startup: Startup, arrivals: seq<Arrival>)
    | EditKeystore(readable: bool, edit: Edit, fault: SaveFault)
    | Serve(readable: bool, steps: seq<I.Step>, torn: seq<uint8>)

  /** The file holds the contents a server run left, encrypted; or, if what it left is not whole, just any bytes. */
  function FileAfter(c: Cipher, disk: Disk, before: KeystoreContents, after: I.Image, torn: seq<uint8>): Disk {
    if !after.whole then disk.(file := Some(torn))
    else if after.contents == before then disk
    else match c.encrypt(Plaintext(after.contents))
         case Ok(image) => disk.(file := Some(image))
         case Err(_) => disk
  }

  function Executed(c: Cipher, disk: Disk, cmd: Command): Disk {
    match cmd
    case PairPhone(startup, arrivals) =>
      (match Opened(c, disk, startup)
       case Err(_) => disk
       case Ok(fl) => Looped(c, fl, arrivals).0.disk)
    case EditKeystore(readable, edit, fault) => Edited(c, disk, readable, edit, fault).0
    case Serve(readable, steps, torn) =>
      match Loaded(c, disk, readable)
      case Ok(Some(k)) => FileAfter(c, disk, k, I.Run(I.Start(k), steps).disk, torn)
      case _ => disk
  }

  function AllExecuted(c: Cipher, disk: Disk, cmds: seq<Command>): Disk
    decreases |cmds|
  {
    if cmds == [] then disk else AllExecuted(c, Executed(c, disk, cmds[0]), cmds[1..])
  }

  /** A pairing window in which this key succeeded, whether or not the save did. */
  predicate Pairs(c: Cipher, disk: Disk, cmd: Command, spki: SpkiHash) {
    match cmd
    case PairPhone(startup, arrivals) =>
      (match Opened(c, disk, startup)
       case Err(_) => false
       case Ok(fl) =>
         var state := Looped(c, fl, arrivals).0.handshake;
         state.Paired? && state.record.clientSpki == spki)
    case _ => false
  }

  predicate NeverPairs(c: Cipher, disk: Disk, cmds: seq<Command>, spki: SpkiHash)
    decreases |cmds|
  {
    cmds == [] || (!Pairs(c, disk, cmds[0], spki) && NeverPairs(c, Executed(c, disk, cmds[0]), cmds[1..], spki))
  }

  /** A server run that ends with a broken write in place of the keystore file. */
  predicate Tears(c: Cipher, disk: Disk, cmd: Command) {
    match cmd
    case Serve(readable, steps, _) =>
      (match Loaded(c, disk, readable)
       case Ok(Some(k)) => !I.Run(I.Start(k), steps).disk.whole
       case _ => false)
    case _ => false
  }

  predicate NeverTears(c: Cipher, disk: Disk, cmds: seq<Command>)
    decreases |cmds|
  {
    cmds == [] || (!Tears(c, disk, cmds[0]) && NeverTears(c, Executed(c, disk, cmds[0]), cmds[1..]))
  }

  predicate Proper(k: KeystoreContents, n: nat) {
    DistinctSpkis(k.pairings) && R.KnownInterval(k.reauthDays) && |k.pairings| <= n
  }

  ghost predicate ProperFile(c: Cipher, disk: Disk, n: nat) {
    match Loaded(c, disk, true)
    case Ok(None) => true
    case Ok(Some(k)) => Proper(k, n)
    case Err(_) => false
  }

  // ------------------------------------------------------------ server runs

  lemma {:induction false} RemainingIsDistinct(pairings: seq<PairingRecord>, acked: set<SpkiHash>)
    ensures |I.Remaining(pairings, acked)| <= |pairings|
    ensures forall p :: p in I.Remaining(pairings, acked) ==> exists q :: q in pairings && q.clientSpki == p.clientSpki
    ensures DistinctSpkis(pairings) ==> DistinctSpkis(I.Remaining(pairings, acked))
  {
    if pairings != [] {
      var tail := pairings[1..];
      RemainingIsDistinct(tail, acked);
      assert pairings == [pairings[0]] + tail;
      DistinctCons(pairings[0], tail);
      DistinctCons(I.Erased(pairings[0]), I.Remaining(tail, acked));
      forall p | p in I.Remaining(tail, acked) ensures exists q :: q in pairings && q.clientSpki == p.clientSpki {
        var q :| q in tail && q.clientSpki == p.clientSpki;
        assert q in pairings;
      }
      assert pairings[0] in pairings;
    }
  }

  lemma {:induction false} DistinctUnlessErased(pairings: seq<PairingRecord>)
    ensures |I.Remaining(pairings, {})| == |pairings|
    ensures forall i :: 0 <= i < |pairings| ==> I.Remaining(pairings, {})[i] == I.Erased(pairings[i])
  {
    if pairings != [] {
      DistinctUnlessErased(pairings[1..]);
    }
  }

  /** Whatever a server run makes of proper contents is as proper, with the same identity and pins. */
  lemma DescendantIsProper(k: KeystoreContents, k': KeystoreContents, acked: set<SpkiHash>, n: nat)
    requires Proper(k, n) && I.Descends(k, k', acked)
    ensures Proper(k', n) && PinSet(k'.pairings) == PinSet(k.pairings) && k'.identity == k.identity
  {
    I.DescendantsKeepPins(k, k', acked);
    RemainingIsDistinct(k.pairings, acked);
    DistinctUnlessErased(k'.pairings);
    var left := I.Remaining(k'.pairings, {});
    assert forall i :: 0 <= i < |k'.pairings| ==> left[i].clientSpki == k'.pairings[i].clientSpki;
    forall i, j | 0 <= i < j < |k'.pairings| ensures k'.pairings[i].clientSpki != k'.pairings[j].clientSpki {
      assert left[i].clientSpki != left[j].clientSpki;
    }
  }

  /** What a server run leaves in the file is as proper as what it found, with the same identity and pins. */
  lemma ServeKeepsProper(k: KeystoreContents, steps: seq<I.Step>, n: nat)
    requires Proper(k, n)
    ensures
      var k' := I.Run(I.Start(k), steps).disk.contents;
      Proper(k', n) && PinSet(k'.pairings) == PinSet(k.pairings) && k'.identity == k.identity
  {
    hide I.Run, I.Descends, Proper, PinSet;
    I.ServerRun(k, steps);
    var w := I.Run(I.Start(k), steps);
    var acked :| acked <= w.acked && I.Descends(k, w.disk.contents, acked);
    DescendantIsProper(k, w.disk.contents, acked, n);
  }

  // --------------------------------------------------------------- commands

  /** What one command can do to proper contents, when it is saved. */
  ghost predicate Evolves(k: KeystoreContents, k': KeystoreContents, n: nat, gained: set<SpkiHash>) {
    Proper(k', n + 1) && PinSet(k'.pairings) <= PinSet(k.pairings) + gained && k'.identity == k.identity
  }

  lemma SavedOrNot(c: Cipher, disk: Disk, k: KeystoreContents, fault: SaveFault)
    requires Inverts(c) && Representable(k.pairings)
    ensures
      var after := Saved(c, disk, k, fault).0;
      Loaded(c, after, true) == Loaded(c, disk, true) || Loaded(c, after, true) == Ok(Some(k))
  {
    hide Plaintext, FromPlaintext;
    SaveIsAtomic(c, disk, k, fault);
  }

  lemma EditEvolves(k: KeystoreContents, edit: Edit, n: nat)
    requires Proper(k, n) && Apply(k, edit).Ok?
    ensures Evolves(k, Apply(k, edit).value, n, {})
  {
    hide PinSet;
    if !edit.ReauthAt? {
      var name := if edit.RevokeNamed? then Some(edit.name) else None;
      MarkingPinsLess(k.pairings, name);
      MarkingKeepsKeys(k.pairings, name);
    }
  }

  lemma PairingEvolves(k: KeystoreContents, p: H.NewPairing, n: nat)
    requires Proper(k, n)
    ensures Evolves(k, Replaced(k, p), n, {p.clientSpki})
  {
    hide PinSet;
    OthersAreFewer(k.pairings, p.clientSpki);
    ReplacedPins(k, p, p.clientSpki);
    forall spki | spki in PinSet(Replaced(k, p).pairings) ensures spki in PinSet(k.pairings) + {p.clientSpki} {
      ReplacedPins(k, p, spki);
    }
  }

  ghost predicate FileEvolves(c: Cipher, disk: Disk, after: Disk, n: nat, gained: set<SpkiHash>) {
    match Loaded(c, disk, true)
    case Ok(Some(k)) =>
      Loaded(c, after, true).Ok? && Loaded(c, after, true).value.Some? && Evolves(k, Loaded(c, after, true).value.value, n, gained)
    case _ => ProperFile(c, after, n + 1)
  }

  lemma StayingEvolves(c: Cipher, disk: Disk, after: Disk, n: nat, gained: set<SpkiHash>)
    requires ProperFile(c, disk, n) && Loaded(c, after, true) == Loaded(c, disk, true)
    ensures FileEvolves(c, disk, after, n, gained)
  {
    hide Loaded;
  }

  /** A load that succeeds tells what the file holds. */
  lemma LoadTells(c: Cipher, disk: Disk, readable: bool)
    requires Loaded(c, disk, readable).Ok?
    ensures Loaded(c, disk, true) == Loaded(c, disk, readable)
  {
  }

  lemma SavingEvolves(c: Cipher, disk: Disk, k: KeystoreContents, k': KeystoreContents, fault: SaveFault, n: nat, gained: set<SpkiHash>)
    requires Inverts(c) && ProperFile(c, disk, n) && n < U64_MAX && Evolves(k, k', n, gained)
    requires Loaded(c, disk, true) == Ok(Some(k)) || Loaded(c, disk, true) == Ok(None)
    ensures FileEvolves(c, disk, Saved(c, disk, k', fault).0, n, gained)
  {
    hide Loaded, Saved;
    SavedOrNot(c, disk, k', fault);
    if Loaded(c, Saved(c, disk, k', fault).0, true) == Loaded(c, disk, true) {
      StayingEvolves(c, disk, Saved(c, disk, k', fault).0, n, gained);
    }
  }

  lemma EditCommandEvolves(c: Cipher, disk: Disk, readable: bool, edit: Edit, fault: SaveFault, n: nat)
    requires Inverts(c) && ProperFile(c, disk, n) && n < U64_MAX
    ensures FileEvolves(c, disk, Edited(c, disk, readable, edit, fault).0, n, {})
  {
    hide Loaded, Saved, FileEvolves;
    StayingEvolves(c, disk, disk, n, {});
    match Loaded(c, disk, readable)
    case Ok(Some(k)) =>
      LoadTells(c, disk, readable);
      if Apply(k, edit).Ok? {
        EditEvolves(k, edit, n);
        SavingEvolves(c, disk, k, Apply(k, edit).value, fault, n, {});
      }
    case _ =>
  }

  lemma ServeCommandEvolves(c: Cipher, disk: Disk, cmd: Command, n: nat)
    requires Inverts(c) && ProperFile(c, disk, n) && n < U64_MAX
    requires cmd.Serve? && !Tears(c, disk, cmd)
    ensures FileEvolves(c, disk, Executed(c, disk, cmd), n, {})
  {
    hide FileEvolves, I.Run, Plaintext, FromPlaintext;
    StayingEvolves(c, disk, disk, n, {});
    match Loaded(c, disk, cmd.readable)
    case Ok(Some(k)) =>
      LoadTells(c, disk, cmd.readable);
      var left := I.Run(I.Start(k), cmd.steps).disk;
      ServeKeepsProper(k, cmd.steps, n);
      SavingEvolves(c, disk, k, left.contents, Healthy, n, {});
      if left.contents != k && c.encrypt(Plaintext(left.contents)).Ok? {
        SameFile(c, disk, FileAfter(c, disk, k, left, cmd.torn), Saved(c, disk, left.contents, Healthy).0, n, {});
      }
    case _ =>
  }

  lemma SameFile(c: Cipher, disk: Disk, one: Disk, other: Disk, n: nat, gained: set<SpkiHash>)
    requires one.file == other.file && FileEvolves(c, disk, other, n, gained)
    ensures FileEvolves(c, disk, one, n, gained)
  {
    assert Loaded(c, one, true) == Loaded(c, other, true);
    hide Loaded;
  }

  lemma PairCommandEvolves(c: Cipher, disk: Disk, cmd: Command, n: nat) returns (gained: set<SpkiHash>)
    requires Inverts(c) && ProperFile(c, disk, n) && n < U64_MAX && cmd.PairPhone?
    ensures forall spki :: spki in gained ==> Pairs(c, disk, cmd, spki)
    ensures FileEvolves(c, disk, Executed(c, disk, cmd), n, gained)
  {
    hide FileEvolves, Looped, Loaded, Saved, Replaced;
    gained := {};
    StayingEvolves(c, disk, disk, n, {});
    var start := Opened(c, disk, cmd.startup);
    if start.Ok? {
      LoadTells(c, disk, cmd.startup.readable);
      var fl := start.value;
      LoopKeeps(c, fl, fl, cmd.arrivals);
      var f := Looped(c, fl, cmd.arrivals).0;
      if f.handshake.Paired? {
        gained := {f.handshake.record.clientSpki};
        var fault :| f.disk == Saved(c, disk, f.contents, fault).0;
        assert Proper(fl.contents, n) by { ContentsAreProper(c, disk, fl.contents, n); }
        PairingEvolves(fl.contents, f.handshake.record, n);
        SavingEvolves(c, disk, fl.contents, f.contents, fault, n, gained);
      }
    }
  }

  lemma ContentsAreProper(c: Cipher, disk: Disk, k: KeystoreContents, n: nat)
    requires ProperFile(c, disk, n)
    requires Loaded(c, disk, true) == Ok(Some(k)) || (Loaded(c, disk, true) == Ok(None) && k == FromIdentity(k.identity))
    ensures Proper(k, n)
  {
    hide Loaded;
  }

  lemma CommandEvolves(c: Cipher, disk: Disk, cmd: Command, n: nat) returns (gained: set<SpkiHash>)
    requires Inverts(c) && ProperFile(c, disk, n) && n < U64_MAX && !Tears(c, disk, cmd)
    ensures forall spki :: spki in gained ==> Pairs(c, disk, cmd, spki)
    ensures FileEvolves(c, disk, Executed(c, disk, cmd), n, gained)
  {
    hide FileEvolves, Pairs, Edited, Looped, Tears;
    gained := {};
    match cmd
    case PairPhone(_, _) => gained := PairCommandEvolves(c, disk, cmd, n);
    case EditKeystore(readable, edit, fault) => EditCommandEvolves(c, disk, readable, edit, fault, n);
    case Serve(_, _, _) => ServeCommandEvolves(c, disk, cmd, n);
  }

  /** A server run leaves in the file what its last rename moved, if that is whole and was encrypted. */
  lemma ServeLeavesItsFile(c: Cipher, disk: Disk, k: KeystoreContents, steps: seq<I.Step>, torn: seq<uint8>)
    requires Inverts(c) && Loaded(c, disk, true) == Ok(Some(k))
    requires
      var left := I.Run(I.Start(k), steps).disk;
      left.whole && Representable(left.contents.pairings) && c.encrypt(Plaintext(left.contents)).Ok?
    ensures Loaded(c, Executed(c, disk, Serve(true, steps, torn)), true) == Ok(Some(I.Run(I.Start(k), steps).disk.contents))
  {
    hide I.Run, Plaintext, FromPlaintext;
    var left := I.Run(I.Start(k), steps).disk.contents;
    PlaintextRoundTrip(left, []);
    assert Plaintext(left) + [] == Plaintext(left);
  }

  /** A local edit that applies and is saved is what the next load finds. */
  lemma EditIsCarriedOut(c: Cipher, disk: Disk, k: KeystoreContents, edit: Edit)
    requires Inverts(c) && Loaded(c, disk, true) == Ok(Some(k)) && Apply(k, edit).Ok? && Representable(k.pairings)
    requires c.encrypt(Plaintext(Apply(k, edit).value)).Ok?
    ensures Loaded(c, Executed(c, disk, EditKeystore(true, edit, Healthy)), true) == Ok(Some(Apply(k, edit).value))
  {
    hide Loaded, Plaintext;
    SaveIsAtomic(c, disk, Apply(k, edit).value, Healthy);
    SaveByFault(c, disk, Apply(k, edit).value, Healthy);
  }

  /** And so is what a pairing command that reports success has accepted. */
  lemma PairingIsCarriedOut(c: Cipher, disk: Disk, startup: Startup, arrivals: seq<Arrival>)
    requires Inverts(c) && Opened(c, disk, startup).Ok?
    requires |Opened(c, disk, startup).value.contents.pairings| < U64_MAX
    requires Looped(c, Opened(c, disk, startup).value, arrivals).1.PairingDone?
    ensures
      var f := Looped(c, Opened(c, disk, startup).value, arrivals).0;
      && f.handshake.Paired?
      && Loaded(c, Executed(c, disk, PairPhone(startup, arrivals)), true) == Ok(Some(f.contents))
  {
    hide Loaded, Looped, H.SampledCode, Others;
    PairOnceDurability(c, Opened(c, disk, startup).value, arrivals);
  }

  // ------------------------------------------------------------ whole histories

  /**
    From a fresh machine, after any commands with any failures, short of a
    server moving a broken write of its own into place: the file is absent or loads to records with distinct keys and a re-authentication
    interval that is one of the four offered.
  */
  lemma {:induction false} FileStaysProper(c: Cipher, disk: Disk, cmds: seq<Command>, n: nat)
    requires Inverts(c) && ProperFile(c, disk, n) && n + |cmds| <= U64_MAX && NeverTears(c, disk, cmds)
    ensures ProperFile(c, AllExecuted(c, disk, cmds), n + |cmds|)
    decreases |cmds|
  {
    hide Executed, Loaded, Proper, Tears;
    if cmds != [] {
      var gained := CommandEvolves(c, disk, cmds[0], n);
      FileStaysProper(c, Executed(c, disk, cmds[0]), cmds[1..], n + 1);
    }
  }

  lemma FreshMachine(c: Cipher, cmds: seq<Command>)
    requires Inverts(c) && |cmds| <= U64_MAX && NeverTears(c, Disk(None, None), cmds)
    ensures ProperFile(c, AllExecuted(c, Disk(None, None), cmds), |cmds|)
  {
    hide AllExecuted, NeverTears;
    FileStaysProper(c, Disk(None, None), cmds, 0);
  }

  /** Once there is a keystore, its device identity is permanent. */
  lemma {:induction false} IdentityIsPermanent(c: Cipher, disk: Disk, k: KeystoreContents, cmds: seq<Command>, n: nat)
    requires Inverts(c) && ProperFile(c, disk, n) && n + |cmds| <= U64_MAX && NeverTears(c, disk, cmds)
    requires Loaded(c, disk, true) == Ok(Some(k))
    ensures
      var after := Loaded(c, AllExecuted(c, disk, cmds), true);
      after.Ok? && after.value.Some? && after.value.value.identity == k.identity
    decreases |cmds|
  {
    hide Executed, Loaded, Proper, PinSet, Tears;
    if cmds != [] {
      var gained := CommandEvolves(c, disk, cmds[0], n);
      var after := Executed(c, disk, cmds[0]);
      IdentityIsPermanent(c, after, Loaded(c, after, true).value.value, cmds[1..], n + 1);
    }
  }

  /** The file loads, and the key is not pinned by it or by any server started from it. */
  ghost predicate ShutOut(c: Cipher, disk: Disk, spki: SpkiHash) {
    match Loaded(c, disk, true)
    case Ok(Some(k)) =>
      spki !in PinSet(k.pairings) && forall steps :: spki !in PinSet(I.Run(I.Start(k), steps).memory.pairings)
    case _ => false
  }

  lemma UnpinnedIsShutOut(c: Cipher, disk: Disk, k: KeystoreContents, spki: SpkiHash)
    requires Loaded(c, disk, true) == Ok(Some(k)) && spki !in PinSet(k.pairings)
    ensures ShutOut(c, disk, spki)
  {
    hide Loaded, I.Run;
    forall steps ensures spki !in PinSet(I.Run(I.Start(k), steps).memory.pairings) {
      I.ServerRun(k, steps);
    }
  }

  /** A key that is shut out stays shut out until a pairing window in which it succeeds. */
  lemma {:induction false} ShutOutPersists(c: Cipher, disk: Disk, cmds: seq<Command>, spki: SpkiHash, n: nat)
    requires Inverts(c) && ProperFile(c, disk, n) && n + |cmds| <= U64_MAX
    requires ShutOut(c, disk, spki) && NeverPairs(c, disk, cmds, spki) && NeverTears(c, disk, cmds)
    ensures ShutOut(c, AllExecuted(c, disk, cmds), spki)
    decreases |cmds|
  {
    hide Executed, Loaded, Proper, PinSet, I.Run, Pairs, Tears;
    if cmds != [] {
      var gained := CommandEvolves(c, disk, cmds[0], n);
      var after := Executed(c, disk, cmds[0]);
      UnpinnedIsShutOut(c, after, Loaded(c, after, true).value.value, spki);
      ShutOutPersists(c, after, cmds[1..], spki, n + 1);
    }
  }

  /**
    A revoked phone: once revoking its name has been saved, its key is absent
    from every pin set of every later server run, through any later commands,
    until a pairing window in which that same key succeeds; again short of a
    server moving a broken write into place.
  */
  lemma RevocationHolds(c: Cipher, disk: Disk, k: KeystoreContents, p: PairingRecord, fault: SaveFault, cmds: seq<Command>, n: nat)
    requires Inverts(c) && ProperFile(c, disk, n) && n + 1 + |cmds| <= U64_MAX
    requires Loaded(c, disk, true) == Ok(Some(k)) && p in k.pairings
    requires Edited(c, disk, true, RevokeNamed(p.phoneName), fault).1.Ok?
    requires NeverPairs(c, Edited(c, disk, true, RevokeNamed(p.phoneName), fault).0, cmds, p.clientSpki)
    requires NeverTears(c, Edited(c, disk, true, RevokeNamed(p.phoneName), fault).0, cmds)
    ensures ShutOut(c, AllExecuted(c, Edited(c, disk, true, RevokeNamed(p.phoneName), fault).0, cmds), p.clientSpki)
  {
    hide Loaded, PinSet, NeverPairs, NeverTears, AllExecuted, ShutOut, Plaintext;
    var after := Edited(c, disk, true, RevokeNamed(p.phoneName), fault).0;
    var k' := k.(pairings := Marked(k.pairings, Some(p.phoneName)));
    EditCommandEvolves(c, disk, true, RevokeNamed(p.phoneName), fault, n);
    SaveIsAtomic(c, disk, k', fault);
    OneRecordPerKey(k.pairings, p);
    MarkingUnpins(k.pairings, Some(p.phoneName), p.clientSpki);
    UnpinnedIsShutOut(c, after, k', p.clientSpki);
    ShutOutPersists(c, after, cmds, p.clientSpki, n + 1);
  }

  lemma OneRecordPerKey(pairings: seq<PairingRecord>, p: PairingRecord)
    requires DistinctSpkis(pairings) && p in pairings
    ensures forall q :: q in pairings && q.clientSpki == p.clientSpki ==> q == p
  {
    var i :| 0 <= i < |pairings| && pairings[i] == p;
    forall q | q in pairings && q.clientSpki == p.clientSpki ensures q == p {
      var j :| 0 <= j < |pairings| && pairings[j] == q;
      assert i == j;
    }
  }
}
