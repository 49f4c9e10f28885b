/**
  Local commands beside a running server. The server keeps its memory and every
  save of its own writes all of it; each local command is a process of its own
  that reads the keystore file, changes what it read, and puts the result back.
*/
module Alongside {
  import opened Wrappers
  import opened Bytes
  import opened Messages
  import opened Pairings
  import opened Keystore
  import opened SharedState
  import opened Admin
  import Postcard
  import PairingFlow
  import PairingDurability
  import I = Interleaving
  import H = Handshake
  import L = Lifecycle
  import R = Reauth

  /** What a local command makes of the contents it read. */
  datatype Change = Edited(edit: Edit) | Paired(phone: H.NewPairing)

  function Changed(k: KeystoreContents, change: Change): Option<KeystoreContents> {
    match change
    case Edited(edit) => (match Apply(k, edit) case Ok(k') => Some(k') case Err(_) => None)
    case Paired(phone) => Some(PairingFlow.Replaced(k, phone))
  }

  /**
    The server, whose file is the keystore file, and what each local command
    under way has read. A pairing window gets no further than binding its
    listener unless `pairBinds`: both it and the server bind the configured
    address, so beside a listening server it has to be given another.
  */
  datatype Machine = Machine(server: I.World, read: map<nat, KeystoreContents>, pairBinds: bool) {
    /** What this store puts in the file, if the command gets that far. */
    function Stored(pid: nat, change: Change, ok: bool): Option<KeystoreContents> {
      if pid in read && ok && (change.Paired? ==> pairBinds) then Changed(read[pid], change) else None
    }
  }

  datatype Event =
    | Server(step: I.Step)
    | Load(pid: nat)
    | Store(pid: nat, change: Change, ok: bool)

  function Start(k: KeystoreContents, pairBinds: bool): Machine { Machine(I.Start(k), map[], pairBinds) }

  /** One event; a command that cannot read the file, refuses its change or fails to save leaves the file alone. */
  function Next(m: Machine, e: Event): Machine {
    match e
    case Server(step) => m.(server := I.Next(m.server, step))
    case Load(pid) =>
      if pid in m.read || !m.server.disk.whole then m else m.(read := m.read[pid := m.server.disk.contents])
    case Store(pid, change, ok) =>
      var done := m.(read := m.read - {pid});
      match m.Stored(pid, change, ok)
      case None => done
      case Some(k) => done.(server := m.server.(disk := I.Image(k, 0, true)))
  }

  function Run(m: Machine, events: seq<Event>): Machine
    decreases |events|
  {
    if events == [] then m else Run(Next(m, events[0]), events[1..])
  }

  function ServerSteps(events: seq<Event>): seq<I.Step> {
    if events == [] then []
    else if events[0].Server? then [events[0].step] + ServerSteps(events[1..])
    else ServerSteps(events[1..])
  }

  lemma RunInTwo(m: Machine, first: seq<Event>, second: seq<Event>)
    ensures Run(m, first + second) == Run(Run(m, first), second)
    decreases |first|
  {
    hide Next;
    if first == [] {
      assert first + second == second;
    } else {
      assert (first + second)[1..] == first[1..] + second;
      RunInTwo(Next(m, first[0]), first[1..], second);
    }
  }

  lemma RunOfNothing(m: Machine)
    ensures Run(m, []) == m
  {
  }

  lemma LastEvent(m: Machine, events: seq<Event>)
    requires events != []
    ensures Run(m, events) == Next(Run(m, events[..|events| - 1]), events[|events| - 1])
  {
    hide Next;
    var front, e := events[..|events| - 1], events[|events| - 1];
    RunInTwo(m, front, [e]);
    assert events == front + [e] && [e][1..] == [];
  }

  // ------------------------------------------- what the server never notices

  /** The server never reads the file again: a step does the same whatever the file holds, and only a rename replaces it. */
  lemma StepIgnoresFile(w: I.World, step: I.Step, d: I.Image)
    ensures I.Next(w.(disk := d), step) == I.Next(w, step).(disk := if I.Renames(w, step) then w.tmp.value else d)
    ensures I.Next(w, step).disk == if I.Renames(w, step) then w.tmp.value else w.disk
  {
    hide PinSet, ActivePairing, WithAddress, WithoutRevoked;
  }

  lemma {:induction false} ServerIsApart(m: Machine, events: seq<Event>, d: I.Image)
    ensures Run(m, events).server.(disk := d) == I.Run(m.server, ServerSteps(events)).(disk := d)
    decreases |events|
  {
    hide I.Next;
    if events != [] {
      var m' := Next(m, events[0]);
      ServerIsApart(m', events[1..], d);
      if !events[0].Server? {
        RunsIgnoreFile(m.server, m'.server, ServerSteps(events[1..]), d);
      }
    }
  }

  lemma {:induction false} RunsIgnoreFile(w: I.World, w': I.World, steps: seq<I.Step>, d: I.Image)
    requires w' == w.(disk := w'.disk)
    ensures I.Run(w', steps).(disk := d) == I.Run(w, steps).(disk := d)
    decreases |steps|
  {
    hide I.Next;
    if steps != [] {
      StepIgnoresFile(w, steps[0], w'.disk);
      RunsIgnoreFile(I.Next(w, steps[0]), I.Next(w', steps[0]), steps[1..], d);
    }
  }

  /**
    A running server is untouched by any number of local commands: its memory,
    connections and temporary file are those of the same run without them. So
    it keeps every key active at its start pinned, and no other.
  */
  lemma RunningServerKeepsPins(k0: KeystoreContents, pairBinds: bool, events: seq<Event>)
    ensures
      var w, alone := Run(Start(k0, pairBinds), events).server, I.Run(I.Start(k0), ServerSteps(events));
      && w == alone.(disk := w.disk)
      && ActiveSpkis(w.memory.pairings) == ActiveSpkis(k0.pairings)
      && PinSet(w.memory.pairings) == PinSet(k0.pairings)
      && (forall p :: p in k0.pairings && p.IsActive() ==> p.clientSpki in PinSet(w.memory.pairings))
      && (forall id :: id in w.conns ==> !w.conns[id].phase.TurnedAway?)
  {
    hide I.Run, Run, ServerSteps, PinSet, ActiveSpkis;
    ServerIsApart(Start(k0, pairBinds), events, I.Start(k0).disk);
    var w := Run(Start(k0, pairBinds), events).server;
    ServerIsApart(Start(k0, pairBinds), events, w.disk);
    I.ServerRun(k0, ServerSteps(events));
    SameActiveSamePins(k0.pairings, w.memory.pairings);
    forall p | p in k0.pairings && p.IsActive() ensures p.clientSpki in PinSet(w.memory.pairings) {
      PinnedIffActive(k0.pairings, p.clientSpki);
    }
  }

  lemma SameActiveSamePins(one: seq<PairingRecord>, other: seq<PairingRecord>)
    requires ActiveSpkis(one) == ActiveSpkis(other)
    ensures PinSet(one) == PinSet(other)
  {
    hide ActiveSpkis;
  }

  /** The server's part of the invariant of its runs, which says nothing about the file. */
  ghost predicate SafeButFile(w: I.World, k0: KeystoreContents) { I.Safe(w.(disk := w.Current()), k0) }

  lemma StepStaysSafe(w: I.World, step: I.Step, k0: KeystoreContents)
    requires SafeButFile(w, k0)
    ensures SafeButFile(I.Next(w, step), k0)
  {
    hide I.Next, I.Renames;
    I.StepIsSafe(w.(disk := w.Current()), step, k0);
    StepIgnoresFile(w, step, w.Current());
    hide I.Descends, I.Reached, I.ProperPhase, PinSet;
  }

  lemma {:induction false} RunStaysSafe(w: I.World, steps: seq<I.Step>, k0: KeystoreContents)
    requires SafeButFile(w, k0)
    ensures SafeButFile(I.Run(w, steps), k0)
    decreases |steps|
  {
    hide I.Next, SafeButFile;
    if steps != [] {
      StepStaysSafe(w, steps[0], k0);
      RunStaysSafe(I.Next(w, steps[0]), steps[1..], k0);
    }
  }

  lemma MachineIsSafe(k0: KeystoreContents, pairBinds: bool, events: seq<Event>)
    ensures SafeButFile(Run(Start(k0, pairBinds), events).server, k0)
  {
    hide I.Run, Run, ServerSteps, I.Safe;
    var w, alone := Run(Start(k0, pairBinds), events).server, I.Run(I.Start(k0), ServerSteps(events));
    ServerIsApart(Start(k0, pairBinds), events, w.Current());
    I.StartIsSafe(k0);
    assert I.Start(k0).(disk := I.Start(k0).Current()) == I.Start(k0);
    RunStaysSafe(I.Start(k0), ServerSteps(events), k0);
    assert w.(disk := w.Current()) == alone.(disk := alone.Current());
  }

  lemma RemembersPins(w: I.World, k0: KeystoreContents, image: I.Image)
    requires SafeButFile(w, k0) && I.Remembered(image, w.history)
    ensures PinSet(image.contents.pairings) == PinSet(k0.pairings)
  {
    hide I.Descends, I.ProperPhase, PinSet;
    assert w.history[image.version - 1] in w.history && I.Reached(k0, image.contents, w.acked);
    var some :| some <= w.acked && I.Descends(k0, image.contents, some);
    I.DescendantsKeepPins(k0, image.contents, some);
  }

  // --------------------------------------------------- the last write decides

  /** This event puts something in place of the keystore file. */
  predicate Writes(m: Machine, e: Event) {
    match e
    case Server(step) => I.Renames(m.server, step)
    case Load(_) => false
    case Store(pid, change, ok) => m.Stored(pid, change, ok).Some?
  }

  function Written(m: Machine, e: Event): I.Image
    requires Writes(m, e)
  {
    if e.Server? then m.server.tmp.value else I.Image(m.Stored(e.pid, e.change, e.ok).value, 0, true)
  }

  predicate LastWrite(m: Machine, events: seq<Event>, i: nat) {
    && i < |events| && Writes(Run(m, events[..i]), events[i])
    && forall j :: i < j < |events| ==> !Writes(Run(m, events[..j]), events[j])
  }

  lemma OnlyWritesTouchTheFile(m: Machine, e: Event)
    ensures Next(m, e).server.disk == if Writes(m, e) then Written(m, e) else m.server.disk
  {
    hide I.Next, I.Renames, Changed;
    if e.Server? {
      StepIgnoresFile(m.server, e.step, m.server.disk);
    }
  }

  /** The keystore file is what the last write put there, whoever made it, or what was there if there was none. */
  lemma {:induction false} LastWriteDecides(m: Machine, events: seq<Event>)
    ensures forall i: nat :: LastWrite(m, events, i) ==>
              Run(m, events).server.disk == Written(Run(m, events[..i]), events[i])
    ensures (forall i: nat :: !LastWrite(m, events, i)) ==> Run(m, events).server.disk == m.server.disk
    decreases |events|
  {
    hide Next, Writes, Written, Run;
    if events == [] {
      assert Run(m, events) == m by { RunOfNothing(m); }
    } else {
      var n := |events| - 1;
      var front := events[..n];
      var before := Run(m, front);
      LastWriteDecides(m, front);
      LastEvent(m, events);
      OnlyWritesTouchTheFile(before, events[n]);
      forall j | 0 <= j <= n ensures events[..j] == front[..j] {}
      if Writes(before, events[n]) {
        assert LastWrite(m, events, n);
        forall i: nat | LastWrite(m, events, i) ensures i == n {}
      } else {
        forall i: nat ensures LastWrite(m, events, i) <==> LastWrite(m, front, i) {}
      }
    }
  }

  /** The change takes this record's key out of the pin set. */
  predicate Revokes(change: Change, p: PairingRecord) {
    match change
    case Edited(RevokeNamed(name)) => p.phoneName == name
    case Edited(RevokeAll) => true
    case _ => false
  }

  /** What a write pins: the server's, what the server started with; a command's, the phone it pairs and what it read and did not revoke. */
  predicate WritePins(m: Machine, e: Event, k0: KeystoreContents, spki: SpkiHash)
    requires Writes(m, e)
  {
    match e
    case Server(_) => m.server.tmp.value.whole && spki in PinSet(k0.pairings)
    case Store(pid, change, _) =>
      || (change.Paired? && change.phone.clientSpki == spki)
      || exists p :: p in m.read[pid].pairings && p.IsActive() && p.clientSpki == spki && !Revokes(change, p)
  }

  /** The file can be loaded, and a server started from it would pin the key. */
  predicate FilePins(w: I.World, spki: SpkiHash) { w.disk.whole && spki in PinSet(w.disk.contents.pairings) }

  lemma ChangePins(k: KeystoreContents, change: Change, spki: SpkiHash)
    requires Changed(k, change).Some?
    ensures spki in PinSet(Changed(k, change).value.pairings) <==>
            || (change.Paired? && change.phone.clientSpki == spki)
            || exists p :: p in k.pairings && p.IsActive() && p.clientSpki == spki && !Revokes(change, p)
  {
    hide PinSet;
    PinnedIffActive(k.pairings, spki);
    match change
    case Paired(phone) => PairingDurability.ReplacedPins(k, phone, spki);
    case Edited(RevokeNamed(name)) => MarkingUnpins(k.pairings, Some(name), spki);
    case Edited(RevokeAll) => MarkingUnpins(k.pairings, None, spki);
    case Edited(ReauthAt(_)) =>
  }

  lemma WrittenPins(m: Machine, e: Event, k0: KeystoreContents, spki: SpkiHash)
    requires SafeButFile(m.server, k0) && Writes(m, e)
    ensures Written(m, e).whole && spki in PinSet(Written(m, e).contents.pairings) <==> WritePins(m, e, k0, spki)
  {
    hide PinSet, Changed, Revokes, I.Descends, I.Reached, I.ProperPhase;
    match e
    case Server(_) => RemembersPins(m.server, k0, m.server.tmp.value);
    case Store(pid, change, _) => ChangePins(m.read[pid], change, spki);
  }

  /**
    Whether the file pins a key after any overlap of local commands and server
    is decided by the last write alone: by what the server started with if the
    server made it, and by what the command had read and did to it if a command
    made it; and with no write nothing has changed.
  */
  lemma LastWritePinsIff(k0: KeystoreContents, pairBinds: bool, before: seq<Event>, after: seq<Event>, spki: SpkiHash)
    ensures
      var m := Run(Start(k0, pairBinds), before);
      var m' := Run(m, after);
      && (forall i: nat :: LastWrite(m, after, i) ==>
            (FilePins(m'.server, spki) <==> WritePins(Run(m, after[..i]), after[i], k0, spki)))
      && ((forall i: nat :: !LastWrite(m, after, i)) ==> (FilePins(m'.server, spki) <==> FilePins(m.server, spki)))
  {
    hide Run, Writes, Written, WritePins, SafeButFile, PinSet;
    var m := Run(Start(k0, pairBinds), before);
    LastWriteDecides(m, after);
    forall i: nat | LastWrite(m, after, i)
      ensures FilePins(Run(m, after).server, spki) <==> WritePins(Run(m, after[..i]), after[i], k0, spki)
    {
      RunInTwo(Start(k0, pairBinds), before, after[..i]);
      MachineIsSafe(k0, pairBinds, before + after[..i]);
      WrittenPins(Run(m, after[..i]), after[i], k0, spki);
    }
  }

  /** The key is in no pin set of any later server started from this file, whatever runs beside it. */
  ghost predicate StaysOut(w: I.World, spki: SpkiHash) {
    w.disk.whole ==>
      forall pairBinds, events :: spki !in PinSet(Run(Start(w.disk.contents, pairBinds), events).server.memory.pairings)
  }

  lemma StaysOutIff(w: I.World, spki: SpkiHash)
    ensures StaysOut(w, spki) <==> !FilePins(w, spki)
  {
    hide Run, PinSet;
    var k := w.disk.contents;
    forall pairBinds, events ensures PinSet(Run(Start(k, pairBinds), events).server.memory.pairings) == PinSet(k.pairings) {
      RunningServerKeepsPins(k, pairBinds, events);
    }
    assert PinSet(Run(Start(k, true), []).server.memory.pairings) == PinSet(k.pairings);
  }

  /**
    A revocation takes hold from the next start exactly when the last write of
    the file after it, if there is one, is neither a completed save of a server
    that started with the key nor made by a command that had read it unrevoked.
  */
  lemma RevocationSurvivesIff(k0: KeystoreContents, pairBinds: bool, before: seq<Event>, after: seq<Event>, spki: SpkiHash)
    requires StaysOut(Run(Start(k0, pairBinds), before).server, spki)
    ensures
      var m := Run(Start(k0, pairBinds), before);
      StaysOut(Run(m, after).server, spki) <==>
      forall i: nat :: LastWrite(m, after, i) ==> !WritePins(Run(m, after[..i]), after[i], k0, spki)
  {
    hide Run, LastWrite, WritePins, StaysOut, FilePins;
    var m := Run(Start(k0, pairBinds), before);
    StaysOutIff(m.server, spki);
    StaysOutIff(Run(m, after).server, spki);
    LastWritePinsIff(k0, pairBinds, before, after, spki);
  }

  /** And a phone the file knows is still known at the next start exactly when that last write pins it. */
  lemma PairingSurvivesIff(k0: KeystoreContents, pairBinds: bool, before: seq<Event>, after: seq<Event>, spki: SpkiHash)
    requires FilePins(Run(Start(k0, pairBinds), before).server, spki)
    ensures
      var m := Run(Start(k0, pairBinds), before);
      FilePins(Run(m, after).server, spki) <==>
      forall i: nat :: LastWrite(m, after, i) ==> WritePins(Run(m, after[..i]), after[i], k0, spki)
  {
    hide Run, LastWrite, WritePins, FilePins;
    LastWritePinsIff(k0, pairBinds, before, after, spki);
  }

  // ----------------------------------------------------------------- inputs

  function FromServer(steps: seq<I.Step>): seq<Event> {
    if steps == [] then [] else [Server(steps[0])] + FromServer(steps[1..])
  }

  lemma {:induction false} ServerAlone(m: Machine, steps: seq<I.Step>)
    ensures Run(m, FromServer(steps)) == m.(server := I.Run(m.server, steps))
    decreases |steps|
  {
    hide I.Next;
    if steps != [] {
      ServerAlone(m.(server := I.Next(m.server, steps[0])), steps[1..]);
    }
  }

  /** One command from its load to its store. */
  function Command(pid: nat, change: Change): seq<Event> { [Load(pid), Store(pid, change, true)] }

  /** A phone connects; then one local command runs. */
  function ChangedBeside(peer: SpkiHash, addr: SocketAddr, change: Change): seq<Event> {
    FromServer(I.ConnectSteps(0, peer, addr)) + Command(1, change)
  }

  /** The connected phone sets the interval, and the server saves that. */
  function IntervalSteps(interval: ReauthInterval): seq<I.Step> {
    [I.Configure(0, interval), I.Snapshot(0), I.WriteTmp(0, I.Wrote), I.Rename(0, true)]
  }

  lemma CommandStores(m: Machine, pid: nat, change: Change)
    requires pid !in m.read && m.server.disk.whole && (change.Paired? ==> m.pairBinds)
    requires Changed(m.server.disk.contents, change).Some?
    ensures Run(m, Command(pid, change)) ==
            m.(server := m.server.(disk := I.Image(Changed(m.server.disk.contents, change).value, 0, true)))
  {
    hide Changed;
    var events := Command(pid, change);
    var loaded := Next(m, events[0]);
    assert loaded.read[pid] == m.server.disk.contents && loaded.read - {pid} == m.read;
    assert events[1..][1..] == [];
    assert Run(m, events) == Run(loaded, events[1..]) == Run(Next(loaded, events[1]), []);
  }

  lemma IntervalIsSaved(w: I.World, interval: ReauthInterval)
    requires w.At(0, I.Ready)
    ensures
      var w' := I.Run(w, IntervalSteps(interval));
      w'.disk.whole && w'.disk.contents == WithInterval(w.memory, interval)
  {
    hide I.Next;
    var s := IntervalSteps(interval);
    var w2 := I.ChangeAndSnapshot(w, 0, interval);
    var w4 := I.WriteAndRename(w2, 0);
    I.RunTwo(w, s);
    I.RunTwo(w2, s[2..]);
    assert s[2..][2..] == [];
  }

  /**
    Whatever one command makes of the file while a phone is connected, one
    interval change that the server then saves brings back what it started with.
  */
  lemma IntervalChangeRestores(k0: KeystoreContents, pairBinds: bool, peer: SpkiHash, addr: SocketAddr, change: Change, interval: ReauthInterval)
    requires peer in PinSet(k0.pairings) && (change.Paired? ==> pairBinds)
    requires Changed(k0.(pairings := WithAddress(k0.pairings, peer, addr).0), change).Some?
    ensures
      var read := k0.(pairings := WithAddress(k0.pairings, peer, addr).0);
      var w := Run(Start(k0, pairBinds), ChangedBeside(peer, addr, change)).server;
      var w' := I.Run(w, IntervalSteps(interval));
      && w.disk == I.Image(Changed(read, change).value, 0, true)
      && w'.disk.whole && PinSet(w'.disk.contents.pairings) == PinSet(k0.pairings)
  {
    hide I.Run, I.Next, I.ConnectSteps, Run, PinSet, WithAddress, Changed, Command;
    var connected := Start(k0, pairBinds).(server := I.Run(I.Start(k0), I.ConnectSteps(0, peer, addr)));
    I.PinnedPeersConnect(k0, 0, peer, addr);
    ServerAlone(Start(k0, pairBinds), I.ConnectSteps(0, peer, addr));
    RunInTwo(Start(k0, pairBinds), FromServer(I.ConnectSteps(0, peer, addr)), Command(1, change));
    CommandStores(connected, 1, change);
    RunningServerKeepsPins(k0, pairBinds, ChangedBeside(peer, addr, change));
    IntervalIsSaved(Run(Start(k0, pairBinds), ChangedBeside(peer, addr, change)).server, interval);
  }

  lemma MovedIsStillThere(pairings: seq<PairingRecord>, p: PairingRecord, spki: SpkiHash, addr: SocketAddr)
    requires DistinctSpkis(pairings) && p in pairings
    ensures DistinctSpkis(WithAddress(pairings, spki, addr).0)
    ensures Moved(p, spki, addr) in WithAddress(pairings, spki, addr).0
  {
    hide WithAddress;
    AddressUpdateIsTargeted(pairings, spki, addr);
    var i :| 0 <= i < |pairings| && pairings[i] == p;
    assert WithAddress(pairings, spki, addr).0[i] == Moved(p, spki, addr);
  }

  lemma RevokedIsUnpinned(k: KeystoreContents, name: Postcard.Utf8String, spki: SpkiHash)
    requires DistinctSpkis(k.pairings)
    requires exists q :: q in k.pairings && q.clientSpki == spki && q.phoneName == name
    ensures
      var k' := Changed(k, Edited(RevokeNamed(name)));
      k'.Some? && spki !in PinSet(k'.value.pairings)
  {
    hide PinSet, Marked;
    var q :| q in k.pairings && q.clientSpki == spki && q.phoneName == name;
    L.OneRecordPerKey(k.pairings, q);
    MarkingUnpins(k.pairings, Some(name), spki);
    var i :| 0 <= i < |k.pairings| && k.pairings[i] == q;
    assert Matches(k.pairings[i], Some(name));
  }

  /**
    The server undoes a revocation: whichever phone is connected, whichever
    active phone is then revoked by a command that succeeds, one interval change
    saved by the server and every later server admits the revoked phone again.
  */
  lemma RevocationIsUndone(k0: KeystoreContents, pairBinds: bool, p: PairingRecord, peer: SpkiHash, addr: SocketAddr, interval: ReauthInterval)
    requires DistinctSpkis(k0.pairings) && p in k0.pairings && p.IsActive() && peer in PinSet(k0.pairings)
    ensures
      var w := Run(Start(k0, pairBinds), ChangedBeside(peer, addr, Edited(RevokeNamed(p.phoneName)))).server;
      StaysOut(w, p.clientSpki) && !StaysOut(I.Run(w, IntervalSteps(interval)), p.clientSpki)
  {
    hide I.Run, Run, PinSet, StaysOut, WithAddress, Changed;
    var change := Edited(RevokeNamed(p.phoneName));
    MovedIsStillThere(k0.pairings, p, peer, addr);
    RevokedIsUnpinned(k0.(pairings := WithAddress(k0.pairings, peer, addr).0), p.phoneName, p.clientSpki);
    IntervalChangeRestores(k0, pairBinds, peer, addr, change, interval);
    PinnedIffActive(k0.pairings, p.clientSpki);
    var w := Run(Start(k0, pairBinds), ChangedBeside(peer, addr, change)).server;
    StaysOutIff(w, p.clientSpki);
    StaysOutIff(I.Run(w, IntervalSteps(interval)), p.clientSpki);
  }

  /** And a pairing made at an address of its own: the phone is in the file, and after the same save no later server knows it. */
  lemma PairingIsUndone(k0: KeystoreContents, phone: H.NewPairing, peer: SpkiHash, addr: SocketAddr, interval: ReauthInterval)
    requires peer in PinSet(k0.pairings) && phone.clientSpki !in PinSet(k0.pairings)
    ensures
      var w := Run(Start(k0, true), ChangedBeside(peer, addr, Paired(phone))).server;
      FilePins(w, phone.clientSpki) && StaysOut(I.Run(w, IntervalSteps(interval)), phone.clientSpki)
  {
    hide I.Run, Run, PinSet, StaysOut, WithAddress, PairingFlow.Replaced;
    IntervalChangeRestores(k0, true, peer, addr, Paired(phone), interval);
    PairingDurability.ReplacedPins(k0.(pairings := WithAddress(k0.pairings, peer, addr).0), phone, phone.clientSpki);
    var w := Run(Start(k0, true), ChangedBeside(peer, addr, Paired(phone))).server;
    StaysOutIff(I.Run(w, IntervalSteps(interval)), phone.clientSpki);
  }

  /** With no address of its own, a pairing never gets into the file. */
  lemma NoPairingOnTheSameAddress(m: Machine, pid: nat, phone: H.NewPairing, ok: bool)
    requires !m.pairBinds
    ensures Next(m, Store(pid, Paired(phone), ok)).server == m.server
  {
  }

  /**
    Another command undoes a revocation too, with no server step at all: one
    that had read the file before, such as a pairing window opened before the
    revocation, unless it revokes that phone itself.
  */
  lemma RevocationIsOverwritten(k0: KeystoreContents, pairBinds: bool, p: PairingRecord, change: Change)
    requires DistinctSpkis(k0.pairings) && p in k0.pairings && p.IsActive()
    requires Changed(k0, change).Some? && !Revokes(change, p) && (change.Paired? ==> pairBinds)
    ensures
      var m := Run(Start(k0, pairBinds), [Load(1)] + Command(2, Edited(RevokeNamed(p.phoneName))));
      StaysOut(m.server, p.clientSpki) && !StaysOut(Run(m, [Store(1, change, true)]).server, p.clientSpki)
  {
    hide Run, PinSet, StaysOut, Changed, Command, Revokes;
    var loaded := Start(k0, pairBinds).(read := map[1 := k0]);
    assert Run(Start(k0, pairBinds), [Load(1)]) == loaded by { RunOfOne(Start(k0, pairBinds), Load(1)); }
    RunInTwo(Start(k0, pairBinds), [Load(1)], Command(2, Edited(RevokeNamed(p.phoneName))));
    RevokedIsUnpinned(k0, p.phoneName, p.clientSpki);
    CommandStores(loaded, 2, Edited(RevokeNamed(p.phoneName)));
    var m := Run(Start(k0, pairBinds), [Load(1)] + Command(2, Edited(RevokeNamed(p.phoneName))));
    ChangePins(k0, change, p.clientSpki);
    RunOfOne(m, Store(1, change, true));
    StaysOutIff(m.server, p.clientSpki);
    StaysOutIff(Run(m, [Store(1, change, true)]).server, p.clientSpki);
  }

  lemma RunOfOne(m: Machine, e: Event)
    ensures Run(m, [e]) == Next(m, e)
  {
    assert [e][1..] == [];
  }

  // --------------------------------------------- any commands, any overlap

  /** The key is pinned neither by the file nor by anything a command under way has read. */
  predicate Unpinned(m: Machine, spki: SpkiHash) {
    !FilePins(m.server, spki) && forall pid :: pid in m.read ==> spki !in PinSet(m.read[pid].pairings)
  }

  predicate Restores(m: Machine, e: Event, spki: SpkiHash) {
    match e
    case Server(step) => I.Renames(m.server, step) && m.server.tmp.value.whole
    case Load(_) => false
    case Store(pid, change, ok) => m.Stored(pid, change, ok).Some? && change.Paired? && change.phone.clientSpki == spki
  }

  predicate NeverRestored(m: Machine, events: seq<Event>, spki: SpkiHash)
    decreases |events|
  {
    events == [] || (!Restores(m, events[0], spki) && NeverRestored(Next(m, events[0]), events[1..], spki))
  }

  function Gained(change: Change): set<SpkiHash> { if change.Paired? then {change.phone.clientSpki} else {} }

  /** A change pins no key but the phone it pairs, and keeps what every reader relies on. */
  lemma ChangeGains(k: KeystoreContents, change: Change)
    requires Changed(k, change).Some?
    ensures
      var k' := Changed(k, change).value;
      && PinSet(k'.pairings) <= PinSet(k.pairings) + Gained(change)
      && (DistinctSpkis(k.pairings) ==> DistinctSpkis(k'.pairings))
      && k'.identity == k.identity && k'.reauthDays == k.reauthDays
  {
    hide PinSet, Changed, Revokes;
    forall spki | spki in PinSet(Changed(k, change).value.pairings) ensures spki in PinSet(k.pairings) + Gained(change) {
      ChangePins(k, change, spki);
      PinnedIffActive(k.pairings, spki);
    }
    ChangeKeepsKeys(k, change);
  }

  lemma ChangeKeepsKeys(k: KeystoreContents, change: Change)
    requires Changed(k, change).Some?
    ensures
      var k' := Changed(k, change).value;
      && (DistinctSpkis(k.pairings) ==> DistinctSpkis(k'.pairings))
      && k'.identity == k.identity && k'.reauthDays == k.reauthDays
  {
    hide PinSet, Marked;
    match change
    case Paired(phone) => PairingDurability.ReplacedPins(k, phone, phone.clientSpki);
    case Edited(RevokeNamed(name)) =>
      if DistinctSpkis(k.pairings) { MarkingKeepsKeys(k.pairings, Some(name)); }
    case Edited(RevokeAll) =>
      if DistinctSpkis(k.pairings) { MarkingKeepsKeys(k.pairings, None); }
    case Edited(ReauthAt(_)) =>
  }

  /**
    A key that neither the file nor any command under way pins stays out of the
    file, through any overlap of local commands and server, until the server
    renames a completed save of its own or a pairing of that key is stored.
  */
  lemma {:induction false} ShutOutBeside(m: Machine, events: seq<Event>, spki: SpkiHash)
    requires Unpinned(m, spki) && NeverRestored(m, events, spki)
    ensures Unpinned(Run(m, events), spki)
    decreases |events|
  {
    hide I.Next, Changed, PinSet, I.Renames;
    if events != [] {
      var m' := Next(m, events[0]);
      match events[0] {
        case Server(step) => StepIgnoresFile(m.server, step, m.server.disk);
        case Load(_) =>
        case Store(pid, change, ok) =>
          if m.Stored(pid, change, ok).Some? {
            ChangeGains(m.read[pid], change);
          }
      }
      ShutOutBeside(m', events[1..], spki);
    }
  }

  /** Keys a pairing was stored for. */
  function AllGained(events: seq<Event>, pairBinds: bool): set<SpkiHash> {
    if events == [] then {}
    else (if events[0].Store? && events[0].ok && pairBinds then Gained(events[0].change) else {}) + AllGained(events[1..], pairBinds)
  }

  /** Distinct keys, a known interval, the identity of the start, and no key pinned that was neither pinned then nor paired since. */
  predicate Sound(k: KeystoreContents, k0: KeystoreContents, gained: set<SpkiHash>) {
    && DistinctSpkis(k.pairings) && R.KnownInterval(k.reauthDays) && k.identity == k0.identity
    && PinSet(k.pairings) <= PinSet(k0.pairings) + gained
  }

  ghost predicate AllSound(m: Machine, k0: KeystoreContents, gained: set<SpkiHash>) {
    && SafeButFile(m.server, k0) && Sound(m.server.disk.contents, k0, gained)
    && forall pid :: pid in m.read ==> Sound(m.read[pid], k0, gained)
  }

  lemma RememberedIsSound(w: I.World, k0: KeystoreContents, image: I.Image, gained: set<SpkiHash>)
    requires SafeButFile(w, k0) && I.Remembered(image, w.history) && Sound(k0, k0, {})
    ensures Sound(image.contents, k0, gained)
  {
    hide I.Descends, I.ProperPhase, PinSet;
    assert w.history[image.version - 1] in w.history && I.Reached(k0, image.contents, w.acked);
    var some :| some <= w.acked && I.Descends(k0, image.contents, some);
    L.DescendantIsProper(k0, image.contents, some, |k0.pairings|);
  }

  lemma ChangeIsSound(k: KeystoreContents, k0: KeystoreContents, change: Change, gained: set<SpkiHash>)
    requires Sound(k, k0, gained) && Changed(k, change).Some? && Gained(change) <= gained
    ensures Sound(Changed(k, change).value, k0, gained)
  {
    hide PinSet, Changed, Gained;
    ChangeGains(k, change);
  }

  lemma EventIsSound(m: Machine, e: Event, k0: KeystoreContents, gained: set<SpkiHash>)
    requires AllSound(m, k0, gained) && Sound(k0, k0, {})
    requires e.Store? && e.ok && m.pairBinds ==> Gained(e.change) <= gained
    ensures AllSound(Next(m, e), k0, gained)
  {
    hide I.Next, Sound, Changed, Gained, SafeButFile;
    match e
    case Server(step) =>
      StepStaysSafe(m.server, step, k0);
      StepIgnoresFile(m.server, step, m.server.disk);
      if I.Renames(m.server, step) {
        TmpIsRemembered(m.server, k0);
        RememberedIsSound(m.server, k0, m.server.tmp.value, gained);
      }
    case Load(_) =>
    case Store(pid, change, ok) =>
      if m.Stored(pid, change, ok).Some? {
        EditsGainNothing(change);
        ChangeIsSound(m.read[pid], k0, change, gained);
        FileIsApart(m.server, I.Image(Changed(m.read[pid], change).value, 0, true), k0);
      }
  }

  lemma EditsGainNothing(change: Change)
    ensures change.Edited? ==> Gained(change) == {}
  {
  }

  lemma TmpIsRemembered(w: I.World, k0: KeystoreContents)
    requires SafeButFile(w, k0) && w.tmp.Some?
    ensures I.Remembered(w.tmp.value, w.history)
  {
    hide I.Descends, I.ProperPhase, I.Reached, PinSet;
  }

  lemma FileIsApart(w: I.World, d: I.Image, k0: KeystoreContents)
    requires SafeButFile(w, k0)
    ensures SafeButFile(w.(disk := d), k0)
  {
    assert w.(disk := d).(disk := w.Current()) == w.(disk := w.Current());
  }

  lemma {:induction false} EventsAreSound(m: Machine, events: seq<Event>, k0: KeystoreContents, gained: set<SpkiHash>)
    requires AllSound(m, k0, gained) && Sound(k0, k0, {}) && AllGained(events, m.pairBinds) <= gained
    ensures AllSound(Run(m, events), k0, gained)
    decreases |events|
  {
    hide AllSound, Sound, Gained, I.Next, Changed;
    if events != [] {
      EventIsSound(m, events[0], k0, gained);
      EventsAreSound(Next(m, events[0]), events[1..], k0, gained);
    }
  }

  /**
    However local commands and a running server overlap, updates can be lost
    but nothing is made up: what the file holds, or was being written to it,
    keeps the identity, distinct keys and a known interval, and pins only keys
    pinned at the start or paired since.
  */
  lemma OverlapKeepsFileSound(k0: KeystoreContents, pairBinds: bool, events: seq<Event>)
    requires DistinctSpkis(k0.pairings) && R.KnownInterval(k0.reauthDays)
    ensures Sound(Run(Start(k0, pairBinds), events).server.disk.contents, k0, AllGained(events, pairBinds))
  {
    hide Run, PinSet, SafeButFile, AllGained;
    MachineIsSafe(k0, pairBinds, []);
    RunOfNothing(Start(k0, pairBinds));
    EventsAreSound(Start(k0, pairBinds), events, k0, AllGained(events, pairBinds));
  }
}
