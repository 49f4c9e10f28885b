/**
  Many connections over one shared keystore. Each step is one lock section or
  one file operation of one connection; any interleaving of them is a run.
*/
module Interleaving {
  import opened Wrappers
  import opened Bytes
  import opened Messages
  import opened Pairings
  import opened Keystore
  import opened SharedState
  import opened Connection
  import R = Reauth

  /**
    Contents as a file has them: which contents, the how-manieth memory has
    held (0 when it never did), and whether the write of them was completed. A
    file that is not whole has some part of them, or nothing.
  */
  datatype Image = Image(contents: KeystoreContents, version: nat, whole: bool)

  /** How far a connection has got with persisting its change. */
  datatype SaveStage = Due | Holding(image: Image) | Written

  /** How the write of the temporary file ends: completed, failed before touching it, or failed on the way. */
  datatype WriteEnd = Wrote | Untouched | Tore

  datatype Phase =
    | Handshaking(pins: set<SpkiHash>)
    | Admitted
    | Preflighted
    | Saving(stage: SaveStage)
    | Ready
    | TurnedAway

  datatype Conn = Conn(spki: SpkiHash, phase: Phase)

  /**
    The process: memory, the temporary file and the keystore file, the
    connections, and two records of the past: every contents memory has held,
    and the keys that acknowledged a revocation.
  */
  datatype World = World(
    memory: KeystoreContents,
    tmp: Option<Image>,
    disk: Image,
    conns: map<nat, Conn>,
    history: seq<KeystoreContents>,
    acked: set<SpkiHash>)
  {
    function Goto(id: nat, phase: Phase): World
      requires id in conns
    {
      this.(conns := conns[id := conns[id].(phase := phase)])
    }

    function Remember(k: KeystoreContents): World { this.(memory := k, history := history + [k]) }

    /** The image a snapshot takes now. */
    function Current(): Image { Image(memory, |history|, true) }

    predicate At(id: nat, phase: Phase) { id in conns && conns[id].phase == phase }
  }

  function Start(k: KeystoreContents): World { World(k, None, Image(k, 1, true), map[], [k], {}) }

  datatype Step =
    | Accept(id: nat, spki: SpkiHash)
    | FinishHandshake(id: nat)
    | Preflight(id: nat)
    | RecordAddress(id: nat, addr: SocketAddr)
    | Configure(id: nat, interval: ReauthInterval)
    | AckRevoke(id: nat)
    | Snapshot(id: nat)
    | WriteTmp(id: nat, end: WriteEnd)
    | Rename(id: nat, ok: bool)
    | Hangup(id: nat)

  /** This step moves the temporary file, whoever wrote it last, over the keystore file. */
  predicate Renames(w: World, step: Step) {
    step.Rename? && w.At(step.id, Saving(Written)) && step.ok && w.tmp.Some?
  }

  /** One step; a step that is not enabled changes nothing. */
  function Next(w: World, step: Step): World {
    match step
    case Accept(id, spki) =>
      if id in w.conns then w else w.(conns := w.conns[id := Conn(spki, Handshaking(PinSet(w.memory.pairings)))])
    case FinishHandshake(id) =>
      if id in w.conns && w.conns[id].phase.Handshaking? then
        if w.conns[id].spki in w.conns[id].phase.pins then w.Goto(id, Admitted) else w.(conns := w.conns - {id})
      else w
    case Preflight(id) =>
      if w.At(id, Admitted) then
        w.Goto(id, if ActivePairing(w.memory.pairings, w.conns[id].spki).Some? then Preflighted else TurnedAway)
      else w
    case RecordAddress(id, addr) =>
      if w.At(id, Preflighted) then
        var (pairings, changed) := WithAddress(w.memory.pairings, w.conns[id].spki, addr);
        if changed then w.Remember(w.memory.(pairings := pairings)).Goto(id, Saving(Due)) else w.Goto(id, Ready)
      else w
    case Configure(id, interval) =>
      if w.At(id, Ready) then w.Remember(WithInterval(w.memory, interval)).Goto(id, Saving(Due)) else w
    case AckRevoke(id) =>
      if w.At(id, Ready) then
        var kept := WithoutRevoked(w.memory.pairings, w.conns[id].spki);
        var w' := w.(acked := w.acked + {w.conns[id].spki});
        if |kept| < |w.memory.pairings| then w'.Remember(w.memory.(pairings := kept)).Goto(id, Saving(Due)) else w'.Goto(id, Ready)
      else w
    case Snapshot(id) =>
      if w.At(id, Saving(Due)) then w.Goto(id, Saving(Holding(w.Current()))) else w
    case WriteTmp(id, end) =>
      if id in w.conns && w.conns[id].phase.Saving? && w.conns[id].phase.stage.Holding? then
        var image := w.conns[id].phase.stage.image;
        match end
        case Wrote => w.(tmp := Some(image)).Goto(id, Saving(Written))
        case Untouched => w.Goto(id, Ready)
        case Tore => w.(tmp := Some(image.(whole := false))).Goto(id, Ready)
      else w
    case Rename(id, ok) =>
      if w.At(id, Saving(Written)) then
        if Renames(w, step) then w.(disk := w.tmp.value, tmp := None).Goto(id, Ready) else w.Goto(id, Ready)
      else w
    case Hangup(id) =>
      if id in w.conns && !w.conns[id].phase.Saving? then w.(conns := w.conns - {id}) else w
  }

  function Run(w: World, steps: seq<Step>): World
    decreases |steps|
  {
    if steps == [] then w else Run(Next(w, steps[0]), steps[1..])
  }

  // ----------------------------------------------- what stays, and what goes

  function Erased(p: PairingRecord): PairingRecord { p.(lastKnownAddress := None) }

  /** The records that survive once the given keys have acknowledged their revocation, addresses aside. */
  function Remaining(pairings: seq<PairingRecord>, acked: set<SpkiHash>): seq<PairingRecord> {
    if pairings == [] then []
    else if pairings[0].revoked && pairings[0].clientSpki in acked then Remaining(pairings[1..], acked)
    else [Erased(pairings[0])] + Remaining(pairings[1..], acked)
  }

  lemma {:induction false} AddressesDoNotMatter(pairings: seq<PairingRecord>, spki: SpkiHash, addr: SocketAddr, acked: set<SpkiHash>)
    ensures Remaining(WithAddress(pairings, spki, addr).0, acked) == Remaining(pairings, acked)
  {
    if pairings != [] {
      AddressesDoNotMatter(pairings[1..], spki, addr, acked);
      assert WithAddress(pairings, spki, addr).0[1..] == if Stale(pairings[0], spki, addr) then pairings[1..]
        else WithAddress(pairings[1..], spki, addr).0;
    }
  }

  lemma {:induction false} DroppingIsAcknowledging(pairings: seq<PairingRecord>, spki: SpkiHash)
    ensures Remaining(WithoutRevoked(pairings, spki), {}) == Remaining(pairings, {spki})
  {
    if pairings != [] {
      DroppingIsAcknowledging(pairings[1..], spki);
    }
  }

  lemma {:induction false} RemainingTwice(pairings: seq<PairingRecord>, first: set<SpkiHash>, second: set<SpkiHash>)
    ensures Remaining(Remaining(pairings, first), second) == Remaining(pairings, first + second)
  {
    if pairings != [] {
      RemainingTwice(pairings[1..], first, second);
    }
  }

  lemma {:induction false} RemainingKeepsActive(pairings: seq<PairingRecord>, acked: set<SpkiHash>)
    ensures ActiveSpkis(Remaining(pairings, acked)) == ActiveSpkis(pairings)
  {
    if pairings != [] {
      RemainingKeepsActive(pairings[1..], acked);
    }
  }

  /** Contents reached from k0: same identity and clock, exactly the records not acknowledged away. */
  predicate Descends(k0: KeystoreContents, k: KeystoreContents, acked: set<SpkiHash>) {
    && k.identity == k0.identity
    && k.lastAuthenticatedAt == k0.lastAuthenticatedAt
    && Remaining(k.pairings, {}) == Remaining(k0.pairings, acked)
    && (k.reauthDays == k0.reauthDays || R.KnownInterval(k.reauthDays))
  }

  ghost predicate Reached(k0: KeystoreContents, k: KeystoreContents, acked: set<SpkiHash>) {
    exists some :: some <= acked && Descends(k0, k, some)
  }

  /** An image of contents that memory did hold, under their number. */
  predicate Remembered(image: Image, history: seq<KeystoreContents>) {
    1 <= image.version <= |history| && history[image.version - 1] == image.contents
  }

  /** Every key a connection past its handshake was admitted with was pinned at the start. */
  predicate ProperPhase(conn: Conn, k0: KeystoreContents, history: seq<KeystoreContents>) {
    match conn.phase
    case Handshaking(pins) => pins == PinSet(k0.pairings)
    case TurnedAway => false
    case Saving(Holding(image)) => conn.spki in PinSet(k0.pairings) && Remembered(image, history) && image.whole
    case _ => conn.spki in PinSet(k0.pairings)
  }

  ghost predicate Safe(w: World, k0: KeystoreContents) {
    && Descends(k0, w.memory, w.acked)
    && (forall k :: k in w.history ==> Reached(k0, k, w.acked))
    && w.history != [] && w.history[|w.history| - 1] == w.memory
    && Remembered(w.disk, w.history) && (w.tmp.Some? ==> Remembered(w.tmp.value, w.history))
    && (forall id :: id in w.conns ==> ProperPhase(w.conns[id], k0, w.history))
    && w.acked <= PinSet(k0.pairings)
  }

  lemma DescendantsKeepPins(k0: KeystoreContents, k: KeystoreContents, acked: set<SpkiHash>)
    requires Descends(k0, k, acked)
    ensures ActiveSpkis(k.pairings) == ActiveSpkis(k0.pairings)
    ensures PinSet(k.pairings) == PinSet(k0.pairings)
  {
    RemainingKeepsActive(k.pairings, {});
    RemainingKeepsActive(k0.pairings, acked);
  }

  lemma MoreAcksReachMore(k0: KeystoreContents, history: seq<KeystoreContents>, acked: set<SpkiHash>, more: set<SpkiHash>)
    requires forall k :: k in history ==> Reached(k0, k, acked)
    requires acked <= more
    ensures forall k :: k in history ==> Reached(k0, k, more)
  {
    forall k | k in history ensures Reached(k0, k, more) {
      var some :| some <= acked && Descends(k0, k, some);
      assert some <= more;
    }
  }

  /** A section that puts k in memory and leaves it to be saved keeps the invariant. */
  lemma SectionIsSafe(w: World, k0: KeystoreContents, id: nat, k: KeystoreContents, acked: set<SpkiHash>)
    requires Safe(w, k0) && id in w.conns && w.conns[id].spki in PinSet(k0.pairings)
    requires Descends(k0, k, acked) && w.acked <= acked <= PinSet(k0.pairings)
    ensures Safe(w.(acked := acked).Remember(k).Goto(id, Saving(Due)), k0)
  {
    hide Descends, PinSet;
    MoreAcksReachMore(k0, w.history, w.acked, acked);
    assert Reached(k0, k, acked);
    var w' := w.(acked := acked).Remember(k).Goto(id, Saving(Due));
    assert forall x :: x in w'.history <==> x in w.history || x == k;
    forall other | other in w'.conns ensures ProperPhase(w'.conns[other], k0, w'.history) {
      assert other != id ==> ProperPhase(w.conns[other], k0, w.history);
    }
  }

  /** So does one that finds nothing to change in memory. */
  lemma EmptySectionIsSafe(w: World, k0: KeystoreContents, id: nat, acked: set<SpkiHash>)
    requires Safe(w, k0) && id in w.conns && w.conns[id].spki in PinSet(k0.pairings)
    requires Descends(k0, w.memory, acked) && w.acked <= acked <= PinSet(k0.pairings)
    ensures Safe(w.(acked := acked).Goto(id, Ready), k0)
  {
    hide Descends, PinSet;
    MoreAcksReachMore(k0, w.history, w.acked, acked);
    var w' := w.(acked := acked).Goto(id, Ready);
    forall other | other in w'.conns ensures ProperPhase(w'.conns[other], k0, w'.history) {
      assert other != id ==> ProperPhase(w.conns[other], k0, w.history);
    }
  }

  lemma MutationIsSafe(w: World, step: Step, k0: KeystoreContents)
    requires Safe(w, k0) && (step.RecordAddress? || step.Configure? || step.AckRevoke?)
    ensures Safe(Next(w, step), k0)
  {
    hide PinSet, WithAddress, WithoutRevoked, Remaining, ProperPhase;
    if step.id in w.conns && !w.conns[step.id].phase.Handshaking? {
      PastHandshake(w.conns[step.id], k0, w.history);
      var spki := w.conns[step.id].spki;
      match step
      case RecordAddress(id, addr) =>
        if w.At(id, Preflighted) {
          AddressesDoNotMatter(w.memory.pairings, spki, addr, {});
          SectionIsSafe(w, k0, id, w.memory.(pairings := WithAddress(w.memory.pairings, spki, addr).0), w.acked);
          EmptySectionIsSafe(w, k0, id, w.acked);
        }
      case Configure(id, interval) =>
        if w.At(id, Ready) {
          SectionIsSafe(w, k0, id, WithInterval(w.memory, interval), w.acked);
        }
      case AckRevoke(id) =>
        if w.At(id, Ready) {
          AcknowledgingDescends(w, k0, spki);
          UnreportedMeansUnchanged(w.memory.pairings, spki, V4([0, 0, 0, 0], 0));
          var kept := w.memory.(pairings := WithoutRevoked(w.memory.pairings, spki));
          SectionIsSafe(w, k0, id, kept, w.acked + {spki});
          if |kept.pairings| == |w.memory.pairings| {
            EmptySectionIsSafe(w, k0, id, w.acked + {spki});
          }
        }
    }
  }

  lemma AcknowledgingDescends(w: World, k0: KeystoreContents, spki: SpkiHash)
    requires Descends(k0, w.memory, w.acked)
    ensures Descends(k0, w.memory.(pairings := WithoutRevoked(w.memory.pairings, spki)), w.acked + {spki})
  {
    DroppingIsAcknowledging(w.memory.pairings, spki);
    RemainingTwice(w.memory.pairings, {}, {spki});
    RemainingTwice(k0.pairings, w.acked, {spki});
    assert {} + {spki} == {spki};
  }

  lemma PastHandshake(conn: Conn, k0: KeystoreContents, history: seq<KeystoreContents>)
    requires ProperPhase(conn, k0, history) && !conn.phase.Handshaking?
    ensures conn.spki in PinSet(k0.pairings)
  {
  }

  /** A step that leaves memory and what was acknowledged alone keeps the invariant if the files and phases it leaves are proper. */
  lemma QuietStepIsSafe(w: World, w': World, k0: KeystoreContents)
    requires Safe(w, k0)
    requires w'.memory == w.memory && w'.history == w.history && w'.acked == w.acked
    requires Remembered(w'.disk, w.history) && (w'.tmp.Some? ==> Remembered(w'.tmp.value, w.history))
    requires forall id :: id in w'.conns ==> (id in w.conns && w'.conns[id] == w.conns[id]) || ProperPhase(w'.conns[id], k0, w.history)
    ensures Safe(w', k0)
  {
    hide Descends, PinSet, ProperPhase;
  }

  lemma AdmissionIsSafe(w: World, step: Step, k0: KeystoreContents)
    requires Safe(w, k0) && (step.Accept? || step.FinishHandshake? || step.Preflight?)
    ensures Safe(Next(w, step), k0)
  {
    hide Descends, PinSet, ActiveSpkis, ActivePairing;
    DescendantsKeepPins(k0, w.memory, w.acked);
    if step.Preflight? && step.id in w.conns {
      PinnedIffActive(w.memory.pairings, w.conns[step.id].spki);
    }
    assert step.id in w.conns ==> ProperPhase(w.conns[step.id], k0, w.history);
    var w' := Next(w, step);
    assert step.id in w'.conns ==> ProperPhase(w'.conns[step.id], k0, w.history);
    hide Safe;
    assert Safe(w', k0) by {
      QuietStepIsSafe(w, w', k0);
    }
  }

  lemma FileStepIsSafe(w: World, step: Step, k0: KeystoreContents)
    requires Safe(w, k0) && (step.Snapshot? || step.WriteTmp? || step.Rename? || step.Hangup?)
    ensures Safe(Next(w, step), k0)
  {
    var w' := Next(w, step);
    FilesStayProper(w, step, k0);
    hide Safe, Descends, PinSet, ProperPhase, Next;
    QuietStepIsSafe(w, w', k0);
  }

  /** A completed write and its snapshot leave images of what memory held; a rename moves one. */
  lemma ImagesStayRemembered(w: World, step: Step)
    requires Remembered(w.disk, w.history) && (w.tmp.Some? ==> Remembered(w.tmp.value, w.history))
    requires step.WriteTmp? && step.id in w.conns && w.conns[step.id].phase.Saving? && w.conns[step.id].phase.stage.Holding? ==>
               Remembered(w.conns[step.id].phase.stage.image, w.history)
    requires step.Snapshot? || step.WriteTmp? || step.Rename? || step.Hangup?
    ensures
      var w' := Next(w, step);
      && w'.memory == w.memory && w'.history == w.history && w'.acked == w.acked
      && Remembered(w'.disk, w.history) && (w'.tmp.Some? ==> Remembered(w'.tmp.value, w.history))
  {
  }

  lemma FilesStayProper(w: World, step: Step, k0: KeystoreContents)
    requires Safe(w, k0) && (step.Snapshot? || step.WriteTmp? || step.Rename? || step.Hangup?)
    ensures
      var w' := Next(w, step);
      && w'.memory == w.memory && w'.history == w.history && w'.acked == w.acked
      && Remembered(w'.disk, w.history) && (w'.tmp.Some? ==> Remembered(w'.tmp.value, w.history))
      && forall id :: id in w'.conns ==> (id in w.conns && w'.conns[id] == w.conns[id]) || ProperPhase(w'.conns[id], k0, w.history)
  {
    hide Descends, PinSet, Reached, Next, Renames, Remembered;
    assert step.id in w.conns ==> ProperPhase(w.conns[step.id], k0, w.history);
    ImagesStayRemembered(w, step);
    PhasesStayProper(w, step, k0);
  }

  lemma PhasesStayProper(w: World, step: Step, k0: KeystoreContents)
    requires w.history != [] && w.history[|w.history| - 1] == w.memory
    requires step.id in w.conns ==> ProperPhase(w.conns[step.id], k0, w.history)
    requires step.Snapshot? || step.WriteTmp? || step.Rename? || step.Hangup?
    ensures
      var w' := Next(w, step);
      forall id :: id in w'.conns ==> (id in w.conns && w'.conns[id] == w.conns[id]) || ProperPhase(w'.conns[id], k0, w.history)
  {
    hide PinSet, Renames;
  }

  lemma StepIsSafe(w: World, step: Step, k0: KeystoreContents)
    requires Safe(w, k0)
    ensures Safe(Next(w, step), k0)
  {
    if step.RecordAddress? || step.Configure? || step.AckRevoke? {
      MutationIsSafe(w, step, k0);
    } else if step.Accept? || step.FinishHandshake? || step.Preflight? {
      AdmissionIsSafe(w, step, k0);
    } else {
      FileStepIsSafe(w, step, k0);
    }
  }

  /** Over every interleaving of every number of connections. */
  lemma {:induction false} ServerInvariant(w: World, steps: seq<Step>, k0: KeystoreContents)
    requires Safe(w, k0)
    ensures Safe(Run(w, steps), k0)
    decreases |steps|
  {
    if steps != [] {
      StepIsSafe(w, steps[0], k0);
      ServerInvariant(Next(w, steps[0]), steps[1..], k0);
    }
  }

  lemma StartIsSafe(k0: KeystoreContents)
    ensures Safe(Start(k0), k0)
  {
    assert Descends(k0, k0, {});
  }

  /**
    What a server run can do to the shared keystore, under any interleaving:
    the identity and the authentication time never change; the active records
    keep their keys and order, so every pin set built is the one built at the
    start and no admitted peer is turned away by the pre-flight check; memory
    is the starting records minus exactly the revoked ones whose own key
    acknowledged; and the keystore file is an image of contents that memory held.
  */
  lemma ServerRun(k0: KeystoreContents, steps: seq<Step>)
    ensures
      var w := Run(Start(k0), steps);
      && w.memory.identity == k0.identity && w.memory.lastAuthenticatedAt == k0.lastAuthenticatedAt
      && (w.memory.reauthDays == k0.reauthDays || R.KnownInterval(w.memory.reauthDays))
      && ActiveSpkis(w.memory.pairings) == ActiveSpkis(k0.pairings)
      && ActiveSpkis(w.disk.contents.pairings) == ActiveSpkis(k0.pairings)
      && Remaining(w.memory.pairings, {}) == Remaining(k0.pairings, w.acked)
      && w.acked <= PinSet(k0.pairings)
      && Remembered(w.disk, w.history) && Remembered(w.Current(), w.history)
      && (forall id :: id in w.conns ==> !w.conns[id].phase.TurnedAway?)
      && Reached(k0, w.disk.contents, w.acked)
  {
    hide PinSet, ActiveSpkis, Remaining;
    StartIsSafe(k0);
    ServerInvariant(Start(k0), steps, k0);
    var w := Run(Start(k0), steps);
    DescendantsKeepPins(k0, w.memory, w.acked);
    assert Reached(k0, w.disk.contents, w.acked);
    var some :| some <= w.acked && Descends(k0, w.disk.contents, some);
    DescendantsKeepPins(k0, w.disk.contents, some);
    forall id | id in w.conns ensures !w.conns[id].phase.TurnedAway? {
      assert ProperPhase(w.conns[id], k0, w.history);
    }
  }

  lemma {:induction false} RemovalNeedsARevokedRecord(pairings: seq<PairingRecord>, acked: set<SpkiHash>)
    ensures |Remaining(pairings, acked)| <= |pairings|
    ensures |Remaining(pairings, acked)| < |pairings| <==> exists p :: p in pairings && p.revoked && p.clientSpki in acked
    ensures |Remaining(pairings, acked)| == |pairings| ==> Remaining(pairings, acked) == Remaining(pairings, {})
  {
    if pairings != [] {
      RemovalNeedsARevokedRecord(pairings[1..], acked);
      assert forall p :: p in pairings <==> p == pairings[0] || p in pairings[1..];
    }
  }

  lemma NothingRemovedByNobody(pairings: seq<PairingRecord>)
    ensures |Remaining(pairings, {})| == |pairings|
  {
    RemovalNeedsARevokedRecord(pairings, {});
  }

  /** A record that is revoked although its key is still active through another record. */
  predicate Removable(k: KeystoreContents) {
    exists p :: p in k.pairings && p.revoked && p.clientSpki in PinSet(k.pairings)
  }

  /** A connection from its first byte to its loop. */
  function ConnectSteps(id: nat, spki: SpkiHash, addr: SocketAddr): seq<Step> {
    [Accept(id, spki), FinishHandshake(id), Preflight(id), RecordAddress(id, addr), Snapshot(id), WriteTmp(id, Wrote), Rename(id, true)]
  }

  lemma RunSteps(w: World, first: seq<Step>, second: seq<Step>)
    ensures Run(w, first + second) == Run(Run(w, first), second)
    decreases |first|
  {
    hide Next;
    if first == [] {
      assert first + second == second;
    } else {
      assert (first + second)[1..] == first[1..] + second;
      RunSteps(Next(w, first[0]), first[1..], second);
    }
  }

  lemma PinnedPeersAreAdmitted(k: KeystoreContents, id: nat, spki: SpkiHash) returns (w: World)
    requires spki in PinSet(k.pairings)
    ensures w == Next(Next(Start(k), Accept(id, spki)), FinishHandshake(id))
    ensures w.At(id, Admitted) && w.conns[id].spki == spki && w.memory == k && w.disk == w.Current()
  {
    hide PinSet;
    w := Next(Next(Start(k), Accept(id, spki)), FinishHandshake(id));
  }

  lemma PinnedPeersPassPreflight(w: World, id: nat)
    requires w.At(id, Admitted) && w.conns[id].spki in PinSet(w.memory.pairings)
    ensures Next(w, Preflight(id)) == w.Goto(id, Preflighted)
  {
    hide PinSet, ActivePairing;
    PinnedIffActive(w.memory.pairings, w.conns[id].spki);
  }

  lemma AddressIsRecorded(w: World, id: nat, addr: SocketAddr) returns (w': World)
    requires w.At(id, Admitted) && w.conns[id].spki in PinSet(w.memory.pairings) && w.disk == w.Current()
    ensures w' == Next(Next(w, Preflight(id)), RecordAddress(id, addr))
    ensures w'.memory == w.memory.(pairings := WithAddress(w.memory.pairings, w.conns[id].spki, addr).0)
    ensures (w'.At(id, Saving(Due)) || (w'.At(id, Ready) && w'.disk == w'.Current())) && w'.conns[id].spki == w.conns[id].spki
  {
    hide PinSet, WithAddress, ActivePairing;
    PinnedPeersPassPreflight(w, id);
    UnreportedMeansUnchanged(w.memory.pairings, w.conns[id].spki, addr);
    w' := Next(w.Goto(id, Preflighted), RecordAddress(id, addr));
  }

  /** Any pinned peer gets to its loop, and nothing but its own address has changed. */
  lemma PinnedPeersConnect(k: KeystoreContents, id: nat, spki: SpkiHash, addr: SocketAddr)
    requires spki in PinSet(k.pairings)
    ensures
      var w := Run(Start(k), ConnectSteps(id, spki, addr));
      && w.At(id, Ready) && w.conns[id].spki == spki
      && w.memory == k.(pairings := WithAddress(k.pairings, spki, addr).0) && w.disk == w.Current()
  {
    hide Next, PinSet, WithAddress;
    var s := ConnectSteps(id, spki, addr);
    var w2 := PinnedPeersAreAdmitted(k, id, spki);
    var w4 := AddressIsRecorded(w2, id, addr);
    RunTwo(Start(k), s);
    RunTwo(w2, s[2..]);
    RunTwo(w4, s[4..]);
    assert s[2..][2..] == s[4..] && s[4..][2..] == [Rename(id, true)] && [Rename(id, true)][1..] == [];
    SaveStepsFinish(w4, id);
  }

  lemma SaveStepsFinish(w: World, id: nat)
    requires w.At(id, Saving(Due)) || w.At(id, Ready)
    ensures
      var w' := Next(Next(Next(w, Snapshot(id)), WriteTmp(id, Wrote)), Rename(id, true));
      && w'.At(id, Ready) && w'.conns[id].spki == w.conns[id].spki && w'.memory == w.memory && w'.history == w.history
      && w'.disk == if w.At(id, Ready) then w.disk else w.Current()
  {
  }

  /**
    When a server run can remove a record at all: exactly when some record is
    revoked although its key is active in another. A phone all of whose records
    are revoked cannot connect to acknowledge that.
  */
  lemma RemovalIff(k0: KeystoreContents)
    ensures (exists steps :: |Run(Start(k0), steps).memory.pairings| < |k0.pairings|) <==> Removable(k0)
  {
    hide Run, PinSet;
    if Removable(k0) {
      var p :| p in k0.pairings && p.revoked && p.clientSpki in PinSet(k0.pairings);
      RemovingRun(k0, p);
      assert |Run(Start(k0), RemovingSteps(p)).memory.pairings| < |k0.pairings|;
    } else {
      forall steps ensures |Run(Start(k0), steps).memory.pairings| == |k0.pairings| {
        ServerRun(k0, steps);
        var w := Run(Start(k0), steps);
        RemovalNeedsARevokedRecord(k0.pairings, w.acked);
        NothingRemovedByNobody(w.memory.pairings);
      }
    }
  }

  function RemovingSteps(p: PairingRecord): seq<Step> {
    ConnectSteps(0, p.clientSpki, V4([127, 0, 0, 1], 4242)) + [AckRevoke(0)]
  }

  lemma RemovingRun(k0: KeystoreContents, p: PairingRecord)
    requires p in k0.pairings && p.revoked && p.clientSpki in PinSet(k0.pairings)
    ensures |Run(Start(k0), RemovingSteps(p)).memory.pairings| < |k0.pairings|
  {
    hide PinSet, Next, WithAddress, ConnectSteps;
    var addr, spki := V4([127, 0, 0, 1], 4242), p.clientSpki;
    PinnedPeersConnect(k0, 0, spki, addr);
    var w := Run(Start(k0), ConnectSteps(0, spki, addr));
    RunSteps(Start(k0), ConnectSteps(0, spki, addr), [AckRevoke(0)]);
    assert Run(w, [AckRevoke(0)]) == Next(w, AckRevoke(0)) by {
      assert [AckRevoke(0)][1..] == [];
    }
    AckRemoves(w, 0);
    AddressesDoNotMatter(k0.pairings, spki, addr, {spki});
    DroppingIsAcknowledging(w.memory.pairings, spki);
    RemovalNeedsARevokedRecord(k0.pairings, {spki});
    NothingRemovedByNobody(WithoutRevoked(w.memory.pairings, spki));
  }

  lemma AckRemoves(w: World, id: nat)
    requires w.At(id, Ready)
    ensures Next(w, AckRevoke(id)).memory.pairings == WithoutRevoked(w.memory.pairings, w.conns[id].spki)
  {
    UnreportedMeansUnchanged(w.memory.pairings, w.conns[id].spki, V4([0, 0, 0, 0], 0));
  }

  /** In particular not when the keys are distinct: then no server run ever removes a record. */
  lemma NothingIsForgotten(k0: KeystoreContents, steps: seq<Step>)
    requires DistinctSpkis(k0.pairings)
    ensures Remaining(Run(Start(k0), steps).memory.pairings, {}) == Remaining(k0.pairings, {})
    ensures |Run(Start(k0), steps).memory.pairings| == |k0.pairings|
  {
    hide Run;
    forall p | p in k0.pairings && p.revoked ensures p.clientSpki !in PinSet(k0.pairings) {
      PinnedIffActive(k0.pairings, p.clientSpki);
    }
    ServerRun(k0, steps);
    var w := Run(Start(k0), steps);
    RemovalNeedsARevokedRecord(k0.pairings, w.acked);
    NothingRemovedByNobody(k0.pairings);
    NothingRemovedByNobody(w.memory.pairings);
  }

  // ------------------------------------------------------ memory and the file

  predicate Idle(w: World) { forall id :: id in w.conns ==> !w.conns[id].phase.Saving? }

  /** No change starts while another connection is still saving, and no file operation fails. */
  predicate Orderly(w: World, step: Step) {
    match step
    case RecordAddress(_, _) => Idle(w)
    case Configure(_, _) => Idle(w)
    case AckRevoke(_) => Idle(w)
    case WriteTmp(_, end) => end.Wrote?
    case Rename(_, ok) => ok
    case _ => true
  }

  predicate OrderlyRun(w: World, steps: seq<Step>)
    decreases |steps|
  {
    steps == [] || (Orderly(w, steps[0]) && OrderlyRun(Next(w, steps[0]), steps[1..]))
  }

  predicate Synced(w: World) {
    && (Idle(w) ==> w.disk == w.Current())
    && (forall i, j :: i in w.conns && j in w.conns && w.conns[i].phase.Saving? && w.conns[j].phase.Saving? ==> i == j)
    && (forall id :: id in w.conns && w.conns[id].phase.Saving? ==>
          match w.conns[id].phase.stage
          case Due => true
          case Holding(image) => image == w.Current()
          case Written => w.tmp == Some(w.Current()))
  }

  lemma {:induction false} UnreportedMeansUnchanged(pairings: seq<PairingRecord>, spki: SpkiHash, addr: SocketAddr)
    ensures !WithAddress(pairings, spki, addr).1 ==> WithAddress(pairings, spki, addr).0 == pairings
    ensures |WithoutRevoked(pairings, spki)| == |pairings| ==> WithoutRevoked(pairings, spki) == pairings
  {
    if pairings != [] {
      UnreportedMeansUnchanged(pairings[1..], spki, addr);
      assert pairings == [pairings[0]] + pairings[1..];
    }
  }

  lemma OrderlySectionStaysSynced(w: World, id: nat, k: KeystoreContents)
    requires Synced(w) && Idle(w) && id in w.conns
    ensures Synced(w.Remember(k).Goto(id, Saving(Due)))
    ensures Synced(w.Goto(id, Ready))
  {
    var w' := w.Remember(k).Goto(id, Saving(Due));
    assert forall other :: other in w'.conns && other != id ==> !w'.conns[other].phase.Saving?;
    assert w'.conns[id].phase.Saving?;
    var w'' := w.Goto(id, Ready);
    assert forall other :: other in w''.conns ==> !w''.conns[other].phase.Saving?;
  }

  lemma OrderlyMutationStaysSynced(w: World, step: Step)
    requires Synced(w) && Idle(w)
    requires step.RecordAddress? || step.Configure? || step.AckRevoke?
    ensures Synced(Next(w, step))
  {
    hide WithAddress, WithoutRevoked, Synced, Idle;
    if step.id in w.conns {
      var id, spki := step.id, w.conns[step.id].spki;
      match step
      case RecordAddress(_, addr) =>
        OrderlySectionStaysSynced(w, id, w.memory.(pairings := WithAddress(w.memory.pairings, spki, addr).0));
      case Configure(_, interval) =>
        OrderlySectionStaysSynced(w, id, WithInterval(w.memory, interval));
      case AckRevoke(_) =>
        AckedIsApart(w, w.acked + {spki});
        OrderlySectionStaysSynced(w.(acked := w.acked + {spki}), id, w.memory.(pairings := WithoutRevoked(w.memory.pairings, spki)));
    }
  }

  lemma AckedIsApart(w: World, acked: set<SpkiHash>)
    requires Synced(w)
    ensures Synced(w.(acked := acked)) && (Idle(w) ==> Idle(w.(acked := acked)))
  {
  }

  /** Steps that move connections about without touching a save in progress. */
  lemma UntouchedSavesStaySynced(w: World, w': World)
    requires Synced(w) && w'.memory == w.memory && w'.history == w.history && w'.tmp == w.tmp && w'.disk == w.disk
    requires forall id :: id in w.conns && w.conns[id].phase.Saving? ==> id in w'.conns && w'.conns[id] == w.conns[id]
    requires forall id :: id in w'.conns && w'.conns[id].phase.Saving? ==> id in w.conns && w.conns[id] == w'.conns[id]
    ensures Synced(w')
  {
  }

  lemma FileStepStaysSynced(w: World, step: Step)
    requires Synced(w) && Orderly(w, step) && step.id in w.conns && w.conns[step.id].phase.Saving?
    requires step.Snapshot? || step.WriteTmp? || step.Rename?
    ensures Synced(Next(w, step))
  {
    assert forall other :: other in w.conns && other != step.id ==> !w.conns[other].phase.Saving?;
    var w' := Next(w, step);
    assert forall other :: other in w'.conns && other != step.id ==> !w'.conns[other].phase.Saving?;
    assert w'.conns[step.id].phase.Saving? || w'.disk == w'.Current();
  }

  lemma OrderlyStepStaysSynced(w: World, step: Step)
    requires Synced(w) && Orderly(w, step)
    ensures Synced(Next(w, step))
  {
    hide Synced, PinSet, ActivePairing, WithAddress, WithoutRevoked;
    if step.RecordAddress? || step.Configure? || step.AckRevoke? {
      OrderlyMutationStaysSynced(w, step);
    } else if step.id in w.conns && w.conns[step.id].phase.Saving? && (step.Snapshot? || step.WriteTmp? || step.Rename?) {
      FileStepStaysSynced(w, step);
    } else {
      UntouchedSavesStaySynced(w, Next(w, step));
    }
  }

  /** When changes and saves do not overlap and no file operation fails, an idle server's file is its memory. */
  lemma {:induction false} OrderlyRunsStaySynced(w: World, steps: seq<Step>)
    requires Synced(w) && OrderlyRun(w, steps)
    ensures Synced(Run(w, steps))
    decreases |steps|
  {
    if steps != [] {
      OrderlyStepStaysSynced(w, steps[0]);
      OrderlyRunsStaySynced(Next(w, steps[0]), steps[1..]);
    }
  }

  lemma FileIsMemory(k0: KeystoreContents, steps: seq<Step>)
    requires OrderlyRun(Start(k0), steps) && Idle(Run(Start(k0), steps))
    ensures Run(Start(k0), steps).disk == Run(Start(k0), steps).Current()
  {
    OrderlyRunsStaySynced(Start(k0), steps);
  }

  // --------------------------------------------------------- what decides it

  /** The i-th step is the last to move the temporary file into place. */
  predicate LastRename(w: World, steps: seq<Step>, i: nat) {
    && i < |steps| && Renames(Run(w, steps[..i]), steps[i])
    && forall j :: i < j < |steps| ==> !Renames(Run(w, steps[..j]), steps[j])
  }

  lemma LastStep(w: World, steps: seq<Step>)
    requires steps != []
    ensures Run(w, steps) == Next(Run(w, steps[..|steps| - 1]), steps[|steps| - 1])
  {
    hide Next;
    var front, step := steps[..|steps| - 1], steps[|steps| - 1];
    RunSteps(w, front, [step]);
    assert steps == front + [step] && [step][1..] == [];
  }

  lemma OnlyRenamesTouchTheFile(w: World, step: Step)
    ensures Next(w, step).disk == if Renames(w, step) then w.tmp.value else w.disk
  {
    hide PinSet, ActivePairing, WithAddress, WithoutRevoked;
  }

  /** The keystore file is whatever the last rename moved, or what was there if none did. */
  lemma {:induction false} LastRenameDecides(w: World, steps: seq<Step>)
    ensures forall i: nat :: LastRename(w, steps, i) ==> Run(w, steps).disk == Run(w, steps[..i]).tmp.value
    ensures (forall i: nat :: !LastRename(w, steps, i)) ==> Run(w, steps).disk == w.disk
    decreases |steps|
  {
    hide Next, Renames, Run;
    if steps == [] {
      assert Run(w, steps) == w by { RunNothing(w); }
    } else {
      var n := |steps| - 1;
      var front := steps[..n];
      var before := Run(w, front);
      LastRenameDecides(w, front);
      LastStep(w, steps);
      OnlyRenamesTouchTheFile(before, steps[n]);
      forall j | 0 <= j <= n ensures steps[..j] == front[..j] {}
      if Renames(before, steps[n]) {
        assert LastRename(w, steps, n);
        forall i: nat | LastRename(w, steps, i) ensures i == n {}
      } else {
        forall i: nat ensures LastRename(w, steps, i) <==> LastRename(w, front, i) {}
      }
    }
  }

  lemma RunNothing(w: World)
    ensures Run(w, []) == w
  {
  }

  /** What the file holds is contents memory held, all of them. */
  predicate HoldsSomethingRemembered(w: World) { w.disk.whole && w.disk.contents in w.history }

  /**
    The keystore file is something memory held exactly when the last rename, if
    there was one, moved a temporary file whose last write was completed.
  */
  lemma FileIsRememberedIff(k0: KeystoreContents, steps: seq<Step>)
    ensures HoldsSomethingRemembered(Run(Start(k0), steps)) <==>
            forall i: nat :: LastRename(Start(k0), steps, i) ==> Run(Start(k0), steps[..i]).tmp.value.whole
  {
    hide Run, Next;
    ServerRun(k0, steps);
    LastRenameDecides(Start(k0), steps);
    if i: nat :| LastRename(Start(k0), steps, i) {
      assert Run(Start(k0), steps).disk == Run(Start(k0), steps[..i]).tmp.value;
    }
  }

  /**
    And, however saves overlapped, it is the contents memory holds now exactly
    when the last rename moved a completed image whose snapshot was taken after
    the last change, or of earlier contents equal to the latest; or, if there
    was no rename, when nothing changed.
  */
  lemma FileIsLatestIff(k0: KeystoreContents, steps: seq<Step>)
    ensures
      var w := Run(Start(k0), steps);
      && (forall i: nat :: LastRename(Start(k0), steps, i) ==>
            var moved := Run(Start(k0), steps[..i]).tmp.value;
            && Remembered(moved, w.history)
            && (w.disk.whole && w.disk.contents == w.memory <==> moved.whole && w.history[moved.version - 1] == w.memory)
            && (w.disk == w.Current() <==> moved.whole && moved.version == |w.history|))
      && ((forall i: nat :: !LastRename(Start(k0), steps, i)) ==>
            (w.disk == w.Current() <==> |w.history| == 1))
  {
    hide Run, Next, LastRename;
    ServerRun(k0, steps);
    LastRenameDecides(Start(k0), steps);
  }

  function TornSteps(i: nat, j: nat): seq<Step> {
    [Configure(i, OneDay), Snapshot(i), Configure(j, Never), Snapshot(j), WriteTmp(i, Wrote), WriteTmp(j, Tore), Rename(i, true)]
  }

  /** It can fail to be: one connection's broken write between another's write and rename is what gets moved. */
  lemma BrokenWriteIsMoved(w: World, i: nat, j: nat)
    requires i != j && w.At(i, Ready) && w.At(j, Ready)
    ensures !HoldsSomethingRemembered(Run(w, TornSteps(i, j)))
  {
    hide Next, Renames;
    var s := TornSteps(i, j);
    var w1 := ChangeAndSnapshot(w, i, OneDay);
    var w2 := ChangeAndSnapshot(w1, j, Never);
    RunTwo(w, s);
    RunTwo(w1, s[2..]);
    RunTwo(w2, s[4..]);
    assert s[2..][2..] == s[4..] && s[4..][2..] == [Rename(i, true)] && [Rename(i, true)][1..] == [];
    TornThenMoved(w2, i, j);
  }

  lemma TornThenMoved(w: World, i: nat, j: nat)
    requires i != j && i in w.conns && j in w.conns
    requires w.conns[i].phase.Saving? && w.conns[i].phase.stage.Holding?
    requires w.conns[j].phase.Saving? && w.conns[j].phase.stage.Holding?
    ensures !Next(Next(Next(w, WriteTmp(i, Wrote)), WriteTmp(j, Tore)), Rename(i, true)).disk.whole
  {
  }

  function OverlapSteps(i: nat, j: nat): seq<Step> {
    [Configure(i, OneDay), Snapshot(i), Configure(j, Never), Snapshot(j),
     WriteTmp(j, Wrote), Rename(j, true), WriteTmp(i, Wrote), Rename(i, true)]
  }

  /**
    Without that discipline it fails: from any state with two connections in
    their loops, two overlapping interval changes, with every file operation
    succeeding, leave an idle server whose file is not its memory.
  */
  lemma OverlapLosesAnUpdate(w: World, i: nat, j: nat)
    requires i != j && w.At(i, Ready) && w.At(j, Ready)
    ensures
      var w' := Run(w, OverlapSteps(i, j));
      && w'.At(i, Ready) && w'.At(j, Ready)
      && w'.memory.reauthDays == 0 && w'.disk.contents.reauthDays == 1
      && w'.disk.whole && Remembered(w'.disk, w'.history)
  {
    hide Next;
    var s := OverlapSteps(i, j);
    var w1 := ChangeAndSnapshot(w, i, OneDay);
    var w2 := ChangeAndSnapshot(w1, j, Never);
    var w3 := WriteAndRename(w2, j);
    var w4 := WriteAndRename(w3, i);
    RunTwo(w, s);
    RunTwo(w1, s[2..]);
    RunTwo(w2, s[4..]);
    RunTwo(w3, s[6..]);
    assert s[2..][2..] == s[4..] && s[4..][2..] == s[6..] && s[6..][2..] == [];
  }

  lemma ChangeAndSnapshot(w: World, id: nat, interval: ReauthInterval) returns (w': World)
    requires w.At(id, Ready)
    ensures w' == Next(Next(w, Configure(id, interval)), Snapshot(id))
    ensures w'.memory == WithInterval(w.memory, interval) && w'.history == w.history + [w'.memory]
    ensures w'.conns == w.conns[id := w.conns[id].(phase := Saving(Holding(w'.Current())))]
  {
    w' := Next(Next(w, Configure(id, interval)), Snapshot(id));
  }

  lemma WriteAndRename(w: World, id: nat) returns (w': World)
    requires id in w.conns && w.conns[id].phase.Saving? && w.conns[id].phase.stage.Holding?
    ensures w' == Next(Next(w, WriteTmp(id, Wrote)), Rename(id, true))
    ensures w'.disk == w.conns[id].phase.stage.image && w'.memory == w.memory && w'.history == w.history
    ensures w'.conns == w.conns[id := w.conns[id].(phase := Ready)]
  {
    w' := Next(Next(w, WriteTmp(id, Wrote)), Rename(id, true));
  }

  lemma RunTwo(w: World, steps: seq<Step>)
    requires |steps| >= 2
    ensures Run(w, steps) == Run(Next(Next(w, steps[0]), steps[1]), steps[2..])
  {
    hide Next;
    assert steps[1..][1..] == steps[2..];
  }

  // ----------------------------------------------- one connection by itself

  /** The steps a connection takes to persist its change, as the file system lets it. */
  function SaveSteps(id: nat, c: Cipher, k: KeystoreContents, fault: SaveFault): seq<Step> {
    [Snapshot(id),
     WriteTmp(id, if c.encrypt(Plaintext(k)).Err? then Untouched else if fault.WriteFault? then Tore else Wrote),
     Rename(id, !fault.RenameFault?)]
  }

  /** The steps of serving one frame. */
  function FrameSteps(id: nat, c: Cipher, h: Host, spki: SpkiHash, frame: ClientFrame, turn: Turn): seq<Step> {
    match frame
    case ReauthConfig(interval) =>
      [Configure(id, interval)] + SaveSteps(id, c, WithInterval(h.contents, interval), turn.save)
    case RevokeAck =>
      [AckRevoke(id)] + SaveSteps(id, c, h.contents.(pairings := WithoutRevoked(h.contents.pairings, spki)), turn.save)
    case _ => []
  }

  /** The world shows what the host holds: the same memory, and a file that loads to the same contents. */
  ghost predicate Shows(w: World, c: Cipher, h: Host) {
    && w.memory == h.contents && Representable(h.contents.pairings)
    && w.disk.whole && Loaded(c, h.disk, true) == Ok(Some(w.disk.contents))
  }

  lemma SavingIsARun(w: World, id: nat, c: Cipher, disk: Disk, fault: SaveFault)
    requires Inverts(c) && Representable(w.memory.pairings)
    requires w.At(id, Saving(Due)) && w.disk.whole && Loaded(c, disk, true) == Ok(Some(w.disk.contents))
    ensures
      var w' := Run(w, SaveSteps(id, c, w.memory, fault));
      && w'.At(id, Ready) && w'.memory == w.memory && w'.disk.whole
      && Loaded(c, Saved(c, disk, w.memory, fault).0, true) == Ok(Some(w'.disk.contents))
  {
    hide FromPlaintext, Plaintext;
    SaveIsAtomic(c, disk, w.memory, fault);
    var s := SaveSteps(id, c, w.memory, fault);
    RunTwo(w, s);
    assert Run(w, s) == Next(Next(Next(w, s[0]), s[1]), s[2]) by {
      assert s[2..][1..] == [];
    }
  }

  lemma IdleSaveSteps(w: World, id: nat, c: Cipher, k: KeystoreContents, fault: SaveFault)
    requires w.At(id, Ready)
    ensures Run(w, SaveSteps(id, c, k, fault)) == w
  {
    hide Plaintext;
    var s := SaveSteps(id, c, k, fault);
    RunTwo(w, s);
    assert s[2..][1..] == [];
  }

  lemma ConfiguringIsARun(w: World, id: nat, c: Cipher, h: Host, interval: ReauthInterval, nonce: uint64, turn: Turn)
    requires Inverts(c) && w.At(id, Ready) && Shows(w, c, h)
    ensures
      var spki := w.conns[id].spki;
      var w' := Run(w, FrameSteps(id, c, h, spki, ReauthConfig(interval), turn));
      w'.At(id, Ready) && Shows(w', c, Dispatched(c, h, spki, ReauthConfig(interval), nonce, turn).0)
  {
    hide Saved, Loaded, SaveSteps;
    var steps := FrameSteps(id, c, h, w.conns[id].spki, ReauthConfig(interval), turn);
    var w1 := Next(w, Configure(id, interval));
    assert Run(w, steps) == Run(w1, steps[1..]);
    assert steps[1..] == SaveSteps(id, c, w1.memory, turn.save);
    SavingIsARun(w1, id, c, h.disk, turn.save);
  }

  lemma AcknowledgingIsARun(w: World, id: nat, c: Cipher, h: Host, nonce: uint64, turn: Turn)
    requires Inverts(c) && w.At(id, Ready) && Shows(w, c, h)
    ensures
      var spki := w.conns[id].spki;
      var w' := Run(w, FrameSteps(id, c, h, spki, RevokeAck, turn));
      w'.At(id, Ready) && Shows(w', c, Dispatched(c, h, spki, RevokeAck, nonce, turn).0)
  {
    hide Saved, Loaded, SaveSteps, WithoutRevoked;
    var spki := w.conns[id].spki;
    var steps := FrameSteps(id, c, h, spki, RevokeAck, turn);
    var w1 := Next(w, AckRevoke(id));
    UnreportedMeansUnchanged(w.memory.pairings, spki, V4([0, 0, 0, 0], 0));
    assert Run(w, steps) == Run(w1, steps[1..]);
    assert steps[1..] == SaveSteps(id, c, w1.memory, turn.save);
    if w1.At(id, Saving(Due)) {
      SavingIsARun(w1, id, c, h.disk, turn.save);
    } else {
      IdleSaveSteps(w1, id, c, w1.memory, turn.save);
    }
  }

  /** Serving a frame alone is one of the interleavings: same memory, same file, back in the loop. */
  lemma DispatchIsARun(w: World, id: nat, c: Cipher, h: Host, frame: ClientFrame, nonce: uint64, turn: Turn)
    requires Inverts(c) && w.At(id, Ready) && Shows(w, c, h)
    ensures
      var spki := w.conns[id].spki;
      var w' := Run(w, FrameSteps(id, c, h, spki, frame, turn));
      w'.At(id, Ready) && Shows(w', c, Dispatched(c, h, spki, frame, nonce, turn).0)
  {
    hide Saved, Loaded, SaveSteps, Next;
    match frame
    case ReauthConfig(interval) => ConfiguringIsARun(w, id, c, h, interval, nonce, turn);
    case RevokeAck => AcknowledgingIsARun(w, id, c, h, nonce, turn);
    case _ =>
  }

  /** So is the address section at the start of a connection. */
  lemma AddressSectionIsARun(w: World, id: nat, c: Cipher, h: Host, addr: SocketAddr, fault: SaveFault)
    requires Inverts(c) && w.At(id, Preflighted) && Shows(w, c, h)
    ensures
      var spki := w.conns[id].spki;
      var k := h.contents.(pairings := WithAddress(h.contents.pairings, spki, addr).0);
      var w' := Run(w, [RecordAddress(id, addr)] + SaveSteps(id, c, k, fault));
      w'.At(id, Ready) && Shows(w', c, AddressRecorded(c, h, spki, addr, fault))
  {
    hide Saved, Loaded, SaveSteps, WithAddress;
    var spki := w.conns[id].spki;
    var k := h.contents.(pairings := WithAddress(h.contents.pairings, spki, addr).0);
    var steps := [RecordAddress(id, addr)] + SaveSteps(id, c, k, fault);
    UnreportedMeansUnchanged(w.memory.pairings, spki, addr);
    var w1 := Next(w, steps[0]);
    assert Run(w, steps) == Run(w1, steps[1..]);
    assert steps[1..] == SaveSteps(id, c, k, fault);
    if w1.At(id, Saving(Due)) {
      SavingIsARun(w1, id, c, h.disk, fault);
    } else {
      IdleSaveSteps(w1, id, c, k, fault);
    }
  }
}
