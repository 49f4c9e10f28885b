/** The guessing bound seen from the network: the pairing command against any traffic whatever. */
module PairingGuessing {
  import opened Wrappers
  import opened Bytes
  import opened Messages
  import opened Pairings
  import opened Keystore
  import opened Transport
  import opened PairingFlow
  import opened Guessing
  import opened Reauth
  import opened Sampling
  import H = Handshake

  /** What one arrival asks of the handshake: a tick, and an offer if it carries a pairing frame. */
  function MovesOf(a: Arrival): seq<Move> {
    match a.event
    case Connects(peer) =>
      if peer.spki.None? then [Wait(a.tickNow)]
      else
        (match NextFrame(Flatten(peer.chunks), peer.ending)
         case Stopped(_) => [Wait(a.tickNow)]
         case Next(env, _) =>
           match DecodeClientFrame(env.payload)
           case Ok(Pair(name, code)) => [Wait(a.tickNow), Guess(peer.now, code, name, peer.spki.value)]
           case _ => [Wait(a.tickNow)])
    case _ => [Wait(a.tickNow)]
  }

  function AllMoves(arrivals: seq<Arrival>): seq<Move> {
    if arrivals == [] then [] else MovesOf(arrivals[0]) + AllMoves(arrivals[1..])
  }

  function Reached(s: H.PairingState, moves: seq<Move>): H.PairingState
    decreases |moves|
  {
    if moves == [] then s else Reached(H.Step(s, AsOp(moves[0])).0, moves[1..])
  }

  lemma {:induction false} ReachedInTwo(s: H.PairingState, first: seq<Move>, second: seq<Move>)
    ensures Reached(s, first + second) == Reached(Reached(s, first), second)
    decreases |first|
  {
    if first == [] {
      assert first + second == second;
    } else {
      ReachedInTwo(H.Step(s, AsOp(first[0])).0, first[1..], second);
      assert (first + second)[1..] == first[1..] + second;
    }
  }

  lemma {:induction false} PairedStaysPaired(s: H.PairingState, moves: seq<Move>)
    requires s.Paired? && forall m :: m in moves ==> !m.Abandon?
    ensures Reached(s, moves) == s
    decreases |moves|
  {
    if moves != [] {
      assert !moves[0].Abandon?;
      PairedStaysPaired(s, moves[1..]);
    }
  }

  lemma {:induction false} NoneAbandoned(arrivals: seq<Arrival>)
    ensures forall m :: m in AllMoves(arrivals) ==> !m.Abandon?
  {
    if arrivals != [] {
      NoneAbandoned(arrivals[1..]);
      assert forall m :: m in MovesOf(arrivals[0]) ==> !m.Abandon? by {
        hide NextFrame, DecodeClientFrame;
      }
    }
  }

  /** One arrival moves the handshake by exactly its moves. */
  lemma ArrivalMoves(c: Cipher, fl: Flow, a: Arrival)
    requires a.event.Connects?
    ensures
      var ticked := fl.(handshake := H.TickStep(fl.handshake, a.tickNow).0);
      Reached(fl.handshake, MovesOf(a)) == Attempted(c, ticked, a.event.peer).0.handshake
  {
    hide NextFrame, DecodeClientFrame, Saved, H.OfferStep;
    var peer := a.event.peer;
    var s := H.TickStep(fl.handshake, a.tickNow).0;
    assert Reached(fl.handshake, [Wait(a.tickNow)]) == s by {
      assert [Wait(a.tickNow)][1..] == [];
    }
    if peer.spki.Some? && NextFrame(Flatten(peer.chunks), peer.ending).Next? {
      var frame := DecodeClientFrame(NextFrame(Flatten(peer.chunks), peer.ending).envelope.payload);
      if frame.Ok? && frame.value.Pair? {
        var guess := Guess(peer.now, frame.value.pairingCode, frame.value.phoneName, peer.spki.value);
        assert MovesOf(a) == [Wait(a.tickNow)] + [guess];
        ReachedInTwo(fl.handshake, [Wait(a.tickNow)], [guess]);
        assert Reached(s, [guess]) == H.Step(s, AsOp(guess)).0 by {
          assert [guess][1..] == [];
        }
      }
    }
  }

  lemma {:induction false} PairedLoopPairsMoves(c: Cipher, fl: Flow, arrivals: seq<Arrival>)
    requires Looped(c, fl, arrivals).0.handshake.Paired?
    ensures Reached(fl.handshake, AllMoves(arrivals)).Paired?
    decreases |arrivals|
  {
    hide Attempted, MovesOf;
    NoneAbandoned(arrivals);
    if arrivals != [] && !fl.handshake.Paired? {
      var a, rest := arrivals[0], AllMoves(arrivals[1..]);
      NoneAbandoned(arrivals[1..]);
      var ticked := fl.(handshake := H.TickStep(fl.handshake, a.tickNow).0);
      ReachedInTwo(fl.handshake, MovesOf(a), rest);
      if a.event.Connects? {
        ArrivalMoves(c, fl, a);
        var after := Attempted(c, ticked, a.event.peer).0;
        if after.handshake.Paired? {
          PairedStaysPaired(after.handshake, rest);
        } else {
          PairedLoopPairsMoves(c, after, arrivals[1..]);
        }
      } else {
        TickOnly(fl.handshake, a);
        PairedLoopPairsMoves(c, ticked, arrivals[1..]);
      }
    } else if arrivals != [] {
      PairedStaysPaired(fl.handshake, AllMoves(arrivals));
    }
  }

  lemma TickOnly(s: H.PairingState, a: Arrival)
    requires !a.event.Connects?
    ensures Reached(s, MovesOf(a)) == H.TickStep(s, a.tickNow).0
  {
    assert [Wait(a.tickNow)][1..] == [];
  }

  /** The strategy that plays a fixed list of moves. */
  function Fixed(moves: seq<Move>): Strategy {
    (log: seq<H.Entry>) => if |log| < |moves| then moves[|log|] else Abandon
  }

  lemma {:induction false} FixedPlays(moves: seq<Move>, secret: uint32, expiresAt: uint64, n: nat)
    requires n <= |moves|
    ensures Play(Fixed(moves), secret, expiresAt, n).0 == Reached(H.Awaiting(secret, expiresAt, 0), moves[..n])
    ensures Play(Fixed(moves), secret, expiresAt, n).0.Paired? ==> Wins(Fixed(moves), secret, expiresAt, n)
  {
    if n > 0 {
      FixedPlays(moves, secret, expiresAt, n - 1);
      assert moves[..n] == moves[..n - 1] + [moves[n - 1]];
      ReachedInTwo(H.Awaiting(secret, expiresAt, 0), moves[..n - 1], [moves[n - 1]]);
      assert [moves[n - 1]][1..] == [];
      var (s, log) := Play(Fixed(moves), secret, expiresAt, n - 1);
      var (s', e) := H.Step(s, AsOp(moves[n - 1]));
      assert Play(Fixed(moves), secret, expiresAt, n) == (s', log + [e]);
      if s'.Paired? {
        if s.Paired? {
          var i :| 0 <= i < n - 1 && H.IsSucceeded(log[i]);
          assert H.IsSucceeded((log + [e])[i]);
        } else {
          assert H.IsSucceeded((log + [e])[n - 1]);
        }
      }
    }
  }

  function PairingSecrets(c: Cipher, k: KeystoreContents, disk: Disk, expiresAt: uint64, arrivals: seq<Arrival>): set<nat> {
    set secret: nat | 0 <= secret < H.PAIRING_CODE_MODULUS &&
                      Looped(c, Flow(H.Awaiting(secret, expiresAt, 0), k, disk, []), arrivals).0.handshake.Paired?
  }

  /** Whatever a fixed list of arrivals brings, at most five codes let anyone pair. */
  lemma AtMostFiveForTraffic(c: Cipher, k: KeystoreContents, disk: Disk, expiresAt: uint64, arrivals: seq<Arrival>)
    ensures |PairingSecrets(c, k, disk, expiresAt, arrivals)| <= 5
  {
    hide Looped, MovesOf;
    var moves := AllMoves(arrivals);
    var strategy := Fixed(moves);
    forall secret | secret in PairingSecrets(c, k, disk, expiresAt, arrivals)
      ensures secret in WinningSecrets(strategy, expiresAt, |moves|)
    {
      PairedLoopPairsMoves(c, Flow(H.Awaiting(secret, expiresAt, 0), k, disk, []), arrivals);
      FixedPlays(moves, secret, expiresAt, |moves|);
      assert moves[..|moves|] == moves;
    }
    AtMostFiveSecrets(strategy, expiresAt, |moves|);
    SubsetSize(PairingSecrets(c, k, disk, expiresAt, arrivals), WinningSecrets(strategy, expiresAt, |moves|));
  }

  // ------------------------------------------------------ adaptive traffic

  /** Decides each arrival from its number and every reply sent so far. */
  type Attacker = (nat, seq<Reply>) -> Arrival

  /** n turns of the accept loop, with the attacker choosing what arrives. */
  function Attacked(c: Cipher, fl: Flow, attacker: Attacker, round: nat, n: nat): (Flow, FlowEnd)
    decreases n
  {
    if n == 0 then (fl, StillOpen)
    else
      var (after, end) := Looped(c, fl, [attacker(round, fl.log)]);
      if end.StillOpen? then Attacked(c, after, attacker, round + 1, n - 1) else (after, end)
  }

  /** What arrived in those turns. */
  function Traffic(c: Cipher, fl: Flow, attacker: Attacker, round: nat, n: nat): seq<Arrival>
    decreases n
  {
    if n == 0 then []
    else
      var a := attacker(round, fl.log);
      var (after, end) := Looped(c, fl, [a]);
      [a] + if end.StillOpen? then Traffic(c, after, attacker, round + 1, n - 1) else []
  }

  lemma LoopedOneByOne(c: Cipher, fl: Flow, a: Arrival, others: seq<Arrival>)
    ensures
      var (after, end) := Looped(c, fl, [a]);
      Looped(c, fl, [a] + others) == if end.StillOpen? then Looped(c, after, others) else (after, end)
  {
    hide Attempted, H.TickStep;
    assert ([a] + others)[1..] == others && [a][1..] == [];
  }

  lemma {:induction false} LoopKeepsPaired(c: Cipher, fl: Flow, arrivals: seq<Arrival>)
    requires fl.handshake.Paired?
    ensures Looped(c, fl, arrivals).0.handshake.Paired?
    decreases |arrivals|
  {
    hide NextFrame, DecodeClientFrame, Saved;
    if arrivals != [] {
      match arrivals[0].event
      case TlsFails => LoopKeepsPaired(c, fl, arrivals[1..]);
      case Connects(peer) => LoopKeepsPaired(c, Attempted(c, fl, peer).0, arrivals[1..]);
      case _ =>
    }
  }

  predicate Blind(fl: Flow) {
    !fl.handshake.Paired? && (fl.handshake.Awaiting? ==> fl.handshake.code == UNMATCHABLE)
  }

  function Secretly(fl: Flow, secret: uint32): Flow { fl.(handshake := WithCode(fl.handshake, secret)) }

  lemma BlindAttempt(c: Cipher, blind: Flow, secret: uint32, peer: Peer)
    requires Blind(blind) && secret < H.PAIRING_CODE_MODULUS
    ensures
      var (b, result) := Attempted(c, blind, peer);
      var (s, outcome) := Attempted(c, Secretly(blind, secret), peer);
      s.handshake.Paired? || (Blind(b) && s == Secretly(b, secret) && outcome == result && !result.Accepted?)
  {
    hide NextFrame, DecodeClientFrame, Saved;
  }

  /** One turn either pairs or cannot be told from the same turn against a code nothing matches. */
  lemma BlindTurn(c: Cipher, blind: Flow, secret: uint32, a: Arrival)
    requires Blind(blind) && secret < H.PAIRING_CODE_MODULUS
    ensures
      var (b, end) := Looped(c, blind, [a]);
      var (s, end') := Looped(c, Secretly(blind, secret), [a]);
      s.handshake.Paired? || (Blind(b) && s == Secretly(b, secret) && end' == end)
  {
    hide Attempted;
    assert [a][1..] == [];
    var ticked := blind.(handshake := H.TickStep(blind.handshake, a.tickNow).0);
    if a.event.Connects? {
      BlindAttempt(c, ticked, secret, a.event.peer);
    }
  }

  /** An attack that pairs would have paired with the traffic it sends against a code nothing matches. */
  lemma {:induction false} PairsOnBlindTraffic(c: Cipher, blind: Flow, secret: uint32, attacker: Attacker, round: nat, n: nat)
    requires Blind(blind) && secret < H.PAIRING_CODE_MODULUS
    requires Attacked(c, Secretly(blind, secret), attacker, round, n).0.handshake.Paired?
    ensures Looped(c, Secretly(blind, secret), Traffic(c, blind, attacker, round, n)).0.handshake.Paired?
    decreases n
  {
    hide Looped;
    if n > 0 {
      var a := attacker(round, blind.log);
      var (b, end) := Looped(c, blind, [a]);
      var s := Looped(c, Secretly(blind, secret), [a]).0;
      var others := if end.StillOpen? then Traffic(c, b, attacker, round + 1, n - 1) else [];
      BlindTurn(c, blind, secret, a);
      LoopedOneByOne(c, Secretly(blind, secret), a, others);
      if s.handshake.Paired? {
        LoopKeepsPaired(c, s, others);
      } else {
        PairsOnBlindTraffic(c, b, secret, attacker, round + 1, n - 1);
      }
    }
  }

  function AttackableSecrets(c: Cipher, k: KeystoreContents, disk: Disk, expiresAt: uint64, attacker: Attacker, n: nat): set<nat> {
    set secret: nat | 0 <= secret < H.PAIRING_CODE_MODULUS &&
                      Attacked(c, Flow(H.Awaiting(secret, expiresAt, 0), k, disk, []), attacker, 0, n).0.handshake.Paired?
  }

  /**
    The bound seen from the network: whoever connects, whatever they send after
    seeing every earlier reply, at whatever times, and whatever fails meanwhile,
    at most five of the million codes the window could have had let anyone pair.
  */
  lemma AtMostFiveCodesPair(c: Cipher, k: KeystoreContents, disk: Disk, expiresAt: uint64, attacker: Attacker, n: nat)
    ensures |AttackableSecrets(c, k, disk, expiresAt, attacker, n)| <= 5
  {
    hide Attacked, Looped, Traffic;
    var blind := Flow(H.Awaiting(UNMATCHABLE, expiresAt, 0), k, disk, []);
    var traffic := Traffic(c, blind, attacker, 0, n);
    forall secret | secret in AttackableSecrets(c, k, disk, expiresAt, attacker, n)
      ensures secret in PairingSecrets(c, k, disk, expiresAt, traffic)
    {
      PairsOnBlindTraffic(c, blind, secret, attacker, 0, n);
    }
    AtMostFiveForTraffic(c, k, disk, expiresAt, traffic);
    SubsetSize(AttackableSecrets(c, k, disk, expiresAt, attacker, n), PairingSecrets(c, k, disk, expiresAt, traffic));
  }

  // ------------------------------------------------------------ in raw draws

  /** A startup whose random source first gives values the sampler rejects, then this one. */
  function WithDraw(st: Startup, rejected: seq<H.Draw>, raw: uint32): Startup {
    st.(draws := rejected + [H.Drawn(ToLe(raw))])
  }

  predicate AllRejected(draws: seq<H.Draw>) {
    forall d :: d in draws ==> d.Drawn? && H.FromLe(d.bytes) >= H.RESAMPLE_THRESHOLD
  }

  /** The raw values that, drawn when the command starts, let the attacker in. */
  function FatalDraws(c: Cipher, disk: Disk, st: Startup, rejected: seq<H.Draw>, attacker: Attacker, n: nat): set<nat> {
    set raw: nat | 0 <= raw < H.RESAMPLE_THRESHOLD &&
                   match Opened(c, disk, WithDraw(st, rejected, raw))
                   case Err(_) => false
                   case Ok(fl) => Attacked(c, fl, attacker, 0, n).0.handshake.Paired?
  }

  lemma DrawOpens(c: Cipher, disk: Disk, st: Startup, rejected: seq<H.Draw>, raw: uint32)
    requires AllRejected(rejected) && raw < H.RESAMPLE_THRESHOLD
    ensures
      match Opened(c, disk, WithDraw(st, rejected, raw))
      case Err(_) => true
      case Ok(fl) =>
        && fl.handshake == H.Awaiting(raw % H.PAIRING_CODE_MODULUS, SaturatingAdd(st.now, H.PAIRING_WINDOW_DEFAULT_MS), 0)
        && fl.disk == disk && fl.log == []
        && Opened(c, disk, WithDraw(st, rejected, 0)).Ok? && fl.contents == Opened(c, disk, WithDraw(st, rejected, 0)).value.contents
  {
    hide Loaded, ToLe, H.FromLe;
    DrawIsSampled(rejected, raw);
    DrawIsSampled(rejected, 0);
  }

  lemma DrawIsSampled(rejected: seq<H.Draw>, raw: uint32)
    requires AllRejected(rejected) && raw < H.RESAMPLE_THRESHOLD
    ensures H.SampledCode(rejected + [H.Drawn(ToLe(raw))]) == Ok(raw % H.PAIRING_CODE_MODULUS)
  {
    var draws := rejected + [H.Drawn(ToLe(raw))];
    LeBijection(raw, ToLe(raw));
    hide ToLe, H.FromLe;
    assert forall j :: 0 <= j < |rejected| ==> draws[j] == rejected[j] && rejected[j] in rejected;
    SampledIsFirstAccepted(draws, |rejected|);
  }

  /**
    In terms of the random source, and of the whole command: of the raw values
    the sampler accepts, all equally likely, at most five in a million open a
    window that an attacker on the network gets into.
  */
  lemma AtMostFiveInAMillionOpen(c: Cipher, disk: Disk, st: Startup, rejected: seq<H.Draw>, attacker: Attacker, n: nat)
    requires AllRejected(rejected)
    ensures |FatalDraws(c, disk, st, rejected, attacker, n)| * 1_000_000 <= 5 * H.RESAMPLE_THRESHOLD
  {
    hide Attacked, Opened, ToLe, AllRejected;
    var fatal := FatalDraws(c, disk, st, rejected, attacker, n);
    var expiresAt := SaturatingAdd(st.now, H.PAIRING_WINDOW_DEFAULT_MS);
    var any := Opened(c, disk, WithDraw(st, rejected, 0));
    if any.Err? {
      forall raw | raw in fatal ensures false {
        DrawOpens(c, disk, st, rejected, raw);
      }
      assert fatal == {};
    } else {
      var k := any.value.contents;
      var codes := AttackableSecrets(c, k, disk, expiresAt, attacker, n);
      AtMostFiveCodesPair(c, k, disk, expiresAt, attacker, n);
      var allowed := set raw: nat | 0 <= raw < H.RESAMPLE_THRESHOLD && raw % H.PAIRING_CODE_MODULUS in codes;
      forall raw | raw in fatal ensures raw in allowed {
        DrawOpens(c, disk, st, rejected, raw);
      }
      SubsetSize(fatal, allowed);
      SamplerIsUniform(codes);
    }
  }
}
