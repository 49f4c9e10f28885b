/** The pairing window: one code, one deadline, a budget of wrong attempts. */
module Handshake {
  import opened Wrappers
  import opened Bytes
  import opened Postcard
  import opened Messages
  import opened Reauth

  const PAIRING_WINDOW_DEFAULT_MS: uint64 := 300_000
  const MAX_PAIRING_ATTEMPTS: uint8 := 5
  const PAIRING_CODE_MODULUS: uint32 := 1_000_000

  /** The largest multiple of the modulus not above the largest raw value. */
  const RESAMPLE_THRESHOLD: uint32 := (U32_MAX / PAIRING_CODE_MODULUS) * PAIRING_CODE_MODULUS

  datatype NewPairing = NewPairing(phoneName: Utf8String, clientSpki: SpkiHash, pairedAt: uint64)

  datatype PairingState =
    | Idle
    | Awaiting(code: uint32, expiresAt: uint64, failedAttempts: uint8)
    | Paired(record: NewPairing)

  datatype Rejection = NotInWindow | WrongCode | WindowExpired | TooManyAttempts | OutOfRange

  datatype Transition =
    | Started(code: uint32)
    | Expired
    | Succeeded(record: NewPairing)
    | Rejected(reason: Rejection)
    | NoOp

  type FourBytes = s: seq<uint8> | |s| == 4 witness [0, 0, 0, 0]

  /** One answer of the operating system's random source. */
  datatype Draw = Drawn(bytes: FourBytes) | DrawFailed

  datatype RngError = OsRng

  function FromLe(b: FourBytes): uint32 {
    b[0] as int + 256 * (b[1] as int + 256 * (b[2] as int + 256 * (b[3] as int)))
  }

  /** The code the draws lead to: the first one below the threshold, reduced. */
  function SampledCode(draws: seq<Draw>): (r: Result<uint32, RngError>)
    ensures r.Ok? ==> r.value < PAIRING_CODE_MODULUS
  {
    if draws == [] || draws[0].DrawFailed? then Err(OsRng)
    else if FromLe(draws[0].bytes) < RESAMPLE_THRESHOLD then Ok(FromLe(draws[0].bytes) % PAIRING_CODE_MODULUS)
    else SampledCode(draws[1..])
  }

  method RandomPairingCode(draws: seq<Draw>) returns (r: Result<uint32, RngError>)
    ensures r == SampledCode(draws)
  {
    var i := 0;
    while i < |draws|
      invariant i <= |draws|
      invariant SampledCode(draws) == SampledCode(draws[i..])
    {
      if draws[i].DrawFailed? {
        return Err(OsRng);
      }
      var raw := FromLe(draws[i].bytes);
      if raw < RESAMPLE_THRESHOLD {
        return Ok(raw % PAIRING_CODE_MODULUS);
      }
      assert draws[i..][1..] == draws[i + 1..];
      i := i + 1;
    }
    return Err(OsRng);
  }

  // ---------------------------------------------------------- specification

  function StartStep(s: PairingState, now: uint64, ttl: uint64, draws: seq<Draw>): (PairingState, Result<Transition, RngError>) {
    if !s.Idle? then (s, Ok(NoOp))
    else
      match SampledCode(draws)
      case Err(e) => (s, Err(e))
      case Ok(code) => (Awaiting(code, SaturatingAdd(now, ttl), 0), Ok(Started(code)))
  }

  function OfferStep(s: PairingState, now: uint64, offered: uint32, phoneName: Utf8String, spki: SpkiHash): (PairingState, Transition) {
    match s
    case Idle => (s, Rejected(NotInWindow))
    case Paired(_) => (s, Rejected(NotInWindow))
    case Awaiting(code, expiresAt, failed) =>
      if now >= expiresAt then (Idle, Rejected(WindowExpired))
      else if offered >= PAIRING_CODE_MODULUS || offered != code then
        var failures := if failed == 255 then 255 else failed + 1;
        if failures >= MAX_PAIRING_ATTEMPTS then (Idle, Rejected(TooManyAttempts))
        else (Awaiting(code, expiresAt, failures),
              Rejected(if offered >= PAIRING_CODE_MODULUS then OutOfRange else WrongCode))
      else
        var record := NewPairing(phoneName, spki, now);
        (Paired(record), Succeeded(record))
  }

  function TickStep(s: PairingState, now: uint64): (PairingState, Transition) {
    if s.Awaiting? && now >= s.expiresAt then (Idle, Expired) else (s, NoOp)
  }

  // ------------------------------------------------------------- the object

  class PairingHandshake {
    var state: PairingState

    constructor ()
      ensures state == Idle
    {
      state := Idle;
    }

    method Start(now: uint64, ttl: uint64, draws: seq<Draw>) returns (r: Result<Transition, RngError>)
      modifies this
      ensures (state, r) == StartStep(old(state), now, ttl, draws)
    {
      if !state.Idle? {
        return Ok(NoOp);
      }
      var code := RandomPairingCode(draws);
      if code.Err? {
        return Err(code.error);
      }
      state := Awaiting(code.value, SaturatingAdd(now, ttl), 0);
      return Ok(Started(code.value));
    }

    method AcceptPair(now: uint64, offered: uint32, phoneName: Utf8String, spki: SpkiHash) returns (t: Transition)
      modifies this
      ensures (state, t) == OfferStep(old(state), now, offered, phoneName, spki)
    {
      if !state.Awaiting? {
        return Rejected(NotInWindow);
      }
      var Awaiting(code, expiresAt, priorFailures) := state;
      if now >= expiresAt {
        state := Idle;
        return Rejected(WindowExpired);
      }
      var outOfRange := offered >= PAIRING_CODE_MODULUS;
      if outOfRange || offered != code {
        var newFailures: uint8 := if priorFailures == 255 then 255 else priorFailures + 1;
        if newFailures >= MAX_PAIRING_ATTEMPTS {
          state := Idle;
          return Rejected(TooManyAttempts);
        }
        state := Awaiting(code, expiresAt, newFailures);
        return Rejected(if outOfRange then OutOfRange else WrongCode);
      }
      var record := NewPairing(phoneName, spki, now);
      state := Paired(record);
      return Succeeded(record);
    }

    method Tick(now: uint64) returns (t: Transition)
      modifies this
      ensures (state, t) == TickStep(old(state), now)
    {
      if state.Awaiting? && now >= state.expiresAt {
        state := Idle;
        return Expired;
      }
      return NoOp;
    }

    method Reset()
      modifies this
      ensures state == Idle
    {
      state := Idle;
    }
  }

  // --------------------------------------------------------------- in times

  /** Before the deadline a tick does nothing; from then on it closes an open window once; and a window that is not open stays as it is. */
  lemma TickByTime(s: PairingState, now: uint64, later: uint64)
    ensures s.Awaiting? && now < s.expiresAt ==> TickStep(s, now) == (s, NoOp)
    ensures s.Awaiting? && now >= s.expiresAt ==> TickStep(s, now) == (Idle, Expired) && TickStep(Idle, later) == (Idle, NoOp)
    ensures !s.Awaiting? ==> TickStep(s, now) == (s, NoOp)
  {
  }

  /** Only an idle handshake opens a window: the sampled code, open for the given time, with no attempt made. */
  lemma StartByDraws(s: PairingState, now: uint64, ttl: uint64, draws: seq<Draw>)
    ensures !s.Idle? ==> StartStep(s, now, ttl, draws) == (s, Ok(NoOp))
    ensures s.Idle? && SampledCode(draws).Err? ==> StartStep(s, now, ttl, draws) == (Idle, Err(SampledCode(draws).error))
    ensures s.Idle? && SampledCode(draws).Ok? ==>
              var code := SampledCode(draws).value;
              var end := if now + ttl > 18_446_744_073_709_551_615 then 18_446_744_073_709_551_615 else now + ttl;
              StartStep(s, now, ttl, draws) == (Awaiting(code, end, 0), Ok(Started(code)))
  {
  }

  /** A failing random source yields no code, however many draws had been rejected before. */
  lemma {:induction false} NoCodeFromAFailedDraw(draws: seq<Draw>, i: nat)
    requires i < |draws| && draws[i].DrawFailed?
    requires forall j :: 0 <= j < i ==> draws[j].Drawn? && FromLe(draws[j].bytes) >= RESAMPLE_THRESHOLD
    ensures SampledCode(draws) == Err(OsRng)
  {
    if i > 0 {
      NoCodeFromAFailedDraw(draws[1..], i - 1);
    }
  }

  /** What an offer to an open window does, by time, code and attempts made. */
  lemma OfferByTimeAndCode(code: uint32, expiresAt: uint64, failed: uint8, now: uint64, offered: uint32, name: Utf8String, spki: SpkiHash)
    requires code < 1_000_000 && failed < 5
    ensures
      OfferStep(Awaiting(code, expiresAt, failed), now, offered, name, spki) ==
      if now >= expiresAt then (Idle, Rejected(WindowExpired))
      else if offered == code then (Paired(NewPairing(name, spki, now)), Succeeded(NewPairing(name, spki, now)))
      else if failed == 4 then (Idle, Rejected(TooManyAttempts))
      else (Awaiting(code, expiresAt, failed + 1), Rejected(if offered >= 1_000_000 then OutOfRange else WrongCode))
    ensures OfferStep(Idle, now, offered, name, spki) == (Idle, Rejected(NotInWindow))
  {
  }

  // ------------------------------------------------------------------- runs

  datatype Op =
    | Start(now: uint64, ttl: uint64, draws: seq<Draw>)
    | Offer(now: uint64, code: uint32, phoneName: Utf8String, spki: SpkiHash)
    | Tick(now: uint64)
    | Reset

  datatype Entry = Answer(t: Transition) | RngFailed | WasReset(wasAwaiting: bool)

  function Step(s: PairingState, op: Op): (PairingState, Entry) {
    match op
    case Start(now, ttl, draws) =>
      var (s', r) := StartStep(s, now, ttl, draws);
      (s', if r.Ok? then Answer(r.value) else RngFailed)
    case Offer(now, code, name, spki) =>
      var (s', t) := OfferStep(s, now, code, name, spki);
      (s', Answer(t))
    case Tick(now) =>
      var (s', t) := TickStep(s, now);
      (s', Answer(t))
    case Reset => (Idle, WasReset(s.Awaiting?))
  }

  /** The state and the log after a list of calls on a new handshake. */
  function RunOps(ops: seq<Op>): (r: (PairingState, seq<Entry>))
    ensures |r.1| == |ops|
  {
    if ops == [] then (Idle, [])
    else
      var (s, log) := RunOps(ops[..|ops| - 1]);
      var (s', e) := Step(s, ops[|ops| - 1]);
      (s', log + [e])
  }

  function Count(log: seq<Entry>, p: Entry -> bool): nat {
    if log == [] then 0 else Count(log[..|log| - 1], p) + (if p(log[|log| - 1]) then 1 else 0)
  }

  predicate IsStarted(e: Entry) { e.Answer? && e.t.Started? }
  predicate IsSucceeded(e: Entry) { e.Answer? && e.t.Succeeded? }
  predicate IsTooMany(e: Entry) { e == Answer(Rejected(TooManyAttempts)) }
  predicate IsExpired(e: Entry) { e == Answer(Expired) || e == Answer(Rejected(WindowExpired)) }
  predicate IsAbandoned(e: Entry) { e == WasReset(true) }
  predicate IsMiss(e: Entry) { e == Answer(Rejected(WrongCode)) || e == Answer(Rejected(OutOfRange)) }

  /** Wrong attempts since the window was last opened. */
  function Misses(log: seq<Entry>): nat {
    if log == [] || IsStarted(log[|log| - 1]) then 0
    else Misses(log[..|log| - 1]) + (if IsMiss(log[|log| - 1]) then 1 else 0)
  }

  /**
    Every window that is opened is closed exactly once, or is still open; and
    an open window has counted every wrong attempt made in it, short of the cap.
  */
  lemma {:induction false} WindowConservation(ops: seq<Op>)
    ensures
      var (s, log) := RunOps(ops);
      && Count(log, IsStarted) ==
         Count(log, IsSucceeded) + Count(log, IsTooMany) + Count(log, IsExpired) + Count(log, IsAbandoned)
         + (if s.Awaiting? then 1 else 0)
      && (s.Awaiting? ==> s.code < PAIRING_CODE_MODULUS && s.failedAttempts < MAX_PAIRING_ATTEMPTS)
      && (s.Awaiting? ==> s.failedAttempts == Misses(log))
  {
    hide Step;
    if ops != [] {
      var front := ops[..|ops| - 1];
      WindowConservation(front);
      var (s, log) := RunOps(front);
      StepBalance(s, ops[|ops| - 1]);
      LogAppended(log, Step(s, ops[|ops| - 1]).1);
    }
  }

  function Bit(b: bool): nat { if b then 1 else 0 }

  predicate Bounded(s: PairingState) {
    s.Awaiting? ==> s.code < PAIRING_CODE_MODULUS && s.failedAttempts < MAX_PAIRING_ATTEMPTS
  }

  /** One call opens, closes or keeps the window, and counts what it counts. */
  lemma StepBalance(s: PairingState, op: Op)
    requires Bounded(s)
    ensures
      var (s', e) := Step(s, op);
      && Bounded(s')
      && Bit(s.Awaiting?) + Bit(IsStarted(e)) ==
         Bit(s'.Awaiting?) + Bit(IsSucceeded(e)) + Bit(IsTooMany(e)) + Bit(IsExpired(e)) + Bit(IsAbandoned(e))
      && (s'.Awaiting? ==> s'.failedAttempts == if IsStarted(e) || !s.Awaiting? then 0 else s.failedAttempts + Bit(IsMiss(e)))
      && (s'.Awaiting? && !s.Awaiting? ==> IsStarted(e))
  {
  }

  lemma LogAppended(log: seq<Entry>, e: Entry)
    ensures forall p :: Count(log + [e], p) == Count(log, p) + Bit(p(e))
    ensures Misses(log + [e]) == if IsStarted(e) then 0 else Misses(log) + Bit(IsMiss(e))
  {
    assert (log + [e])[..|log|] == log;
  }

  /** Wrong offers, each made before the window expires. */
  predicate WrongInTime(offers: seq<Op>, window: PairingState)
    requires window.Awaiting?
  {
    forall o :: o in offers ==> o.Offer? && o.now < window.expiresAt && (o.code != window.code || o.code >= PAIRING_CODE_MODULUS)
  }

  function After(s: PairingState, ops: seq<Op>): PairingState
    decreases |ops|
  {
    if ops == [] then s else After(Step(s, ops[0]).0, ops[1..])
  }

  /**
    The right code in time pairs the phone that offers it exactly when the
    budget has not been used up; after that nothing does.
  */
  lemma {:induction false} RightCodeWinsIff(window: PairingState, wrong: seq<Op>, now: uint64, name: Utf8String, spki: SpkiHash)
    requires window.Awaiting? && window.code < PAIRING_CODE_MODULUS && window.failedAttempts < MAX_PAIRING_ATTEMPTS
    requires WrongInTime(wrong, window) && now < window.expiresAt
    ensures
      var (s, t) := OfferStep(After(window, wrong), now, window.code, name, spki);
      if window.failedAttempts + |wrong| < MAX_PAIRING_ATTEMPTS
      then t == Succeeded(NewPairing(name, spki, now)) && s == Paired(NewPairing(name, spki, now))
      else t == Rejected(NotInWindow) && s == Idle
    decreases |wrong|
  {
    if wrong != [] {
      var next := Step(window, wrong[0]).0;
      if next.Awaiting? {
        RightCodeWinsIff(next, wrong[1..], now, name, spki);
      } else {
        ClosedStaysClosed(wrong[1..]);
      }
    }
  }

  lemma {:induction false} ClosedStaysClosed(offers: seq<Op>)
    requires forall o :: o in offers ==> o.Offer?
    ensures After(Idle, offers) == Idle
    decreases |offers|
  {
    if offers != [] {
      assert offers[0].Offer?;
      ClosedStaysClosed(offers[1..]);
    }
  }
}
