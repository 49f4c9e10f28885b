/**
  The guessing bound of one pairing window, against any deterministic strategy
  that picks each move after seeing every earlier answer in full.
*/
module Guessing {
  import opened Bytes
  import opened Postcard
  import opened Messages
  import opened Handshake
  import opened Sampling

  /** Everything a caller can do to an open window short of opening another. */
  datatype Move =
    | Guess(now: uint64, code: uint32, phoneName: Utf8String, spki: SpkiHash)
    | Wait(now: uint64)
    | Abandon

  type Strategy = seq<Entry> -> Move

  function AsOp(m: Move): Op {
    match m
    case Guess(now, code, name, spki) => Offer(now, code, name, spki)
    case Wait(now) => Tick(now)
    case Abandon => Reset
  }

  /** The window and the log after n moves against the given secret. */
  function Play(strategy: Strategy, secret: uint32, expiresAt: uint64, n: nat): (r: (PairingState, seq<Entry>))
    ensures |r.1| == n
  {
    if n == 0 then (Awaiting(secret, expiresAt, 0), [])
    else
      var (s, log) := Play(strategy, secret, expiresAt, n - 1);
      var (s', e) := Step(s, AsOp(strategy(log)));
      (s', log + [e])
  }

  predicate Wins(strategy: Strategy, secret: uint32, expiresAt: uint64, n: nat) {
    exists i :: 0 <= i < n && IsSucceeded(Play(strategy, secret, expiresAt, n).1[i])
  }

  function WinningSecrets(strategy: Strategy, expiresAt: uint64, n: nat): set<nat> {
    set secret: nat | 0 <= secret < PAIRING_CODE_MODULUS && Wins(strategy, secret, expiresAt, n)
  }

  /** A secret outside the code range, which no offer can match. */
  const UNMATCHABLE: uint32 := PAIRING_CODE_MODULUS

  /** The codes offered inside the window when nothing ever matches. */
  function Offered(strategy: Strategy, expiresAt: uint64, n: nat): seq<uint32> {
    if n == 0 then []
    else
      var (s, log) := Play(strategy, UNMATCHABLE, expiresAt, n - 1);
      var move := strategy(log);
      Offered(strategy, expiresAt, n - 1) +
      (if s.Awaiting? && move.Guess? && move.now < s.expiresAt then [move.code] else [])
  }

  lemma {:induction false} BudgetBoundsOffers(strategy: Strategy, expiresAt: uint64, n: nat)
    ensures |Offered(strategy, expiresAt, n)| <= MAX_PAIRING_ATTEMPTS
    ensures
      var s := Play(strategy, UNMATCHABLE, expiresAt, n).0;
      && !s.Paired?
      && (s.Awaiting? ==>
            && s == Awaiting(UNMATCHABLE, expiresAt, s.failedAttempts)
            && s.failedAttempts == |Offered(strategy, expiresAt, n)| < MAX_PAIRING_ATTEMPTS)
  {
    if n > 0 {
      BudgetBoundsOffers(strategy, expiresAt, n - 1);
    }
  }

  function WithCode(s: PairingState, secret: uint32): PairingState {
    if s.Awaiting? then Awaiting(secret, s.expiresAt, s.failedAttempts) else s
  }

  lemma BlindStep(blind: PairingState, secret: uint32, move: Move)
    requires secret < PAIRING_CODE_MODULUS && !blind.Paired?
    requires blind.Awaiting? ==> blind.code == UNMATCHABLE
    requires blind.Awaiting? && move.Guess? && move.now < blind.expiresAt ==> move.code != secret
    ensures
      var (s, e) := Step(blind, AsOp(move));
      Step(WithCode(blind, secret), AsOp(move)) == (WithCode(s, secret), e) && !IsSucceeded(e)
  {
  }

  /** Until its own code is offered, a secret is indistinguishable from one that never matches. */
  lemma {:induction false} UnguessedLooksTheSame(strategy: Strategy, secret: uint32, expiresAt: uint64, n: nat)
    requires secret < PAIRING_CODE_MODULUS
    requires secret !in Offered(strategy, expiresAt, n)
    ensures
      var (s, log) := Play(strategy, secret, expiresAt, n);
      var (blind, blindLog) := Play(strategy, UNMATCHABLE, expiresAt, n);
      && s == WithCode(blind, secret)
      && log == blindLog
      && (forall i :: 0 <= i < n ==> !IsSucceeded(log[i]))
  {
    hide Step, AsOp;
    if n > 0 {
      UnguessedLooksTheSame(strategy, secret, expiresAt, n - 1);
      BudgetBoundsOffers(strategy, expiresAt, n - 1);
      var (blind, log) := Play(strategy, UNMATCHABLE, expiresAt, n - 1);
      var move, before := strategy(log), Offered(strategy, expiresAt, n - 1);
      if blind.Awaiting? && move.Guess? && move.now < blind.expiresAt {
        assert Offered(strategy, expiresAt, n)[|before|] == move.code;
      }
      BlindStep(blind, secret, move);
    }
  }

  /** However it adapts and however long it plays, a strategy wins against at most five secrets. */
  lemma AtMostFiveSecrets(strategy: Strategy, expiresAt: uint64, n: nat)
    ensures |WinningSecrets(strategy, expiresAt, n)| <= 5
  {
    var offered := Offered(strategy, expiresAt, n);
    BudgetBoundsOffers(strategy, expiresAt, n);
    forall secret | secret in WinningSecrets(strategy, expiresAt, n) ensures secret in offered {
      if secret !in offered {
        UnguessedLooksTheSame(strategy, secret, expiresAt, n);
      }
    }
    DistinctElements(offered);
    SubsetSize(WinningSecrets(strategy, expiresAt, n), Elements(offered));
  }

  function Elements(s: seq<uint32>): set<nat> {
    if s == [] then {} else {s[0]} + Elements(s[1..])
  }

  lemma {:induction false} DistinctElements(s: seq<uint32>)
    ensures |Elements(s)| <= |s|
    ensures forall c :: c in s ==> c in Elements(s)
  {
    if s != [] {
      DistinctElements(s[1..]);
    }
  }

  lemma {:induction false} SubsetSize(small: set<nat>, big: set<nat>)
    requires small <= big
    ensures |small| <= |big|
  {
    if small != {} {
      var x :| x in small;
      SubsetSize(small - {x}, big - {x});
    }
  }

  /**
    In terms of the random source: of the 4294 million raw values the sampler
    accepts, all equally likely, at most 5 * 4294 lead to a window the strategy
    gets into, which is the documented five in a million.
  */
  lemma AtMostFiveInAMillion(strategy: Strategy, expiresAt: uint64, n: nat)
    ensures
      var fatal := set raw: nat | 0 <= raw < RESAMPLE_THRESHOLD
                                  && raw % PAIRING_CODE_MODULUS in WinningSecrets(strategy, expiresAt, n);
      |fatal| * 1_000_000 <= 5 * RESAMPLE_THRESHOLD
  {
    AtMostFiveSecrets(strategy, expiresAt, n);
    SamplerIsUniform(WinningSecrets(strategy, expiresAt, n));
  }

  /** The strategy that offers 0, 1, 2, 3, 4 at once. */
  const COUNTING: Strategy := (log: seq<Entry>) => Guess(0, if |log| < 5 then |log| else 0, [], seq(32, i => 0))

  lemma {:induction false} CountingMisses(secret: uint32, expiresAt: uint64, n: nat)
    requires n <= secret < 5 && expiresAt > 0
    ensures Play(COUNTING, secret, expiresAt, n).0 == Awaiting(secret, expiresAt, n)
  {
    if n > 0 {
      CountingMisses(secret, expiresAt, n - 1);
    }
  }

  /** The bound is attained: nothing smaller than five would hold. */
  lemma FiveIsAttained(expiresAt: uint64)
    requires expiresAt > 0
    ensures |WinningSecrets(COUNTING, expiresAt, 5)| == 5
  {
    forall secret: uint32 | secret < 5 ensures secret in WinningSecrets(COUNTING, expiresAt, 5) {
      CountingMisses(secret, expiresAt, secret);
      var log := Play(COUNTING, secret, expiresAt, secret + 1).1;
      assert IsSucceeded(log[secret]);
      LogGrows(COUNTING, secret, expiresAt, secret + 1, 5);
    }
    assert {0, 1, 2, 3, 4} <= WinningSecrets(COUNTING, expiresAt, 5);
    SubsetSize({0, 1, 2, 3, 4}, WinningSecrets(COUNTING, expiresAt, 5));
    AtMostFiveSecrets(COUNTING, expiresAt, 5);
  }

  lemma {:induction false} LogGrows(strategy: Strategy, secret: uint32, expiresAt: uint64, n: nat, more: nat)
    requires n <= more
    ensures Play(strategy, secret, expiresAt, n).1 == Play(strategy, secret, expiresAt, more).1[..n]
    decreases more
  {
    if n < more {
      LogGrows(strategy, secret, expiresAt, n, more - 1);
    }
  }
}
