/** The daemon's re-authentication window. All arithmetic saturates at the 64-bit maximum. */
module Reauth {
  import opened Wrappers
  import opened Bytes
  import opened ProtocolErrors
  import opened Messages

  const DAY_MS: nat := 86_400_000

  datatype ReauthState = Active | NeedsReauth {
    function BlockStateChange(): Option<ProtocolError> {
      match this
      case Active => None
      case NeedsReauth => Some(RequiresReauth)
    }
  }

  function IntervalFromDays(days: uint8): ReauthInterval {
    match days
    case 0 => Never
    case 1 => OneDay
    case 7 => SevenDays
    case 30 => ThirtyDays
    case _ => SevenDays
  }

  function IntervalToDays(interval: ReauthInterval): uint8 {
    match interval
    case Never => 0
    case OneDay => 1
    case SevenDays => 7
    case ThirtyDays => 30
  }

  function SaturatingAdd(a: uint64, b: nat): uint64 {
    if a + b > U64_MAX then U64_MAX else a + b
  }

  function ExpiresAt(lastAuth: uint64, days: uint8): uint64 {
    if days == 0 then U64_MAX else SaturatingAdd(lastAuth, days * DAY_MS)
  }

  function Evaluate(now: uint64, lastAuth: uint64, days: uint8): ReauthState {
    if days == 0 then Active else if now < ExpiresAt(lastAuth, days) then Active else NeedsReauth
  }

  predicate KnownInterval(days: uint8) { days in {0, 1, 7, 30} }

  /** Days survive the trip through the wire interval exactly when they are one of the four offered. */
  lemma IntervalRoundTripIff(days: uint8)
    ensures IntervalToDays(IntervalFromDays(days)) == days <==> KnownInterval(days)
  {
  }

  /** The days of the four intervals, both ways; any other stored number counts as seven. */
  lemma IntervalDays(days: uint8)
    ensures IntervalToDays(Never) == 0 && IntervalToDays(OneDay) == 1
    ensures IntervalToDays(SevenDays) == 7 && IntervalToDays(ThirtyDays) == 30
    ensures IntervalFromDays(0) == Never && IntervalFromDays(1) == OneDay
    ensures IntervalFromDays(7) == SevenDays && IntervalFromDays(30) == ThirtyDays
    ensures days !in {0, 1, 7, 30} ==> IntervalFromDays(days) == SevenDays
  {
  }

  /** The window in milliseconds: a day is 86400000 of them, and no sum passes the largest 64-bit number. */
  lemma WindowInMilliseconds(now: uint64, lastAuth: uint64, days: uint8)
    ensures ExpiresAt(lastAuth, days) ==
            if days == 0 || lastAuth + days * 86_400_000 > 18_446_744_073_709_551_615 then 18_446_744_073_709_551_615
            else lastAuth + days * 86_400_000
    ensures Evaluate(now, lastAuth, days).BlockStateChange() == Some(RequiresReauth) <==>
            days != 0 && (now >= lastAuth + days * 86_400_000 || now == 18_446_744_073_709_551_615)
    ensures Evaluate(now, lastAuth, days).BlockStateChange() in {None, Some(RequiresReauth)}
  {
  }
}
