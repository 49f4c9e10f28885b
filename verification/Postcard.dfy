/**
  The postcard wire format used for payloads and for the keystore file:
  integers are unsigned LEB128 varints (section 7.6 of DWARF 5), enum tags are
  32-bit varints, strings and lists carry a varint length, arrays carry none.

  Every `Take` reads one value from the front of a byte string and returns what
  is left; every `Put` is its printer.
*/
module Postcard {
  import opened Wrappers
  import opened Bytes

  datatype Parsed<+T> = Parsed(value: T, rest: seq<uint8>) | Failed {
    predicate IsFailure() { Failed? }

    function PropagateFailure<U>(): Parsed<U>
      requires Failed?
    {
      Failed
    }

    function Extract(): (T, seq<uint8>)
      requires Parsed?
    {
      (value, rest)
    }
  }

  // ---------------------------------------------------------------- varints

  function PutVarint(v: nat): (s: seq<uint8>)
    ensures |s| > 0
  {
    if v < 128 then [v] else [v % 128 + 128] + PutVarint(v / 128)
  }

  /** Reads at most `left` bytes; the last of them may hold at most `last`. */
  function TakeVarint(s: seq<uint8>, left: nat, last: uint8): (p: Parsed<nat>)
    ensures p.Parsed? ==> |p.rest| < |s|
    decreases |s|
  {
    if left == 0 || s == [] then Failed
    else if s[0] < 128 then
      if left == 1 && s[0] > last then Failed else Parsed(s[0], s[1..])
    else
      var (high, rest) :- TakeVarint(s[1..], left - 1, last);
      Parsed(s[0] - 128 + 128 * high, rest)
  }

  /** One more than the largest value that `left` varint bytes can carry. */
  function VarintCap(left: nat, last: uint8): nat {
    if left == 0 then 0 else if left == 1 then last + 1 else 128 * VarintCap(left - 1, last)
  }

  lemma {:induction false} VarintRoundTrip(v: nat, left: nat, last: uint8, s: seq<uint8>)
    requires v < VarintCap(left, last) && last < 128
    ensures TakeVarint(PutVarint(v) + s, left, last) == Parsed(v, s)
    decreases left
  {
    if v >= 128 {
      VarintRoundTrip(v / 128, left - 1, last, s);
      Associate([v % 128 + 128], PutVarint(v / 128), s);
      assert (PutVarint(v) + s)[1..] == PutVarint(v / 128) + s;
    } else {
      assert (PutVarint(v) + s)[1..] == s;
    }
  }

  lemma {:induction false} VarintInRange(s: seq<uint8>, left: nat, last: uint8)
    requires TakeVarint(s, left, last).Parsed? && last < 128
    ensures TakeVarint(s, left, last).value < VarintCap(left, last)
    decreases left
  {
    if s[0] >= 128 {
      VarintInRange(s[1..], left - 1, last);
    } else if left > 1 {
      VarintCapGrows(left, last);
    }
  }

  lemma {:induction false} VarintCapGrows(left: nat, last: uint8)
    requires left > 1
    ensures VarintCap(left, last) >= 128
    decreases left
  {
    if left > 2 {
      VarintCapGrows(left - 1, last);
    }
  }

  /**
    Padded varints are accepted, so decoding is not injective. A varint read
    from the wire is the one the encoder would have written exactly when it is
    a single byte or its last byte is not zero.
  */
  lemma {:induction false} VarintCanonicalIff(s: seq<uint8>, left: nat, last: uint8)
    requires TakeVarint(s, left, last).Parsed?
    ensures
      var p := TakeVarint(s, left, last);
      var used := s[..|s| - |p.rest|];
      PutVarint(p.value) == used <==> |used| == 1 || used[|used| - 1] != 0
    decreases left
  {
    if s[0] >= 128 {
      VarintCanonicalIff(s[1..], left - 1, last);
      var p, q := TakeVarint(s, left, last), TakeVarint(s[1..], left - 1, last);
      var used, tail := s[..|s| - |p.rest|], s[1..][..|s| - 1 - |q.rest|];
      assert p.rest == q.rest && |used| == |tail| + 1;
      assert used == [s[0]] + tail;
      LongVarint(s[0], q.value, tail);
    }
  }

  lemma LongVarint(low: uint8, high: nat, tail: seq<uint8>)
    requires low >= 128 && tail != []
    requires PutVarint(high) == tail <==> |tail| == 1 || tail[|tail| - 1] != 0
    ensures PutVarint(low - 128 + 128 * high) == [low] + tail <==> tail[|tail| - 1] != 0
  {
    var whole := PutVarint(low - 128 + 128 * high);
    if high == 0 {
      assert |whole| == 1;
    } else {
      assert whole == [low] + PutVarint(high);
      assert whole == [low] + tail ==> whole[1..] == tail && whole[1..] == PutVarint(high);
    }
  }

  /** 128 to the power n. */
  function Pow128(n: nat): (p: nat)
    ensures p > 0
  {
    if n == 0 then 1 else 128 * Pow128(n - 1)
  }

  /** Seven bits a byte, the lowest first, and the top bit says that more follow. */
  lemma {:induction false} VarintDigits(v: nat, i: nat)
    requires i < |PutVarint(v)|
    ensures PutVarint(v)[i] % 128 == v / Pow128(i) % 128
    ensures PutVarint(v)[i] >= 128 <==> i < |PutVarint(v)| - 1
  {
    if i > 0 {
      VarintDigits(v / 128, i - 1);
      DivDiv(v, 128, Pow128(i - 1));
    }
  }

  /** A first byte without the top bit within the width ends a varint, and the last byte of a full width must not overflow it. */
  predicate EndsAt(s: seq<uint8>, left: nat, last: uint8, n: nat) {
    && n < |s| && n < left && s[n] < 128 && (n == left - 1 ==> s[n] <= last)
    && forall j :: 0 <= j < n ==> s[j] >= 128
  }

  /** Exactly which bytes are read as a varint, and which value and rest they are read as. */
  lemma {:induction false} VarintReadIff(s: seq<uint8>, left: nat, last: uint8)
    ensures TakeVarint(s, left, last).Parsed? <==> exists n: nat :: EndsAt(s, left, last, n)
    ensures forall n: nat :: EndsAt(s, left, last, n) ==>
              var p := TakeVarint(s, left, last);
              && p.Parsed? && p.rest == s[n + 1..] && p.value < Pow128(n + 1)
              && forall i :: 0 <= i <= n ==> p.value / Pow128(i) % 128 == s[i] % 128
    decreases left
  {
    if left > 0 && s != [] {
      if s[0] >= 128 {
        VarintReadIff(s[1..], left - 1, last);
        forall n: nat | n > 0 ensures EndsAt(s, left, last, n) <==> EndsAt(s[1..], left - 1, last, n - 1) {
          OneByteOn(s, left, last, n);
        }
        if TakeVarint(s[1..], left - 1, last).Parsed? {
          var m: nat :| EndsAt(s[1..], left - 1, last, m);
          assert EndsAt(s, left, last, m + 1);
        }
        forall n: nat | EndsAt(s, left, last, n)
          ensures
            var p := TakeVarint(s, left, last);
            && p.Parsed? && p.rest == s[n + 1..] && p.value < Pow128(n + 1)
            && forall i :: 0 <= i <= n ==> p.value / Pow128(i) % 128 == s[i] % 128
        {
          assert n > 0 && EndsAt(s[1..], left - 1, last, n - 1);
          LowestDigit(s, left, last, n);
        }
      } else {
        assert TakeVarint(s, left, last).Parsed? ==> EndsAt(s, left, last, 0);
        forall n: nat | EndsAt(s, left, last, n) ensures n == 0 {}
        assert Pow128(1) == 128 && Pow128(0) == 1;
      }
    }
  }

  lemma OneByteOn(s: seq<uint8>, left: nat, last: uint8, n: nat)
    requires s != [] && s[0] >= 128 && left > 0 && n > 0
    ensures EndsAt(s, left, last, n) <==> EndsAt(s[1..], left - 1, last, n - 1)
  {
    if EndsAt(s, left, last, n) {
      assert forall j :: 0 <= j < n - 1 ==> s[1..][j] == s[j + 1];
    }
    if EndsAt(s[1..], left - 1, last, n - 1) {
      forall j | 0 <= j < n ensures s[j] >= 128 {
        assert j > 0 ==> s[1..][j - 1] >= 128;
      }
    }
  }

  lemma LowestDigit(s: seq<uint8>, left: nat, last: uint8, n: nat)
    requires s != [] && s[0] >= 128 && left > 0 && 0 < n < |s|
    requires
      var q := TakeVarint(s[1..], left - 1, last);
      && q.Parsed? && q.rest == s[1..][n..] && q.value < Pow128(n)
      && forall i :: 0 <= i <= n - 1 ==> q.value / Pow128(i) % 128 == s[1..][i] % 128
    ensures
      var p := TakeVarint(s, left, last);
      && p.Parsed? && p.rest == s[n + 1..] && p.value < Pow128(n + 1)
      && forall i :: 0 <= i <= n ==> p.value / Pow128(i) % 128 == s[i] % 128
  {
    var p, q := TakeVarint(s, left, last), TakeVarint(s[1..], left - 1, last);
    assert p.value == s[0] - 128 + 128 * q.value;
    assert Pow128(n + 1) == 128 * Pow128(n);
    forall i | 0 <= i <= n ensures p.value / Pow128(i) % 128 == s[i] % 128 {
      if i > 0 {
        assert p.value / 128 == q.value;
        DivDiv(p.value, 128, Pow128(i - 1));
        assert s[1..][i - 1] == s[i];
      } else {
        assert Pow128(0) == 1;
      }
    }
  }

  /** No varint is shorter than the one the encoder writes for its value. */
  lemma {:induction false} EncodedVarintIsShortest(s: seq<uint8>, left: nat, last: uint8)
    requires TakeVarint(s, left, last).Parsed?
    ensures
      var p := TakeVarint(s, left, last);
      |PutVarint(p.value)| + |p.rest| <= |s|
    decreases left
  {
    if s[0] >= 128 {
      EncodedVarintIsShortest(s[1..], left - 1, last);
    }
  }

  lemma VarintCaps()
    ensures VarintCap(3, 3) == 0x1_0000
    ensures VarintCap(5, 15) == 0x1_0000_0000
    ensures VarintCap(10, 1) == 0x1_0000_0000_0000_0000
  {
    assert VarintCap(3, 1) == 128 * (128 * VarintCap(1, 1));
    assert VarintCap(5, 1) == 128 * (128 * VarintCap(3, 1));
    assert VarintCap(7, 1) == 128 * (128 * VarintCap(5, 1));
    assert VarintCap(9, 1) == 128 * (128 * VarintCap(7, 1));
    assert VarintCap(3, 15) == 128 * (128 * VarintCap(1, 15));
    assert VarintCap(5, 15) == 128 * (128 * VarintCap(3, 15));
  }

  function TakeUint16(s: seq<uint8>): (p: Parsed<uint16>)
    ensures p.Parsed? ==> |p.rest| < |s|
  {
    var (v, rest) :- TakeVarint(s, 3, 3);
    VarintCaps();
    VarintInRange(s, 3, 3);
    Parsed(v, rest)
  }

  function TakeUint32(s: seq<uint8>): (p: Parsed<uint32>)
    ensures p.Parsed? ==> |p.rest| < |s|
  {
    var (v, rest) :- TakeVarint(s, 5, 15);
    VarintCaps();
    VarintInRange(s, 5, 15);
    Parsed(v, rest)
  }

  function TakeUint64(s: seq<uint8>): (p: Parsed<uint64>)
    ensures p.Parsed? ==> |p.rest| < |s|
  {
    var (v, rest) :- TakeVarint(s, 10, 1);
    VarintCaps();
    VarintInRange(s, 10, 1);
    Parsed(v, rest)
  }

  lemma UintRoundTrip(v: uint64, s: seq<uint8>)
    ensures v < 0x1_0000 ==> TakeUint16(PutVarint(v) + s) == Parsed(v, s)
    ensures v < 0x1_0000_0000 ==> TakeUint32(PutVarint(v) + s) == Parsed(v, s)
    ensures TakeUint64(PutVarint(v) + s) == Parsed(v, s)
  {
    VarintCaps();
    if v < 0x1_0000 { VarintRoundTrip(v, 3, 3, s); }
    if v < 0x1_0000_0000 { VarintRoundTrip(v, 5, 15, s); }
    VarintRoundTrip(v, 10, 1, s);
  }

  lemma {:induction false} VarintLength(v: nat, left: nat, last: uint8)
    requires v < VarintCap(left, last) && last < 128
    ensures 1 <= |PutVarint(v)| <= left
    decreases left
  {
    if v >= 128 {
      VarintLength(v / 128, left - 1, last);
    }
  }

  lemma UintLength(v: uint64)
    ensures 1 <= |PutVarint(v)| <= 10
    ensures v < 0x1_0000_0000 ==> |PutVarint(v)| <= 5
  {
    VarintCaps();
    VarintLength(v, 10, 1);
    if v < 0x1_0000_0000 {
      VarintLength(v, 5, 15);
    }
  }

  // ---------------------------------------------------- bytes, flags, options

  function TakeRaw(s: seq<uint8>, n: nat): (p: Parsed<seq<uint8>>)
    ensures p.Parsed? ==> |p.value| == n && |p.rest| + n == |s|
  {
    if |s| < n then Failed else Parsed(s[..n], s[n..])
  }

  lemma RawRoundTrip(b: seq<uint8>, s: seq<uint8>)
    ensures TakeRaw(b + s, |b|) == Parsed(b, s)
  {
    assert (b + s)[..|b|] == b;
    assert (b + s)[|b|..] == s;
  }

  function PutBool(b: bool): seq<uint8> { if b then [1] else [0] }

  function TakeBool(s: seq<uint8>): Parsed<bool> {
    if s == [] || s[0] > 1 then Failed else Parsed(s[0] == 1, s[1..])
  }

  lemma BoolRoundTrip(b: bool, s: seq<uint8>)
    ensures TakeBool(PutBool(b) + s) == Parsed(b, s)
  {
    assert (PutBool(b) + s)[1..] == s;
  }

  function PutBlob(b: seq<uint8>): seq<uint8> { PutVarint(|b|) + b }

  function TakeBlob(s: seq<uint8>): Parsed<seq<uint8>> {
    var (n, rest) :- TakeUint64(s);
    TakeRaw(rest, n)
  }

  lemma BlobRoundTrip(b: seq<uint8>, s: seq<uint8>)
    requires |b| < 0x1_0000_0000_0000_0000
    ensures TakeBlob(PutBlob(b) + s) == Parsed(b, s)
  {
    Associate(PutVarint(|b|), b, s);
    UintRoundTrip(|b|, b + s);
    RawRoundTrip(b, s);
  }

  // ---------------------------------------------------------------- strings

  predicate Continuation(b: uint8) { 0x80 <= b <= 0xBF }

  /** The length of the well-formed UTF-8 character at the front of s, or 0 (section 4 of RFC 3629). */
  function Utf8CharLength(s: seq<uint8>): (n: nat)
    ensures n <= 4 && n <= |s|
  {
    if s == [] then 0
    else if s[0] <= 0x7F then 1
    else if |s| >= 2 && 0xC2 <= s[0] <= 0xDF && Continuation(s[1]) then 2
    else if |s| >= 3 && Continuation(s[2]) &&
            ((s[0] == 0xE0 && 0xA0 <= s[1] <= 0xBF) ||
             (0xE1 <= s[0] <= 0xEF && s[0] != 0xED && Continuation(s[1])) ||
             (s[0] == 0xED && 0x80 <= s[1] <= 0x9F)) then 3
    else if |s| >= 4 && Continuation(s[2]) && Continuation(s[3]) &&
            ((s[0] == 0xF0 && 0x90 <= s[1] <= 0xBF) ||
             (0xF1 <= s[0] <= 0xF3 && Continuation(s[1])) ||
             (s[0] == 0xF4 && 0x80 <= s[1] <= 0x8F)) then 4
    else 0
  }

  predicate ValidUtf8(s: seq<uint8>) {
    s == [] || (Utf8CharLength(s) > 0 && ValidUtf8(s[Utf8CharLength(s)..]))
  }

  /** A Rust `String`, as the bytes it holds. */
  type Utf8String = s: seq<uint8> | ValidUtf8(s) && |s| < 0x1_0000_0000_0000_0000

  function TakeString(s: seq<uint8>): Parsed<Utf8String> {
    var (b, rest) :- TakeBlob(s);
    if ValidUtf8(b) then Parsed(b, rest) else Failed
  }

  lemma StringRoundTrip(t: Utf8String, s: seq<uint8>)
    ensures TakeString(PutBlob(t) + s) == Parsed(t, s)
  {
    BlobRoundTrip(t, s);
  }
}
