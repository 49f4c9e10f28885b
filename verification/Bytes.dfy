/** Fixed-width machine integers, byte strings, and big-endian integers. */
module Bytes {
  type uint8 = x: int | 0 <= x < 0x100
  type uint16 = x: int | 0 <= x < 0x1_0000
  type uint32 = x: int | 0 <= x < 0x1_0000_0000
  type uint64 = x: int | 0 <= x < 0x1_0000_0000_0000_0000

  const U32_MAX: uint32 := 0xFFFF_FFFF
  const U64_MAX: uint64 := 0xFFFF_FFFF_FFFF_FFFF

  /** 256 to the power n: the first value that no longer fits in n bytes. */
  function Pow256(n: nat): (p: nat)
    ensures p > 0
  {
    if n == 0 then 1 else 256 * Pow256(n - 1)
  }

  lemma WordSizes()
    ensures Pow256(4) == 0x1_0000_0000
    ensures Pow256(8) == 0x1_0000_0000_0000_0000
  {
    assert Pow256(2) == 0x1_0000;
    assert Pow256(4) == 256 * (256 * Pow256(2));
    assert Pow256(6) == 256 * (256 * Pow256(4));
    assert Pow256(8) == 256 * (256 * Pow256(6));
  }

  /** The n low-order bytes of v, most significant byte first. */
  function ToBe(v: nat, n: nat): (s: seq<uint8>)
    ensures |s| == n
  {
    if n == 0 then [] else ToBe(v / 256, n - 1) + [v % 256]
  }

  /** The value whose big-endian bytes are s. */
  function FromBe(s: seq<uint8>): (v: nat)
    ensures v < Pow256(|s|)
  {
    if s == [] then 0 else 256 * FromBe(s[..|s| - 1]) + s[|s| - 1]
  }

  lemma {:induction false} BeRoundTrip(v: nat, n: nat)
    requires v < Pow256(n)
    ensures FromBe(ToBe(v, n)) == v
  {
    if n > 0 {
      BeRoundTrip(v / 256, n - 1);
      assert ToBe(v, n)[..n - 1] == ToBe(v / 256, n - 1);
    }
  }

  /** Byte i of n is the digit of 256 to the power n - 1 - i: the most significant byte comes first. */
  lemma {:induction false} BeDigits(v: nat, n: nat, i: nat)
    requires i < n
    ensures ToBe(v, n)[i] == v / Pow256(n - 1 - i) % 256
  {
    if i < n - 1 {
      BeDigits(v / 256, n - 1, i);
      DivDiv(v, 256, Pow256(n - 2 - i));
    }
  }

  lemma DivDiv(v: nat, k: nat, b: nat)
    requires k > 0 && b > 0
    ensures k * b > 0 && v / k / b == v / (k * b)
  {
    var q := v / k;
    DivModIs(v, k);
    DivModIs(q, b);
    Regroup(k, b, q / b, q % b);
    Below(k, q % b, b, v % k);
    DivModUnique(v, k * b, q / b, k * (q % b) + v % k);
  }

  lemma DivModIs(x: nat, m: nat)
    requires m > 0
    ensures x == (x / m) * m + x % m && x % m < m
  {
  }

  lemma Regroup(k: nat, b: nat, t: nat, u: nat)
    ensures (t * b + u) * k == t * (k * b) + k * u
  {
  }

  lemma Below(k: nat, u: nat, b: nat, r: nat)
    requires u < b && r < k
    ensures k * b > 0 && k * u + r < k * b
  {
    MulSteps(b - u, k);
    assert (b - u) * k == k * b - k * u;
    MulSteps(u, k);
  }

  lemma DivModUnique(x: nat, m: nat, q: nat, r: nat)
    requires m > 0 && r < m && x == q * m + r
    ensures x / m == q && x % m == r
  {
    assert x == m * (x / m) + x % m;
    assert (x / m - q) * m == r - x % m;
    MulSteps(x / m - q, m);
  }

  lemma MulSteps(d: int, m: nat)
    ensures d >= 0 ==> d * m >= 0
    ensures d >= 1 ==> d * m >= m
    ensures d <= -1 ==> d * m + m <= 0
  {
    assert d >= 1 ==> (d - 1) * m >= 0;
    assert d <= -1 ==> (d + 1) * m <= 0;
  }

  lemma {:induction false} BeCanonical(s: seq<uint8>)
    ensures ToBe(FromBe(s), |s|) == s
  {
    if s != [] {
      BeCanonical(s[..|s| - 1]);
      assert s == s[..|s| - 1] + [s[|s| - 1]];
    }
  }

  /** The concatenation of a list of byte strings. */
  function Flatten(parts: seq<seq<uint8>>): seq<uint8> {
    if parts == [] then [] else parts[0] + Flatten(parts[1..])
  }

  lemma Associate<T>(a: seq<T>, b: seq<T>, c: seq<T>)
    ensures (a + b) + c == a + (b + c)
  {
    assert (a + b) + c == a + (b + c);
  }
}
