/** Rejection sampling gives every code the same number of raw values. */
module Sampling {
  import opened Wrappers
  import opened Bytes
  import opened Handshake

  /** The threshold is the largest multiple of the modulus that does not exceed the bound. */
  lemma LargestMultiple(n: nat, m: nat, k: nat)
    requires m > 0
    ensures (n / m) * m <= n
    ensures k * m <= n ==> k * m <= (n / m) * m
  {
    var q := n / m;
    assert n == m * q + n % m;
    assert (k - q) * m == k * m - q * m;
    MulSteps(k - q, m);
    MulSteps(q - k, m);
    assert (q - k) * m == q * m - k * m;
  }

  /** The raw values below q * m that reduce to one of the given residues. */
  function Preimages(q: nat, m: nat, residues: set<nat>): set<nat>
    requires m > 0
  {
    set r: nat | 0 <= r < q * m && r % m in residues
  }

  lemma LastBlock(q: nat, m: nat, c: nat, base: nat, r: nat)
    requires c < m && base == q * m && base <= r < base + m
    ensures r % m == c <==> r == base + c
  {
    DivModUnique(r, m, q, r - base);
  }

  lemma {:induction false} PreimagesOfOne(q: nat, m: nat, c: nat)
    requires c < m
    ensures |Preimages(q, m, {c})| == q
  {
    if q == 0 {
      assert Preimages(q, m, {c}) == {};
    } else {
      PreimagesOfOne(q - 1, m, c);
      var base := (q - 1) * m;
      assert q * m == base + m;
      forall r: nat | base <= r < base + m ensures r % m == c <==> r == base + c {
        LastBlock(q - 1, m, c, base, r);
      }
      OneMore(Preimages(q, m, {c}), Preimages(q - 1, m, {c}), base, m, c);
    }
  }

  lemma OneMore(after: set<nat>, before: set<nat>, base: nat, m: nat, c: nat)
    requires c < m && forall r: nat | base <= r < base + m :: r % m == c <==> r == base + c
    requires after == set r: nat | 0 <= r < base + m && r % m in {c}
    requires before == set r: nat | 0 <= r < base && r % m in {c}
    ensures |after| == |before| + 1
  {
    assert after == before + {base + c};
  }

  /** Each residue below the modulus has exactly q raw values below q * m. */
  lemma {:induction false} PreimageCount(q: nat, m: nat, residues: set<nat>)
    requires m > 0 && forall c :: c in residues ==> c < m
    ensures |Preimages(q, m, residues)| == |residues| * q
  {
    if residues == {} {
      assert Preimages(q, m, residues) == {};
    } else {
      var c :| c in residues;
      PreimageCount(q, m, residues - {c});
      PreimagesOfOne(q, m, c);
      PreimagesSplit(q, m, residues, c);
      assert |residues| * q == |residues - {c}| * q + q;
    }
  }

  lemma PreimagesSplit(q: nat, m: nat, residues: set<nat>, c: nat)
    requires m > 0 && c in residues
    ensures |Preimages(q, m, residues)| == |Preimages(q, m, residues - {c})| + |Preimages(q, m, {c})|
  {
    var others, one := Preimages(q, m, residues - {c}), Preimages(q, m, {c});
    assert Preimages(q, m, residues) == others + one;
    assert others !! one;
  }

  /** Any set of codes is hit by exactly 4294 accepted raw values per code. */
  lemma SamplerIsUniform(codes: set<nat>)
    requires forall c :: c in codes ==> c < PAIRING_CODE_MODULUS
    ensures |set raw: nat | 0 <= raw < RESAMPLE_THRESHOLD && raw % PAIRING_CODE_MODULUS in codes| == |codes| * 4294
    ensures RESAMPLE_THRESHOLD == 4294 * PAIRING_CODE_MODULUS
    ensures RESAMPLE_THRESHOLD <= U32_MAX < RESAMPLE_THRESHOLD + PAIRING_CODE_MODULUS
  {
    PreimageCount(4294, PAIRING_CODE_MODULUS, codes);
    assert (set raw: nat | 0 <= raw < RESAMPLE_THRESHOLD && raw % PAIRING_CODE_MODULUS in codes)
        == Preimages(4294, PAIRING_CODE_MODULUS, codes);
  }

  function ToLe(raw: uint32): FourBytes {
    [raw % 256, raw / 256 % 256, raw / 256 / 256 % 256, raw / 256 / 256 / 256]
  }

  /** Four random bytes and a raw value determine each other. */
  lemma LeBijection(raw: uint32, b: FourBytes)
    ensures FromLe(ToLe(raw)) == raw
    ensures ToLe(FromLe(b)) == b
    ensures FromLe([0x78, 0x56, 0x34, 0x12]) == 0x1234_5678
  {
    var v2 := b[2] as int + 256 * (b[3] as int);
    var v1 := b[1] as int + 256 * v2;
    assert FromLe(b) / 256 == v1 && v1 / 256 == v2 && v2 / 256 == b[3];
  }

  /** The sampled code comes from the first draw below the threshold, all draws before it having worked. */
  lemma {:induction false} SampledIsFirstAccepted(draws: seq<Draw>, i: nat)
    requires i < |draws| && draws[i].Drawn? && FromLe(draws[i].bytes) < RESAMPLE_THRESHOLD
    requires forall j :: 0 <= j < i ==> draws[j].Drawn? && FromLe(draws[j].bytes) >= RESAMPLE_THRESHOLD
    ensures SampledCode(draws) == Ok(FromLe(draws[i].bytes) % PAIRING_CODE_MODULUS)
  {
    if i > 0 {
      SampledIsFirstAccepted(draws[1..], i - 1);
    }
  }
}
