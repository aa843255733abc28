/** The easiest target a block may claim after some time. */
module MinWork {
  import opened Radix
  import opened BigNum

  function Pow4(n: nat): (r: nat)
    ensures r > 0 && (n == 0 ==> r == 1) && (n == 1 ==> r == 4)
  {
    if n == 0 then 1 else 4 * Pow4(n - 1)
  }

  function Min(a: int, b: int): (m: int)
    ensures m <= a && m <= b && (m == a || m == b)
  {
    if a < b then a else b
  }

  /** How often the target may quadruple in a time: once for every four timespans begun. */
  function Steps(nTime: int, nTargetTimespan: nat): (n: nat)
    requires nTargetTimespan > 0
    ensures if nTime <= 0 then n == 0 else (n - 1) * (4 * nTargetTimespan) < nTime <= n * (4 * nTargetTimespan)
  {
    if nTime <= 0 then 0 else Quotient(nTime + 4 * nTargetTimespan - 1, 4 * nTargetTimespan)
  }

  lemma OneStep(nTime: int, nTargetTimespan: nat)
    requires nTargetTimespan > 0 && nTime > 0
    ensures Steps(nTime, nTargetTimespan) == 1 + Steps(nTime - 4 * nTargetTimespan, nTargetTimespan)
  {
    var d := 4 * nTargetTimespan;
    OneMore(nTime - 1, d);
    if nTime <= d {
      QuotientBounds(nTime - 1, d, 0, 1);
    }
  }

  lemma OneMore(m: nat, p: nat)
    requires p > 0
    ensures Quotient(m + p, p) == Quotient(m, p) + 1
  {
    QuotientBounds(m + p, p, Quotient(m, p) + 1, Quotient(m, p) + 2);
  }

  lemma {:induction false} Pow4Monotone(a: nat, b: nat)
    requires a <= b
    ensures Pow4(a) <= Pow4(b)
    decreases b
  {
    if a < b {
      Pow4Monotone(a, b - 1);
    }
  }

  datatype Chain = Chain(fTestNet: bool, nTargetSpacing: nat, nTargetTimespan: nat, limit: nat)

  predicate MinDifficultyAllowed(chain: Chain, nTime: int) {
    chain.fTestNet && nTime > chain.nTargetSpacing * 2
  }

  /** The easiest target, before it is encoded. */
  function EasiestTarget(chain: Chain, base: int, nTime: int): int
    requires chain.nTargetTimespan > 0
  {
    if MinDifficultyAllowed(chain, nTime) then chain.limit
    else Min(chain.limit, base * Pow4(Steps(nTime, chain.nTargetTimespan)))
  }

  /** The encoding of the easiest target a block may claim nTime after one with target nBase. */
  method ComputeMinWork(chain: Chain, nBase: nat, nTimeIn: int) returns (nCompact: nat)
    requires chain.nTargetTimespan > 0 && nBase < UINT
    ensures nCompact == Compact(EasiestTarget(chain, Decoded(nBase), nTimeIn))
    ensures chain.fTestNet && nTimeIn > 2 * chain.nTargetSpacing ==> nCompact == Compact(chain.limit)
    ensures !chain.fTestNet || nTimeIn <= 2 * chain.nTargetSpacing ==>
              nCompact == Compact(Min(chain.limit, Decoded(nBase) * Pow4(Steps(nTimeIn, chain.nTargetTimespan))))
  {
    var nTime := nTimeIn;
    var bnResult := new CBigNum(chain.limit);
    if chain.fTestNet && nTime > chain.nTargetSpacing * 2 {
      nCompact := bnResult.GetCompact();
      return;
    }
    bnResult.SetCompact(nBase);
    ghost var base := Decoded(nBase);
    ghost var steps := Steps(nTime, chain.nTargetTimespan);
    ghost var target := Min(chain.limit, base * Pow4(steps));
    while nTime > 0 && bnResult.value < chain.limit
      invariant Min(chain.limit, bnResult.value * Pow4(Steps(nTime, chain.nTargetTimespan))) == target
      decreases nTime
    {
      OneStep(nTime, chain.nTargetTimespan);
      FourTimes(bnResult.value, Steps(nTime - 4 * chain.nTargetTimespan, chain.nTargetTimespan));
      bnResult.value := bnResult.value * 4;
      nTime := nTime - chain.nTargetTimespan * 4;
    }
    AtLimit(chain.limit, bnResult.value, Steps(nTime, chain.nTargetTimespan));
    if bnResult.value > chain.limit {
      bnResult.value := chain.limit;
    }
    nCompact := bnResult.GetCompact();
  }

  lemma FourTimes(x: int, n: nat)
    ensures x * Pow4(n + 1) == (x * 4) * Pow4(n)
  {
  }

  /** Once at the limit, further steps change nothing. */
  lemma AtLimit(limit: nat, x: int, n: nat)
    ensures x >= limit ==> Min(limit, x * Pow4(n)) == limit
    ensures n == 0 ==> x * Pow4(n) == x
  {
    if x >= limit {
      Mul(1, Pow4(n), x);
    }
  }

  lemma ExponentMonotone(m: nat, n: nat)
    requires m <= n
    ensures Exponent(m) <= Exponent(n)
  {
    NumBytesMonotone(2 * m, 2 * n);
  }

  lemma EasiestIsEncodable(chain: Chain, base: nat, nTime: int)
    requires chain.nTargetTimespan > 0 && Encodable(chain.limit)
    ensures 0 <= EasiestTarget(chain, base, nTime) <= chain.limit
    ensures Encodable(EasiestTarget(chain, base, nTime))
  {
    Mul(0, base, Pow4(Steps(nTime, chain.nTargetTimespan)));
    ExponentMonotone(EasiestTarget(chain, base, nTime), chain.limit);
  }

  /** For a target that is not negative, the encoding returned decodes to at most the limit. */
  lemma MinWorkWithinLimit(chain: Chain, base: nat, nTime: int)
    requires chain.nTargetTimespan > 0 && Encodable(chain.limit)
    ensures 0 <= Decoded(Compact(EasiestTarget(chain, base, nTime))) <= chain.limit
  {
    EasiestIsEncodable(chain, base, nTime);
    CompactIsClose(EasiestTarget(chain, base, nTime));
  }

  lemma StepsMonotone(s: int, t: int, nTargetTimespan: nat)
    requires nTargetTimespan > 0 && s <= t
    ensures Steps(s, nTargetTimespan) <= Steps(t, nTargetTimespan)
    decreases if s > 0 then s else 0
  {
    if s > 0 {
      OneStep(s, nTargetTimespan);
      OneStep(t, nTargetTimespan);
      StepsMonotone(s - 4 * nTargetTimespan, t - 4 * nTargetTimespan, nTargetTimespan);
    }
  }

  /** The longer the time, the easier the target may be. */
  lemma MinWorkMonotone(chain: Chain, base: nat, s: int, t: int)
    requires chain.nTargetTimespan > 0 && Encodable(chain.limit) && s <= t
    ensures Decoded(Compact(EasiestTarget(chain, base, s))) <= Decoded(Compact(EasiestTarget(chain, base, t)))
  {
    EasiestIsEncodable(chain, base, s);
    EasiestIsEncodable(chain, base, t);
    var m, n := Steps(s, chain.nTargetTimespan), Steps(t, chain.nTargetTimespan);
    StepsMonotone(s, t, chain.nTargetTimespan);
    Pow4Monotone(m, n);
    Mul(Pow4(m), Pow4(n), base);
    assert base * Pow4(m) <= base * Pow4(n);
    CompactIsMonotone(EasiestTarget(chain, base, s), EasiestTarget(chain, base, t));
  }
}
