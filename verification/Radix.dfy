/** Numbers and their digits in a base, most significant digit first. */
module Radix {

  /** Integer division by its defining property. */
  function Quotient(m: nat, p: nat): (q: nat)
    requires p > 0
    ensures q * p <= m < q * p + p
  {
    m / p
  }

  function Remainder(m: nat, p: nat): (r: nat)
    requires p > 0
    ensures r < p && m == Quotient(m, p) * p + r
  {
    m - Quotient(m, p) * p
  }

  lemma Mul(a: int, b: int, p: nat)
    ensures a <= b ==> a * p <= b * p
  {
  }

  lemma QuotientBounds(m: nat, p: nat, a: nat, b: nat)
    requires p > 0 && a * p <= m < b * p
    ensures a <= Quotient(m, p) < b
  {
    Mul(Quotient(m, p) + 1, a, p);
    Mul(b, Quotient(m, p), p);
  }

  lemma QuotientSmaller(m: nat, p: nat)
    requires p > 1 && m > 0
    ensures Quotient(m, p) < m
  {
    var q := Quotient(m, p);
    assert q * 2 <= q * p;
  }

  lemma Division(q: nat, r: nat, base: nat)
    requires r < base
    ensures Quotient(q * base + r, base) == q && Remainder(q * base + r, base) == r
  {
    QuotientBounds(q * base + r, base, q, q + 1);
  }

  /** The number that the first n digits stand for. */
  function Value(ds: seq<nat>, n: nat, base: nat): nat
    requires n <= |ds|
  {
    if n == 0 then 0 else Value(ds, n - 1, base) * base + ds[n - 1]
  }

  /** The digits of a number, without leading zeros. */
  function Digits(n: nat, base: nat): seq<nat>
    requires base > 1
  {
    if n == 0 then [] else
      QuotientSmaller(n, base);
      Digits(Quotient(n, base), base) + [Remainder(n, base)]
  }

  predicate AllBelow(ds: seq<nat>, base: nat) {
    forall i :: 0 <= i < |ds| ==> ds[i] < base
  }

  predicate NoLeadingZero(ds: seq<nat>) {
    ds == [] || ds[0] != 0
  }

  function Zeros(n: nat): seq<nat> {
    seq(n, i => 0)
  }

  /** How many of the first digits are zero. */
  function LeadingZeros(ds: seq<nat>): (k: nat)
    ensures k <= |ds| && (forall i :: 0 <= i < k ==> ds[i] == 0) && (k < |ds| ==> ds[k] != 0)
    decreases |ds|
  {
    if ds == [] || ds[0] != 0 then 0 else 1 + LeadingZeros(ds[1..])
  }

  function Reversed<T>(s: seq<T>): (r: seq<T>)
    ensures |r| == |s| && forall i :: 0 <= i < |s| ==> r[i] == s[|s| - 1 - i]
  {
    seq(|s|, i requires 0 <= i < |s| => s[|s| - 1 - i])
  }

  lemma ReversedTwice<T>(s: seq<T>)
    ensures Reversed(Reversed(s)) == s
  {
  }

  lemma {:induction false} DigitsAre(n: nat, base: nat)
    requires base > 1
    ensures AllBelow(Digits(n, base), base) && NoLeadingZero(Digits(n, base))
    ensures n > 0 ==> Digits(n, base) != []
  {
    if n > 0 {
      QuotientSmaller(n, base);
      DigitsAre(Quotient(n, base), base);
    }
  }

  lemma {:induction false} ValuePrefix(ds: seq<nat>, es: seq<nat>, n: nat, base: nat)
    requires n <= |ds| && n <= |es| && forall i :: 0 <= i < n ==> ds[i] == es[i]
    ensures Value(ds, n, base) == Value(es, n, base)
  {
    if n > 0 {
      ValuePrefix(ds, es, n - 1, base);
    }
  }

  lemma {:induction false} ValueOfDigits(n: nat, base: nat)
    requires base > 1
    ensures Value(Digits(n, base), |Digits(n, base)|, base) == n
  {
    if n > 0 {
      QuotientSmaller(n, base);
      var front := Digits(Quotient(n, base), base);
      ValueOfDigits(Quotient(n, base), base);
      ValuePrefix(Digits(n, base), front, |front|, base);
    }
  }

  lemma {:induction false} DigitsOfValue(ds: seq<nat>, n: nat, base: nat)
    requires base > 1 && n <= |ds| && AllBelow(ds, base) && NoLeadingZero(ds)
    ensures Digits(Value(ds, n, base), base) == ds[..n]
  {
    if n > 0 {
      DigitsOfValue(ds, n - 1, base);
      Division(Value(ds, n - 1, base), ds[n - 1], base);
      if Value(ds, n, base) == 0 {
        ValuePositive(ds, n, base);
      }
      assert ds[..n] == ds[..n - 1] + [ds[n - 1]];
    }
  }

  lemma {:induction false} ValuePositive(ds: seq<nat>, n: nat, base: nat)
    requires base > 1 && 0 < n <= |ds| && ds[0] != 0
    ensures Value(ds, n, base) > 0
  {
    if n > 1 {
      ValuePositive(ds, n - 1, base);
      assert Value(ds, n - 1, base) * base > 0;
    }
  }

  /** Leading zeros do not count. */
  lemma {:induction false} ValueSkipsZeros(ds: seq<nat>, k: nat, n: nat, base: nat)
    requires k <= n <= |ds| && forall i :: 0 <= i < k ==> ds[i] == 0
    ensures Value(ds, n, base) == Value(ds[k..], n - k, base)
  {
    if n > k {
      ValueSkipsZeros(ds, k, n - 1, base);
    } else if n > 0 {
      ValueSkipsZeros(ds, k - 1, n - 1, base);
      assert Value(ds[k - 1..], 0, base) == 0;
    }
  }

  /** A digit string is its leading zeros and the digits of its value. */
  lemma ZerosAndDigits(ds: seq<nat>, base: nat)
    requires base > 1 && AllBelow(ds, base)
    ensures ds == Zeros(LeadingZeros(ds)) + Digits(Value(ds, |ds|, base), base)
  {
    var k := LeadingZeros(ds);
    SplitZeros(ds, k);
    AfterZeros(ds, k, ds[k..], base);
  }

  lemma AfterZeros(ds: seq<nat>, k: nat, rest: seq<nat>, base: nat)
    requires base > 1 && AllBelow(ds, base) && k <= |ds| && (forall i :: 0 <= i < k ==> ds[i] == 0)
    requires rest == ds[k..] && NoLeadingZero(rest)
    ensures Digits(Value(ds, |ds|, base), base) == rest
  {
    var n := |rest|;
    ValueSkipsZeros(ds, k, |ds|, base);
    DigitsOfValue(rest, n, base);
    assert rest[..n] == rest;
  }

  lemma SplitZeros(ds: seq<nat>, k: nat)
    requires k <= |ds| && forall i :: 0 <= i < k ==> ds[i] == 0
    ensures ds == Zeros(k) + ds[k..]
  {
  }

  lemma {:induction false} CountZeros(ds: seq<nat>, k: nat)
    requires k <= |ds| && (forall i :: 0 <= i < k ==> ds[i] == 0) && (k < |ds| ==> ds[k] != 0)
    ensures LeadingZeros(ds) == k
    decreases k
  {
    if k > 0 {
      CountZeros(ds[1..], k - 1);
    }
  }

  /** And every such combination is a digit string with as many leading zeros and that value. */
  lemma PutTogether(k: nat, n: nat, base: nat)
    requires base > 1
    ensures var ds := Zeros(k) + Digits(n, base);
            LeadingZeros(ds) == k && Value(ds, |ds|, base) == n && AllBelow(ds, base)
  {
    var ds := Zeros(k) + Digits(n, base);
    DigitsAre(n, base);
    CountZeros(ds, k);
    ValueSkipsZeros(ds, k, |ds|, base);
    assert ds[k..] == Digits(n, base);
    ValueOfDigits(n, base);
  }
}
