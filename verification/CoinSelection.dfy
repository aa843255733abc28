/** Choosing coins to spend: the randomised subset sum, and the three attempts of SelectCoins. */
module CoinSelection {
  import opened Options

  const CENT: int := 1000000
  const INT64_MAX: int := 0x7FFF_FFFF_FFFF_FFFF

  /** An output of a wallet transaction, with what the wallet knows of it. */
  datatype Output = Output(tx: nat, i: nat, value: int, depth: int, fromMe: bool)

  /** A wallet transaction and its outputs. */
  datatype WalletTx = WalletTx(
    isFinal: bool, isConfirmed: bool, isCoinBase: bool, blocksToMaturity: int, depth: int, fromMe: bool, vout: seq<TxOut>)
  datatype TxOut = TxOut(value: int, isSpent: bool, isMine: bool, isLocked: bool)

  predicate Eligible(o: Output, nConfMine: int, nConfTheirs: int) {
    o.depth >= if o.fromMe then nConfMine else nConfTheirs
  }

  predicate NoDuplicates<T(==)>(s: seq<T>) {
    forall i, j :: 0 <= i < j < |s| ==> s[i] != s[j]
  }

  function EligibleSet(vCoins: seq<Output>, nConfMine: int, nConfTheirs: int): (eligible: set<Output>)
    ensures forall o :: o in eligible <==>
                          o in vCoins && (o.fromMe ==> nConfMine <= o.depth) && (!o.fromMe ==> nConfTheirs <= o.depth)
  {
    set o | o in vCoins && Eligible(o, nConfMine, nConfTheirs)
  }

  /** Amounts are positive, and far from the largest integer. */
  predicate Amounts(vCoins: seq<Output>) {
    forall o :: o in vCoins ==> 0 < o.value < INT64_MAX
  }

  // ---- Sums ----

  ghost function Sum(coins: set<Output>): int {
    if coins == {} then 0 else
      var o :| o in coins;
      o.value + Sum(coins - {o})
  }

  lemma {:induction false} SumWithout(coins: set<Output>, o: Output)
    requires o in coins
    ensures Sum(coins) == o.value + Sum(coins - {o})
  {
    var p :| p in coins && Sum(coins) == p.value + Sum(coins - {p});
    if p != o {
      SumWithout(coins - {p}, o);
      SumWithout(coins - {o}, p);
      assert coins - {p} - {o} == coins - {o} - {p};
    }
  }

  lemma SumWith(coins: set<Output>, o: Output)
    requires o !in coins
    ensures Sum(coins + {o}) == Sum(coins) + o.value
  {
    SumWithout(coins + {o}, o);
    assert coins + {o} - {o} == coins;
  }

  lemma {:induction false} SumOfSubset(part: set<Output>, coins: set<Output>)
    requires part <= coins && forall o :: o in coins ==> o.value >= 0
    ensures Sum(part) <= Sum(coins)
    decreases coins
  {
    if part == coins {
    } else {
      var o :| o in coins && o !in part;
      SumWithout(coins, o);
      SumOfSubset(part, coins - {o});
    }
  }

  /** The value of the coins picked among the first n. */
  function Picked(vValue: seq<Output>, vf: seq<bool>, n: nat): int
    requires n <= |vValue| == |vf|
  {
    if n == 0 then 0 else Picked(vValue, vf, n - 1) + if vf[n - 1] then vValue[n - 1].value else 0
  }

  function PickedSet(vValue: seq<Output>, vf: seq<bool>, n: nat): set<Output>
    requires n <= |vValue| == |vf|
  {
    if n == 0 then {} else PickedSet(vValue, vf, n - 1) + if vf[n - 1] then {vValue[n - 1]} else {}
  }

  lemma {:induction false} PickedMembers(vValue: seq<Output>, vf: seq<bool>, n: nat)
    requires n <= |vValue| == |vf|
    ensures forall o :: o in PickedSet(vValue, vf, n) <==> exists i :: 0 <= i < n && vf[i] && vValue[i] == o
  {
    if n > 0 {
      PickedMembers(vValue, vf, n - 1);
    }
  }

  lemma {:induction false} PickedIsSum(vValue: seq<Output>, vf: seq<bool>, n: nat)
    requires n <= |vValue| == |vf| && NoDuplicates(vValue)
    ensures Sum(PickedSet(vValue, vf, n)) == Picked(vValue, vf, n)
  {
    if n > 0 {
      PickedIsSum(vValue, vf, n - 1);
      PickedMembers(vValue, vf, n - 1);
      if vf[n - 1] {
        SumWith(PickedSet(vValue, vf, n - 1), vValue[n - 1]);
      } else {
        assert PickedSet(vValue, vf, n) == PickedSet(vValue, vf, n - 1);
      }
    }
  }

  lemma {:induction false} PickedUpdate(vValue: seq<Output>, vf: seq<bool>, i: nat, b: bool, n: nat)
    requires i < |vValue| == |vf| && n <= |vf|
    ensures Picked(vValue, vf[i := b], n)
         == Picked(vValue, vf, n) + if i < n then (if b then vValue[i].value else 0) - (if vf[i] then vValue[i].value else 0) else 0
  {
    if n > 0 {
      PickedUpdate(vValue, vf, i, b, n - 1);
    }
  }

  function All(n: nat, b: bool): seq<bool> {
    seq(n, i => b)
  }

  lemma {:induction false} NonePicked(vValue: seq<Output>, n: nat)
    requires n <= |vValue|
    ensures Picked(vValue, All(|vValue|, false), n) == 0
  {
    if n > 0 {
      NonePicked(vValue, n - 1);
    }
  }

  function SetOf(vValue: seq<Output>): set<Output> {
    set o | o in vValue
  }

  lemma AllPicked(vValue: seq<Output>)
    requires NoDuplicates(vValue)
    ensures Picked(vValue, All(|vValue|, true), |vValue|) == Sum(SetOf(vValue))
  {
    var all := All(|vValue|, true);
    PickedMembers(vValue, all, |vValue|);
    PickedIsSum(vValue, all, |vValue|);
    assert PickedSet(vValue, all, |vValue|) == SetOf(vValue);
  }

  lemma {:induction false} PickedAtMost(vValue: seq<Output>, vf: seq<bool>, n: nat)
    requires n <= |vValue| == |vf| && forall j :: 0 <= j < |vValue| ==> vValue[j].value >= 0
    ensures Picked(vValue, vf, n) <= Picked(vValue, All(|vValue|, true), n)
  {
    if n > 0 {
      PickedAtMost(vValue, vf, n - 1);
    }
  }

  lemma {:induction false} SomePicked(vValue: seq<Output>, vf: seq<bool>, n: nat) returns (i: nat)
    requires n <= |vValue| == |vf| && Picked(vValue, vf, n) > 0
    ensures i < n && vf[i]
  {
    i := n - 1;
    if !vf[i] {
      i := SomePicked(vValue, vf, n - 1);
    }
  }

  // ---- The stochastic subset sum ----

  /** Of the coins picked there is one without which they would not reach the target. */
  ghost predicate Tight(vValue: seq<Output>, vf: seq<bool>, nTotal: int, nTarget: int)
    requires |vf| == |vValue|
  {
    exists i :: 0 <= i < |vf| && vf[i] && nTotal - vValue[i].value < nTarget
  }

  predicate AllPositive(vValue: seq<Output>) {
    forall j :: 0 <= j < |vValue| ==> vValue[j].value > 0
  }

  /** A best set that some repetition may have found, or all coins. */
  ghost predicate Found(vValue: seq<Output>, vf: seq<bool>, nTotal: int, nTarget: int) {
    |vf| == |vValue| && nTotal == Picked(vValue, vf, |vValue|) && nTotal >= nTarget
  }

  /** The state of a repetition: a subset below the target, the best set so far, and, once the target was reached, one
      coin that cannot be left out of the best. */
  ghost predicate Trying(
    vValue: seq<Output>, nTarget: int, vfIncluded: seq<bool>, nTotal: int, fReachedTarget: bool,
    vfBest: seq<bool>, nBest: int, bestValue: int)
  {
    && |vfIncluded| == |vValue| && nTotal == Picked(vValue, vfIncluded, |vValue|)
    && Found(vValue, vfBest, nBest, nTarget) && nBest <= bestValue
    && (AllPositive(vValue) && nTarget > 0 ==>
          && nTotal < nTarget && (fReachedTarget ==> Tight(vValue, vfBest, nBest, nTarget))
          && (Tight(vValue, vfBest, nBest, nTarget) || vfBest == All(|vValue|, true)))
  }

  /** A coin that brings the subset to the target makes it a candidate for the best. */
  lemma Reached(vValue: seq<Output>, nTarget: int, i: nat, vfIncluded: seq<bool>, nTotal: int, fReachedTarget: bool,
                best: seq<bool>, bestValue: int, atMost: int)
    requires i < |vValue| && Trying(vValue, nTarget, vfIncluded, nTotal, fReachedTarget, best, bestValue, atMost)
    requires !vfIncluded[i] && nTotal + vValue[i].value >= nTarget
    ensures var more := nTotal + vValue[i].value;
            && more == Picked(vValue, vfIncluded[i := true], |vValue|)
            && Trying(vValue, nTarget, vfIncluded, nTotal, true, if more < bestValue then vfIncluded[i := true] else best,
                      if more < bestValue then more else bestValue, atMost)
  {
    PickedUpdate(vValue, vfIncluded, i, true, |vValue|);
    if nTotal + vValue[i].value < bestValue {
      assert vfIncluded[i := true][i];
    } else if AllPositive(vValue) {
      PickedAtMost(vValue, vfIncluded[i := true], |vValue|);
      assert best == All(|vValue|, true) ==> best[i];
    }
  }

  /** One repetition: a random pass, and if it stays below the target a pass over the coins left out. */
  method TrySubset(vValue: seq<Output>, nTarget: int, best: seq<bool>, bestValue: int) returns (vfBest: seq<bool>, nBest: int)
    requires Found(vValue, best, bestValue, nTarget)
    requires AllPositive(vValue) && nTarget > 0 ==> Tight(vValue, best, bestValue, nTarget) || best == All(|vValue|, true)
    ensures Found(vValue, vfBest, nBest, nTarget) && nBest <= bestValue
    ensures AllPositive(vValue) && nTarget > 0 ==> Tight(vValue, vfBest, nBest, nTarget)
  {
    vfBest, nBest := best, bestValue;
    var vfIncluded := All(|vValue|, false);
    NonePicked(vValue, |vValue|);
    var nTotal := 0;
    var fReachedTarget := false;
    var nPass := 0;
    while nPass < 2 && !fReachedTarget
      invariant Trying(vValue, nTarget, vfIncluded, nTotal, fReachedTarget, vfBest, nBest, bestValue)
      invariant 0 <= nPass <= 2 && (nPass == 0 ==> forall j :: 0 <= j < |vValue| ==> !vfIncluded[j])
      invariant nPass == 2 && !fReachedTarget ==> vfIncluded == All(|vValue|, true)
    {
      var i := 0;
      while i < |vValue|
        invariant 0 <= i <= |vValue|
        invariant Trying(vValue, nTarget, vfIncluded, nTotal, fReachedTarget, vfBest, nBest, bestValue)
        invariant nPass == 0 ==> forall j :: i <= j < |vValue| ==> !vfIncluded[j]
        invariant nPass == 1 && !fReachedTarget ==> forall j :: 0 <= j < i ==> vfIncluded[j]
      {
        var bit: bool := *;
        if (if nPass == 0 then bit else !vfIncluded[i]) {
          ghost var before := vfIncluded;
          PickedUpdate(vValue, vfIncluded, i, true, |vValue|);
          if nTotal + vValue[i].value >= nTarget {
            Reached(vValue, nTarget, i, vfIncluded, nTotal, fReachedTarget, vfBest, nBest, bestValue);
          }
          nTotal := nTotal + vValue[i].value;
          vfIncluded := vfIncluded[i := true];
          if nTotal >= nTarget {
            fReachedTarget := true;
            if nTotal < nBest {
              nBest := nTotal;
              vfBest := vfIncluded;
            }
            nTotal := nTotal - vValue[i].value;
            vfIncluded := vfIncluded[i := false];
            assert vfIncluded == before;
          }
        }
        i := i + 1;
      }
      nPass := nPass + 1;
    }
    if !fReachedTarget && AllPositive(vValue) {
      PickedAtMost(vValue, best, |vValue|);
    }
  }

  /** The best of many random subsets that reach the target: one of its coins could not be left out. */
  method ApproximateBestSubset(vValue: seq<Output>, nTotalLower: int, nTarget: int, iterations: nat)
    returns (vfBest: seq<bool>, nBest: int)
    requires NoDuplicates(vValue) && nTotalLower == Sum(SetOf(vValue)) && nTotalLower >= nTarget
    ensures |vfBest| == |vValue| && nBest == Picked(vValue, vfBest, |vValue|)
    ensures nTarget <= nBest <= nTotalLower
    ensures AllPositive(vValue) && nTarget > 0 && iterations > 0 ==> Tight(vValue, vfBest, nBest, nTarget)
  {
    AllPicked(vValue);
    vfBest, nBest := All(|vValue|, true), nTotalLower;
    var nRep := 0;
    while nRep < iterations && nBest != nTarget
      invariant Found(vValue, vfBest, nBest, nTarget) && nBest <= nTotalLower
      invariant nRep == 0 ==> vfBest == All(|vValue|, true)
      invariant nRep > 0 && AllPositive(vValue) && nTarget > 0 ==> Tight(vValue, vfBest, nBest, nTarget)
    {
      vfBest, nBest := TrySubset(vValue, nTarget, vfBest, nBest);
      nRep := nRep + 1;
    }
    if nBest == nTarget && nTarget > 0 {
      var i := SomePicked(vValue, vfBest, |vValue|);
    }
  }

  // ---- The order of the coins ----

  ghost predicate SameCoins(s: seq<Output>, t: seq<Output>) {
    |s| == |t| && (forall o :: o in s <==> o in t) && (NoDuplicates(s) ==> NoDuplicates(t))
  }

  lemma SwapKeepsCoins(s: seq<Output>, t: seq<Output>, i: nat, j: nat)
    requires i < |t| && j < |t| && SameCoins(s, t)
    ensures SameCoins(s, t[i := t[j]][j := t[i]])
  {
    var after := t[i := t[j]][j := t[i]];
    forall o | o in t ensures o in after {
      var k :| 0 <= k < |t| && t[k] == o;
      assert after[if k == i then j else if k == j then i else k] == o;
    }
  }

  method RandomShuffle(s: seq<Output>) returns (t: seq<Output>)
    ensures SameCoins(s, t)
  {
    t := s;
    var i := 1;
    while i < |t|
      invariant i >= 1 && SameCoins(s, t)
    {
      var j: nat :| j <= i;
      SwapKeepsCoins(s, t, i, j);
      t := t[i := t[j]][j := t[i]];
      i := i + 1;
    }
  }

  /** Sorts by value, largest first. */
  method SortDescending(s: seq<Output>) returns (t: seq<Output>)
    ensures SameCoins(s, t)
    ensures forall i, j :: 0 <= i < j < |t| ==> t[i].value >= t[j].value
  {
    t := s;
    var n := 1;
    while n < |t|
      invariant n >= 1 && SameCoins(s, t)
      invariant forall i, j :: 0 <= i < j < n && j < |t| ==> t[i].value >= t[j].value
    {
      var k := n;
      while k > 0 && t[k - 1].value < t[k].value
        invariant 0 <= k <= n < |t| && SameCoins(s, t)
        invariant forall i, j :: 0 <= i < j <= n && j != k ==> t[i].value >= t[j].value
      {
        SwapKeepsCoins(s, t, k - 1, k);
        t := t[k - 1 := t[k]][k := t[k - 1]];
        k := k - 1;
      }
      n := n + 1;
    }
  }

  // ---- Selecting ----

  /** What a selection promises: the coins returned are eligible and worth nValue, which covers the target and
      leaves no change, or change of a cent at least, unless all eligible coins together cannot do so; it spends no more
      than any single coin that would leave a cent of change; and one of its coins cannot be left out, if the rest is to
      cover the target and a cent of change. */
  ghost predicate Selected(eligible: set<Output>, nTarget: int, coins: set<Output>, nValue: int) {
    && coins <= eligible && nValue == Sum(coins) && nValue >= nTarget
    && (nValue == nTarget || nValue >= nTarget + CENT || Sum(eligible) < nTarget + CENT)
    && (forall o :: o in eligible && o.value >= nTarget + CENT ==> nValue <= o.value)
    && (nTarget > 0 ==> exists o :: o in coins && nValue - o.value < nTarget + CENT)
  }

  /** The state of the scan after the coins before k: the eligible ones below target + CENT are collected, the
      lowest of the larger ones is kept. */
  ghost predicate Scanned(
    vCoins: seq<Output>, k: nat, nConfMine: int, nConfTheirs: int, nTarget: int, vValue: seq<Output>, larger: Option<Output>)
    requires k <= |vCoins|
  {
    && NoDuplicates(vValue)
    && (forall o :: o in vValue <==> o in vCoins[..k] && Eligible(o, nConfMine, nConfTheirs) && o.value < nTarget + CENT)
    && (larger.Some? ==> larger.value in vCoins[..k] && Eligible(larger.value, nConfMine, nConfTheirs)
                         && larger.value.value >= nTarget + CENT)
    && (forall o :: o in vCoins[..k] && Eligible(o, nConfMine, nConfTheirs) && o.value >= nTarget + CENT ==>
          larger.Some? && larger.value.value <= o.value)
  }

  lemma ScanOneMore(
    vCoins: seq<Output>, k: nat, nConfMine: int, nConfTheirs: int, nTarget: int, vValue: seq<Output>, larger: Option<Output>)
    requires k < |vCoins| && NoDuplicates(vCoins) && Amounts(vCoins)
    requires Scanned(vCoins, k, nConfMine, nConfTheirs, nTarget, vValue, larger)
    ensures var o := vCoins[k];
            if !Eligible(o, nConfMine, nConfTheirs) then Scanned(vCoins, k + 1, nConfMine, nConfTheirs, nTarget, vValue, larger)
            else if o.value < nTarget + CENT then
              o !in vValue && Scanned(vCoins, k + 1, nConfMine, nConfTheirs, nTarget, vValue + [o], larger)
            else if larger.None? || o.value < larger.value.value then
              Scanned(vCoins, k + 1, nConfMine, nConfTheirs, nTarget, vValue, Some(o))
            else Scanned(vCoins, k + 1, nConfMine, nConfTheirs, nTarget, vValue, larger)
  {
    assert vCoins[..k + 1] == vCoins[..k] + [vCoins[k]];
  }

  /** Everything eligible has been collected when there is no larger coin. */
  lemma AllCollected(
    vCoins: seq<Output>, nConfMine: int, nConfTheirs: int, nTarget: int, vValue: seq<Output>, larger: Option<Output>)
    requires Scanned(vCoins, |vCoins|, nConfMine, nConfTheirs, nTarget, vValue, larger)
    ensures SetOf(vValue) <= EligibleSet(vCoins, nConfMine, nConfTheirs)
    ensures larger.None? ==> SetOf(vValue) == EligibleSet(vCoins, nConfMine, nConfTheirs)
    ensures larger.Some? ==> larger.value in EligibleSet(vCoins, nConfMine, nConfTheirs)
    ensures forall o :: o in EligibleSet(vCoins, nConfMine, nConfTheirs) && o.value >= nTarget + CENT ==>
              larger.Some? && larger.value.value <= o.value
  {
    assert vCoins[..|vCoins|] == vCoins;
  }

  lemma SumOne(o: Output)
    ensures Sum({o}) == o.value
  {
    SumWith({}, o);
    assert {} + {o} == {o};
  }

  /** The scan: stops at a coin of exactly the target value. */
  method Scan(vCoins: seq<Output>, nConfMine: int, nConfTheirs: int, nTarget: int)
    returns (exact: Option<Output>, vValue: seq<Output>, nTotalLower: int, larger: Option<Output>)
    requires NoDuplicates(vCoins) && Amounts(vCoins)
    ensures exact.Some? ==> exact.value in EligibleSet(vCoins, nConfMine, nConfTheirs) && exact.value.value == nTarget
    ensures exact.None? ==> Scanned(vCoins, |vCoins|, nConfMine, nConfTheirs, nTarget, vValue, larger)
                            && nTotalLower == Sum(SetOf(vValue))
  {
    vValue, nTotalLower, larger := [], 0, None;
    var lowest := INT64_MAX;
    var k := 0;
    assert SetOf(vValue) == {};
    while k < |vCoins|
      invariant 0 <= k <= |vCoins|
      invariant Scanned(vCoins, k, nConfMine, nConfTheirs, nTarget, vValue, larger)
      invariant lowest == if larger.Some? then larger.value.value else INT64_MAX
      invariant nTotalLower == Sum(SetOf(vValue))
    {
      ScanOneMore(vCoins, k, nConfMine, nConfTheirs, nTarget, vValue, larger);
      var output := vCoins[k];
      if Eligible(output, nConfMine, nConfTheirs) {
        if output.value == nTarget {
          return Some(output), vValue, nTotalLower, larger;
        } else if output.value < nTarget + CENT {
          SumWith(SetOf(vValue), output);
          assert SetOf(vValue + [output]) == SetOf(vValue) + {output};
          vValue := vValue + [output];
          nTotalLower := nTotalLower + output.value;
        } else if output.value < lowest {
          larger, lowest := Some(output), output.value;
        }
      }
      k := k + 1;
    }
    exact := None;
  }

  /** The coins picked, and their value. */
  method Collect(vValue: seq<Output>, vf: seq<bool>) returns (coins: set<Output>, nValue: int)
    requires |vf| == |vValue| && NoDuplicates(vValue)
    ensures coins <= SetOf(vValue) && nValue == Sum(coins) == Picked(vValue, vf, |vValue|)
    ensures forall i :: 0 <= i < |vf| && vf[i] ==> vValue[i] in coins
  {
    coins, nValue := {}, 0;
    for i := 0 to |vValue|
      invariant coins == PickedSet(vValue, vf, i) && nValue == Picked(vValue, vf, i)
    {
      if vf[i] {
        coins := coins + {vValue[i]};
        nValue := nValue + vValue[i].value;
      }
    }
    PickedMembers(vValue, vf, |vValue|);
    PickedIsSum(vValue, vf, |vValue|);
  }

  /** A single coin, and all coins worth exactly the target, can be spent without waste. */
  lemma SingleIsSelected(eligible: set<Output>, nTarget: int, o: Output)
    requires o in eligible && (forall p :: p in eligible ==> p.value > 0) && o.value >= nTarget
    requires o.value == nTarget || o.value >= nTarget + CENT || Sum(eligible) < nTarget + CENT
    requires o.value == nTarget || forall p :: p in eligible && p.value >= nTarget + CENT ==> o.value <= p.value
    ensures Selected(eligible, nTarget, {o}, o.value)
  {
    SumOne(o);
    assert o in {o};
  }

  /** What the approximation found, as a set. */
  ghost predicate Solved(lower: set<Output>, nTarget: int, coins: set<Output>, nValue: int) {
    && coins <= lower && nValue == Sum(coins) && nValue >= nTarget
    && (nTarget > 0 ==> exists o :: o in coins && nValue - o.value < nTarget + CENT)
  }

  lemma TightIsSolved(vValue: seq<Output>, vf: seq<bool>, coins: set<Output>, nValue: int, nTarget: int, nBound: int)
    requires |vf| == |vValue| && coins <= SetOf(vValue) && nValue == Sum(coins) >= nTarget && nBound <= nTarget + CENT
    requires forall i :: 0 <= i < |vf| && vf[i] ==> vValue[i] in coins
    requires nTarget > 0 ==> Tight(vValue, vf, nValue, nBound)
    ensures Solved(SetOf(vValue), nTarget, coins, nValue)
  {
    if nTarget > 0 {
      var i :| 0 <= i < |vf| && vf[i] && nValue - vValue[i].value < nBound;
      assert vValue[i] in coins;
    }
  }

  /** The smaller coins suffice: the best subset found for the target or, if that leaves change and it is possible, for
      the target and a cent. */
  method Solve(vValue: seq<Output>, nTotalLower: int, nTarget: int) returns (sorted: seq<Output>, vfBest: seq<bool>, nBest: int)
    requires NoDuplicates(vValue) && AllPositive(vValue) && nTotalLower == Sum(SetOf(vValue)) && nTotalLower >= nTarget
    ensures NoDuplicates(sorted) && SetOf(sorted) == SetOf(vValue) && |vfBest| == |sorted|
    ensures nBest == Picked(sorted, vfBest, |sorted|) && nBest >= nTarget
    ensures nBest == nTarget || nBest >= nTarget + CENT || nTotalLower < nTarget + CENT
    ensures nTarget > 0 ==> Tight(sorted, vfBest, nBest, nTarget + CENT)
  {
    sorted := SortDescending(vValue);
    assert SetOf(sorted) == SetOf(vValue);
    assert AllPositive(sorted) by {
      forall j | 0 <= j < |sorted| ensures sorted[j].value > 0 {
        assert sorted[j] in vValue;
      }
    }
    vfBest, nBest := ApproximateBestSubset(sorted, nTotalLower, nTarget, 1000);
    if nBest != nTarget && nTotalLower >= nTarget + CENT {
      vfBest, nBest := ApproximateBestSubset(sorted, nTotalLower, nTarget + CENT, 1000);
    }
  }

  /** All smaller coins together are exactly the target. */
  lemma AllAreSolved(vValue: seq<Output>, coins: set<Output>, nTarget: int)
    requires AllPositive(vValue) && Sum(coins) == nTarget && coins <= SetOf(vValue)
    ensures Solved(SetOf(vValue), nTarget, coins, nTarget)
  {
    if nTarget > 0 {
      assert coins != {};
      var o :| o in coins;
      assert o in vValue && o.value > 0;
    }
  }

  /** Selects among the coins with enough confirmations. It fails exactly when they do not suffice. */
  method SelectCoinsMinConf(nTarget: int, nConfMine: int, nConfTheirs: int, coins: seq<Output>)
    returns (ok: bool, setCoinsRet: set<Output>, nValueRet: int)
    requires NoDuplicates(coins) && Amounts(coins)
    ensures ok <==> Sum(EligibleSet(coins, nConfMine, nConfTheirs)) >= nTarget
    ensures ok ==> Selected(EligibleSet(coins, nConfMine, nConfTheirs), nTarget, setCoinsRet, nValueRet)
    ensures !ok ==> setCoinsRet == {} && nValueRet == 0
  {
    var vCoins := RandomShuffle(coins);
    assert EligibleSet(vCoins, nConfMine, nConfTheirs) == EligibleSet(coins, nConfMine, nConfTheirs);
    var exact, vValue, nTotalLower, larger := Scan(vCoins, nConfMine, nConfTheirs, nTarget);
    ghost var eligible := EligibleSet(coins, nConfMine, nConfTheirs);
    if exact.Some? {
      SumOne(exact.value);
      SumOfSubset({exact.value}, eligible);
      SingleIsSelected(eligible, nTarget, exact.value);
      return true, {exact.value}, exact.value.value;
    }
    AllCollected(vCoins, nConfMine, nConfTheirs, nTarget, vValue, larger);
    SumOfSubset(SetOf(vValue), eligible);
    assert AllPositive(vValue);
    if larger.Some? {
      SumOne(larger.value);
      SumOfSubset({larger.value}, eligible);
      SingleIsSelected(eligible, nTarget, larger.value);
    }
    if nTotalLower == nTarget {
      AllPicked(vValue);
      ok := true;
      setCoinsRet, nValueRet := Collect(vValue, All(|vValue|, true));
      AllAreSolved(vValue, setCoinsRet, nTarget);
      return;
    }
    if nTotalLower < nTarget {
      if larger.None? {
        return false, {}, 0;
      }
      return true, {larger.value}, larger.value.value;
    }
    var sorted, vfBest, nBest := Solve(vValue, nTotalLower, nTarget);
    ok := true;
    if larger.Some? && ((nBest != nTarget && nBest < nTarget + CENT) || larger.value.value <= nBest) {
      setCoinsRet, nValueRet := {larger.value}, larger.value.value;
    } else {
      setCoinsRet, nValueRet := Collect(sorted, vfBest);
      TightIsSolved(sorted, vfBest, setCoinsRet, nValueRet, nTarget, nTarget + CENT);
    }
  }

  // ---- The wallet ----

  /** Output i of transaction t can be spent. */
  predicate Available(wallet: seq<WalletTx>, fOnlyConfirmed: bool, t: nat, i: nat): (available: bool)
    requires t < |wallet| && i < |wallet[t].vout|
    ensures available <==>
              && wallet[t].isFinal && (wallet[t].isConfirmed || !fOnlyConfirmed)
              && (wallet[t].isCoinBase ==> wallet[t].blocksToMaturity <= 0)
              && wallet[t].vout[i].isMine && !wallet[t].vout[i].isSpent && !wallet[t].vout[i].isLocked && wallet[t].vout[i].value > 0
  {
    var tx, o := wallet[t], wallet[t].vout[i];
    && tx.isFinal && (fOnlyConfirmed ==> tx.isConfirmed) && !(tx.isCoinBase && tx.blocksToMaturity > 0)
    && !o.isSpent && o.isMine && !o.isLocked && o.value > 0
  }

  function AsOutput(wallet: seq<WalletTx>, t: nat, i: nat): Output
    requires t < |wallet| && i < |wallet[t].vout|
  {
    Output(t, i, wallet[t].vout[i].value, wallet[t].depth, wallet[t].fromMe)
  }

  ghost predicate IsAvailable(wallet: seq<WalletTx>, fOnlyConfirmed: bool, o: Output) {
    && o.tx < |wallet| && o.i < |wallet[o.tx].vout|
    && o == AsOutput(wallet, o.tx, o.i) && Available(wallet, fOnlyConfirmed, o.tx, o.i)
  }

  /** Transaction t, output i comes before transaction u, output j. */
  predicate Earlier(o: Output, t: nat, i: nat) {
    o.tx < t || (o.tx == t && o.i < i)
  }

  /** The wallet's spendable outputs, each once. */
  method AvailableCoins(wallet: seq<WalletTx>, fOnlyConfirmed: bool) returns (vCoins: seq<Output>)
    ensures forall o :: o in vCoins <==> IsAvailable(wallet, fOnlyConfirmed, o)
    ensures NoDuplicates(vCoins)
  {
    vCoins := [];
    var t := 0;
    while t < |wallet|
      invariant 0 <= t <= |wallet|
      invariant forall o :: o in vCoins <==> IsAvailable(wallet, fOnlyConfirmed, o) && Earlier(o, t, 0)
      invariant NoDuplicates(vCoins)
    {
      var tx := wallet[t];
      if tx.isFinal && (!fOnlyConfirmed || tx.isConfirmed) && !(tx.isCoinBase && tx.blocksToMaturity > 0) {
        var i := 0;
        while i < |tx.vout|
          invariant 0 <= i <= |tx.vout|
          invariant forall o :: o in vCoins <==> IsAvailable(wallet, fOnlyConfirmed, o) && Earlier(o, t, i)
          invariant NoDuplicates(vCoins)
        {
          if !tx.vout[i].isSpent && tx.vout[i].isMine && !tx.vout[i].isLocked && tx.vout[i].value > 0 {
            assert AsOutput(wallet, t, i) !in vCoins;
            vCoins := vCoins + [Output(t, i, tx.vout[i].value, tx.depth, tx.fromMe)];
          }
          i := i + 1;
        }
      }
      t := t + 1;
    }
  }

  /** Amounts in the wallet are below the largest integer. */
  predicate SaneWallet(wallet: seq<WalletTx>) {
    forall t, i :: 0 <= t < |wallet| && 0 <= i < |wallet[t].vout| ==> wallet[t].vout[i].value < INT64_MAX
  }

  /** The spendable outputs with enough confirmations. */
  ghost function ConfirmedSet(wallet: seq<WalletTx>, fOnlyConfirmed: bool, mine: int, theirs: int): set<Output> {
    set t: nat, i: nat | t < |wallet| && i < |wallet[t].vout| && Available(wallet, fOnlyConfirmed, t, i)
                         && Eligible(AsOutput(wallet, t, i), mine, theirs) :: AsOutput(wallet, t, i)
  }

  /** The coins SelectCoins may spend at all: own change at any depth from 0, others from 1. */
  ghost function SpendableSet(wallet: seq<WalletTx>, fOnlyConfirmed: bool): set<Output> {
    ConfirmedSet(wallet, fOnlyConfirmed, 0, 1)
  }

  /** The coins of the first attempt that can succeed. */
  ghost function Tried(wallet: seq<WalletTx>, fOnlyConfirmed: bool, nTarget: int): set<Output> {
    if Sum(ConfirmedSet(wallet, fOnlyConfirmed, 1, 6)) >= nTarget then ConfirmedSet(wallet, fOnlyConfirmed, 1, 6)
    else if Sum(ConfirmedSet(wallet, fOnlyConfirmed, 1, 1)) >= nTarget then ConfirmedSet(wallet, fOnlyConfirmed, 1, 1)
    else SpendableSet(wallet, fOnlyConfirmed)
  }

  lemma WiderIsMore(wallet: seq<WalletTx>, fOnlyConfirmed: bool, mine: int, theirs: int)
    requires mine >= 0 && theirs >= 1
    ensures ConfirmedSet(wallet, fOnlyConfirmed, mine, theirs) <= SpendableSet(wallet, fOnlyConfirmed)
    ensures Sum(ConfirmedSet(wallet, fOnlyConfirmed, mine, theirs)) <= Sum(SpendableSet(wallet, fOnlyConfirmed))
  {
    SumOfSubset(ConfirmedSet(wallet, fOnlyConfirmed, mine, theirs), SpendableSet(wallet, fOnlyConfirmed));
  }

  lemma EligibleIsConfirmed(wallet: seq<WalletTx>, fOnlyConfirmed: bool, vCoins: seq<Output>, mine: int, theirs: int)
    requires forall o :: o in vCoins <==> IsAvailable(wallet, fOnlyConfirmed, o)
    ensures EligibleSet(vCoins, mine, theirs) == ConfirmedSet(wallet, fOnlyConfirmed, mine, theirs)
  {
  }

  /** One attempt, on the wallet's spendable outputs. */
  method SelectConfirmed(
    ghost wallet: seq<WalletTx>, ghost fOnlyConfirmed: bool, vCoins: seq<Output>, nTarget: int, mine: int, theirs: int)
    returns (ok: bool, setCoinsRet: set<Output>, nValueRet: int)
    requires NoDuplicates(vCoins) && Amounts(vCoins) && forall o :: o in vCoins <==> IsAvailable(wallet, fOnlyConfirmed, o)
    ensures ok <==> Sum(ConfirmedSet(wallet, fOnlyConfirmed, mine, theirs)) >= nTarget
    ensures ok ==> Selected(ConfirmedSet(wallet, fOnlyConfirmed, mine, theirs), nTarget, setCoinsRet, nValueRet)
    ensures !ok ==> setCoinsRet == {} && nValueRet == 0
  {
    EligibleIsConfirmed(wallet, fOnlyConfirmed, vCoins, mine, theirs);
    ok, setCoinsRet, nValueRet := SelectCoinsMinConf(nTarget, mine, theirs, vCoins);
  }

  /** Tries with fewer and fewer confirmations. It fails exactly when all coins that are spendable at all do not
      suffice together; else it selects among the coins of the first attempt that can succeed. */
  method SelectCoins(wallet: seq<WalletTx>, fOnlyConfirmed: bool, nTarget: int)
    returns (ok: bool, setCoinsRet: set<Output>, nValueRet: int)
    requires SaneWallet(wallet)
    ensures ok <==> Sum(SpendableSet(wallet, fOnlyConfirmed)) >= nTarget
    ensures ok ==> Selected(Tried(wallet, fOnlyConfirmed, nTarget), nTarget, setCoinsRet, nValueRet)
    ensures ok ==> setCoinsRet <= SpendableSet(wallet, fOnlyConfirmed)
    ensures !ok ==> setCoinsRet == {} && nValueRet == 0
  {
    var vCoins := AvailableCoins(wallet, fOnlyConfirmed);
    assert Amounts(vCoins);
    WiderIsMore(wallet, fOnlyConfirmed, 1, 6);
    WiderIsMore(wallet, fOnlyConfirmed, 1, 1);
    ok, setCoinsRet, nValueRet := SelectConfirmed(wallet, fOnlyConfirmed, vCoins, nTarget, 1, 6);
    if ok {
      return;
    }
    ok, setCoinsRet, nValueRet := SelectConfirmed(wallet, fOnlyConfirmed, vCoins, nTarget, 1, 1);
    if ok {
      return;
    }
    ok, setCoinsRet, nValueRet := SelectConfirmed(wallet, fOnlyConfirmed, vCoins, nTarget, 0, 1);
  }
}
