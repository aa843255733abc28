/** Building a payment: coins, change, and a fee that is raised until it suffices. */
module CreateTransaction {
  import opened CoinSelection

  datatype TxOutput = TxOutput(value: int, script: string)
  datatype Tx = Tx(vin: seq<Output>, vout: seq<TxOutput>)

  /** Fee rates, the size limit, and what the transaction code computes: the serialised sizes, whether input n can be signed, and
      the fee that relaying a transaction asks for. */
  datatype Rules = Rules(
    nTransactionFee: int, nMinTxFee: int, nMinRelayTxFee: int,
    maxSize: nat, outSize: string -> nat, txSize: Tx -> nat, signs: (Tx, nat) -> bool, minFee: Tx -> int)

  datatype Outcome = Created(tx: Tx, nFee: int) | NotPositive | TooSmall | InsufficientFunds(nFee: int) | SigningFailed | TooLarge

  /** Integer division as in C++, towards zero. */
  function Truncated(a: int, b: int): (q: int)
    requires b > 0
    ensures (a >= 0 ==> q == a / b) && (a <= 0 ==> q == -(-a / b))
  {
    if a >= 0 then a / b else -((-a) / b)
  }

  /** Spending the output would cost more than a third of it. */
  predicate IsDust(rules: Rules, o: TxOutput) {
    Truncated(o.value * 1000, 3 * (rules.outSize(o.script) + 148)) < rules.nMinRelayTxFee
  }

  /** An output is dust if three times its size, with that of the input that will spend it, at the relay fee for a
      thousand bytes, is more than a thousand times its value. */
  lemma DustMeans(rules: Rules, o: TxOutput)
    requires o.value >= 0 || rules.nMinRelayTxFee > 0
    ensures IsDust(rules, o) <==> o.value * 1000 < rules.nMinRelayTxFee * (3 * (rules.outSize(o.script) + 148))
  {
    TruncatedBelow(o.value * 1000, 3 * (rules.outSize(o.script) + 148), rules.nMinRelayTxFee);
  }

  lemma TruncatedBelow(a: int, b: int, m: int)
    requires b > 0 && (a >= 0 || m > 0)
    ensures Truncated(a, b) < m <==> a < m * b
  {
    if a >= 0 {
      Below(a, b, m);
    } else {
      assert -a / b >= 0;
      assert m * b > 0;
    }
  }

  lemma Below(a: int, b: int, m: int)
    requires b > 0
    ensures a / b < m <==> a < m * b
  {
    var q := a / b;
    assert q * b <= a < q * b + b;
    if q < m {
      assert (q + 1) * b <= m * b;
    } else {
      assert m * b <= q * b;
    }
  }

  function Total(vout: seq<TxOutput>, n: nat): int
    requires n <= |vout|
  {
    if n == 0 then 0 else Total(vout, n - 1) + vout[n - 1].value
  }

  function PayFee(rules: Rules, tx: Tx): int {
    rules.nTransactionFee * (1 + rules.txSize(tx) / 1000)
  }

  /** The fee a transaction must carry. */
  function RequiredFee(rules: Rules, tx: Tx): int {
    if PayFee(rules, tx) < rules.minFee(tx) then rules.minFee(tx) else PayFee(rules, tx)
  }

  /** The fee set is paid for each thousand bytes begun, and a full size counts as begun. */
  lemma FeePerKilobyte(rules: Rules, tx: Tx, k: nat)
    requires 1000 * k <= rules.txSize(tx) < 1000 * (k + 1)
    ensures PayFee(rules, tx) == (k + 1) * rules.nTransactionFee
  {
    assert rules.txSize(tx) / 1000 == k;
  }

  // ---- Outputs ----

  lemma TotalOfOne(o: TxOutput)
    ensures Total([], 0) == 0 && Total([o], 1) == o.value
  {
    assert Total([o], 1) == Total([o], 0) + o.value;
  }

  function InsertAt(vout: seq<TxOutput>, p: nat, o: TxOutput): (r: seq<TxOutput>)
    requires p <= |vout|
    ensures |r| == |vout| + 1 && r[p] == o
    ensures forall i :: 0 <= i < |vout| ==> vout[i] == r[if i < p then i else i + 1]
  {
    vout[..p] + [o] + vout[p..]
  }

  lemma {:induction false} TotalSame(s: seq<TxOutput>, t: seq<TxOutput>, n: nat)
    requires n <= |s| && n <= |t| && forall i :: 0 <= i < n ==> s[i] == t[i]
    ensures Total(s, n) == Total(t, n)
  {
    if n > 0 {
      TotalSame(s, t, n - 1);
    }
  }

  lemma {:induction false} TotalInserted(vout: seq<TxOutput>, p: nat, o: TxOutput, n: nat)
    requires p <= n <= |vout|
    ensures Total(InsertAt(vout, p, o), n + 1) == Total(vout, n) + o.value
  {
    var more := InsertAt(vout, p, o);
    if n == p {
      TotalSame(more, vout, p);
      assert more[p] == o;
    } else {
      TotalInserted(vout, p, o, n - 1);
      assert more[n] == vout[n - 1];
    }
  }

  /** vout pays the payees, in their order, and perhaps one output of change somewhere between; change under a cent
      comes with the minimum fee at least. */
  ghost predicate Pays(rules: Rules, vout: seq<TxOutput>, vecSend: seq<TxOutput>, script: string, nFee: int) {
    || vout == vecSend
    || exists p, value :: 0 <= p <= |vecSend| && value > 0 && vout == InsertAt(vecSend, p, TxOutput(value, script))
                          && (value < CENT ==> nFee >= rules.nMinTxFee)
  }

  /** The inputs are the selected coins, each once. */
  ghost predicate Spends(vin: seq<Output>, coins: set<Output>) {
    NoDuplicates(vin) && forall o :: o in vin <==> o in coins
  }

  // ---- One attempt at a given fee ----

  /** The part of the change that goes to the fee: change under a cent must not come with a fee under the minimum. */
  function MovedToFee(rules: Rules, nChange: int, nFee: int): int {
    if nFee < rules.nMinTxFee && 0 < nChange < CENT then
      if nChange < rules.nMinTxFee - nFee then nChange else rules.nMinTxFee - nFee
    else 0
  }

  /** Splits what the coins are worth beyond the payment into change and fee. */
  method SplitChange(rules: Rules, nChangeIn: int, nFeeIn: int) returns (nChange: int, nFee: int)
    requires nChangeIn >= 0
    ensures nChange >= 0 && nChange + nFee == nChangeIn + nFeeIn && nFee == nFeeIn + MovedToFee(rules, nChangeIn, nFeeIn)
    ensures 0 < nChange < CENT ==> nFee >= rules.nMinTxFee
    ensures nFee > nFeeIn ==> nFee <= rules.nMinTxFee && nChangeIn < CENT
  {
    nChange, nFee := nChangeIn, nFeeIn;
    if nFee < rules.nMinTxFee && nChange > 0 && nChange < CENT {
      var nMoveToFee := if nChange < rules.nMinTxFee - nFee then nChange else rules.nMinTxFee - nFee;
      nChange := nChange - nMoveToFee;
      nFee := nFee + nMoveToFee;
    }
  }

  /** What is left of the change is paid out at some place, or is dust and goes to the fee. */
  ghost predicate ChangePlaced(
    rules: Rules, vecSend: seq<TxOutput>, nChange: int, script: string, nFeeIn: int, vout: seq<TxOutput>, nFee: int)
  {
    if nChange > 0 && !IsDust(rules, TxOutput(nChange, script)) then
      nFee == nFeeIn && exists p :: 0 <= p <= |vecSend| && vout == InsertAt(vecSend, p, TxOutput(nChange, script))
    else
      nFee == nFeeIn + nChange && vout == vecSend
  }

  /** Adds the change at a random place, or to the fee if it would be dust. */
  method AddChange(rules: Rules, vecSend: seq<TxOutput>, nChange: int, script: string, nFeeIn: int)
    returns (vout: seq<TxOutput>, nFee: int)
    requires nChange >= 0
    ensures ChangePlaced(rules, vecSend, nChange, script, nFeeIn, vout, nFee)
  {
    vout, nFee := vecSend, nFeeIn;
    if nChange > 0 {
      var newTxOut := TxOutput(nChange, script);
      if IsDust(rules, newTxOut) {
        nFee := nFee + nChange;
      } else {
        var p: nat :| p <= |vecSend|;
        vout := InsertAt(vecSend, p, newTxOut);
      }
    }
  }

  lemma InsertedMembers(vout: seq<TxOutput>, p: nat, o: TxOutput)
    requires p <= |vout|
    ensures forall x :: x in InsertAt(vout, p, o) ==> x == o || x in vout
  {
  }

  lemma ChangePaid(
    rules: Rules, vecSend: seq<TxOutput>, nChange: int, script: string, nFeeIn: int, vout: seq<TxOutput>, nFee: int, p: nat)
    requires p <= |vecSend| && vout == InsertAt(vecSend, p, TxOutput(nChange, script)) && nFee == nFeeIn
    ensures Total(vout, |vout|) + nFee == Total(vecSend, |vecSend|) + nChange + nFeeIn
    ensures forall o :: o in vout ==> o in vecSend || o == TxOutput(nChange, script)
  {
    TotalInserted(vecSend, p, TxOutput(nChange, script), |vecSend|);
    InsertedMembers(vecSend, p, TxOutput(nChange, script));
  }

  lemma ChangeBalances(
    rules: Rules, vecSend: seq<TxOutput>, nChange: int, script: string, nFeeIn: int, vout: seq<TxOutput>, nFee: int)
    requires nChange >= 0 && ChangePlaced(rules, vecSend, nChange, script, nFeeIn, vout, nFee)
    ensures nFee >= nFeeIn && Total(vout, |vout|) + nFee == Total(vecSend, |vecSend|) + nChange + nFeeIn
    ensures forall o :: o in vout ==> o in vecSend || !IsDust(rules, o)
    ensures vout == vecSend || exists p :: 0 <= p <= |vecSend| && vout == InsertAt(vecSend, p, TxOutput(nChange, script))
  {
    if nChange > 0 && !IsDust(rules, TxOutput(nChange, script)) {
      var p :| 0 <= p <= |vecSend| && vout == InsertAt(vecSend, p, TxOutput(nChange, script));
      ChangePaid(rules, vecSend, nChange, script, nFeeIn, vout, nFee, p);
    }
  }

  /** The inputs, in some order. */
  method FillInputs(coins: set<Output>) returns (vin: seq<Output>)
    ensures Spends(vin, coins)
  {
    vin := [];
    var rest := coins;
    while rest != {}
      invariant rest <= coins && NoDuplicates(vin) && forall o :: o in vin <==> o in coins - rest
      decreases rest
    {
      var o :| o in rest;
      assert o !in vin;
      vin := vin + [o];
      rest := rest - {o};
    }
  }

  ghost predicate Signed(rules: Rules, tx: Tx) {
    forall n :: 0 <= n < |tx.vin| ==> rules.signs(tx, n)
  }

  method Sign(rules: Rules, tx: Tx) returns (ok: bool)
    ensures ok <==> Signed(rules, tx)
  {
    for n := 0 to |tx.vin|
      invariant forall m :: 0 <= m < n ==> rules.signs(tx, m)
    {
      if !rules.signs(tx, n) {
        return false;
      }
    }
    return true;
  }

  /** A payment that spends the coins given: what goes in comes out, as outputs and fee. */
  ghost predicate Settles(rules: Rules, vecSend: seq<TxOutput>, script: string, coins: set<Output>, tx: Tx, nFee: int) {
    && Spends(tx.vin, coins) && Sum(coins) == Total(tx.vout, |tx.vout|) + nFee
    && Pays(rules, tx.vout, vecSend, script, nFee)
    && forall o :: o in tx.vout ==> !IsDust(rules, o)
  }

  ghost predicate Balanced(
    rules: Rules, wallet: seq<WalletTx>, fOnlyConfirmed: bool, vecSend: seq<TxOutput>, script: string, tx: Tx, nFee: int)
  {
    exists coins :: coins <= SpendableSet(wallet, fOnlyConfirmed) && Settles(rules, vecSend, script, coins, tx, nFee)
  }

  /** The transaction built from the coins at fee nFeeIn, and the fee it carries. */
  ghost predicate Built(
    rules: Rules, vecSend: seq<TxOutput>, script: string, nFeeIn: int, coins: set<Output>, tx: Tx, nFee: int)
  {
    var nChange := Sum(coins) - Total(vecSend, |vecSend|) - nFeeIn;
    var moved := MovedToFee(rules, nChange, nFeeIn);
    && nChange >= 0 && Spends(tx.vin, coins)
    && ChangePlaced(rules, vecSend, nChange - moved, script, nFeeIn + moved, tx.vout, nFee)
  }

  /** Whatever coins are selected, what goes in comes out, and the fee does not fall. */
  lemma BuiltSettles(
    rules: Rules, vecSend: seq<TxOutput>, script: string, nFeeIn: int, coins: set<Output>, tx: Tx, nFee: int)
    requires Built(rules, vecSend, script, nFeeIn, coins, tx, nFee)
    requires forall o :: o in vecSend ==> !IsDust(rules, o)
    ensures nFee >= nFeeIn && Settles(rules, vecSend, script, coins, tx, nFee)
  {
    var nChange := Sum(coins) - Total(vecSend, |vecSend|) - nFeeIn;
    var moved := MovedToFee(rules, nChange, nFeeIn);
    ChangeBalances(rules, vecSend, nChange - moved, script, nFeeIn + moved, tx.vout, nFee);
  }

  lemma BuiltFrom(
    rules: Rules, vecSend: seq<TxOutput>, script: string, nFeeIn: int, coins: set<Output>, moved: int, tx: Tx, nFee: int)
    requires Sum(coins) - Total(vecSend, |vecSend|) - nFeeIn >= 0 && Spends(tx.vin, coins)
    requires moved == MovedToFee(rules, Sum(coins) - Total(vecSend, |vecSend|) - nFeeIn, nFeeIn)
    requires ChangePlaced(rules, vecSend, Sum(coins) - Total(vecSend, |vecSend|) - nFeeIn - moved, script, nFeeIn + moved, tx.vout, nFee)
    ensures Built(rules, vecSend, script, nFeeIn, coins, tx, nFee)
  {
  }

  method Build(rules: Rules, vecSend: seq<TxOutput>, script: string, nFeeIn: int, setCoins: set<Output>, nChangeIn: int)
    returns (tx: Tx, nFee: int)
    requires nChangeIn == Sum(setCoins) - Total(vecSend, |vecSend|) - nFeeIn >= 0
    ensures Built(rules, vecSend, script, nFeeIn, setCoins, tx, nFee)
  {
    var nChange, nRaised := SplitChange(rules, nChangeIn, nFeeIn);
    var vout;
    vout, nFee := AddChange(rules, vecSend, nChange, script, nRaised);
    var vin := FillInputs(setCoins);
    tx := Tx(vin, vout);
    BuiltFrom(rules, vecSend, script, nFeeIn, setCoins, nRaised - nFeeIn, tx, nFee);
  }

  /** The transaction an attempt at fee nFeeIn builds from some coins that SelectCoins may select for it. */
  ghost predicate Attempted(
    rules: Rules, wallet: seq<WalletTx>, fOnlyConfirmed: bool, vecSend: seq<TxOutput>, script: string, nFeeIn: int,
    tx: Tx, nFee: int)
  {
    var nTotalValue := Total(vecSend, |vecSend|) + nFeeIn;
    exists coins :: Selected(Tried(wallet, fOnlyConfirmed, nTotalValue), nTotalValue, coins, Sum(coins))
                    && Built(rules, vecSend, script, nFeeIn, coins, tx, nFee)
  }

  lemma BuiltIsAttempted(
    rules: Rules, wallet: seq<WalletTx>, fOnlyConfirmed: bool, vecSend: seq<TxOutput>, script: string, nFeeIn: int,
    coins: set<Output>, tx: Tx, nFee: int)
    requires Built(rules, vecSend, script, nFeeIn, coins, tx, nFee) && coins <= SpendableSet(wallet, fOnlyConfirmed)
    requires var nTotalValue := Total(vecSend, |vecSend|) + nFeeIn;
             Selected(Tried(wallet, fOnlyConfirmed, nTotalValue), nTotalValue, coins, Sum(coins))
    requires forall o :: o in vecSend ==> !IsDust(rules, o)
    ensures Attempted(rules, wallet, fOnlyConfirmed, vecSend, script, nFeeIn, tx, nFee)
    ensures nFee >= nFeeIn && Balanced(rules, wallet, fOnlyConfirmed, vecSend, script, tx, nFee)
  {
    BuiltSettles(rules, vecSend, script, nFeeIn, coins, tx, nFee);
  }

  /** An attempt at a given fee: selects coins and builds the transaction from them. */
  method Attempt(
    rules: Rules, wallet: seq<WalletTx>, fOnlyConfirmed: bool, vecSend: seq<TxOutput>, script: string, nValue: int, nFeeIn: int)
    returns (ok: bool, tx: Tx, nFee: int)
    requires SaneWallet(wallet) && nValue == Total(vecSend, |vecSend|) && forall o :: o in vecSend ==> !IsDust(rules, o)
    ensures ok <==> Sum(SpendableSet(wallet, fOnlyConfirmed)) >= nValue + nFeeIn
    ensures !ok ==> nFee == nFeeIn
    ensures ok ==> Attempted(rules, wallet, fOnlyConfirmed, vecSend, script, nFeeIn, tx, nFee)
    ensures ok ==> nFee >= nFeeIn && Balanced(rules, wallet, fOnlyConfirmed, vecSend, script, tx, nFee)
  {
    tx, nFee := Tx([], []), nFeeIn;
    var setCoins, nValueIn;
    ok, setCoins, nValueIn := SelectCoins(wallet, fOnlyConfirmed, nValue + nFeeIn);
    if ok {
      tx, nFee := Build(rules, vecSend, script, nFeeIn, setCoins, nValueIn - nValue - nFeeIn);
      BuiltIsAttempted(rules, wallet, fOnlyConfirmed, vecSend, script, nFeeIn, setCoins, tx, nFee);
    }
  }

  // ---- The loop ----

  /** Sums up the payments; no running total may be negative. */
  method SumPayments(vecSend: seq<TxOutput>) returns (ok: bool, nValue: int)
    ensures ok <==> vecSend != [] && forall n :: 0 <= n <= |vecSend| ==> Total(vecSend, n) >= 0
    ensures ok ==> nValue == Total(vecSend, |vecSend|)
  {
    nValue := 0;
    for n := 0 to |vecSend|
      invariant nValue == Total(vecSend, n)
      invariant forall m :: 0 <= m < n ==> Total(vecSend, m) >= 0
    {
      if nValue < 0 {
        return false, nValue;
      }
      nValue := nValue + vecSend[n].value;
    }
    ok := vecSend != [] && nValue >= 0;
  }

  method AnyDust(rules: Rules, vecSend: seq<TxOutput>) returns (dust: bool)
    ensures dust <==> exists o :: o in vecSend && IsDust(rules, o)
  {
    for n := 0 to |vecSend|
      invariant forall m :: 0 <= m < n ==> !IsDust(rules, vecSend[m])
    {
      if IsDust(rules, vecSend[n]) {
        return true;
      }
    }
    return false;
  }

  /** What a successful payment promises. */
  ghost predicate GoodPayment(
    rules: Rules, wallet: seq<WalletTx>, fOnlyConfirmed: bool, vecSend: seq<TxOutput>, script: string, tx: Tx, nFee: int)
  {
    && Balanced(rules, wallet, fOnlyConfirmed, vecSend, script, tx, nFee)
    && nFee >= rules.nTransactionFee && nFee >= rules.nTransactionFee * (1 + rules.txSize(tx) / 1000) && nFee >= rules.minFee(tx)
    && rules.txSize(tx) < rules.maxSize
    && Signed(rules, tx)
  }

  /** The fee is the one set, or what some balanced payment that carries less would have to carry. */
  ghost predicate Demanded(
    rules: Rules, wallet: seq<WalletTx>, fOnlyConfirmed: bool, vecSend: seq<TxOutput>, script: string, nFee: int)
  {
    || nFee == rules.nTransactionFee
    || exists tx, less :: Balanced(rules, wallet, fOnlyConfirmed, vecSend, script, tx, less) && less < nFee
                          && nFee >= rules.nTransactionFee * (1 + rules.txSize(tx) / 1000) && nFee >= rules.minFee(tx)
                          && (nFee == rules.nTransactionFee * (1 + rules.txSize(tx) / 1000) || nFee == rules.minFee(tx))
  }

  /** Creates a payment. The fee rises on every retry and is bounded by the funds, so the loop ends. */
  method Create(rules: Rules, wallet: seq<WalletTx>, fOnlyConfirmed: bool, vecSend: seq<TxOutput>, script: string)
    returns (r: Outcome)
    requires SaneWallet(wallet)
    ensures r.NotPositive? <==> vecSend == [] || exists n :: 0 <= n <= |vecSend| && Total(vecSend, n) < 0
    ensures r.TooSmall? <==> !r.NotPositive? && exists o :: o in vecSend && IsDust(rules, o)
    ensures r.InsufficientFunds? ==> r.nFee >= rules.nTransactionFee
                                     && Sum(SpendableSet(wallet, fOnlyConfirmed)) < Total(vecSend, |vecSend|) + r.nFee
    ensures r.InsufficientFunds? ==> Demanded(rules, wallet, fOnlyConfirmed, vecSend, script, r.nFee)
    ensures r.Created? ==> GoodPayment(rules, wallet, fOnlyConfirmed, vecSend, script, r.tx, r.nFee)
    ensures r.Created? ==> exists nFeeIn :: Demanded(rules, wallet, fOnlyConfirmed, vecSend, script, nFeeIn)
                                            && Attempted(rules, wallet, fOnlyConfirmed, vecSend, script, nFeeIn, r.tx, r.nFee)
    ensures r.SigningFailed? ==> exists tx, nFee :: Balanced(rules, wallet, fOnlyConfirmed, vecSend, script, tx, nFee)
                                                    && !Signed(rules, tx)
    ensures r.TooLarge? ==> exists tx, nFee :: Balanced(rules, wallet, fOnlyConfirmed, vecSend, script, tx, nFee)
                                               && Signed(rules, tx) && rules.txSize(tx) >= rules.maxSize
  {
    var ok, nValue := SumPayments(vecSend);
    if !ok {
      return NotPositive;
    }
    var nFeeRet := rules.nTransactionFee;
    while true
      invariant nFeeRet >= rules.nTransactionFee
      invariant nFeeRet > rules.nTransactionFee ==> forall o :: o in vecSend ==> !IsDust(rules, o)
      invariant Demanded(rules, wallet, fOnlyConfirmed, vecSend, script, nFeeRet)
      decreases Sum(SpendableSet(wallet, fOnlyConfirmed)) - nValue - nFeeRet + 1
    {
      var dust := AnyDust(rules, vecSend);
      if dust {
        return TooSmall;
      }
      var done, tx;
      done, tx, nFeeRet := Attempt(rules, wallet, fOnlyConfirmed, vecSend, script, nValue, nFeeRet);
      if !done {
        return InsufficientFunds(nFeeRet);
      }
      var signed := Sign(rules, tx);
      if !signed {
        return SigningFailed;
      }
      if rules.txSize(tx) >= rules.maxSize {
        return TooLarge;
      }
      var required := RequiredFee(rules, tx);
      if nFeeRet < required {
        nFeeRet := required;
        continue;
      }
      return Created(tx, nFeeRet);
    }
  }
}
