/** The pruned form of a transaction: its unspent outputs, and their serialisation with a bitmask. */
module PrunedCoins {
  import opened Options

  type Byte = bv8

  datatype TxOut = TxOut(nValue: int, script: seq<Byte>) {
    predicate IsNull() { nValue == -1 }
  }

  const NULL: TxOut := TxOut(-1, [])

  /** How numbers (VARINT) and outputs (compressed) are written and read; reading also tells how many bytes it took. */
  datatype Codec = Codec(
    putInt: nat -> seq<Byte>, getInt: seq<Byte> -> Option<(nat, nat)>,
    putOut: TxOut -> seq<Byte>, getOut: seq<Byte> -> Option<(TxOut, nat)>)
  {
    /** What was written is read back, whatever follows, and reading takes no more than there is. */
    ghost predicate Lawful() {
      && (forall n: nat, rest: seq<Byte> :: getInt(putInt(n) + rest) == Some((n, |putInt(n)|)))
      && (forall o: TxOut, rest: seq<Byte> :: !o.IsNull() ==> getOut(putOut(o) + rest) == Some((o, |putOut(o)|)))
    }
  }

  // ---- Bits of a byte ----

  function Flag(p: nat): Byte
    requires p < 8
  {
    match p
    case 0 => 0x01
    case 1 => 0x02
    case 2 => 0x04
    case 3 => 0x08
    case 4 => 0x10
    case 5 => 0x20
    case 6 => 0x40
    case 7 => 0x80
  }

  predicate Bit(c: Byte, p: nat)
    requires p < 8
  {
    c & Flag(p) != 0
  }

  lemma SetBit(c: Byte, p: nat, q: nat)
    requires p < 8 && q < 8
    ensures Bit(c | Flag(p), q) <==> p == q || Bit(c, q)
  {
  }

  lemma ZeroBits(c: Byte)
    ensures c == 0 <==> forall p :: 0 <= p < 8 ==> !Bit(c, p)
  {
    if c != 0 {
      assert Bit(c, 0) || Bit(c, 1) || Bit(c, 2) || Bit(c, 3) || Bit(c, 4) || Bit(c, 5) || Bit(c, 6) || Bit(c, 7);
    }
  }

  // ---- Unspent outputs and the mask ----

  predicate Avail(vout: seq<TxOut>, i: nat) {
    i < |vout| && !vout[i].IsNull()
  }

  /** Byte b of the mask after its first n bits: outputs 2 + 8b and on. */
  function Packed(vout: seq<TxOut>, b: nat, n: nat): Byte
    requires n <= 8
  {
    if n == 0 then 0 else
      Packed(vout, b, n - 1) | (if InGroup(vout, b, n - 1) then Flag(n - 1) else 0)
  }

  function MaskByte(vout: seq<TxOut>, b: nat): Byte {
    Packed(vout, b, 8)
  }

  lemma {:induction false} PackedBits(vout: seq<TxOut>, b: nat, n: nat, q: nat)
    requires n <= 8 && q < 8
    ensures Bit(Packed(vout, b, n), q) <==> q < n && InGroup(vout, b, q)
    decreases n
  {
    if n > 0 {
      PackedBits(vout, b, n - 1, q);
      var c := Packed(vout, b, n - 1);
      SetBit(c, n - 1, q);
      assert c | 0 == c;
    } else {
      ZeroBits(0);
    }
  }

  /** Some output of group b is unspent. */
  predicate Used(vout: seq<TxOut>, b: nat) {
    exists i :: 0 <= i < 8 && InGroup(vout, b, i)
  }

  /** Output i of group b is unspent. */
  predicate InGroup(vout: seq<TxOut>, b: nat, i: nat) {
    Avail(vout, 2 + 8 * b + i)
  }

  lemma UsedByte(vout: seq<TxOut>, b: nat)
    ensures MaskByte(vout, b) != 0 <==> Used(vout, b)
  {
    var c := MaskByte(vout, b);
    ZeroBits(c);
    forall q: nat | q < 8 ensures Bit(c, q) <==> InGroup(vout, b, q) {
      PackedBits(vout, b, 8, q);
    }
    if Used(vout, b) {
      var i :| 0 <= i < 8 && InGroup(vout, b, i);
      assert Bit(c, i);
    }
    if c != 0 {
      var q :| 0 <= q < 8 && Bit(c, q);
      assert InGroup(vout, b, q);
    }
  }

  /** One more than the last used group before n; 0 if there is none. */
  function LastUsed(vout: seq<TxOut>, n: nat): (r: nat)
    ensures r <= n && (r > 0 ==> Used(vout, r - 1)) && forall b :: r <= b < n ==> !Used(vout, b)
  {
    if n == 0 then 0 else if Used(vout, n - 1) then n else LastUsed(vout, n - 1)
  }

  /** How many of the first n groups are used. */
  function UsedCount(vout: seq<TxOut>, n: nat): nat {
    if n == 0 then 0 else UsedCount(vout, n - 1) + if Used(vout, n - 1) then 1 else 0
  }

  /** How many groups of eight there are after the first two outputs. */
  function Groups(vout: seq<TxOut>): nat {
    if |vout| <= 2 then 0 else (|vout| - 2 + 7) / 8
  }

  function MaskSize(vout: seq<TxOut>): nat {
    LastUsed(vout, Groups(vout))
  }

  lemma BeyondGroups(vout: seq<TxOut>, b: nat)
    requires b >= Groups(vout)
    ensures !Used(vout, b) && 2 + 8 * b >= |vout|
  {
  }

  lemma {:induction false} UsedCountFlat(vout: seq<TxOut>, m: nat, n: nat)
    requires m <= n && forall b :: m <= b < n ==> !Used(vout, b)
    ensures UsedCount(vout, n) == UsedCount(vout, m)
    decreases n
  {
    if m < n {
      UsedCountFlat(vout, m, n - 1);
    }
  }

  // ---- Trailing spent outputs ----

  /** Without the spent outputs at the end. */
  function Trimmed(vout: seq<TxOut>): seq<TxOut>
    decreases |vout|
  {
    if vout != [] && vout[|vout| - 1].IsNull() then Trimmed(vout[..|vout| - 1]) else vout
  }

  predicate NoTrailing(vout: seq<TxOut>) {
    vout == [] || !vout[|vout| - 1].IsNull()
  }

  predicate AllSpent(vout: seq<TxOut>) {
    forall i :: 0 <= i < |vout| ==> vout[i].IsNull()
  }

  lemma {:induction false} TrimmedIs(vout: seq<TxOut>)
    ensures NoTrailing(Trimmed(vout)) && Trimmed(vout) <= vout
    ensures forall i :: |Trimmed(vout)| <= i < |vout| ==> vout[i].IsNull()
    ensures Trimmed(vout) == [] <==> AllSpent(vout)
    decreases |vout|
  {
    if vout != [] && vout[|vout| - 1].IsNull() {
      TrimmedIs(vout[..|vout| - 1]);
    }
  }

  /** Spent outputs carry no data. */
  function Canonical(o: TxOut): TxOut {
    if o.IsNull() then NULL else o
  }

  /** Output i, or a spent one if there is none. */
  function At(vout: seq<TxOut>, i: nat): TxOut {
    if i < |vout| then Canonical(vout[i]) else NULL
  }

  /** What a pruned form says: its outputs without trailing spent ones, spent ones without data. */
  function Cleaned(vout: seq<TxOut>): seq<TxOut> {
    Trimmed(seq(|vout|, i requires 0 <= i < |vout| => Canonical(vout[i])))
  }

  lemma CleanedAt(vout: seq<TxOut>, i: nat)
    ensures At(Cleaned(vout), i) == At(vout, i)
    ensures NoTrailing(Cleaned(vout)) && (i < |Cleaned(vout)| ==> Cleaned(vout)[i] == At(vout, i))
  {
    var all := seq(|vout|, j requires 0 <= j < |vout| => Canonical(vout[j]));
    TrimmedIs(all);
    assert Cleaned(vout) == Trimmed(all);
    if i < |Cleaned(vout)| {
      assert Cleaned(vout)[i] == all[i] == Canonical(vout[i]);
    } else if i < |vout| {
      assert all[i].IsNull() && all[i] == Canonical(vout[i]);
    }
  }

  /** Outputs that agree at every position are cleaned to the same. */
  lemma CleanedSame(v: seq<TxOut>, w: seq<TxOut>)
    requires forall i: nat :: At(v, i) == At(w, i)
    ensures Cleaned(v) == Cleaned(w)
  {
    var a, b := Cleaned(v), Cleaned(w);
    CleanedNotLonger(v, w);
    CleanedNotLonger(w, v);
    forall i | 0 <= i < |a| ensures a[i] == b[i] {
      CleanedAt(v, i);
      CleanedAt(w, i);
    }
  }

  lemma CleanedNotLonger(v: seq<TxOut>, w: seq<TxOut>)
    requires forall i: nat :: At(v, i) == At(w, i)
    ensures |Cleaned(v)| <= |Cleaned(w)|
  {
    var a, b := Cleaned(v), Cleaned(w);
    TrimmedIs(seq(|v|, j requires 0 <= j < |v| => Canonical(v[j])));
    if a != [] {
      CleanedAt(v, |a| - 1);
      CleanedAt(w, |a| - 1);
      assert !At(w, |a| - 1).IsNull();
    }
  }

  predicate AllCanonical(vout: seq<TxOut>) {
    forall i :: 0 <= i < |vout| ==> vout[i] == Canonical(vout[i])
  }

  /** The outputs that cleaning leaves alone. */
  lemma CleanOutputs(vout: seq<TxOut>)
    ensures Cleaned(vout) == vout <==> NoTrailing(vout) && AllCanonical(vout)
  {
    var all := seq(|vout|, j requires 0 <= j < |vout| => Canonical(vout[j]));
    TrimmedIs(all);
    if Cleaned(vout) == vout {
      assert all == vout;
      forall i | 0 <= i < |vout| ensures vout[i] == Canonical(vout[i]) {
        assert all[i] == Canonical(vout[i]);
      }
    }
    if NoTrailing(vout) && AllCanonical(vout) {
      assert all == vout;
    }
  }

  // ---- Spending ----

  function SpentAt(vout: seq<TxOut>, n: nat): seq<TxOut>
    requires n < |vout|
  {
    Trimmed(vout[n := NULL])
  }

  /** Spending takes exactly one output away, and keeps the domain in which serialising loses nothing; or it leaves
      nothing at all. */
  lemma SpendKeepsDomain(vout: seq<TxOut>, n: nat)
    requires AllCanonical(vout) && Avail(vout, n)
    ensures var after := SpentAt(vout, n);
            && NoTrailing(after) && AllCanonical(after) && (after == [] || !AllSpent(after))
            && forall i: nat :: Avail(after, i) <==> Avail(vout, i) && i != n
  {
    var less := vout[n := NULL];
    TrimmedIs(less);
    var after := SpentAt(vout, n);
    if after != [] {
      assert !after[|after| - 1].IsNull();
    }
    forall i: nat ensures Avail(after, i) <==> Avail(vout, i) && i != n {
      if i < |after| {
        assert after[i] == less[i];
      } else if i < |vout| {
        assert less[i].IsNull();
      }
    }
    forall i | 0 <= i < |after| ensures after[i] == Canonical(after[i]) {
      assert after[i] == less[i];
    }
  }

  /** The outputs after the first k of some spends, those of outputs no longer there failing. */
  function AfterSpends(vout: seq<TxOut>, ns: seq<nat>, k: nat): seq<TxOut>
    requires k <= |ns|
  {
    if k == 0 then vout else
      var before := AfterSpends(vout, ns, k - 1);
      if Avail(before, ns[k - 1]) then SpentAt(before, ns[k - 1]) else before
  }

  /** Over any run of spends, exactly the outputs not yet spent are available, and serialising would lose nothing. */
  lemma {:induction false} RunOfSpends(vout: seq<TxOut>, ns: seq<nat>, k: nat)
    requires NoTrailing(vout) && AllCanonical(vout) && k <= |ns|
    ensures var after := AfterSpends(vout, ns, k);
            && NoTrailing(after) && AllCanonical(after) && (after == [] || !AllSpent(after))
            && forall i: nat :: Avail(after, i) <==> Avail(vout, i) && i !in ns[..k]
    decreases k
  {
    if k == 0 {
      assert vout != [] ==> !vout[|vout| - 1].IsNull();
    } else {
      RunOfSpends(vout, ns, k - 1);
      var before := AfterSpends(vout, ns, k - 1);
      assert ns[..k] == ns[..k - 1] + [ns[k - 1]];
      if Avail(before, ns[k - 1]) {
        SpendKeepsDomain(before, ns[k - 1]);
      }
    }
  }

  // ---- The bytes ----

  datatype Coins = Coins(fCoinBase: bool, vout: seq<TxOut>, nHeight: nat, nVersion: nat)

  function FlagBit(b: bool, value: nat): nat {
    if b then value else 0
  }

  /** The header code: the flags, and how many mask bytes are not zero, or one less if both first outputs are spent. */
  function HeaderCode(c: Coins): int {
    var fFirst, fSecond := Avail(c.vout, 0), Avail(c.vout, 1);
    8 * (UsedCount(c.vout, MaskSize(c.vout)) - FlagBit(!fFirst && !fSecond, 1))
    + FlagBit(c.fCoinBase, 1) + FlagBit(fFirst, 2) + FlagBit(fSecond, 4)
  }

  /** The mask bytes from b on up to n. */
  function MaskFrom(vout: seq<TxOut>, b: nat, n: nat): seq<Byte>
    requires b <= n
    decreases n - b
  {
    if b == n then [] else [MaskByte(vout, b)] + MaskFrom(vout, b + 1, n)
  }

  /** The unspent outputs from i on. */
  function OutsFrom(codec: Codec, vout: seq<TxOut>, i: nat): seq<Byte>
    decreases |vout| - i
  {
    if i >= |vout| then [] else
      (if vout[i].IsNull() then [] else codec.putOut(vout[i])) + OutsFrom(codec, vout, i + 1)
  }

  /** The serialised form. */
  function Serialized(codec: Codec, c: Coins): seq<Byte>
    requires !AllSpent(c.vout)
  {
    CodeNotNegative(c);
    codec.putInt(c.nVersion) + (codec.putInt(HeaderCode(c))
      + (MaskFrom(c.vout, 0, MaskSize(c.vout)) + (OutsFrom(codec, c.vout, 0) + codec.putInt(c.nHeight))))
  }

  /** With both first outputs spent, some mask byte is not zero. */
  lemma CodeNotNegative(c: Coins)
    requires !AllSpent(c.vout)
    ensures HeaderCode(c) >= 0
    ensures !Avail(c.vout, 0) && !Avail(c.vout, 1) ==> UsedCount(c.vout, MaskSize(c.vout)) > 0
  {
    if !Avail(c.vout, 0) && !Avail(c.vout, 1) {
      var i :| 0 <= i < |c.vout| && !c.vout[i].IsNull();
      assert Avail(c.vout, i);
      var b := (i - 2) / 8;
      assert InGroup(c.vout, b, (i - 2) % 8);
      assert Used(c.vout, b);
      if b >= Groups(c.vout) {
        BeyondGroups(c.vout, b);
      }
      assert MaskSize(c.vout) > 0;
    }
  }

  /** Output n is there and unspent. */
  predicate Unspent(vout: seq<TxOut>, n: nat) {
    n < |vout| && vout[n].nValue != -1
  }

  /** The bits of a mask byte, lowest first, are the eight outputs of its group. */
  lemma MaskBits(vout: seq<TxOut>, b: nat)
    ensures MaskByte(vout, b) & 1 != 0 <==> Unspent(vout, 8 * b + 2)
    ensures MaskByte(vout, b) & 2 != 0 <==> Unspent(vout, 8 * b + 3)
    ensures MaskByte(vout, b) & 4 != 0 <==> Unspent(vout, 8 * b + 4)
    ensures MaskByte(vout, b) & 8 != 0 <==> Unspent(vout, 8 * b + 5)
    ensures MaskByte(vout, b) & 16 != 0 <==> Unspent(vout, 8 * b + 6)
    ensures MaskByte(vout, b) & 32 != 0 <==> Unspent(vout, 8 * b + 7)
    ensures MaskByte(vout, b) & 64 != 0 <==> Unspent(vout, 8 * b + 8)
    ensures MaskByte(vout, b) & 128 != 0 <==> Unspent(vout, 8 * b + 9)
  {
    forall q: nat | q < 8 ensures Bit(MaskByte(vout, b), q) <==> Unspent(vout, 2 + 8 * b + q) {
      PackedBits(vout, b, 8, q);
    }
    assert forall q: nat :: q < 8 ==> (Bit(MaskByte(vout, b), q) <==> Unspent(vout, 2 + 8 * b + q));
    var c := MaskByte(vout, b);
    assert Bit(c, 0) == (c & 1 != 0) && Bit(c, 1) == (c & 2 != 0) && Bit(c, 2) == (c & 4 != 0) && Bit(c, 3) == (c & 8 != 0);
    assert Bit(c, 4) == (c & 16 != 0) && Bit(c, 5) == (c & 32 != 0) && Bit(c, 6) == (c & 64 != 0) && Bit(c, 7) == (c & 128 != 0);
  }

  /** The lowest bits of the header code are the coinbase flag and the first two outputs; the rest is the number of mask
      bytes that are not zero, less one if both are spent. */
  lemma HeaderBits(c: Coins)
    requires !AllSpent(c.vout)
    ensures HeaderCode(c) % 2 == 1 <==> c.fCoinBase
    ensures HeaderCode(c) / 2 % 2 == 1 <==> Unspent(c.vout, 0)
    ensures HeaderCode(c) / 4 % 2 == 1 <==> Unspent(c.vout, 1)
    ensures HeaderCode(c) / 8 == UsedCount(c.vout, MaskSize(c.vout)) - if Unspent(c.vout, 0) || Unspent(c.vout, 1) then 0 else 1
  {
    CodeNotNegative(c);
    var fFirst, fSecond := Avail(c.vout, 0), Avail(c.vout, 1);
    var k := UsedCount(c.vout, MaskSize(c.vout)) - FlagBit(!fFirst && !fSecond, 1);
    CodeBack(k, c.fCoinBase, fFirst, fSecond);
    assert FlagsOf(HeaderCode(c)) == [fFirst, fSecond];
    assert FlagsOf(HeaderCode(c))[0] == fFirst && FlagsOf(HeaderCode(c))[1] == fSecond;
  }

  /** The documented instances: only the second output is unspent; and, of a coinbase, only the fifth and the seventeenth. */
  lemma OneUnspent(codec: Codec, c: Coins)
    requires |c.vout| == 2 && !c.fCoinBase && c.vout[0].IsNull() && !c.vout[1].IsNull()
    ensures Serialized(codec, c) == codec.putInt(c.nVersion) + codec.putInt(4) + codec.putOut(c.vout[1]) + codec.putInt(c.nHeight)
  {
    assert HeaderCode(c) == 4;
    assert OutsFrom(codec, c.vout, 1) == codec.putOut(c.vout[1]) + OutsFrom(codec, c.vout, 2);
    assert OutsFrom(codec, c.vout, 0) == [] + OutsFrom(codec, c.vout, 1);
  }

  lemma FifthAndSeventeenth(codec: Codec, c: Coins)
    requires |c.vout| == 17 && c.fCoinBase && !c.vout[4].IsNull() && !c.vout[16].IsNull()
    requires forall i :: 0 <= i < 17 && i != 4 && i != 16 ==> c.vout[i].IsNull()
    ensures Serialized(codec, c)
         == codec.putInt(c.nVersion) + codec.putInt(9) + [0x04, 0x40] + codec.putOut(c.vout[4]) + codec.putOut(c.vout[16])
            + codec.putInt(c.nHeight)
  {
    TwoGroups(c);
    TwoMaskBytes(c.vout);
    TwoOutputs(codec, c.vout);
  }

  lemma TwoGroups(c: Coins)
    requires |c.vout| == 17 && c.fCoinBase && c.vout[0].IsNull() && c.vout[1].IsNull() && !c.vout[4].IsNull() && !c.vout[16].IsNull()
    ensures MaskSize(c.vout) == 2 && HeaderCode(c) == 9
  {
    assert InGroup(c.vout, 0, 2) && InGroup(c.vout, 1, 6);
    assert UsedCount(c.vout, 1) == UsedCount(c.vout, 0) + 1 && UsedCount(c.vout, 2) == 2;
  }

  lemma TwoOutputs(codec: Codec, vout: seq<TxOut>)
    requires |vout| == 17 && !vout[4].IsNull() && !vout[16].IsNull()
    requires forall i :: 0 <= i < 17 && i != 4 && i != 16 ==> vout[i].IsNull()
    ensures OutsFrom(codec, vout, 0) == codec.putOut(vout[4]) + codec.putOut(vout[16])
  {
    SpentSkipped(codec, vout, 0, 4);
    SpentSkipped(codec, vout, 5, 16);
    assert OutsFrom(codec, vout, 17) == [];
    assert OutsFrom(codec, vout, 16) == codec.putOut(vout[16]);
  }

  lemma TwoMaskBytes(vout: seq<TxOut>)
    requires |vout| == 17 && !vout[4].IsNull() && !vout[16].IsNull()
    requires forall i :: 0 <= i < 17 && i != 4 && i != 16 ==> vout[i].IsNull()
    ensures MaskFrom(vout, 0, 2) == [0x04, 0x40]
  {
    MaskBits(vout, 0);
    MaskBits(vout, 1);
    OneBit(MaskByte(vout, 0), 0x04);
    OneBit(MaskByte(vout, 1), 0x40);
    assert MaskFrom(vout, 2, 2) == [];
    assert MaskFrom(vout, 1, 2) == [MaskByte(vout, 1)] + [];
  }

  lemma OneBit(c: Byte, d: Byte)
    requires c & 1 == d & 1 && c & 2 == d & 2 && c & 4 == d & 4 && c & 8 == d & 8
    requires c & 16 == d & 16 && c & 32 == d & 32 && c & 64 == d & 64 && c & 128 == d & 128
    ensures c == d
  {
  }

  lemma {:induction false} SpentSkipped(codec: Codec, vout: seq<TxOut>, i: nat, j: nat)
    requires i <= j <= |vout| && forall k :: i <= k < j ==> vout[k].IsNull()
    ensures OutsFrom(codec, vout, i) == OutsFrom(codec, vout, j)
    decreases j - i
  {
    if i < j {
      SpentSkipped(codec, vout, i + 1, j);
    }
  }

  // ---- Reading ----

  function Bits(c: Byte): seq<bool> {
    [Bit(c, 0), Bit(c, 1), Bit(c, 2), Bit(c, 3), Bit(c, 4), Bit(c, 5), Bit(c, 6), Bit(c, 7)]
  }

  /** Reads mask bytes until n of them were not zero. */
  function ReadMask(s: seq<Byte>, n: nat): Option<(seq<bool>, seq<Byte>)>
    decreases |s|
  {
    if n == 0 then Some(([], s))
    else if s == [] then None
    else
      var rest := ReadMask(s[1..], if s[0] != 0 then n - 1 else n);
      if rest.None? then None else Some((Bits(s[0]) + rest.value.0, rest.value.1))
  }

  /** Reads an output for each flag from i on that is set. */
  function ReadOuts(codec: Codec, s: seq<Byte>, avail: seq<bool>, i: nat): Option<(seq<TxOut>, seq<Byte>)>
    requires i <= |avail|
    decreases |avail| - i
  {
    if i == |avail| then Some(([], s))
    else if avail[i] then
      var out := codec.getOut(s);
      if out.None? || out.value.1 > |s| then None else
        var rest := ReadOuts(codec, s[out.value.1..], avail, i + 1);
        if rest.None? then None else Some(([out.value.0] + rest.value.0, rest.value.1))
    else
      var rest := ReadOuts(codec, s, avail, i + 1);
      if rest.None? then None else Some(([NULL] + rest.value.0, rest.value.1))
  }

  function ReadInt(codec: Codec, s: seq<Byte>): Option<(nat, seq<Byte>)> {
    var n := codec.getInt(s);
    if n.None? || n.value.1 > |s| then None else Some((n.value.0, s[n.value.1..]))
  }

  function FlagsOf(nCode: nat): seq<bool> {
    [nCode / 2 % 2 != 0, nCode / 4 % 2 != 0]
  }

  function MaskCodeOf(nCode: nat): nat {
    nCode / 8 + if FlagsOf(nCode)[0] || FlagsOf(nCode)[1] then 0 else 1
  }

  /** What reading gives, and the bytes left. */
  function Parsed(codec: Codec, s: seq<Byte>): Option<(Coins, seq<Byte>)> {
    var version := ReadInt(codec, s);
    if version.None? then None else
      var code := ReadInt(codec, version.value.1);
      if code.None? then None else
        var nCode := code.value.0;
        var mask := ReadMask(code.value.1, MaskCodeOf(nCode));
        if mask.None? then None else
          var outs := ReadOuts(codec, mask.value.1, FlagsOf(nCode) + mask.value.0, 0);
          if outs.None? then None else
            var height := ReadInt(codec, outs.value.1);
            if height.None? then None else
              Some((Coins(nCode % 2 != 0, Trimmed(outs.value.0), height.value.0, version.value.0), height.value.1))
  }

  // ---- The round trip ----

  lemma IntBack(codec: Codec, n: nat, rest: seq<Byte>)
    requires codec.Lawful()
    ensures ReadInt(codec, codec.putInt(n) + rest) == Some((n, rest))
  {
    assert codec.getInt(codec.putInt(n) + rest) == Some((n, |codec.putInt(n)|));
    assert (codec.putInt(n) + rest)[|codec.putInt(n)|..] == rest;
  }

  /** The flags of the outputs in the groups from b up to n. */
  function FlagsFrom(vout: seq<TxOut>, b: nat, n: nat): seq<bool>
    requires b <= n
    decreases n - b
  {
    if b == n then [] else Bits(MaskByte(vout, b)) + FlagsFrom(vout, b + 1, n)
  }

  /** Counting the bytes that are not zero finds the end of the mask, as the last byte is not zero. */
  lemma {:induction false} MaskBack(vout: seq<TxOut>, b: nat, rest: seq<Byte>)
    requires b <= MaskSize(vout)
    ensures UsedCount(vout, b) <= UsedCount(vout, MaskSize(vout))
    ensures ReadMask(MaskFrom(vout, b, MaskSize(vout)) + rest, UsedCount(vout, MaskSize(vout)) - UsedCount(vout, b))
         == Some((FlagsFrom(vout, b, MaskSize(vout)), rest))
    decreases MaskSize(vout) - b
  {
    var n := MaskSize(vout);
    if b == n {
      assert MaskFrom(vout, b, MaskSize(vout)) + rest == rest;
    } else {
      MaskBack(vout, b + 1, rest);
      UsedByte(vout, b);
      MoreUsed(vout, b, n);
      var all := MaskFrom(vout, b, MaskSize(vout)) + rest;
      assert all == [MaskByte(vout, b)] + (MaskFrom(vout, b + 1, MaskSize(vout)) + rest);
      assert all[1..] == MaskFrom(vout, b + 1, MaskSize(vout)) + rest;
    }
  }

  lemma {:induction false} UsedGrows(vout: seq<TxOut>, m: nat, n: nat)
    requires m <= n
    ensures UsedCount(vout, m) <= UsedCount(vout, n)
    decreases n
  {
    if m < n {
      UsedGrows(vout, m, n - 1);
    }
  }

  lemma MoreUsed(vout: seq<TxOut>, b: nat, n: nat)
    requires b < n && Used(vout, n - 1)
    ensures UsedCount(vout, n) > UsedCount(vout, b)
  {
    UsedGrows(vout, b, n - 1);
  }

  lemma {:induction false} FlagsFromAt(vout: seq<TxOut>, b: nat, n: nat, k: nat)
    requires b <= n && k < 8 * (n - b)
    ensures |FlagsFrom(vout, b, n)| == 8 * (n - b)
    ensures FlagsFrom(vout, b, n)[k] <==> Avail(vout, 2 + 8 * b + k)
    decreases n - b
  {
    var first := Bits(MaskByte(vout, b));
    if b + 1 < n {
      FlagsFromAt(vout, b + 1, n, if k < 8 then 0 else k - 8);
    }
    if k < 8 {
      PackedBits(vout, b, 8, k);
      assert first[k] <==> Bit(MaskByte(vout, b), k);
    }
  }

  lemma {:induction false} FlagsFromLength(vout: seq<TxOut>, b: nat, n: nat)
    requires b <= n
    ensures |FlagsFrom(vout, b, n)| == 8 * (n - b)
    decreases n - b
  {
    if b < n {
      FlagsFromLength(vout, b + 1, n);
    }
  }

  lemma LowBits(k: nat, r: nat)
    requires r < 8
    ensures (8 * k + r) / 8 == k && (8 * k + r) % 2 == r % 2
    ensures (8 * k + r) / 2 % 2 == r / 2 % 2 && (8 * k + r) / 4 % 2 == r / 4 % 2
  {
    assert (8 * k + r) / 2 == 4 * k + r / 2;
    assert (8 * k + r) / 4 == 2 * k + r / 4;
  }

  lemma CodeBack(k: nat, coinBase: bool, first: bool, second: bool)
    ensures var nCode := 8 * k + FlagBit(coinBase, 1) + FlagBit(first, 2) + FlagBit(second, 4);
            && (nCode % 2 != 0 <==> coinBase) && FlagsOf(nCode) == [first, second] && nCode / 8 == k
  {
    var r := FlagBit(coinBase, 1) + FlagBit(first, 2) + FlagBit(second, 4);
    LowBits(k, r);
    assert (r % 2 != 0 <==> coinBase) && (r / 2 % 2 != 0 <==> first) && (r / 4 % 2 != 0 <==> second);
  }

  lemma HeaderBack(c: Coins)
    requires !AllSpent(c.vout)
    ensures HeaderCode(c) >= 0 && (HeaderCode(c) % 2 != 0 <==> c.fCoinBase)
    ensures FlagsOf(HeaderCode(c)) == [Avail(c.vout, 0), Avail(c.vout, 1)]
    ensures MaskCodeOf(HeaderCode(c)) == UsedCount(c.vout, MaskSize(c.vout))
  {
    CodeNotNegative(c);
    var fFirst, fSecond := Avail(c.vout, 0), Avail(c.vout, 1);
    CodeBack(UsedCount(c.vout, MaskSize(c.vout)) - FlagBit(!fFirst && !fSecond, 1), c.fCoinBase, fFirst, fSecond);
  }

  /** The flags read: one for each output up to the last group used. */
  function Flags(vout: seq<TxOut>): seq<bool> {
    [Avail(vout, 0), Avail(vout, 1)] + FlagsFrom(vout, 0, MaskSize(vout))
  }

  lemma FlagsAt(vout: seq<TxOut>, i: nat)
    ensures |Flags(vout)| == 2 + 8 * MaskSize(vout)
    ensures if i < |Flags(vout)| then Flags(vout)[i] <==> Avail(vout, i) else !Avail(vout, i)
  {
    FlagsFromLength(vout, 0, MaskSize(vout));
    if 2 <= i < |Flags(vout)| {
      FlagsFromAt(vout, 0, MaskSize(vout), i - 2);
    } else if i >= |Flags(vout)| {
      var b := (i - 2) / 8;
      assert InGroup(vout, b, (i - 2) % 8) <==> Avail(vout, i);
      if b >= Groups(vout) {
        BeyondGroups(vout, b);
      }
      assert !Used(vout, b);
    }
  }

  lemma {:induction false} NoOutsLeft(codec: Codec, vout: seq<TxOut>, i: nat)
    requires forall j: nat :: j >= i ==> !Avail(vout, j)
    ensures OutsFrom(codec, vout, i) == []
    decreases |vout| - i
  {
    if i < |vout| {
      assert !Avail(vout, i);
      NoOutsLeft(codec, vout, i + 1);
    }
  }

  function OutOrNull(vout: seq<TxOut>, i: nat): TxOut {
    if Avail(vout, i) then vout[i] else NULL
  }

  /** The outputs from i up to n, the spent ones without data. */
  function OutsUpTo(vout: seq<TxOut>, i: nat, n: nat): (outs: seq<TxOut>)
    requires i <= n
    ensures |outs| == n - i
    decreases n - i
  {
    if i == n then [] else [OutOrNull(vout, i)] + OutsUpTo(vout, i + 1, n)
  }

  lemma {:induction false} OutsBack(codec: Codec, vout: seq<TxOut>, avail: seq<bool>, i: nat, rest: seq<Byte>)
    requires codec.Lawful() && i <= |avail|
    requires forall j: nat :: if j < |avail| then avail[j] <==> Avail(vout, j) else !Avail(vout, j)
    ensures ReadOuts(codec, OutsFrom(codec, vout, i) + rest, avail, i) == Some((OutsUpTo(vout, i, |avail|), rest))
    decreases |avail| - i
  {
    if i == |avail| {
      NoOutsLeft(codec, vout, i);
      assert [] + rest == rest;
    } else {
      OutsBack(codec, vout, avail, i + 1, rest);
      var more := OutsFrom(codec, vout, i + 1) + rest;
      if Avail(vout, i) {
        var bytes := codec.putOut(vout[i]);
        assert OutsFrom(codec, vout, i) + rest == bytes + more;
        assert codec.getOut(bytes + more) == Some((vout[i], |bytes|));
        assert (bytes + more)[|bytes|..] == more;
      } else {
        assert avail[i] <==> Avail(vout, i);
        OutsSkip(codec, vout, i);
      }
    }
  }

  lemma OutsSkip(codec: Codec, vout: seq<TxOut>, i: nat)
    requires !Avail(vout, i)
    ensures OutsFrom(codec, vout, i) == OutsFrom(codec, vout, i + 1)
  {
    if i < |vout| {
      assert [] + OutsFrom(codec, vout, i + 1) == OutsFrom(codec, vout, i + 1);
    }
  }

  lemma {:induction false} OutsUpToAt(vout: seq<TxOut>, i: nat, n: nat, k: nat)
    requires i <= n && k < n - i
    ensures OutsUpTo(vout, i, n)[k] == OutOrNull(vout, i + k)
    decreases n - i
  {
    if k > 0 {
      OutsUpToAt(vout, i + 1, n, k - 1);
    }
  }

  /** The outputs read, trimmed, are the cleaned ones. */
  lemma OutsAreCleaned(vout: seq<TxOut>, n: nat)
    requires forall i: nat :: i >= n ==> !Avail(vout, i)
    ensures Trimmed(OutsUpTo(vout, 0, n)) == Cleaned(vout)
  {
    var outs := OutsUpTo(vout, 0, n);
    forall i: nat ensures At(outs, i) == At(vout, i) {
      if i < n {
        OutsUpToAt(vout, 0, n, i);
        assert outs[i] == OutOrNull(vout, i);
      } else {
        assert !Avail(vout, i);
      }
    }
    CleanedSame(outs, vout);
    assert seq(n, j requires 0 <= j < n => Canonical(outs[j])) == outs by {
      forall j | 0 <= j < n ensures outs[j] == Canonical(outs[j]) {
        OutsUpToAt(vout, 0, n, j);
      }
    }
  }

  lemma OutputsBack(codec: Codec, vout: seq<TxOut>, rest: seq<Byte>)
    requires codec.Lawful()
    ensures ReadOuts(codec, OutsFrom(codec, vout, 0) + rest, Flags(vout), 0) == Some((OutsUpTo(vout, 0, |Flags(vout)|), rest))
    ensures Trimmed(OutsUpTo(vout, 0, |Flags(vout)|)) == Cleaned(vout)
  {
    forall j: nat ensures if j < |Flags(vout)| then Flags(vout)[j] <==> Avail(vout, j) else !Avail(vout, j) {
      FlagsAt(vout, j);
    }
    OutsBack(codec, vout, Flags(vout), 0, rest);
    OutsAreCleaned(vout, |Flags(vout)|);
  }

  /** The parts of the serialised form, each followed by the rest. */
  lemma SerializedParts(codec: Codec, c: Coins, rest: seq<Byte>)
    requires !AllSpent(c.vout)
    ensures HeaderCode(c) >= 0
    ensures Serialized(codec, c) + rest
         == codec.putInt(c.nVersion) + (codec.putInt(HeaderCode(c))
              + (MaskFrom(c.vout, 0, MaskSize(c.vout)) + (OutsFrom(codec, c.vout, 0) + (codec.putInt(c.nHeight) + rest))))
  {
    CodeNotNegative(c);
    var a, b := codec.putInt(c.nVersion), codec.putInt(HeaderCode(c));
    var m, o, h := MaskFrom(c.vout, 0, MaskSize(c.vout)), OutsFrom(codec, c.vout, 0), codec.putInt(c.nHeight);
    assert (a + (b + (m + (o + h)))) + rest == a + (b + (m + (o + (h + rest))));
  }

  /** What reading gives, if each part reads as said. */
  lemma ParsedParts(
    codec: Codec, s: seq<Byte>, version: nat, s1: seq<Byte>, code: nat, s2: seq<Byte>, flags: seq<bool>, s3: seq<Byte>,
    outs: seq<TxOut>, s4: seq<Byte>, height: nat, rest: seq<Byte>)
    requires ReadInt(codec, s) == Some((version, s1)) && ReadInt(codec, s1) == Some((code, s2))
    requires ReadMask(s2, MaskCodeOf(code)) == Some((flags, s3))
    requires ReadOuts(codec, s3, FlagsOf(code) + flags, 0) == Some((outs, s4)) && ReadInt(codec, s4) == Some((height, rest))
    ensures Parsed(codec, s) == Some((Coins(code % 2 != 0, Trimmed(outs), height, version), rest))
  {
  }

  /** Reading back what was written gives the coins without trailing spent outputs, and leaves what follows. */
  lemma RoundTrip(codec: Codec, c: Coins, rest: seq<Byte>)
    requires codec.Lawful() && !AllSpent(c.vout)
    ensures Parsed(codec, Serialized(codec, c) + rest) == Some((c.(vout := Cleaned(c.vout)), rest))
  {
    HeaderBack(c);
    SerializedParts(codec, c, rest);
    var height := codec.putInt(c.nHeight) + rest;
    var outs := OutsFrom(codec, c.vout, 0) + height;
    var mask := MaskFrom(c.vout, 0, MaskSize(c.vout)) + outs;
    IntBack(codec, c.nVersion, codec.putInt(HeaderCode(c)) + mask);
    IntBack(codec, HeaderCode(c), mask);
    MaskBack(c.vout, 0, outs);
    OutputsBack(codec, c.vout, height);
    IntBack(codec, c.nHeight, rest);
    ParsedParts(codec, Serialized(codec, c) + rest, c.nVersion, codec.putInt(HeaderCode(c)) + mask, HeaderCode(c), mask,
                FlagsFrom(c.vout, 0, MaskSize(c.vout)), outs, OutsUpTo(c.vout, 0, |Flags(c.vout)|), height, c.nHeight, rest);
  }

  /** Nothing is lost exactly when there are no trailing spent outputs and spent ones carry no data. */
  lemma RoundTripExact(codec: Codec, c: Coins)
    requires codec.Lawful() && !AllSpent(c.vout)
    ensures Parsed(codec, Serialized(codec, c)) == Some((c, [])) <==> NoTrailing(c.vout) && AllCanonical(c.vout)
  {
    RoundTrip(codec, c, []);
    assert Serialized(codec, c) + [] == Serialized(codec, c);
    CleanOutputs(c.vout);
  }

  // ---- The class ----

  /** What undoing a spend needs; the last three only if it was the last output. */
  datatype Undo = Undo(txout: TxOut, fCoinBase: bool, nHeight: nat, nVersion: nat)

  lemma UsedCountAll(vout: seq<TxOut>)
    ensures UsedCount(vout, Groups(vout)) == UsedCount(vout, MaskSize(vout))
  {
    UsedCountFlat(vout, MaskSize(vout), Groups(vout));
  }

  lemma {:induction false} SizeOfMask(vout: seq<TxOut>, b: nat, n: nat)
    requires b <= n
    ensures |MaskFrom(vout, b, n)| == n - b
    decreases n - b
  {
    if b < n {
      SizeOfMask(vout, b + 1, n);
    }
  }

  class CCoins {
    var fCoinBase: bool
    var vout: seq<TxOut>
    var nHeight: nat
    var nVersion: nat

    function State(): Coins reads this {
      Coins(fCoinBase, vout, nHeight, nVersion)
    }

    constructor ()
      ensures State() == Coins(false, [], 0, 0)
    {
      fCoinBase, vout, nHeight, nVersion := false, [], 0, 0;
    }

    /** Removes spent outputs at the end. */
    method Cleanup()
      modifies `vout
      ensures vout == Trimmed(old(vout))
    {
      while |vout| > 0 && vout[|vout| - 1].IsNull()
        invariant Trimmed(vout) == Trimmed(old(vout))
        decreases |vout|
      {
        vout := vout[..|vout| - 1];
      }
    }

    /** The length of the bitmask, and its number of bytes that are not zero. */
    method CalcMaskSize() returns (nBytes: nat, nNonzeroBytes: nat)
      ensures nBytes == MaskSize(vout) && nNonzeroBytes == UsedCount(vout, MaskSize(vout))
    {
      var nLastUsedByte := 0;
      nNonzeroBytes := 0;
      var b := 0;
      while 2 + b * 8 < |vout|
        invariant 0 <= b <= Groups(vout)
        invariant nLastUsedByte == LastUsed(vout, b) && nNonzeroBytes == UsedCount(vout, b)
        decreases |vout| - b
      {
        var fZero := true;
        var i := 0;
        while i < 8 && 2 + b * 8 + i < |vout|
          invariant 0 <= i <= 8
          invariant fZero <==> forall j :: 0 <= j < i ==> !InGroup(vout, b, j)
        {
          if !vout[2 + b * 8 + i].IsNull() {
            assert InGroup(vout, b, i);
            fZero := false;
          }
          i := i + 1;
        }
        assert forall j :: i <= j < 8 ==> !InGroup(vout, b, j);
        assert fZero <==> !Used(vout, b);
        if !fZero {
          nLastUsedByte := b + 1;
          nNonzeroBytes := nNonzeroBytes + 1;
        }
        b := b + 1;
      }
      UsedCountAll(vout);
      nBytes := nLastUsedByte;
    }

    /** The header code. */
    method CalcCode() returns (nMaskSize: nat, nCode: nat)
      requires !AllSpent(vout)
      ensures nMaskSize == MaskSize(vout) && nCode == HeaderCode(State())
    {
      var nMaskCode;
      nMaskSize, nMaskCode := CalcMaskSize();
      var fFirst := |vout| > 0 && !vout[0].IsNull();
      var fSecond := |vout| > 1 && !vout[1].IsNull();
      CodeNotNegative(State());
      assert fFirst || fSecond || nMaskCode > 0;
      nCode := 8 * (nMaskCode - (if fFirst || fSecond then 0 else 1)) + (if fCoinBase then 1 else 0)
               + (if fFirst then 2 else 0) + (if fSecond then 4 else 0);
    }

    /** The size of the serialised form. */
    method GetSerializeSize(codec: Codec) returns (nSize: nat)
      requires !AllSpent(vout)
      ensures nSize == |Serialized(codec, State())|
    {
      var nMaskSize, nCode := CalcCode();
      nSize := |codec.putInt(nVersion)|;
      nSize := nSize + |codec.putInt(nCode)|;
      nSize := nSize + nMaskSize;
      SizeOfMask(vout, 0, nMaskSize);
      ghost var before := nSize;
      var i := 0;
      while i < |vout|
        invariant 0 <= i <= |vout|
        invariant nSize + |OutsFrom(codec, vout, i)| == before + |OutsFrom(codec, vout, 0)|
      {
        if !vout[i].IsNull() {
          nSize := nSize + |codec.putOut(vout[i])|;
        }
        i := i + 1;
      }
      nSize := nSize + |codec.putInt(nHeight)|;
    }

    /** Byte b of the mask. */
    method WriteMaskByte(b: nat) returns (chAvail: Byte)
      ensures chAvail == MaskByte(vout, b)
    {
      chAvail := 0;
      var i := 0;
      while i < 8 && 2 + b * 8 + i < |vout|
        invariant 0 <= i <= 8 && chAvail == Packed(vout, b, i)
      {
        if !vout[2 + b * 8 + i].IsNull() {
          chAvail := chAvail | Flag(i);
        } else {
          NoBit(chAvail);
        }
        i := i + 1;
      }
      RestPacked(vout, b, i);
    }

    method Serialize(codec: Codec) returns (s: seq<Byte>)
      requires !AllSpent(vout)
      ensures s == Serialized(codec, State())
    {
      var nMaskSize, nCode := CalcCode();
      s := codec.putInt(nVersion) + codec.putInt(nCode);
      ghost var start, mask, outs := s, MaskFrom(vout, 0, MaskSize(vout)), OutsFrom(codec, vout, 0);
      var b := 0;
      while b < nMaskSize
        invariant 0 <= b <= nMaskSize && s + MaskFrom(vout, b, MaskSize(vout)) == start + mask
      {
        var chAvail := WriteMaskByte(b);
        assert s + ([chAvail] + MaskFrom(vout, b + 1, MaskSize(vout))) == (s + [chAvail]) + MaskFrom(vout, b + 1, MaskSize(vout));
        s := s + [chAvail];
        b := b + 1;
      }
      assert s == start + mask;
      var i := 0;
      while i < |vout|
        invariant 0 <= i <= |vout| && s + OutsFrom(codec, vout, i) == start + mask + outs
      {
        if !vout[i].IsNull() {
          assert s + (codec.putOut(vout[i]) + OutsFrom(codec, vout, i + 1)) == (s + codec.putOut(vout[i])) + OutsFrom(codec, vout, i + 1);
          s := s + codec.putOut(vout[i]);
        } else {
          OutsSkip(codec, vout, i);
        }
        i := i + 1;
      }
      assert s == start + mask + outs;
      SerializedInOrder(codec, State());
      s := s + codec.putInt(nHeight);
    }

    /** Reads the flags of outputs from mask bytes. */
    method UnserializeMask(s: seq<Byte>, n: nat, flags: seq<bool>) returns (ok: bool, vAvail: seq<bool>, rest: seq<Byte>)
      ensures ok <==> ReadMask(s, n).Some?
      ensures ok ==> vAvail == flags + ReadMask(s, n).value.0 && rest == ReadMask(s, n).value.1
    {
      vAvail, rest := flags, s;
      var nMaskCode := n;
      assert flags + [] == flags;
      while nMaskCode > 0
        invariant ReadMask(s, n).Some? <==> ReadMask(rest, nMaskCode).Some?
        invariant ReadMask(s, n).Some? ==> ReadMask(s, n).value.1 == ReadMask(rest, nMaskCode).value.1
                                           && flags + ReadMask(s, n).value.0 == vAvail + ReadMask(rest, nMaskCode).value.0
        decreases |rest|
      {
        if |rest| == 0 {
          return false, vAvail, rest;
        }
        var chAvail := rest[0];
        ghost var more := ReadMask(rest[1..], if chAvail != 0 then nMaskCode - 1 else nMaskCode);
        assert more.Some? ==> vAvail + (Bits(chAvail) + more.value.0) == (vAvail + Bits(chAvail)) + more.value.0;
        vAvail := vAvail + Bits(chAvail);
        rest := rest[1..];
        if chAvail != 0 {
          nMaskCode := nMaskCode - 1;
        }
      }
      assert vAvail + [] == vAvail;
      ok := true;
    }

    /** Reads the unspent outputs. */
    method UnserializeOuts(codec: Codec, s: seq<Byte>, vAvail: seq<bool>) returns (ok: bool, outs: seq<TxOut>, rest: seq<Byte>)
      ensures ok <==> ReadOuts(codec, s, vAvail, 0).Some?
      ensures ok ==> (outs, rest) == ReadOuts(codec, s, vAvail, 0).value
    {
      outs, rest := [], s;
      ghost var all := ReadOuts(codec, s, vAvail, 0);
      assert all.Some? ==> [] + all.value.0 == all.value.0;
      var i := 0;
      while i < |vAvail|
        invariant 0 <= i <= |vAvail|
        invariant all.Some? <==> ReadOuts(codec, rest, vAvail, i).Some?
        invariant all.Some? ==> all.value == (outs + ReadOuts(codec, rest, vAvail, i).value.0, ReadOuts(codec, rest, vAvail, i).value.1)
      {
        var o := NULL;
        if vAvail[i] {
          var out := codec.getOut(rest);
          if out.None? || out.value.1 > |rest| {
            return false, outs, rest;
          }
          o := out.value.0;
          rest := rest[out.value.1..];
        }
        ghost var more := ReadOuts(codec, rest, vAvail, i + 1);
        assert more.Some? ==> outs + ([o] + more.value.0) == (outs + [o]) + more.value.0;
        outs := outs + [o];
        i := i + 1;
      }
      assert outs + [] == outs;
      ok := true;
    }

    /** Reads the pruned form; fails if the bytes do not hold one. */
    method Unserialize(codec: Codec, s: seq<Byte>) returns (ok: bool, rest: seq<Byte>)
      modifies this
      ensures ok <==> Parsed(codec, s).Some?
      ensures ok ==> Parsed(codec, s) == Some((State(), rest))
    {
      rest := s;
      var version := ReadInt(codec, rest);
      if version.None? { return false, rest; }
      nVersion, rest := version.value.0, version.value.1;
      var code := ReadInt(codec, rest);
      if code.None? { return false, rest; }
      var nCode := code.value.0;
      rest := code.value.1;
      fCoinBase := nCode % 2 != 0;
      var vAvail := [nCode / 2 % 2 != 0, nCode / 4 % 2 != 0];
      var nMaskCode := nCode / 8 + if vAvail[0] || vAvail[1] then 0 else 1;
      ok, vAvail, rest := UnserializeMask(rest, nMaskCode, vAvail);
      if !ok { return; }
      var outs;
      ok, outs, rest := UnserializeOuts(codec, rest, vAvail);
      if !ok { return; }
      vout := outs;
      var height := ReadInt(codec, rest);
      if height.None? { return false, rest; }
      nHeight, rest := height.value.0, height.value.1;
      Cleanup();
      ok := true;
    }

    /** Marks an output spent. */
    method Spend(n: nat) returns (ok: bool, undo: Undo)
      modifies `vout
      ensures ok <==> Avail(old(vout), n)
      ensures !ok ==> vout == old(vout)
      ensures ok ==> vout == SpentAt(old(vout), n) && undo.txout == old(vout)[n]
      ensures ok && vout == [] ==> undo == Undo(old(vout)[n], fCoinBase, nHeight, nVersion)
    {
      undo := Undo(NULL, false, 0, 0);
      if n >= |vout| {
        return false, undo;
      }
      if vout[n].IsNull() {
        return false, undo;
      }
      undo := Undo(vout[n], false, 0, 0);
      vout := vout[n := NULL];
      Cleanup();
      if |vout| == 0 {
        undo := undo.(nHeight := nHeight, fCoinBase := fCoinBase, nVersion := nVersion);
      }
      ok := true;
    }
  }

  lemma NoBit(c: Byte)
    ensures c | 0 == c
  {
  }

  lemma {:induction false} RestPacked(vout: seq<TxOut>, b: nat, n: nat)
    requires n <= 8 && forall j :: n <= j < 8 ==> !InGroup(vout, b, j)
    ensures Packed(vout, b, 8) == Packed(vout, b, n)
    decreases 8 - n
  {
    if n < 8 {
      RestPacked(vout, b, n + 1);
      NoBit(Packed(vout, b, n));
    }
  }

  lemma SerializedInOrder(codec: Codec, c: Coins)
    requires !AllSpent(c.vout)
    ensures HeaderCode(c) >= 0
    ensures Serialized(codec, c)
         == codec.putInt(c.nVersion) + codec.putInt(HeaderCode(c)) + MaskFrom(c.vout, 0, MaskSize(c.vout)) + OutsFrom(codec, c.vout, 0) + codec.putInt(c.nHeight)
  {
    CodeNotNegative(c);
  }
}
