/** Base58: byte sequences as text without look-alike characters. */
module Base58 {
  import opened Options
  import opened Radix
  import opened BigNum

  // ---- Characters ----

  /** The alphabet: the digits but 0, the capitals but I and O, the small letters but l, in this order. */
  function CharOf(d: nat): char
    requires d < 58
  {
    if d < 9 then '1' + d as char
    else if d < 17 then 'A' + (d - 9) as char
    else if d < 22 then 'J' + (d - 17) as char
    else if d < 33 then 'P' + (d - 22) as char
    else if d < 44 then 'a' + (d - 33) as char
    else 'm' + (d - 44) as char
  }

  /** Where a character stands in the alphabet. */
  function IndexOf(c: char): Option<nat> {
    if '1' <= c <= '9' then Some((c - '1') as nat)
    else if 'A' <= c <= 'H' then Some((c - 'A') as nat + 9)
    else if 'J' <= c <= 'N' then Some((c - 'J') as nat + 17)
    else if 'P' <= c <= 'Z' then Some((c - 'P') as nat + 22)
    else if 'a' <= c <= 'k' then Some((c - 'a') as nat + 33)
    else if 'm' <= c <= 'z' then Some((c - 'm') as nat + 44)
    else None
  }

  lemma IndexOfChar(d: nat)
    requires d < 58
    ensures IndexOf(CharOf(d)) == Some(d)
  {
  }

  lemma CharOfIndex(c: char)
    requires IndexOf(c).Some?
    ensures IndexOf(c).value < 58 && CharOf(IndexOf(c).value) == c
  {
  }

  predicate IsSpace(c: char) {
    c == ' ' || '\t' <= c <= '\r'
  }

  /** The characters, in ascending order: the letters and digits without the zero, the capitals O and I and the small l.
      White space are the blank and the control characters from tabulator to carriage return. */
  lemma Alphabet(d: nat, e: nat, c: char)
    requires d < e < 58
    ensures CharOf(d) < CharOf(e)
    ensures (exists k: nat :: k < 58 && CharOf(k) == c)
       <==> ('0' <= c <= '9' || 'A' <= c <= 'Z' || 'a' <= c <= 'z') && c != '0' && c != 'O' && c != 'I' && c != 'l'
    ensures IndexOf(c).Some? <==> exists k: nat :: k < 58 && CharOf(k) == c
    ensures IsSpace(c) <==> c as int == 32 || 9 <= c as int <= 13
  {
    if IndexOf(c).Some? {
      CharOfIndex(c);
    }
  }

  function Text(ds: seq<nat>): (s: string)
    requires AllBelow(ds, 58)
    ensures |s| == |ds| && forall i :: 0 <= i < |s| ==> s[i] == CharOf(ds[i])
  {
    seq(|ds|, i requires 0 <= i < |ds| => CharOf(ds[i]))
  }

  predicate AllDigits(s: string) {
    forall i :: 0 <= i < |s| ==> IndexOf(s[i]).Some?
  }

  function Indices(s: string): (ds: seq<nat>)
    requires AllDigits(s)
    ensures |ds| == |s| && forall i :: 0 <= i < |s| ==> ds[i] == IndexOf(s[i]).value
  {
    seq(|s|, i requires 0 <= i < |s| => IndexOf(s[i]).value)
  }

  lemma IndicesOfText(ds: seq<nat>)
    requires AllBelow(ds, 58)
    ensures AllDigits(Text(ds)) && Indices(Text(ds)) == ds
  {
    forall i | 0 <= i < |ds| ensures IndexOf(Text(ds)[i]) == Some(ds[i]) {
      IndexOfChar(ds[i]);
    }
  }

  lemma TextOfIndices(s: string)
    requires AllDigits(s)
    ensures AllBelow(Indices(s), 58) && Text(Indices(s)) == s
  {
    forall i | 0 <= i < |s| ensures Indices(s)[i] < 58 && CharOf(Indices(s)[i]) == s[i] {
      CharOfIndex(s[i]);
    }
  }

  // ---- Conversion between bases ----

  /** The same number in another base, with as many leading zeros. */
  function Convert(ds: seq<nat>, base: nat, other: nat): (r: seq<nat>)
    requires other > 1
    ensures AllBelow(r, other)
  {
    PutTogether(LeadingZeros(ds), Value(ds, |ds|, base), other);
    Zeros(LeadingZeros(ds)) + Digits(Value(ds, |ds|, base), other)
  }

  lemma ConvertBack(ds: seq<nat>, base: nat, other: nat)
    requires base > 1 && other > 1 && AllBelow(ds, base)
    ensures Convert(Convert(ds, base, other), other, base) == ds
  {
    PutTogether(LeadingZeros(ds), Value(ds, |ds|, base), other);
    ZerosAndDigits(ds, base);
  }

  // ---- Encoding ----

  /** The encoding of a byte sequence. */
  function Encoded(v: seq<nat>): string {
    Text(Convert(v, 256, 58))
  }

  /** The bytes are so many zeros and a number with these digits. */
  lemma Encoding(v: seq<nat>, zeros: nat, ds: seq<nat>)
    requires zeros <= |v| && (forall i :: 0 <= i < zeros ==> v[i] == 0) && (zeros < |v| ==> v[zeros] != 0)
    requires AllBelow(ds, 58) && NoLeadingZero(ds) && Value(ds, |ds|, 58) == Value(v, |v|, 256)
    ensures AllBelow(Zeros(zeros) + ds, 58) && Encoded(v) == Text(Zeros(zeros) + ds)
  {
    CountZeros(v, zeros);
    DigitsOfValue(ds, |ds|, 58);
    assert ds[..|ds|] == ds;
  }

  /** A leading zero byte is the character one; small numbers have one character, or two, most significant first. */
  lemma ZeroByte(v: seq<nat>)
    ensures Encoded([0] + v) == "1" + Encoded(v)
  {
    ConvertZero(v);
    TextOfZero(Convert(v, 256, 58));
  }

  lemma ConvertZero(v: seq<nat>)
    ensures Convert([0] + v, 256, 58) == [0] + Convert(v, 256, 58)
  {
    var k := LeadingZeros(v);
    CountZeros([0] + v, k + 1);
    ValueSkipsZeros([0] + v, 1, |v| + 1, 256);
    assert ([0] + v)[1..] == v;
    assert Zeros(k + 1) == [0] + Zeros(k);
  }

  lemma TextOfZero(ds: seq<nat>)
    requires AllBelow(ds, 58)
    ensures AllBelow([0] + ds, 58) && Text([0] + ds) == "1" + Text(ds)
  {
  }

  lemma OneCharacter(d: nat)
    requires 0 < d < 58
    ensures Encoded([d]) == [CharOf(d)]
  {
    assert Value([d], 1, 58) == Value([d], 0, 58) * 58 + d && Value([d], 1, 256) == Value([d], 0, 256) * 256 + d;
    Encoding([d], 0, [d]);
    assert Zeros(0) + [d] == [d];
  }

  lemma TwoCharacters(a: nat, b: nat, d: nat, e: nat)
    requires 0 < a < 256 && b < 256 && 0 < d < 58 && e < 58 && a * 256 + b == d * 58 + e
    ensures Encoded([a, b]) == [CharOf(d), CharOf(e)]
  {
    TwoDigits(a, b, 256);
    TwoDigits(d, e, 58);
    Encoding([a, b], 0, [d, e]);
    assert Zeros(0) + [d, e] == [d, e];
  }

  lemma TwoDigits(a: nat, b: nat, base: nat)
    ensures Value([a, b], 2, base) == a * base + b
  {
    assert Value([a, b], 1, base) == Value([a, b], 0, base) * base + a;
  }

  /** The digits of a number in characters, least significant first. */
  method ToText(n: nat) returns (str: string)
    ensures AllBelow(Digits(n, 58), 58) && str == Reversed(Text(Digits(n, 58)))
  {
    DigitsAre(n, 58);
    str := "";
    var bn := n;
    ghost var big: seq<nat> := [];
    while bn > 0
      invariant AllBelow(big, 58) && str == Reversed(Text(big))
      invariant Digits(n, 58) == Digits(bn, 58) + big
      decreases bn
    {
      var dv, rem := Quotient(bn, 58), Remainder(bn, 58);
      QuotientSmaller(bn, 58);
      OneMoreChar(big, rem);
      str := str + [CharOf(rem)];
      big := [rem] + big;
      bn := dv;
    }
  }

  lemma OneMoreChar(big: seq<nat>, d: nat)
    requires AllBelow(big, 58) && d < 58
    ensures AllBelow([d] + big, 58) && Reversed(Text([d] + big)) == Reversed(Text(big)) + [CharOf(d)]
  {
  }

  /** Appends a character for zero for each leading zero byte. */
  method AppendOnes(v: seq<nat>, text: string, ghost digits: seq<nat>) returns (str: string)
    requires AllBelow(digits, 58) && text == Reversed(Text(digits))
    ensures AllBelow(Zeros(LeadingZeros(v)) + digits, 58) && str == Reversed(Text(Zeros(LeadingZeros(v)) + digits))
  {
    str := text;
    var p := 0;
    ghost var all := digits;
    while p < |v| && v[p] == 0
      invariant 0 <= p <= |v| && forall i :: 0 <= i < p ==> v[i] == 0
      invariant all == Zeros(p) + digits && AllBelow(all, 58) && str == Reversed(Text(all))
    {
      OneMoreChar(all, 0);
      str := str + [CharOf(0)];
      all := [0] + all;
      p := p + 1;
    }
    CountZeros(v, p);
  }

  method EncodeBase58(v: seq<nat>) returns (str: string)
    requires AllBelow(v, 256)
    ensures str == Encoded(v)
  {
    var vchTmp := Reversed(v) + [0];
    AsPositive(v);
    var bn := new CBigNum(0);
    bn.SetVch(vchTmp);
    str := ToText(bn.value);
    str := AppendOnes(v, str, Digits(bn.value, 58));
    ReversedTwice(Encoded(v));
    str := Reversed(str);
  }

  lemma ReversedAppend(v: seq<nat>, x: nat)
    ensures Reversed(Reversed(v) + [x]) == [x] + v
  {
  }

  /** A zero byte at the end makes the number positive. */
  lemma AsPositive(v: seq<nat>)
    requires AllBelow(v, 256)
    ensures AllBelow(Reversed(v) + [0], 256) && FromVch(Reversed(v) + [0]) == Value(v, |v|, 256)
  {
    ReversedAppend(v, 0);
    assert ([0] + v)[1..] == v;
    ValueSkipsZeros([0] + v, 1, |v| + 1, 256);
  }

  // ---- Decoding ----

  /** A C string's character; the end reads as the null character. */
  function At(s: string, i: nat): char {
    if i < |s| then s[i] else '\0'
  }

  function SkipSpaces(s: string, i: nat): (j: nat)
    ensures i <= j && (i <= |s| ==> j <= |s|) && !IsSpace(At(s, j))
    ensures forall k :: i <= k < j ==> k < |s| && IsSpace(s[k])
    decreases |s| - i
  {
    if i < |s| && IsSpace(s[i]) then SkipSpaces(s, i + 1) else i
  }

  function SkipDigits(s: string, i: nat): (j: nat)
    ensures i <= j && (i <= |s| ==> j <= |s|) && IndexOf(At(s, j)).None?
    ensures forall k :: i <= k < j ==> k < |s| && IndexOf(s[k]).Some?
    decreases |s| - i
  {
    if i < |s| && IndexOf(s[i]).Some? then SkipDigits(s, i + 1) else i
  }

  function Start(s: string): nat {
    SkipSpaces(s, 0)
  }

  function End(s: string): nat {
    SkipDigits(s, Start(s))
  }

  /** The digits of a string, after leading white space. */
  function Body(s: string): (t: string)
    ensures AllDigits(t)
  {
    s[Start(s)..End(s)]
  }

  /** Only white space follows the digits. */
  predicate Decodes(s: string) {
    At(s, SkipSpaces(s, End(s))) == '\0'
  }

  function Decoded(s: string): seq<nat> {
    Convert(Indices(Body(s)), 58, 256)
  }

  /** Little endian data of a number that is not negative, without the sign byte. */
  method PlainBytes(n: nat) returns (vchTmp: seq<nat>)
    ensures vchTmp == Reversed(Digits(n, 256))
  {
    var bn := new CBigNum(n);
    vchTmp := bn.GetVch();
    DigitsAre(n, 256);
    var size := |vchTmp|;
    if size >= 2 && vchTmp[size - 1] == 0 && vchTmp[size - 2] >= 0x80 {
      vchTmp := vchTmp[..size - 1];
    }
  }

  /** The number that the digits from b up to p stand for. */
  ghost function NumberOf(s: string, b: nat, p: nat): nat
    requires b <= p <= |s| && AllDigits(s[b..p])
  {
    Value(Indices(s[b..p]), p - b, 58)
  }

  lemma NumberOneMore(s: string, b: nat, p: nat)
    requires b <= p < |s| && AllDigits(s[b..p]) && IndexOf(s[p]).Some?
    ensures AllDigits(s[b..p + 1]) && NumberOf(s, b, p + 1) == NumberOf(s, b, p) * 58 + IndexOf(s[p]).value
  {
    var less, more := s[b..p], s[b..p + 1];
    assert more == less + [s[p]];
    ValuePrefix(Indices(more), Indices(less), p - b, 58);
  }

  /** The digits from position b, as a number, up to the first other character. */
  method ReadDigits(s: string, b: nat) returns (bn: nat, p: nat)
    requires b <= |s|
    ensures p == SkipDigits(s, b) && AllDigits(s[b..p]) && bn == NumberOf(s, b, p)
  {
    bn, p := 0, b;
    while At(s, p) != '\0'
      invariant b <= p <= |s| && SkipDigits(s, p) == SkipDigits(s, b)
      invariant AllDigits(s[b..p]) && bn == NumberOf(s, b, p)
      decreases |s| - p
    {
      var p1 := IndexOf(s[p]);
      if p1.None? {
        break;
      }
      NumberOneMore(s, b, p);
      bn := bn * 58 + p1.value;
      p := p + 1;
    }
  }

  method SkipWhite(s: string, i: nat) returns (j: nat)
    requires i <= |s|
    ensures j == SkipSpaces(s, i) <= |s|
  {
    j := i;
    while IsSpace(At(s, j))
      invariant i <= j <= |s| && SkipSpaces(s, j) == SkipSpaces(s, i)
      decreases |s| - j
    {
      j := j + 1;
    }
  }

  /** Counts the characters for zero that a digit string starts with. */
  method CountOnes(s: string, b: nat, ghost e: nat) returns (n: nat)
    requires b <= e <= |s| && AllDigits(s[b..e]) && IndexOf(At(s, e)).None?
    ensures n == LeadingZeros(Indices(s[b..e]))
  {
    ghost var ds := Indices(s[b..e]);
    n := 0;
    IndexOfChar(0);
    while At(s, b + n) == CharOf(0)
      invariant b + n <= e && forall i :: 0 <= i < n ==> ds[i] == 0
      decreases e - n
    {
      assert s[b..e][n] == s[b + n];
      n := n + 1;
    }
    NotZeroHere(s, b, e, b + n);
    CountZeros(ds, n);
  }

  method DecodeBase58(s: string) returns (ok: bool, vchRet: seq<nat>)
    ensures ok <==> Decodes(s)
    ensures vchRet == if ok then Decoded(s) else []
  {
    var psz := SkipWhite(s, 0);
    var bn, p := ReadDigits(s, psz);
    var last := SkipWhite(s, p);
    if At(s, last) != '\0' {
      return false, [];
    }
    var vchTmp := PlainBytes(bn);
    var nLeadingZeros := CountOnes(s, psz, p);
    Assembled(s, bn, nLeadingZeros, vchTmp);
    ok, vchRet := true, Zeros(nLeadingZeros) + Reversed(vchTmp);
  }

  lemma Assembled(s: string, bn: nat, n: nat, vchTmp: seq<nat>)
    requires bn == NumberOf(s, Start(s), End(s)) && n == LeadingZeros(Indices(Body(s)))
    requires vchTmp == Reversed(Digits(bn, 256))
    ensures Zeros(n) + Reversed(vchTmp) == Decoded(s)
  {
    ReversedTwice(Digits(bn, 256));
  }

  lemma NotZeroHere(s: string, b: nat, e: nat, q: nat)
    requires b <= q <= e <= |s| && AllDigits(s[b..e]) && At(s, q) != CharOf(0)
    ensures q < e ==> Indices(s[b..e])[q - b] != 0
  {
    if q < e {
      assert s[b..e][q - b] == s[q];
      CharOfIndex(s[q]);
    }
  }

  // ---- The round trips ----

  lemma DigitsAreNotSpace(c: char)
    ensures IndexOf(c).Some? ==> !IsSpace(c) && c != '\0'
  {
  }

  /** All of an encoding is digits. */
  lemma {:induction false} AllSkipped(s: string, i: nat)
    requires AllDigits(s) && i <= |s|
    ensures SkipDigits(s, i) == |s|
    decreases |s| - i
  {
    if i < |s| {
      AllSkipped(s, i + 1);
    }
  }

  lemma BodyOfDigits(s: string)
    requires AllDigits(s)
    ensures Decodes(s) && Body(s) == s
  {
    if s != "" {
      DigitsAreNotSpace(s[0]);
    }
    assert Start(s) == 0;
    AllSkipped(s, 0);
  }

  /** Decoding an encoding gives the bytes back, all leading zeros included. */
  lemma DecodeOfEncode(v: seq<nat>)
    requires AllBelow(v, 256)
    ensures Decodes(Encoded(v)) && Decoded(Encoded(v)) == v
  {
    IndicesOfText(Convert(v, 256, 58));
    BodyOfDigits(Encoded(v));
    ConvertBack(v, 256, 58);
  }

  /** Encoding what a string decodes to gives the string back without the white space around it. */
  lemma EncodeOfDecode(s: string)
    requires Decodes(s)
    ensures Encoded(Decoded(s)) == Body(s)
  {
    TextOfIndices(Body(s));
    ConvertBack(Indices(Body(s)), 58, 256);
  }

  predicate AllSpace(s: string) {
    forall i :: 0 <= i < |s| ==> IsSpace(s[i])
  }

  /** The strings that decode are digits with white space around them; without null characters, these are all. */
  lemma DecodesExactly(s: string)
    requires '\0' !in s
    ensures Decodes(s) <==> exists a, b :: 0 <= a <= b <= |s| && AllSpace(s[..a]) && AllDigits(s[a..b]) && AllSpace(s[b..])
  {
    if Decodes(s) {
      var a, b := Start(s), End(s);
      assert SkipSpaces(s, b) == |s|;
      assert AllSpace(s[..a]) && AllDigits(s[a..b]) && AllSpace(s[b..]);
    }
    if a, b :| 0 <= a <= b <= |s| && AllSpace(s[..a]) && AllDigits(s[a..b]) && AllSpace(s[b..]) {
      ShapeDecodes(s, a, b);
    }
  }

  lemma {:induction false} SpacesSkipped(s: string, i: nat, j: nat)
    requires i <= j <= |s| && (forall k :: i <= k < j ==> IsSpace(s[k])) && !IsSpace(At(s, j))
    ensures SkipSpaces(s, i) == j
    decreases j - i
  {
    if i < j {
      SpacesSkipped(s, i + 1, j);
    }
  }

  lemma {:induction false} DigitsSkipped(s: string, i: nat, j: nat)
    requires i <= j <= |s| && (forall k :: i <= k < j ==> IndexOf(s[k]).Some?) && IndexOf(At(s, j)).None?
    ensures SkipDigits(s, i) == j
    decreases j - i
  {
    if i < j {
      DigitsSkipped(s, i + 1, j);
    }
  }

  lemma ShapeDecodes(s: string, a: nat, b: nat)
    requires a <= b <= |s| && AllSpace(s[..a]) && AllDigits(s[a..b]) && AllSpace(s[b..])
    ensures Decodes(s)
  {
    forall k | 0 <= k < a ensures IsSpace(s[k]) {
      assert s[..a][k] == s[k];
    }
    forall k | a <= k < b ensures IndexOf(s[k]).Some? {
      assert s[a..b][k - a] == s[k];
    }
    forall k | b <= k < |s| ensures IsSpace(s[k]) {
      assert s[b..][k - b] == s[k];
    }
    if a < b {
      DigitsAreNotSpace(s[a]);
      SpacesSkipped(s, 0, a);
      DigitsAreNotSpace(At(s, b));
      DigitsSkipped(s, a, b);
      SpacesSkipped(s, b, |s|);
    } else {
      SpacesSkipped(s, 0, |s|);
      DigitsSkipped(s, |s|, |s|);
      SpacesSkipped(s, |s|, |s|);
    }
  }
}
