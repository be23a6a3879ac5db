/** Decimal text and big-endian bytes of natural numbers, as strconv and math/big write and read them. */
module Decimal {
  import opened ByteStrings
  import opened Records

  function Pow(b: nat, e: nat): nat { if e == 0 then 1 else b * Pow(b, e - 1) }

  // ---- decimal text ----------------------------------------------------------------------------

  predicate IsDigit(c: char) { '0' <= c <= '9' }

  function DigitValue(c: char): (d: nat)
    requires IsDigit(c)
    ensures d < 10 && "0123456789"[d] == c
  {
    (c as int) - ('0' as int)
  }

  function DigitOf(d: nat): (c: char)
    requires d < 10
    ensures IsDigit(c) && DigitValue(c) == d
  {
    "0123456789"[d]
  }

  predicate AllDigits(s: string) { forall i :: 0 <= i < |s| ==> IsDigit(s[i]) }

  function DigitsValue(s: string): nat
    requires AllDigits(s)
  {
    if s == [] then 0 else 10 * DigitsValue(s[..|s| - 1]) + DigitValue(s[|s| - 1])
  }

  /** FormatUint and Int.String: no leading zeros, "0" for zero. */
  function Format(n: nat): string {
    if n < 10 then [DigitOf(n)] else Format(n / 10) + [DigitOf(n % 10)]
  }

  lemma {:induction false} FormatReadsBack(n: nat)
    ensures Format(n) != [] && AllDigits(Format(n)) && DigitsValue(Format(n)) == n
    ensures Format(n)[0] == '0' ==> Format(n) == "0"
  {
    if n >= 10 {
      FormatReadsBack(n / 10);
      assert Format(n)[..|Format(n)| - 1] == Format(n / 10);
    } else {
      assert Format(n)[..0] == [];
    }
  }

  /** strconv.ParseUint in base 10 and 64 bits: digits only, at least one, and in range. */
  function ParseUint(s: string): Option<uint64> {
    if s != [] && AllDigits(s) && DigitsValue(s) < TWO_64 then Some(DigitsValue(s)) else None
  }

  lemma ParseUintUndoesFormat(n: uint64)
    ensures ParseUint(Format(n)) == Some(n)
  {
    FormatReadsBack(n);
  }

  function Zeros(k: nat): string { seq(k, _ => '0') }

  /** The text of a number, leading zeros allowed. */
  ghost predicate Spells(s: string, n: nat) {
    exists k: nat :: s == Zeros(k) + Format(n)
  }

  lemma {:induction false} LeadingZeros(k: nat, n: nat)
    ensures AllDigits(Zeros(k) + Format(n)) && DigitsValue(Zeros(k) + Format(n)) == n
    decreases n
  {
    FormatReadsBack(n);
    var s := Zeros(k) + Format(n);
    if n < 10 {
      assert s[..|s| - 1] == Zeros(k);
      ZerosAreZero(k);
    } else {
      LeadingZeros(k, n / 10);
      assert s[..|s| - 1] == Zeros(k) + Format(n / 10);
    }
  }

  lemma {:induction false} ZerosAreZero(k: nat)
    ensures AllDigits(Zeros(k)) && DigitsValue(Zeros(k)) == 0
  {
    if k == 0 {
    } else {
      ZerosAreZero(k - 1);
      assert Zeros(k)[..k - 1] == Zeros(k - 1);
    }
  }

  lemma OneMoreDigit(v: nat, c: char)
    requires v > 0 && IsDigit(c)
    ensures Format(10 * v + DigitValue(c)) == Format(v) + [c]
  {
    var n := 10 * v + DigitValue(c);
    assert n >= 10 && n / 10 == v && n % 10 == DigitValue(c);
  }

  lemma FirstDigit(c: char)
    requires IsDigit(c)
    ensures Format(DigitValue(c)) == [c]
  {
  }

  lemma SpellOneMore(rest: string, c: char, v: nat, k: nat) returns (m: nat)
    requires rest == Zeros(k) + Format(v) && IsDigit(c)
    ensures rest + [c] == Zeros(m) + Format(10 * v + DigitValue(c))
  {
    if v == 0 {
      FirstDigit(c);
      m := k + 1;
      assert Zeros(k) + "0" == Zeros(m);
    } else {
      OneMoreDigit(v, c);
      m := k;
    }
  }

  /** Digits, at least one, are the text of their value behind some zeros. */
  lemma {:induction false} DigitsSpell(s: string) returns (k: nat)
    requires s != [] && AllDigits(s)
    ensures s == Zeros(k) + Format(DigitsValue(s))
  {
    var rest, last := s[..|s| - 1], s[|s| - 1];
    assert s == rest + [last];
    if |s| == 1 {
      k := 0;
      FirstDigit(last);
    } else {
      k := DigitsSpell(rest);
      k := SpellOneMore(rest, last, DigitsValue(rest), k);
    }
  }

  lemma SpellsIff(s: string, n: nat)
    ensures Spells(s, n) <==> s != [] && AllDigits(s) && DigitsValue(s) == n
  {
    FormatReadsBack(n);
    if k: nat :| s == Zeros(k) + Format(n) { LeadingZeros(k, n); }
    if s != [] && AllDigits(s) && DigitsValue(s) == n { var k := DigitsSpell(s); }
  }

  /** Exactly the texts of numbers of 64 bits parse, each to its number. */
  lemma ParseUintIff(s: string, n: uint64)
    ensures ParseUint(s) == Some(n) <==> Spells(s, n)
  {
    SpellsIff(s, n);
  }

  /** An optional sign, then at least one digit. */
  function ParseSigned(s: string): Option<int> {
    if s != [] && s[0] == '-' then
      (if s[1..] != [] && AllDigits(s[1..]) then Some(0 - DigitsValue(s[1..]) as int) else None)
    else
      var t := if s != [] && s[0] == '+' then s[1..] else s;
      if t != [] && AllDigits(t) then Some(DigitsValue(t)) else None
  }

  /** The text of an integer: a number, a plus and a number, or a minus and a number. */
  ghost predicate SpellsInt(s: string, x: int) {
    || (x >= 0 && Spells(s, x))
    || (x >= 0 && s != [] && s[0] == '+' && Spells(s[1..], x))
    || (x <= 0 && s != [] && s[0] == '-' && Spells(s[1..], -x))
  }

  lemma SignIsNoNumber(s: string, n: nat)
    requires s != [] && !IsDigit(s[0])
    ensures !Spells(s, n)
  {
    SpellsIff(s, n);
  }

  lemma ParseMinusIff(s: string, x: int)
    requires s != [] && s[0] == '-'
    ensures ParseSigned(s) == Some(x) <==> x <= 0 && Spells(s[1..], -x)
  {
    if x <= 0 { SpellsIff(s[1..], -x); }
  }

  lemma ParsePlusIff(s: string, x: int)
    requires s != [] && s[0] == '+'
    ensures ParseSigned(s) == Some(x) <==> x >= 0 && Spells(s[1..], x)
  {
    if x >= 0 { SpellsIff(s[1..], x); }
  }

  lemma ParsePlainIff(s: string, x: int)
    requires s == [] || (s[0] != '+' && s[0] != '-')
    ensures ParseSigned(s) == Some(x) <==> x >= 0 && Spells(s, x)
  {
    if x >= 0 { SpellsIff(s, x); }
  }

  lemma ParseSignedIff(s: string, x: int)
    ensures ParseSigned(s) == Some(x) <==> SpellsInt(s, x)
  {
    if s != [] && s[0] == '-' {
      ParseMinusIff(s, x);
      if x >= 0 { SignIsNoNumber(s, x); }
    } else if s != [] && s[0] == '+' {
      ParsePlusIff(s, x);
      if x >= 0 { SignIsNoNumber(s, x); }
    } else {
      ParsePlainIff(s, x);
    }
  }

  /** strconv.ParseInt in base 10 and 64 bits. */
  function ParseInt(s: string): Option<int64> {
    match ParseSigned(s)
    case Some(x) => if -0x8000_0000_0000_0000 <= x < 0x8000_0000_0000_0000 then Some(x) else None
    case None => None
  }

  /** Exactly the texts of signed 64-bit numbers parse, each to its number. */
  lemma ParseIntIff(s: string, x: int)
    ensures (ParseInt(s).Some? && ParseInt(s).value == x)
            <==> SpellsInt(s, x) && -0x8000_0000_0000_0000 <= x < 0x8000_0000_0000_0000
  {
    ParseSignedIff(s, x);
  }

  /** So an id written in decimal names that very number while 63 bits last, and nothing beyond. */
  lemma ParseIntUndoesFormat(n: nat)
    ensures ParseInt(Format(n)) == if n < 0x8000_0000_0000_0000 then Some(n) else None
    ensures ParseInt("-" + Format(n)) == if n <= 0x8000_0000_0000_0000 then Some(0 - n as int) else None
  {
    ParseSignedUndoesFormat(n);
    MinusText(n);
  }

  lemma MinusText(n: nat)
    ensures ParseSigned("-" + Format(n)) == Some(0 - n as int)
  {
    FormatReadsBack(n);
    MinusDigits(Format(n));
  }

  lemma MinusDigits(t: string)
    requires t != [] && AllDigits(t)
    ensures ParseSigned("-" + t) == Some(0 - DigitsValue(t) as int)
  {
    assert ("-" + t)[1..] == t;
  }

  lemma ParseSignedUndoesFormat(n: nat)
    ensures ParseSigned(Format(n)) == Some(n)
  {
    FormatReadsBack(n);
    assert IsDigit(Format(n)[0]);
  }

  // ---- big-endian bytes --------------------------------------------------------------------------

  /** Int.SetBytes. */
  function FromBytes(b: Bytes): nat {
    if b == [] then 0 else 256 * FromBytes(b[..|b| - 1]) + b[|b| - 1]
  }

  /** Int.Bytes: the shortest big-endian form, empty for zero. */
  function ToBytes(n: nat): Bytes {
    if n == 0 then [] else ToBytes(n / 256) + [n % 256]
  }

  /** Int.BitLen of a non-negative number. */
  function BitLen(n: nat): nat { if n == 0 then 0 else 1 + BitLen(n / 2) }

  lemma {:induction false} ToBytesReadsBack(n: nat)
    ensures FromBytes(ToBytes(n)) == n && (n > 0 ==> ToBytes(n)[0] != 0)
  {
    if n == 0 {
    } else {
      ToBytesReadsBack(n / 256);
      assert ToBytes(n)[..|ToBytes(n)| - 1] == ToBytes(n / 256);
    }
  }

  lemma DivModOfSum(q: nat, r: nat)
    requires r < 256
    ensures (256 * q + r) / 256 == q && (256 * q + r) % 256 == r
  {
  }

  /** The bytes of a number come back as they were when they do not start with zero. */
  lemma {:induction false} FromBytesReadsBack(b: Bytes)
    requires b != [] ==> b[0] != 0
    ensures ToBytes(FromBytes(b)) == b
    ensures b != [] ==> FromBytes(b) > 0
  {
    if b == [] {
    } else {
      var rest, last := b[..|b| - 1], b[|b| - 1];
      if rest != [] { assert rest[0] == b[0]; }
      FromBytesReadsBack(rest);
      DivModOfSum(FromBytes(rest), last);
      assert b == rest + [last];
    }
  }

  lemma {:induction false} FromBytesIsInjective(a: Bytes, b: Bytes)
    requires |a| == |b| && FromBytes(a) == FromBytes(b)
    ensures a == b
  {
    if a == [] {
    } else {
      var m, n := FromBytes(a[..|a| - 1]), FromBytes(b[..|b| - 1]);
      assert 256 * m + a[|a| - 1] == 256 * n + b[|b| - 1];
      assert m == n;
      FromBytesIsInjective(a[..|a| - 1], b[..|b| - 1]);
      assert a == a[..|a| - 1] + [a[|a| - 1]] && b == b[..|b| - 1] + [b[|b| - 1]];
    }
  }

  lemma LeadingDigitStep(c: nat, p: nat, n: nat, last: nat)
    requires c * p <= n < (c + 1) * p && last < 256
    ensures c * (256 * p) <= 256 * n + last < (c + 1) * (256 * p)
  {
    assert c * (256 * p) == 256 * (c * p);
    assert (c + 1) * (256 * p) == 256 * ((c + 1) * p);
  }

  /** The first byte is the leading base-256 digit. */
  lemma {:induction false} LeadingByte(b: Bytes)
    requires b != []
    ensures var c: int := b[0]; c * Pow(256, |b| - 1) <= FromBytes(b) < (c + 1) * Pow(256, |b| - 1)
  {
    var rest := b[..|b| - 1];
    if rest == [] {
      assert FromBytes(rest) == 0 && Pow(256, |b| - 1) == 1;
    } else {
      LeadingByte(rest);
      LeadingDigitStep(b[0], Pow(256, |b| - 2), FromBytes(rest), b[|b| - 1]);
    }
  }

  lemma {:induction false} BitLenBounds(n: nat)
    ensures n < Pow(2, BitLen(n))
    ensures n > 0 ==> BitLen(n) > 0 && Pow(2, BitLen(n) - 1) <= n
  {
    if n == 0 {
    } else {
      BitLenBounds(n / 2);
      if n / 2 > 0 { assert Pow(2, BitLen(n) - 1) == 2 * Pow(2, BitLen(n / 2) - 1); }
    }
  }

  lemma {:induction false} MulMonotone(a: nat, b: nat, p: nat)
    requires a <= b
    ensures a * p <= b * p
  {
    if a < b {
      MulMonotone(a, b - 1, p);
      assert b * p == (b - 1) * p + p;
    }
  }

  lemma {:induction false} PowPositive(b: nat, n: nat)
    requires b >= 1
    ensures Pow(b, n) >= 1
  {
    if n == 0 {
    } else {
      PowPositive(b, n - 1);
      MulMonotone(1, b, Pow(b, n - 1));
    }
  }

  lemma {:induction false} PowMonotone(b: nat, m: nat, n: nat)
    requires b >= 1 && m <= n
    ensures 1 <= Pow(b, m) <= Pow(b, n)
  {
    PowPositive(b, m);
    if m < n {
      PowMonotone(b, m, n - 1);
      MulMonotone(1, b, Pow(b, n - 1));
    }
  }

  /** A number has exactly `k` bits just when it lies between the two powers of two. */
  lemma BitLenIs(n: nat, k: nat)
    requires k > 0
    ensures BitLen(n) == k <==> Pow(2, k - 1) <= n < Pow(2, k)
  {
    BitLenBounds(n);
    PowMonotone(2, 0, k - 1);
    if BitLen(n) < k { PowMonotone(2, BitLen(n), k - 1); }
    if BitLen(n) > k { PowMonotone(2, k, BitLen(n) - 1); }
  }

  lemma {:induction false} PowOfBytes(k: nat)
    ensures Pow(2, 8 * k) == Pow(256, k)
  {
    if k == 0 {
    } else {
      PowOfBytes(k - 1);
      var e := 8 * (k - 1);
      assert Pow(2, e + 4) == 16 * Pow(2, e) by { assert Pow(2, e + 2) == 4 * Pow(2, e); }
      assert Pow(2, e + 8) == 16 * Pow(2, e + 4) by { assert Pow(2, e + 6) == 4 * Pow(2, e + 4); }
    }
  }

  lemma TopDigit(c: nat, p: nat, n: nat, d: nat)
    requires c * p <= n < (c + 1) * p
    ensures d <= c ==> d * p <= n
    ensures c < d ==> n < d * p
  {
    if d <= c { MulMonotone(d, c, p); } else { MulMonotone(c + 1, d, p); }
  }

  lemma TopPowers(k: nat)
    requires k > 0
    ensures Pow(2, 8 * k) == Pow(256, k) == 256 * Pow(256, k - 1)
    ensures Pow(2, 8 * k - 1) == 128 * Pow(256, k - 1)
    ensures Pow(256, k - 1) >= 1
  {
    PowOfBytes(k);
    PowMonotone(256, 0, k - 1);
    assert Pow(2, 8 * k) == 2 * Pow(2, 8 * k - 1);
  }

  /** A number of `k` bytes has `8 k` bits just when its first byte is at least 0x80. */
  lemma BitLenIsFirstByte(b: Bytes, k: nat)
    requires |b| == k > 0
    ensures BitLen(FromBytes(b)) == 8 * k <==> b[0] >= 0x80
  {
    BitLenIs(FromBytes(b), 8 * k);
    TopPowers(k);
    LeadingByte(b);
    TopDigit(b[0], Pow(256, k - 1), FromBytes(b), 128);
    TopDigit(b[0], Pow(256, k - 1), FromBytes(b), 256);
  }

  lemma SizeOfBytes(b: Bytes)
    requires b != [] && b[0] != 0
    ensures Pow(256, |b| - 1) <= FromBytes(b) < Pow(256, |b|)
  {
    LeadingByte(b);
    TopDigit(b[0], Pow(256, |b| - 1), FromBytes(b), 1);
    TopDigit(b[0], Pow(256, |b| - 1), FromBytes(b), 256);
  }

  lemma SizeFixesLength(b: Bytes, k: nat)
    requires b != [] && b[0] != 0 && k > 0
    requires Pow(256, k - 1) <= FromBytes(b) < Pow(256, k)
    ensures |b| == k
  {
    SizeOfBytes(b);
    if |b| < k { PowMonotone(256, |b|, k - 1); }
    if |b| > k { PowMonotone(256, k, |b| - 1); }
  }

  lemma BoundsOfBitLen(n: nat, k: nat)
    requires k > 0 && BitLen(n) == 8 * k
    ensures n > 0 && Pow(256, k - 1) <= n < Pow(256, k)
  {
    BitLenIs(n, 8 * k);
    TopPowers(k);
  }

  /** A number of `8 k` bits has `k` bytes. */
  lemma BytesOfBitLen(n: nat, k: nat)
    requires k > 0 && BitLen(n) == 8 * k
    ensures |ToBytes(n)| == k && ToBytes(n)[0] >= 0x80 && FromBytes(ToBytes(n)) == n
  {
    BoundsOfBitLen(n, k);
    ToBytesReadsBack(n);
    SizeFixesLength(ToBytes(n), k);
    BitLenIsFirstByte(ToBytes(n), k);
  }
}
