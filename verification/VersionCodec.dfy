/** The eight-byte big-endian form in which the local store keeps versions. */
module VersionCodec {
  import opened ByteStrings

  const TWO_63: int := 0x8000_0000_0000_0000
  const TWO_64: int := 0x1_0000_0000_0000_0000

  type int64 = x: int | -TWO_63 <= x < TWO_63
  type uint64 = x: int | 0 <= x < TWO_64

  function Pow256(n: nat): (p: nat)
    ensures 0 < p
  {
    if n == 0 then 1 else 256 * Pow256(n - 1)
  }

  /** The low `n` base-256 digits of `x`, most significant first. */
  function ToDigits(x: nat, n: nat): (s: Bytes)
    ensures |s| == n
  {
    if n == 0 then [] else ToDigits(x / 256, n - 1) + [x % 256]
  }

  function FromDigits(s: Bytes): nat {
    if s == [] then 0 else 256 * FromDigits(s[..|s| - 1]) + s[|s| - 1]
  }

  lemma {:induction false} FromDigitsIsBounded(s: Bytes)
    ensures FromDigits(s) < Pow256(|s|)
  {
    if s != [] {
      FromDigitsIsBounded(s[..|s| - 1]);
    }
  }

  lemma {:induction false} DigitsRoundTrip(x: nat, n: nat)
    requires x < Pow256(n)
    ensures FromDigits(ToDigits(x, n)) == x
  {
    if n != 0 {
      var s := ToDigits(x, n);
      assert s[..|s| - 1] == ToDigits(x / 256, n - 1);
      DigitsRoundTrip(x / 256, n - 1);
    }
  }

  lemma {:induction false} ValueRoundTrip(s: Bytes)
    ensures ToDigits(FromDigits(s), |s|) == s
  {
    if s != [] {
      ValueRoundTrip(s[..|s| - 1]);
      assert FromDigits(s) / 256 == FromDigits(s[..|s| - 1]);
      assert FromDigits(s) % 256 == s[|s| - 1];
    }
  }

  lemma EightDigitsFillAWord()
    ensures Pow256(8) == TWO_64
  {
  }

  /** Conversion between signed and unsigned words keeps the bit pattern. */
  function ToUnsigned(i: int64): uint64 {
    if i < 0 then i + TWO_64 else i
  }

  function ToSigned(u: uint64): int64 {
    if u < TWO_63 then u else u - TWO_64
  }

  lemma {:induction false} DigitAt(x: nat, n: nat, k: nat)
    requires k < n
    ensures ToDigits(x, n)[k] == x / Pow256(n - 1 - k) % 256
  {
    if k < n - 1 {
      DigitAt(x / 256, n - 1, k);
      DivDiv(x, Pow256(n - 2 - k));
    }
  }

  /** Dividing by 256 first makes no difference. */
  lemma DivDiv(x: nat, p: nat)
    requires 0 < p
    ensures x / 256 / p == x / (256 * p)
  {
    var q, r := x / 256 / p, x / 256 % p;
    assert x == 256 * (p * q + r) + x % 256;
    assert 256 * (p * q + r) == 256 * p * q + 256 * r;
    DivIsUnique(x, 256 * p, q, 256 * r + x % 256);
  }

  lemma DivIsUnique(x: int, d: nat, q: int, r: nat)
    requires r < d && x == d * q + r
    ensures x / d == q
  {
    if q + 1 <= x / d {
      Scaled(q + 1, x / d, d);
      assert false;
    }
    if x / d + 1 <= q {
      Scaled(x / d + 1, q, d);
      assert false;
    }
  }

  lemma Scaled(x: int, y: int, d: nat)
    requires x <= y
    ensures d * x <= d * y
  {
  }

  lemma {:induction false} PowersMultiply(m: nat, n: nat)
    ensures Pow256(m + n) == Pow256(m) * Pow256(n)
  {
    if m > 0 {
      PowersMultiply(m - 1, n);
      assert Pow256(m) * Pow256(n) == 256 * (Pow256(m - 1) * Pow256(n));
    }
  }

  function Int64ToBytes(i: int64): (s: Bytes)
    ensures |s| == 8
  {
    ToDigits(ToUnsigned(i), 8)
  }

  function BytesToInt64(s: Bytes): int64
    requires |s| == 8
  {
    FromDigitsIsBounded(s);
    EightDigitsFillAWord();
    ToSigned(FromDigits(s))
  }

  /** Adding a multiple of 256 digits further up does not show. */
  lemma HigherDigitsDoNotShow(i: int, p: nat, c: nat)
    requires 0 < p
    ensures (i + 256 * c * p) / p % 256 == i / p % 256
  {
    assert i + 256 * c * p == p * (i / p + 256 * c) + i % p;
    DivIsUnique(i + 256 * c * p, p, i / p + 256 * c, i % p);
  }

  /** Which bytes those are: big-endian, in two's complement for negative versions. */
  lemma BytesAreBigEndian(i: int64, k: nat)
    requires k < 8
    ensures Int64ToBytes(i)[k] == i / Pow256(7 - k) % 256
  {
    DigitAt(ToUnsigned(i), 8, k);
    EightDigitsFillAWord();
    PowersMultiply(k + 1, 7 - k);
    HigherDigitsDoNotShow(i, Pow256(7 - k), Pow256(k));
  }

  /** Every version, -1 included, is read back as it was written. */
  lemma VersionSurvivesStorage(i: int64)
    ensures BytesToInt64(Int64ToBytes(i)) == i
  {
    EightDigitsFillAWord();
    DigitsRoundTrip(ToUnsigned(i), 8);
  }

  /** Every eight-byte string is the form of exactly the version it decodes to. */
  lemma BytesSurviveDecoding(s: Bytes)
    requires |s| == 8
    ensures Int64ToBytes(BytesToInt64(s)) == s
  {
    FromDigitsIsBounded(s);
    EightDigitsFillAWord();
    assert ToUnsigned(BytesToInt64(s)) == FromDigits(s);
    ValueRoundTrip(s);
  }
}
