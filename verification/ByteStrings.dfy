/** Byte strings in the order the embedded store keeps its keys. */
module ByteStrings {
  type byte = x: int | 0 <= x < 256
  type Bytes = seq<byte>

  const COLON: byte := 58

  /** Strict byte-lexicographic order. */
  predicate Less(a: Bytes, b: Bytes) {
    && b != []
    && (|| a == []
        || a[0] < b[0]
        || (a[0] == b[0] && Less(a[1..], b[1..])))
  }

  /** The strings agree up to `k`, where the first ends or has the smaller byte. */
  ghost predicate DiffersAt(a: Bytes, b: Bytes, k: nat) {
    && k <= |a| && k < |b| && a[..k] == b[..k]
    && (k == |a| || a[k] < b[k])
  }

  /** What the order is: a proper prefix is below, and otherwise the first
      difference decides. */
  lemma {:induction false} LessIff(a: Bytes, b: Bytes)
    ensures Less(a, b) <==> exists k: nat :: DiffersAt(a, b, k)
  {
    if b == [] {
    } else if a == [] || a[0] < b[0] {
      assert DiffersAt(a, b, 0);
    } else if a[0] == b[0] {
      LessIff(a[1..], b[1..]);
      forall k: nat | DiffersAt(a[1..], b[1..], k) ensures DiffersAt(a, b, k + 1) {
        assert a[..k + 1] == [a[0]] + a[1..][..k] && b[..k + 1] == [b[0]] + b[1..][..k];
      }
      forall k: nat | DiffersAt(a, b, k) ensures DiffersAt(a[1..], b[1..], k - 1) {
        assert a[1..][..k - 1] == a[..k][1..] && b[1..][..k - 1] == b[..k][1..];
      }
    } else {
      forall k: nat ensures !DiffersAt(a, b, k) {
        assert 0 < k <= |a| && k <= |b| ==> a[..k][0] == a[0] && b[..k][0] == b[0];
      }
    }
  }

  lemma {:induction false} LessIsAsymmetric(a: Bytes, b: Bytes)
    requires Less(a, b)
    ensures a != b && !Less(b, a)
  {
    if a != [] && a[0] == b[0] {
      LessIsAsymmetric(a[1..], b[1..]);
    }
  }

  lemma {:induction false} LessIsTransitive(a: Bytes, b: Bytes, c: Bytes)
    requires Less(a, b) && Less(b, c)
    ensures Less(a, c)
  {
    if a != [] && a[0] == b[0] && b[0] == c[0] {
      LessIsTransitive(a[1..], b[1..], c[1..]);
    }
  }

  lemma {:induction false} LessIsTotal(a: Bytes, b: Bytes)
    ensures a == b || Less(a, b) || Less(b, a)
  {
    if a != [] && b != [] && a[0] == b[0] {
      LessIsTotal(a[1..], b[1..]);
      assert a == [a[0]] + a[1..] && b == [b[0]] + b[1..];
    }
  }

  /** A string is not below any of its prefixes. */
  lemma {:induction false} PrefixIsNotAbove(p: Bytes, k: Bytes)
    requires p <= k
    ensures !Less(k, p)
  {
    if p != [] {
      PrefixIsNotAbove(p[1..], k[1..]);
    }
  }

  /** The strings with a given prefix are an interval of the order. */
  lemma {:induction false} PrefixIsConvex(p: Bytes, a: Bytes, b: Bytes)
    requires !Less(a, p) && Less(a, b) && p <= b
    ensures p <= a
  {
    if p != [] {
      assert a != [] && a[0] == p[0];
      PrefixIsConvex(p[1..], a[1..], b[1..]);
      assert a == [a[0]] + a[1..] && p == [p[0]] + p[1..];
    }
  }
}
