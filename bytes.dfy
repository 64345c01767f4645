/** Python `bytes` and the integer conversions the codec relies on:
    `int.from_bytes(s, 'big')`, `n.to_bytes(k, 'big')`, `int.bit_length()`
    and slicing with non-negative bounds. */
module Bytes {

  type Byte = x: int | 0 <= x < 256
  type Bytes = seq<Byte>

  function Pow2(k: nat): (r: nat)
    ensures r >= 1
  {
    if k == 0 then 1 else 2 * Pow2(k - 1)
  }

  function Pow256(k: nat): (r: nat)
    ensures r >= 1
  {
    if k == 0 then 1 else 256 * Pow256(k - 1)
  }

  /** `int.from_bytes(s, byteorder='big')` */
  function FromBE(s: Bytes): nat
  {
    if s == [] then 0 else FromBE(s[..|s| - 1]) * 256 + s[|s| - 1]
  }

  /** `n.to_bytes(k, byteorder='big')`, for `n < 256^k` (see `FromToBE`). */
  function ToBE(n: nat, k: nat): (r: Bytes)
    ensures |r| == k
  {
    if k == 0 then [] else ToBE(n / 256, k - 1) + [n % 256]
  }

  /** `n.bit_length()` */
  function BitLength(n: nat): nat
  {
    if n == 0 then 0 else 1 + BitLength(n / 2)
  }

  /** `ceil(n.bit_length() / 8)`: the number of bytes of the shortest
      big-endian form of `n` (0 for `n == 0`). */
  function ByteLength(n: nat): nat
  {
    BitLength(n) / 8 + (if BitLength(n) % 8 > 0 then 1 else 0)
  }

  /** `n.to_bytes(ceil(n.bit_length() / 8), 'big')`: minimal big-endian form. */
  function MinimalBE(n: nat): (r: Bytes)
    ensures |r| == ByteLength(n)
  {
    ToBE(n, ByteLength(n))
  }

  /** Python slice `s[a:b]` with non-negative bounds: clamps at the end of `s`. */
  function Slice(s: Bytes, a: nat, b: nat): (r: Bytes)
    ensures |r| == if a < b && a < |s| then (if b < |s| then b else |s|) - a else 0
  {
    if a >= |s| || b <= a then [] else if b < |s| then s[a..b] else s[a..]
  }

  // ---------------------------------------------------------------------------
  // Arithmetic facts

  lemma {:induction false} Pow2Add(a: nat, b: nat)
    ensures Pow2(a + b) == Pow2(a) * Pow2(b)
  {
    if a > 0 {
      Pow2Add(a - 1, b);
      assert Pow2(a + b) == 2 * Pow2(a - 1 + b);
    }
  }

  lemma {:induction false} Pow2Mono(a: nat, b: nat)
    requires a <= b
    ensures Pow2(a) <= Pow2(b)
  {
    if a < b {
      Pow2Mono(a, b - 1);
    }
  }

  lemma {:induction false} Pow256IsPow2(k: nat)
    ensures Pow256(k) == Pow2(8 * k)
  {
    if k > 0 {
      Pow256IsPow2(k - 1);
      Pow2Add(8 * (k - 1), 8);
      assert 8 * k == 8 * (k - 1) + 8;
    }
  }

  lemma {:induction false} BitLengthBounds(n: nat)
    ensures n < Pow2(BitLength(n))
    ensures n > 0 ==> BitLength(n) >= 1 && Pow2(BitLength(n) - 1) <= n
  {
    if n > 0 {
      BitLengthBounds(n / 2);
    }
  }

  /** The shortest big-endian form is as long as it must be and no longer. */
  lemma {:induction false} ByteLengthBounds(n: nat)
    ensures n < Pow256(ByteLength(n))
    ensures n > 0 ==> ByteLength(n) >= 1 && Pow256(ByteLength(n) - 1) <= n
  {
    var b := BitLength(n);
    var q := ByteLength(n);
    BitLengthBounds(n);
    assert b <= 8 * q;
    Pow2Mono(b, 8 * q);
    Pow256IsPow2(q);
    if n > 0 {
      assert q >= 1;
      assert 8 * (q - 1) <= b - 1;
      Pow2Mono(8 * (q - 1), b - 1);
      Pow256IsPow2(q - 1);
    }
  }

  lemma {:induction false} FromBEBound(s: Bytes)
    ensures FromBE(s) < Pow256(|s|)
  {
    if s != [] {
      var p := s[..|s| - 1];
      FromBEBound(p);
      assert FromBE(s) == FromBE(p) * 256 + s[|s| - 1];
      assert FromBE(p) + 1 <= Pow256(|p|);
      assert (FromBE(p) + 1) * 256 <= Pow256(|p|) * 256;
    }
  }

  lemma {:induction false} FromToBE(n: nat, k: nat)
    requires n < Pow256(k)
    ensures FromBE(ToBE(n, k)) == n
  {
    if k > 0 {
      assert n / 256 < Pow256(k - 1);
      FromToBE(n / 256, k - 1);
      var r := ToBE(n, k);
      assert r[..|r| - 1] == ToBE(n / 256, k - 1);
    }
  }

  lemma MinimalBERoundTrip(n: nat)
    ensures FromBE(MinimalBE(n)) == n
  {
    ByteLengthBounds(n);
    FromToBE(n, ByteLength(n));
  }

  /** For a value that fits one byte the minimal form is that byte, and it is
      empty for zero. */
  lemma MinimalBESmall(n: nat)
    requires n < 256
    ensures n == 0 ==> MinimalBE(n) == []
    ensures n > 0 ==> MinimalBE(n) == [n]
  {
    ByteLengthBounds(n);
    if n > 0 {
      Pow256Grows(ByteLength(n) - 1);
    }
  }

  lemma Pow256Grows(k: nat)
    ensures k >= 1 ==> Pow256(k) >= 256
  {
  }

  lemma FromBESingle(b: Byte)
    ensures FromBE([b]) == b
  {
    assert [b][..0] == [];
  }

  /** A leading byte weighs 256 to the power of the number of bytes after it. */
  lemma {:induction false} FromBECons(x: Byte, b: Bytes)
    ensures FromBE([x] + b) == x * Pow256(|b|) + FromBE(b)
  {
    if b != [] {
      var c := [x] + b;
      var p := b[..|b| - 1];
      assert c[..|c| - 1] == [x] + p;
      FromBECons(x, p);
      calc {
        FromBE(c);
        FromBE([x] + p) * 256 + b[|b| - 1];
        (x * Pow256(|p|) + FromBE(p)) * 256 + b[|b| - 1];
        x * (Pow256(|p|) * 256) + (FromBE(p) * 256 + b[|b| - 1]);
        x * Pow256(|b|) + FromBE(b);
      }
    } else {
      FromBESingle(x);
      assert [x] + b == [x];
    }
  }

  lemma FromBEEmpty()
    ensures FromBE([]) == 0
  {
  }
}
