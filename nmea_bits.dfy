/** Bit-level facts behind the sentence checksum. A machine word is its bits,
    least significant first: eight for a C `char`, thirty-two for a C `int`.
    XOR is bitwise, C's `(int)c` copies the top bit of the char into the 24
    upper bits, and the int's value is read in two's complement. */
module NmeaBits {

  function Pow2(k: nat): nat
  {
    if k == 0 then 1 else 2 * Pow2(k - 1)
  }

  lemma {:induction false} Pow2Add(a: nat, b: nat)
    ensures Pow2(a + b) == Pow2(a) * Pow2(b)
    decreases a
  {
    if a > 0 {
      Pow2Add(a - 1, b);
      DoubleProduct(Pow2(a - 1), Pow2(b));
    }
  }

  lemma Pow2Values()
    ensures Pow2(7) == 0x80 && Pow2(8) == 0x100 && Pow2(24) == 0x100_0000
    ensures Pow2(32) == 0x1_0000_0000
  {
    assert Pow2(8) == 0x100;
    Pow2Add(8, 8);
    Pow2Add(16, 8);
    Pow2Add(16, 16);
  }

  /** The unsigned value of a word. */
  function Unsigned(w: seq<bool>): nat
  {
    if w == [] then 0 else (if w[0] then 1 else 0) + 2 * Unsigned(w[1..])
  }

  /** The low `k` bits of `n`. */
  function ToBits(n: nat, k: nat): (w: seq<bool>)
    ensures |w| == k
  {
    if k == 0 then [] else [n % 2 == 1] + ToBits(n / 2, k - 1)
  }

  function Zeros(k: nat): (w: seq<bool>)
    ensures |w| == k && forall i :: 0 <= i < k ==> !w[i]
  {
    seq(k, _ => false)
  }

  /** Bitwise exclusive or of two words of one width. */
  function Xor(p: seq<bool>, q: seq<bool>): (r: seq<bool>)
    requires |p| == |q|
    ensures |r| == |p| && forall i :: 0 <= i < |p| ==> r[i] == (p[i] != q[i])
  {
    seq(|p|, i requires 0 <= i < |p| => p[i] != q[i])
  }

  /** C's `(int)c` for a signed char: its bits, then 24 copies of its top bit. */
  function Widen(p: seq<bool>): (w: seq<bool>)
    requires |p| == 8
    ensures |w| == 32
  {
    p + seq(24, _ => p[7])
  }

  /** A 32-bit word read as a C int (two's complement). */
  function AsInt32(w: seq<bool>): int
    requires |w| == 32
  {
    Unsigned(w) - (if w[31] then Pow2(32) else 0)
  }

  /** Sign extension commutes with XOR. */
  lemma WidenXor(p: seq<bool>, q: seq<bool>)
    requires |p| == 8 && |q| == 8
    ensures Xor(Widen(p), Widen(q)) == Widen(Xor(p, q))
  {
  }

  lemma WidenZeros()
    ensures Widen(Zeros(8)) == Zeros(32)
  {
  }

  lemma XorZeros(p: seq<bool>)
    ensures Xor(Zeros(|p|), p) == p
  {
  }

  /** XOR-ing with `b` is XOR-ing with `a` and then with the difference of
      `a` and `b`. */
  lemma XorSwap(x: seq<bool>, a: seq<bool>, b: seq<bool>)
    requires |x| == |a| == |b|
    ensures Xor(x, b) == Xor(Xor(x, a), Xor(a, b))
  {
  }

  lemma XorRotate(y: seq<bool>, d: seq<bool>, l: seq<bool>)
    requires |y| == |d| == |l|
    ensures Xor(Xor(y, d), l) == Xor(Xor(y, l), d)
  {
  }

  /** XOR with a nonzero difference changes a word. */
  lemma XorDiffers(x: seq<bool>, u: seq<bool>, v: seq<bool>)
    requires |x| == |u| == |v| && u != v
    ensures Xor(x, Xor(u, v)) != x
  {
    var j :| 0 <= j < |u| && u[j] != v[j];
    assert Xor(x, Xor(u, v))[j] != x[j];
  }

  lemma {:induction false} UnsignedBound(w: seq<bool>)
    ensures Unsigned(w) < Pow2(|w|)
    decreases |w|
  {
    if w != [] {
      UnsignedBound(w[1..]);
    }
  }

  lemma {:induction false} UnsignedOfToBits(n: nat, k: nat)
    requires n < Pow2(k)
    ensures Unsigned(ToBits(n, k)) == n
    decreases k
  {
    if k > 0 {
      var w := ToBits(n, k);
      assert w[1..] == ToBits(n / 2, k - 1);
      UnsignedOfToBits(n / 2, k - 1);
    }
  }

  lemma {:induction false} UnsignedInjective(p: seq<bool>, q: seq<bool>)
    requires |p| == |q| && p != q
    ensures Unsigned(p) != Unsigned(q)
    decreases |p|
  {
    assert p == [p[0]] + p[1..] && q == [q[0]] + q[1..];
    if p[0] == q[0] {
      UnsignedInjective(p[1..], q[1..]);
    }
  }

  lemma DoubleProduct(p: nat, v: nat)
    ensures 2 * (p * v) == (2 * p) * v
  {
  }

  lemma {:induction false} UnsignedAppend(a: seq<bool>, b: seq<bool>)
    ensures Unsigned(a + b) == Unsigned(a) + Pow2(|a|) * Unsigned(b)
    decreases |a|
  {
    if a != [] {
      assert (a + b)[1..] == a[1..] + b;
      UnsignedAppend(a[1..], b);
      DoubleProduct(Pow2(|a| - 1), Unsigned(b));
    } else {
      assert a + b == b;
    }
  }

  lemma {:induction false} UnsignedOfCopies(k: nat, t: bool)
    ensures Unsigned(seq(k, _ => t)) == if t then Pow2(k) - 1 else 0
    decreases k
  {
    if k > 0 {
      assert seq(k, _ => t)[1..] == seq(k - 1, _ => t);
      UnsignedOfCopies(k - 1, t);
    }
  }

  /** The top bit of a char is set exactly when its value is 128 or more. */
  lemma TopBit(p: seq<bool>)
    requires |p| == 8
    ensures Unsigned(p) < 0x100
    ensures p[7] <==> Unsigned(p) >= 0x80
  {
    assert p == p[..7] + [p[7]];
    UnsignedAppend(p[..7], [p[7]]);
    UnsignedBound(p[..7]);
    assert [p[7]][1..] == [];
    Pow2Values();
  }

  /** The int a sign-extended char stands for. */
  lemma WidenValue(p: seq<bool>)
    requires |p| == 8
    ensures AsInt32(Widen(p)) == if Unsigned(p) < 0x80 then Unsigned(p) else Unsigned(p) - 0x100
  {
    UnsignedAppend(p, seq(24, _ => p[7]));
    UnsignedOfCopies(24, p[7]);
    TopBit(p);
    Pow2Values();
  }

}
