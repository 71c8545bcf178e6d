/** util.c: powers, logarithms and byte copying, the arithmetic both buddy
    allocators and fork rest on. `unsigned long long` is a nat below WORD with
    every product reduced modulo WORD. */
module Util {
  const WORD: nat := 0x1_0000_0000_0000_0000

  type Byte = b: nat | b < 256

  datatype Option<+T> = None | Some(value: T)

  /** A pointer into an array of structures, as the index it points at. */
  datatype Link = Null | At(id: nat)

  function Power(x: nat, n: nat): nat {
    if n == 0 then 1 else x * Power(x, n - 1)
  }

  function Pow2(n: nat): (r: nat)
    ensures r >= 1
  {
    if n == 0 then 1 else 2 * Pow2(n - 1)
  }

  /** x & (1 << i), as a truth value. */
  predicate BitSet(x: nat, i: nat) {
    if i == 0 then x % 2 == 1 else BitSet(x / 2, i - 1)
  }

  /** x ^ (1 << i). */
  function Flip(x: nat, i: nat): nat {
    if BitSet(x, i) then BitSetAtLeast(x, i); x - Pow2(i) else x + Pow2(i)
  }

  lemma {:induction false} BitSetAtLeast(x: nat, i: nat)
    requires BitSet(x, i)
    ensures x >= Pow2(i)
  {
    if i > 0 {
      BitSetAtLeast(x / 2, i - 1);
    }
  }

  /** Flipping a higher bit acts on the half, with y = x / 2, j = i - 1. */
  lemma FlipHalf(x: nat, i: nat, y: nat, j: nat)
    requires i == j + 1 && (x == 2 * y || x == 2 * y + 1)
    ensures BitSet(x, i) == BitSet(y, j)
    ensures Flip(x, i) == 2 * Flip(y, j) + (x - 2 * y)
  {
  }

  /** Flipping bit i changes that bit and no other. */
  lemma {:induction false} FlipBits(x: nat, i: nat, j: nat)
    ensures BitSet(Flip(x, i), j) <==> if j == i then !BitSet(x, i) else BitSet(x, j)
    decreases i
  {
    var f := Flip(x, i);
    if i == 0 {
      assert f / 2 == x / 2 && f % 2 != x % 2;
    } else {
      FlipHalf(x, i, x / 2, i - 1);
      assert f / 2 == Flip(x / 2, i - 1) && f % 2 == x % 2;
      if j > 0 {
        FlipBits(x / 2, i - 1, j - 1);
      }
    }
  }

  lemma {:induction false} FlipBelow(x: nat, i: nat, max: nat)
    requires x < Pow2(max) && i < max
    ensures Flip(x, i) < Pow2(max)
  {
    var half := Pow2(max - 1);
    assert Pow2(max) == 2 * half;
    if i > 0 {
      FlipBelow(x / 2, i - 1, max - 1);
      FlipHalf(x, i, x / 2, i - 1);
    } else if x % 2 == 0 {
      assert x + 1 < 2 * half;
    }
  }

  lemma {:induction false} BitSetMeans(x: nat, i: nat)
    ensures BitSet(x, i) <==> (x / Pow2(i)) % 2 == 1
  {
    if i > 0 {
      BitSetMeans(x / 2, i - 1);
      DivHalf(x, Pow2(i - 1));
    }
  }

  /** Dividing by 2 * m is halving first. */
  lemma DivHalf(x: nat, m: nat)
    requires m > 0
    ensures x / (2 * m) == (x / 2) / m
    ensures x % (2 * m) == 2 * ((x / 2) % m) + x % 2
  {
    var y := x / 2;
    var q, r := y / m, y % m;
    assert y == m * q + r;
    assert x == 2 * m * q + (2 * r + x % 2) by {
      assert 2 * m * q == 2 * (m * q);
    }
    DivModUnique(x, 2 * m, q, 2 * r + x % 2);
  }

  lemma {:induction false} PowerOfTwo(n: nat)
    ensures Power(2, n) == Pow2(n)
  {
    if n > 0 {
      PowerOfTwo(n - 1);
    }
  }

  lemma {:induction false} Pow2Monotone(a: nat, b: nat)
    requires a <= b
    ensures Pow2(a) <= Pow2(b)
    ensures a < b ==> Pow2(a) < Pow2(b)
  {
    if a < b {
      Pow2Monotone(a, b - 1);
    }
  }

  /** 1 << max fits an int. */
  predicate FitsInt(max: nat) {
    Pow2(max) < 0x8000_0000
  }

  lemma SmallPower(o: nat, max: nat)
    requires o <= max && FitsInt(max)
    ensures Power(2, o) == Pow2(o) < 0x8000_0000 && o < 0x8000_0000
  {
    PowerOfTwo(o);
    Pow2Monotone(o, max);
    BelowPow2(o);
  }

  lemma ModMul(a: nat, b: nat, m: nat)
    requires m > 0
    ensures ((a % m) * b) % m == (a * b) % m
  {
    var q, r := a / m, a % m;
    assert a == m * q + r;
    assert a * b == r * b + m * (q * b) by {
      assert (m * q + r) * b == m * q * b + r * b;
      assert m * q * b == m * (q * b);
    }
    AddMultiple(r * b, q * b, m);
  }

  lemma DivModUnique(a: nat, m: nat, q: int, r: nat)
    requires m > 0 && r < m && a == m * q + r
    ensures a / m == q && a % m == r
  {
    var d := a / m - q;
    assert m * d == r - a % m by {
      assert m * (a / m) - m * q == m * d;
    }
    MultipleIsFar(m, d);
  }

  lemma MultipleIsFar(m: nat, d: int)
    ensures d >= 1 ==> m * d >= m
    ensures d <= -1 ==> m * d <= -(m as int)
    ensures d == 0 ==> m * d == 0
  {
  }

  lemma AddMultiple(x: nat, k: nat, m: nat)
    requires m > 0
    ensures (x + m * k) % m == x % m
  {
    var q := x / m;
    assert m * q + m * k == m * (q + k);
    assert x == m * q + x % m;
    DivModUnique(x + m * k, m, q + k, x % m);
  }

  lemma {:induction false} PowerMod(x: nat, n: nat, m: nat)
    requires m > 0
    ensures Power(x % m, n) % m == Power(x, n) % m
  {
    if n > 0 {
      var y := x % m;
      PowerMod(x, n - 1, m);
      ModMul(Power(y, n - 1), y, m);
      ModMul(Power(x, n - 1), y, m);
      ModMul(x, Power(x, n - 1), m);
      assert Power(y, n) == Power(y, n - 1) * y;
      assert y * Power(x, n - 1) == Power(x, n - 1) * y;
    }
  }

  lemma {:induction false} PowerSquare(x: nat, n: nat)
    ensures Power(x, 2 * n) == Power(x * x, n)
  {
    if n > 0 {
      PowerSquare(x, n - 1);
      assert Power(x, 2 * n) == x * (x * Power(x, 2 * n - 2));
      assert x * (x * Power(x, 2 * n - 2)) == (x * x) * Power(x, 2 * n - 2);
    }
  }

  /** One round of the square-and-multiply loop keeps ret * b^e modulo m. */
  lemma PowStep(ret: nat, b: nat, e: nat, m: nat)
    requires m > 0 && e > 0
    ensures var r := if e % 2 == 1 then (ret * b) % m else ret;
            (r * Power((b * b) % m, e / 2)) % m == (ret * Power(b, e)) % m
  {
    var h := Power(b * b, e / 2);
    var r0 := if e % 2 == 1 then ret * b else ret;
    PowerSquare(b, e / 2);
    assert r0 * h == ret * Power(b, e) by {
      if e % 2 == 1 {
        assert Power(b, e) == b * Power(b, 2 * (e / 2));
        assert ret * b * h == ret * (b * h);
      }
    }
    var g := Power((b * b) % m, e / 2);
    PowerMod(b * b, e / 2, m);
    ModMul(g, r0, m);
    ModMul(h, r0, m);
    assert g * r0 == r0 * g && h * r0 == r0 * h;
    ModMul(r0, g, m);
  }

  method Pow(x: nat, n: nat) returns (ret: nat)
    requires x < WORD && n < WORD
    ensures ret == Power(x, n) % WORD
  {
    ret := 1;
    var b: nat, e: nat := x, n;
    while e != 0
      invariant ret < WORD
      invariant (ret * Power(b, e)) % WORD == Power(x, n) % WORD
    {
      PowStep(ret, b, e, WORD);
      if e % 2 == 1 {
        ret := (ret * b) % WORD;
      }
      b := (b * b) % WORD;
      e := e / 2;
    }
  }

  method Log2(x: nat) returns (ret: nat)
    requires 1 <= x < WORD
    ensures Pow2(ret) <= x < Pow2(ret + 1)
  {
    ret := 0;
    var y := x;
    while y != 1
      invariant 1 <= y
      invariant Pow2(ret) * y <= x < Pow2(ret) * (y + 1)
    {
      var p := Pow2(ret);
      assert p * y <= x < p * (y + 1);
      HalveBounds(p, y, x);
      y := y / 2;
      ret := ret + 1;
    }
  }

  lemma HalveBounds(p: nat, y: nat, x: nat)
    requires p * y <= x < p * (y + 1)
    ensures 2 * p * (y / 2) <= x < 2 * p * (y / 2 + 1)
  {
    var h := y / 2;
    assert 2 * p * h == p * (2 * h) && 2 * p * (h + 1) == p * (2 * h + 2);
    assert p * (2 * h) <= p * y;
    assert p * (y + 1) <= p * (2 * h + 2);
  }

  /** The least order whose block has at least n units. */
  function CeilLog2(n: nat): (order: nat)
    requires n >= 1
    ensures n <= Pow2(order)
    ensures Pow2(order) < 2 * n
    ensures order > 0 ==> Pow2(order - 1) < n
  {
    if n == 1 then 0 else 1 + CeilLog2((n + 1) / 2)
  }

  lemma CeilLog2Least(n: nat, order: nat)
    requires n >= 1 && n <= Pow2(order)
    ensures CeilLog2(n) <= order
  {
  }

  /** `log2` rounded up by one comparison with `pow`: the idiom that opens both allocators. */
  method RequestedOrder(n: nat) returns (order: nat)
    requires 1 <= n < WORD
    ensures order == CeilLog2(n)
  {
    order := Log2(n);
    PowerOfTwo(order);
    assert Pow2(order) < WORD;
    assert order < WORD by { BelowPow2(order); }
    var size := Pow(2, order);
    if size < n {
      order := order + 1;
      Pow2Monotone(order - 1, order);
    }
    CeilLog2Least(n, order);
    if CeilLog2(n) < order {
      Pow2Monotone(CeilLog2(n), order - 1);
    }
  }

  lemma {:induction false} BelowPow2(n: nat)
    ensures n < Pow2(n)
  {
    if n > 0 {
      BelowPow2(n - 1);
    }
  }

  /** The byte of the source that ends up at offset k: copying forward one byte at a
      time repeats the first dst - src bytes when the target overlaps from above. */
  function CopySource(dst: nat, src: nat, size: nat, k: nat): nat {
    if src < dst < src + size then k % (dst - src) else k
  }

  method Memcpy(mem: array<Byte>, dst: nat, src: nat, size: nat)
    requires dst + size <= mem.Length && src + size <= mem.Length
    modifies mem
    ensures forall a :: dst <= a < dst + size ==> mem[a] == old(mem[src + CopySource(dst, src, size, a - dst)])
    ensures forall a :: 0 <= a < mem.Length && !(dst <= a < dst + size) ==> mem[a] == old(mem[a])
  {
    var i := 0;
    while i < size
      invariant 0 <= i <= size
      invariant forall a :: dst <= a < dst + i ==> mem[a] == old(mem[src + CopySource(dst, src, size, a - dst)])
      invariant forall a :: 0 <= a < mem.Length && !(dst <= a < dst + i) ==> mem[a] == old(mem[a])
    {
      CopySourceStep(dst, src, size, i);
      mem[dst + i] := mem[src + i];
      i := i + 1;
    }
  }

  /** When byte i is copied, its source is as it was, or has been copied over from before. */
  lemma CopySourceStep(dst: nat, src: nat, size: nat, i: nat)
    requires i < size
    ensures CopySource(dst, src, size, i) <= i
    ensures dst <= src + i < dst + i ==>
              CopySource(dst, src, size, i) == CopySource(dst, src, size, src + i - dst)
    ensures !(dst <= src + i < dst + i) ==> CopySource(dst, src, size, i) == i
  {
    if src < dst < src + size {
      var d := dst - src;
      if d <= i {
        AddMultiple(i - d, 1, d);
        assert i % d <= i by { assert i == d * (i / d) + i % d; assert d * (i / d) >= 0; }
      } else {
        DivModUnique(i, d, 0, i);
      }
    }
  }
}
