/** Physical memory as bytes, 64-bit little-endian words in it, and bit fields of words. */
module Memory {
  import opened Util

  /** The physical space the page-table code can address: gcc gives `field << 12` the
      field's own 40-bit type, so every table pointer the walk follows is below 2^40. */
  const SPACE: nat := 0x100_0000_0000

  type Word = w: nat | w < WORD

  /** Little-endian value of some bytes. */
  function Little(l: seq<Byte>): (v: nat) {
    if l == [] then 0 else l[0] as int + 0x100 * Little(l[1..])
  }

  function Limit(n: nat): (r: nat)
    ensures r > 0
  {
    if n == 0 then 1 else 0x100 * Limit(n - 1)
  }

  lemma {:induction false} LittleBelow(l: seq<Byte>)
    ensures Little(l) < Limit(|l|)
  {
    if l != [] {
      LittleBelow(l[1..]);
    }
  }

  lemma EightBytes()
    ensures Limit(8) == WORD
  {
  }

  /** The word at a. */
  function Load(m: seq<Byte>, a: nat): (w: Word)
    requires a + 8 <= |m|
  {
    LittleBelow(m[a..a + 8]);
    EightBytes();
    Little(m[a..a + 8])
  }

  /** Low byte first. */
  lemma LoadBytes(m: seq<Byte>, a: nat)
    requires a + 8 <= |m|
    ensures Load(m, a) == m[a] as int + 0x100 * m[a + 1] as int + 0x1_0000 * m[a + 2] as int
                          + 0x100_0000 * m[a + 3] as int + 0x1_0000_0000 * m[a + 4] as int
                          + 0x100_0000_0000 * m[a + 5] as int + 0x1_0000_0000_0000 * m[a + 6] as int
                          + 0x100_0000_0000_0000 * m[a + 7] as int
  {
    var l := m[a..a + 8];
    LittleStep(l);
    LittleStep(l[1..]);
    LittleStep(l[2..]);
    LittleStep(l[3..]);
    LittleStep(l[4..]);
    LittleStep(l[5..]);
    LittleStep(l[6..]);
    LittleStep(l[7..]);
  }

  lemma LittleStep(l: seq<Byte>)
    requires l != []
    ensures Little(l) == l[0] as int + 0x100 * Little(l[1..])
  {
  }

  lemma LoadSame(m: seq<Byte>, n: seq<Byte>, a: nat)
    requires a + 8 <= |m| && a + 8 <= |n| && forall i :: a <= i < a + 8 ==> m[i] == n[i]
    ensures Load(m, a) == Load(n, a)
  {
    assert m[a..a + 8] == n[a..a + 8];
  }

  /** The number whose low bytes are `low` and whose remaining part is v. */
  ghost function Rest(low: seq<Byte>, v: nat): nat {
    if low == [] then v else low[0] as int + 0x100 * Rest(low[1..], v)
  }

  lemma {:induction false} RestStep(low: seq<Byte>, v: nat)
    ensures Rest(low + [v % 0x100], v / 0x100) == Rest(low, v)
  {
    var more: seq<Byte> := low + [v % 0x100];
    if low == [] {
      assert more[1..] == [];
    } else {
      RestStep(low[1..], v);
      assert more[1..] == low[1..] + [v % 0x100];
    }
  }

  lemma {:induction false} RestNothing(low: seq<Byte>)
    ensures Rest(low, 0) == Little(low)
  {
    if low != [] {
      RestNothing(low[1..]);
    }
  }

  method Store(mem: array<Byte>, a: nat, w: Word)
    requires a + 8 <= mem.Length
    modifies mem
    ensures Load(mem[..], a) == w
    ensures forall i :: 0 <= i < mem.Length && !(a <= i < a + 8) ==> mem[i] == old(mem[i])
  {
    var v: nat, i := w, 0;
    EightBytes();
    assert mem[a..a] == [];
    while i < 8
      invariant 0 <= i <= 8
      invariant forall k :: 0 <= k < mem.Length && !(a <= k < a + i) ==> mem[k] == old(mem[k])
      invariant Rest(mem[a..a + i], v) == w && v < Limit(8 - i)
    {
      RestStep(mem[a..a + i], v);
      ghost var low := mem[a..a + i];
      mem[a + i] := v % 0x100;
      assert mem[a..a + i + 1] == low + [v % 0x100];
      v := v / 0x100;
      i := i + 1;
    }
    RestNothing(mem[a..a + 8]);
    assert mem[..][a..a + 8] == mem[a..a + 8];
  }

  // ---------------------------------------------------------------- bit fields

  /** A bit field of a word: lo is 2 to its offset, size 2 to its width. */
  datatype Field = Field(lo: nat, size: nat)

  predicate FieldOk(f: Field) {
    f.lo > 0 && f.size > 0
  }

  function Get(w: nat, f: Field): (v: nat)
    requires FieldOk(f)
  {
    w / f.lo % f.size
  }

  /** Reading a field off the parts of a word: h above it, v in it, r below it. */
  lemma FieldIs(w: nat, f: Field, h: nat, v: nat, r: nat)
    requires FieldOk(f) && v < f.size && r < f.lo && w == f.lo * (f.size * h + v) + r
    ensures Get(w, f) == v
  {
    DivModUnique(w, f.lo, f.size * h + v, r);
    DivModUnique(f.size * h + v, f.size, h, v);
  }

  /** Assigning v to the field, cut to its width; the other bits keep. */
  function Set(w: nat, f: Field, v: nat): int
    requires FieldOk(f)
  {
    w - Get(w, f) * f.lo + v % f.size * f.lo
  }

  lemma SetMeans(w: nat, f: Field, v: nat)
    requires FieldOk(f)
    ensures f.lo * f.size > 0 && Set(w, f, v) >= 0
    ensures Set(w, f, v) % (f.lo * f.size) == w % f.lo + v % f.size * f.lo
    ensures Set(w, f, v) / (f.lo * f.size) == w / (f.lo * f.size)
  {
    SetParts(w, f.lo, f.size, v % f.size, Set(w, f, v));
  }

  lemma SetParts(w: nat, lo: nat, size: nat, c: nat, s: int)
    requires lo > 0 && size > 0 && c < size && s == w - w / lo % size * lo + c * lo
    ensures lo * size > 0 && s >= 0 && s % (lo * size) == w % lo + c * lo && s / (lo * size) == w / (lo * size)
  {
    var m, h, r, old', new' := lo * size, w / lo / size, w % lo, w / lo % size * lo, c * lo;
    assert m > 0 && w == m * h + (old' + r) by { Layers(w, lo, size); InRange(lo, size, c, r); }
    assert new' + r < m by { InRange(lo, size, c, r); }
    assert old' + r < m by { InRange(lo, size, w / lo % size, r); }
    Replace(w, m, h, old' + r, new' + r, s);
  }

  lemma Replace(w: nat, m: nat, h: nat, before: nat, after: nat, s: int)
    requires m > 0 && w == m * h + before && before < m && after < m && s == w - before + after
    ensures s >= 0 && s % m == after && s / m == h == w / m
  {
    assert m * h >= 0;
    DivModUnique(w, m, h, before);
    DivModUnique(s, m, h, after);
  }

  /** A word is its upper part, the field, and its lower part. */
  lemma Layers(w: nat, lo: nat, size: nat)
    requires lo > 0 && size > 0
    ensures w == lo * size * (w / lo / size) + (w / lo % size * lo + w % lo)
  {
  }

  /** The low part of a word is the field over the bits below it. */
  lemma Digit(w: nat, lo: nat, size: nat, span: nat)
    requires lo > 0 && size > 0 && span == lo * size
    ensures span > 0 && w % span == w / lo % size * lo + w % lo
    ensures w % span / lo == w / lo % size
  {
    Layers(w, lo, size);
    InRange(lo, size, w / lo % size, w % lo);
    DivModUnique(w, span, w / lo / size, w / lo % size * lo + w % lo);
    DivModUnique(w % span, lo, w / lo % size, w % lo);
  }

  lemma InRange(lo: nat, size: nat, c: nat, r: nat)
    requires c < size && r < lo
    ensures lo * size > 0 && c * lo + r < lo * size
  {
    assert (c + 1) * lo <= size * lo;
  }

  /** One bit-field assignment. `span` is the end of the field and `low` what the bits below
      it hold: the bits below and above keep. */
  method Assign(w: Word, f: Field, v: nat, ghost span: nat, ghost low: nat) returns (r: Word)
    requires FieldOk(f) && span == f.lo * f.size <= WORD && WORD % span == 0
    requires low == w % f.lo
    ensures r % span == low + v % f.size * f.lo && r / span == w / span
  {
    SetMeans(w, f, v);
    BelowByQuotient(w, Set(w, f, v), span);
    r := w - w / f.lo % f.size * f.lo + v % f.size * f.lo;
  }

  /** The same where the bits above are still to be assigned. */
  method Put(w: Word, f: Field, v: nat, ghost span: nat, ghost low: nat) returns (r: Word)
    requires FieldOk(f) && span == f.lo * f.size <= WORD && WORD % span == 0
    requires low == w % f.lo
    ensures r % span == low + v % f.size * f.lo
  {
    r := Assign(w, f, v, span, low);
  }

  lemma TimesMore(m: nat, a: nat, b: nat)
    ensures a <= b ==> m * a <= m * b
  {
    assert m * b == m * a + m * (b - a);
  }

  lemma BelowByQuotient(w: nat, r: nat, span: nat)
    requires span > 0 && w < WORD && WORD % span == 0 && r / span == w / span
    ensures r < WORD
  {
    var k, q := WORD / span, w / span;
    assert WORD == span * k && w == span * q + w % span;
    TimesMore(span, k, q);
    TimesMore(span, q + 1, k);
    assert r == span * q + r % span;
  }
}
