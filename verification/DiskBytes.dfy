/** Blocks of bytes, read as an array of 32-bit little-endian words (an index block) or as an
    array of bits (the free map). */
module DiskBytes {

  type byte = x: int | 0 <= x < 256

  const BSIZE: nat := 512
  const NINDIRECT: nat := 128      // words in an index block
  const BPB: nat := 4096           // bits in a free map block
  const UINT: nat := 0x1_0000_0000 // one past the largest uint

  type Block = b: seq<byte> | |b| == BSIZE witness seq(BSIZE, _ => 0)

  function FourBytes(b0: int, b1: int, b2: int, b3: int): int {
    b0 + 0x100 * b1 + 0x1_0000 * b2 + 0x100_0000 * b3
  }

  function Word(b: Block, i: nat): (w: nat)
    requires i < NINDIRECT
    ensures w < UINT
  {
    FourBytes(b[4 * i], b[4 * i + 1], b[4 * i + 2], b[4 * i + 3])
  }

  function ZeroBlock(): (b: Block)
    ensures forall i :: 0 <= i < NINDIRECT ==> Word(b, i) == 0
    ensures forall i :: 0 <= i < BSIZE ==> b[i] == 0
  {
    seq(BSIZE, _ => 0)
  }

  /** Word i of a block is stored. */
  function PutWord(b: Block, i: nat, v: nat): (r: Block)
    requires i < NINDIRECT && v < UINT
    ensures Word(r, i) == v
    ensures forall j :: 0 <= j < NINDIRECT && j != i ==> Word(r, j) == Word(b, j)
  {
    b[..4 * i] + [v % 0x100, v / 0x100 % 0x100, v / 0x100 / 0x100 % 0x100, v / 0x100 / 0x100 / 0x100] + b[4 * i + 4..]
  }

  lemma PutWordAt(b: Block, i: nat, v: nat, j: nat)
    requires i < NINDIRECT && v < UINT && j < NINDIRECT
    ensures Word(PutWord(b, i, v), j) == if j == i then v else Word(b, j)
  {
  }

  lemma ZeroWord(i: nat)
    requires i < NINDIRECT
    ensures Word(ZeroBlock(), i) == 0
  {
  }

  // ----- Bits -----

  /** The mask of bit k. */
  function Mask(k: nat): (m: nat)
    ensures m > 0
  {
    if k == 0 then 1 else 2 * Mask(k - 1)
  }

  /** Bit k of x is set. */
  predicate Bit(x: nat, k: nat) {
    if k == 0 then x % 2 == 1 else Bit(x / 2, k - 1)
  }

  /** Sets bit k of x if it is clear and clears it if it is set, in n bits. */
  function FlipBit(x: nat, k: nat, n: nat): (r: nat)
    requires k < n && x < Mask(n)
    ensures r < Mask(n)
    ensures r == if Bit(x, k) then x - Mask(k) else x + Mask(k)
    ensures Bit(r, k) == !Bit(x, k)
    decreases k
  {
    if k == 0 then (if x % 2 == 1 then x - 1 else x + 1)
    else
      var half := FlipBit(x / 2, k - 1, n - 1);
      Doubled(half, x % 2);
      Doubled(x / 2, x % 2);
      2 * half + x % 2
  }

  lemma Doubled(h: nat, b: nat)
    requires b < 2
    ensures (2 * h + b) / 2 == h && (2 * h + b) % 2 == b
  {
  }

  lemma {:induction false} FlipOthers(x: nat, k: nat, n: nat, j: nat)
    requires k < n && x < Mask(n) && j != k
    ensures Bit(FlipBit(x, k, n), j) == Bit(x, j)
    decreases k
  {
    if k > 0 {
      Doubled(FlipBit(x / 2, k - 1, n - 1), x % 2);
    }
    if k > 0 && j > 0 {
      FlipOthers(x / 2, k - 1, n - 1, j - 1);
    }
  }

  lemma ByteMask()
    ensures Mask(8) == 256
  {
    assert Mask(4) == 16;
  }

  /** The bit of block b in the free map block that covers it. */
  predicate MapBit(bits: Block, b: nat) {
    Bit(bits[b % BPB / 8], b % 8)
  }

  function FlipMapBit(bits: Block, b: nat): (r: Block) {
    ByteMask();
    bits[b % BPB / 8 := FlipBit(bits[b % BPB / 8], b % 8, 8)]
  }

  lemma FlipMapBitFlips(bits: Block, b: nat, c: nat)
    requires b / BPB == c / BPB
    ensures MapBit(FlipMapBit(bits, b), c) == if c == b then !MapBit(bits, c) else MapBit(bits, c)
  {
    hide Bit, Mask, FlipBit;
    ByteMask();
    SameByte(b, c);
    var x := bits[b % BPB / 8];
    FlipsIt(x, b % 8, 8);
    if c != b && c % BPB / 8 == b % BPB / 8 {
      FlipOthers(x, b % 8, 8, c % 8);
    }
  }

  lemma FlipsIt(x: nat, k: nat, n: nat)
    requires k < n && x < Mask(n)
    ensures FlipBit(x, k, n) < Mask(n) && Bit(FlipBit(x, k, n), k) == !Bit(x, k)
  {
  }

  /** Bit r of the q-th free map block. */
  lemma BitPlace(q: nat, r: nat)
    requires r < BPB
    ensures (BPB * q + r) / BPB == q && (BPB * q + r) % BPB == r && (BPB * q + r) % 8 == r % 8
  {
    QuotientOf(BPB, q, r);
    QuotientOf(8, 512 * q + r / 8, r % 8);
    assert r == 8 * (r / 8) + r % 8;
  }

  lemma QuotientOf(n: nat, q: nat, r: nat)
    requires r < n
    ensures (n * q + r) / n == q && (n * q + r) % n == r
  {
    var x := (n * q + r) / n;
    assert n * x + (n * q + r) % n == n * q + r;
    assert n * (x - q) == n * x - n * q;
    Multiple(n, x - q);
  }

  lemma Multiple(n: nat, d: int)
    ensures d >= 1 ==> n * d >= n
    ensures d <= -1 ==> n * d + n <= 0
  {
  }

  /** Two bits of the same byte of the map are told apart by their place in it. */
  lemma SameByte(b: nat, c: nat)
    requires b / BPB == c / BPB
    ensures c % BPB / 8 == b % BPB / 8 && c % 8 == b % 8 ==> c == b
  {
    var q, x, y := b / BPB, b % BPB, c % BPB;
    assert b == BPB * q + x && c == BPB * q + y;
    BitPlace(q, x);
    BitPlace(q, y);
    assert x == 8 * (x / 8) + x % 8 && y == 8 * (y / 8) + y % 8;
  }
}
