/**
 The 32-bit byte-addressed memory of the DSP and strided images in it.
 */
module Memory {

  const MEMORY_BYTES := 0x1_0000_0000

  type Address = a: int | 0 <= a < MEMORY_BYTES

  /** Unsigned 32-bit address arithmetic. */
  function Wrap(a: int): Address {
    a % MEMORY_BYTES
  }

  /** The value a signed 16-bit register field holds after v is stored in it. */
  function SignExtend16(v: int): int {
    (v + 0x8000) % 0x1_0000 - 0x8000
  }

  predicate Fits16(v: int) {
    -0x8000 <= v < 0x8000
  }

  /** The address k rows further on. */
  function RowAddress(src: Address, stride: int, k: nat): Address
    decreases k
  {
    if k == 0 then src else RowAddress(Wrap(src + stride), stride, k - 1)
  }

  /** It is what src += stride * k computes. */
  lemma {:induction false} RowAddressClosed(src: Address, stride: int, k: nat)
    ensures RowAddress(src, stride, k) == Wrap(src + stride * k)
    decreases k
  {
    if k > 0 {
      RowAddressClosed(Wrap(src + stride), stride, k - 1);
      assert stride * k == stride + stride * (k - 1);
      WrapAdds(src + stride, stride * (k - 1));
    }
  }

  lemma WrapAdds(a: int, b: int)
    ensures Wrap(Wrap(a) + b) == Wrap(a + b)
  {
    var q := a / MEMORY_BYTES;
    assert a == q * MEMORY_BYTES + a % MEMORY_BYTES;
    ModPeriodic(a % MEMORY_BYTES + b, q);
  }

  lemma {:induction false} ModPeriodic(x: int, q: int)
    ensures (x + q * MEMORY_BYTES) % MEMORY_BYTES == x % MEMORY_BYTES
  {
  }

  function ByteAddress(addr: Address, i: nat): Address {
    Wrap(addr + i)
  }

  /** n bytes from addr on, addresses wrapping at the top of memory. */
  function Row(m: seq<bv8>, addr: Address, n: nat): (r: seq<bv8>)
    requires |m| == MEMORY_BYTES
    ensures |r| == n
    ensures forall i :: 0 <= i < n ==> r[i] == m[ByteAddress(addr, i)]
  {
    seq(n, i requires 0 <= i < n => m[ByteAddress(addr, i)])
  }

  /** The visible bytes of `rows` rows of n bytes, each row starting stride after the one before. */
  function Strided(m: seq<bv8>, src: Address, stride: int, n: nat, rows: nat): seq<bv8>
    requires |m| == MEMORY_BYTES
    decreases rows
  {
    if rows == 0 then [] else Row(m, src, n) + Strided(m, Wrap(src + stride), stride, n, rows - 1)
  }

  lemma {:induction false} StridedLength(m: seq<bv8>, src: Address, stride: int, n: nat, rows: nat)
    requires |m| == MEMORY_BYTES
    ensures |Strided(m, src, stride, n, rows)| == n * rows
    decreases rows
  {
    if rows > 0 {
      StridedLength(m, Wrap(src + stride), stride, n, rows - 1);
      assert n * rows == n + n * (rows - 1);
    }
  }

  /** What a copier that has rows still to go finds next, and what is left after the current row. */
  lemma StridedHead(m: seq<bv8>, src: Address, stride: int, n: nat, rows: nat, bytes: seq<bv8>, col: nat)
    requires |m| == MEMORY_BYTES
    requires rows > 0 && col < n
    requires bytes == Strided(m, src, stride, n, rows)
    ensures |bytes| >= n
    ensures bytes[col] == m[ByteAddress(src, col)]
    ensures bytes[n..] == Strided(m, Wrap(src + stride), stride, n, rows - 1)
  {
    var rest := Strided(m, Wrap(src + stride), stride, n, rows - 1);
    assert bytes == Row(m, src, n) + rest;
  }

  /** An image is its first j rows followed by the rest. */
  lemma {:induction false} StridedSplit(m: seq<bv8>, src: Address, stride: int, n: nat, j: nat, k: nat)
    requires |m| == MEMORY_BYTES
    ensures Strided(m, src, stride, n, j + k) ==
      Strided(m, src, stride, n, j) + Strided(m, RowAddress(src, stride, j), stride, n, k)
    decreases j
  {
    if j > 0 {
      var next := Wrap(src + stride);
      StridedSplit(m, next, stride, n, j - 1, k);
      ConcatAssociative(Row(m, src, n), Strided(m, next, stride, n, j - 1),
                        Strided(m, RowAddress(src, stride, j), stride, n, k));
    }
  }

  lemma ConcatAssociative<T>(a: seq<T>, b: seq<T>, c: seq<T>)
    ensures a + (b + c) == (a + b) + c
  {
  }

  // ---- little-endian words ----

  function Word16(b0: bv8, b1: bv8): bv32 {
    b0 as bv32 | (b1 as bv32 << 8)
  }

  function Word32(b0: bv8, b1: bv8, b2: bv8, b3: bv8): bv32 {
    b0 as bv32 | (b1 as bv32 << 8) | (b2 as bv32 << 16) | (b3 as bv32 << 24)
  }

  function ByteOf(w: bv32, k: nat): bv8
    requires k < 4
  {
    if k == 0 then (w & 0xff) as bv8
    else if k == 1 then ((w >> 8) & 0xff) as bv8
    else if k == 2 then ((w >> 16) & 0xff) as bv8
    else (w >> 24) as bv8
  }

  lemma WordRoundTrip(w: bv32)
    ensures Word32(ByteOf(w, 0), ByteOf(w, 1), ByteOf(w, 2), ByteOf(w, 3)) == w
  {
  }
}
