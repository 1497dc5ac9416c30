/**
 What the CRC of an image depends on, and which changes to an image it cannot miss.
 */
module ImageTheorems {
  import opened Crc
  import opened Memory
  import opened Pixels
  import opened CrcService

  /** Byte i of a row is looked at: not stride padding, not the top byte of a 24-bit pixel. */
  predicate Seen(k: Kernel, i: nat) {
    k == Kernel24 ==> i % 4 != 3
  }

  /** Two memories have the same byte at column i of row r of an image. */
  predicate SameAt(m1: seq<bv8>, m2: seq<bv8>, src: Address, stride: int, r: nat, i: nat)
    requires |m1| == |m2| == MEMORY_BYTES
  {
    var a := ByteAddress(RowAddress(src, stride, r), i);
    m1[a] == m2[a]
  }

  lemma SameAtShift(m1: seq<bv8>, m2: seq<bv8>, src: Address, stride: int, r: nat, i: nat)
    requires |m1| == |m2| == MEMORY_BYTES
    ensures SameAt(m1, m2, Wrap(src + stride), stride, r, i) == SameAt(m1, m2, src, stride, r + 1, i)
  {
  }

  // ---- rows ----

  lemma {:induction false} DropFourthAgree(xs: seq<bv8>, ys: seq<bv8>, pixels: nat)
    requires |xs| == |ys| == 4 * pixels
    requires forall i :: 0 <= i < |xs| && i % 4 != 3 ==> xs[i] == ys[i]
    ensures DropFourth(xs) == DropFourth(ys)
    decreases pixels
  {
    if pixels > 0 {
      var n := 4 * (pixels - 1);
      DropFourthAgree(xs[..n], ys[..n], pixels - 1);
      assert xs[n..n + 3] == ys[n..n + 3];
    }
  }

  lemma RowsAgree(k: Kernel, xs: seq<bv8>, ys: seq<bv8>)
    requires |xs| == |ys| && WholePixels(k, |xs|)
    requires forall i :: 0 <= i < |xs| && Seen(k, i) ==> xs[i] == ys[i]
    ensures Visible(k, xs) == Visible(k, ys)
  {
    if k == Kernel24 {
      DropFourthAgree(xs, ys, |xs| / 4);
    } else {
      assert xs == ys;
    }
  }

  /** A difference in one seen byte of a row is a difference in a short window of what is fed. */
  lemma RowsDiffer(k: Kernel, xs: seq<bv8>, ys: seq<bv8>, i: nat)
    returns (before: seq<bv8>, w1: seq<bv8>, w2: seq<bv8>, after: seq<bv8>)
    requires |xs| == |ys| && WholePixels(k, |xs|) && i < |xs| && Seen(k, i) && xs[i] != ys[i]
    requires forall j :: 0 <= j < |xs| && j != i && Seen(k, j) ==> xs[j] == ys[j]
    ensures |w1| == |w2| <= 4 && w1 != w2
    ensures Visible(k, xs) == before + w1 + after
    ensures Visible(k, ys) == before + w2 + after
  {
    if k == Kernel24 {
      before, w1, w2, after := PixelsDiffer(xs, ys, |xs| / 4, i / 4, i % 4);
    } else {
      before, w1, w2, after := xs[..i], [xs[i]], [ys[i]], xs[i + 1..];
      assert w1[0] != w2[0];
      assert xs == before + w1 + after;
      assert ys == before + w2 + after;
    }
  }

  lemma PixelsDiffer(xs: seq<bv8>, ys: seq<bv8>, pixels: nat, p: nat, j: nat)
    returns (before: seq<bv8>, w1: seq<bv8>, w2: seq<bv8>, after: seq<bv8>)
    requires |xs| == |ys| == 4 * pixels && p < pixels && j < 3 && xs[4 * p + j] != ys[4 * p + j]
    requires forall i :: 0 <= i < |xs| && i != 4 * p + j && i % 4 != 3 ==> xs[i] == ys[i]
    ensures |w1| == |w2| <= 4 && w1 != w2
    ensures DropFourth(xs) == before + w1 + after
    ensures DropFourth(ys) == before + w2 + after
  {
    PixelOf(xs, pixels, p);
    PixelOf(ys, pixels, p);
    DropFourthAgree(xs[..4 * p], ys[..4 * p], p);
    DropFourthAgree(xs[4 * p + 4..], ys[4 * p + 4..], pixels - p - 1);
    before, after := DropFourth(xs[..4 * p]), DropFourth(xs[4 * p + 4..]);
    w1, w2 := xs[4 * p..4 * p + 3], ys[4 * p..4 * p + 3];
    assert w1[j] != w2[j];
  }

  lemma PixelOf(xs: seq<bv8>, pixels: nat, p: nat)
    requires |xs| == 4 * pixels && p < pixels
    ensures DropFourth(xs) == DropFourth(xs[..4 * p]) + xs[4 * p..4 * p + 3] + DropFourth(xs[4 * p + 4..])
  {
    var head := xs[..4 * p + 4];
    assert head[..|head| - 4] == xs[..4 * p] && head[|head| - 4..|head| - 1] == xs[4 * p..4 * p + 3];
    assert xs == head + xs[4 * p + 4..];
    DropFourthConcat(head, xs[4 * p + 4..]);
  }

  // ---- images ----

  lemma {:induction false} VisibleAgree(m1: seq<bv8>, m2: seq<bv8>, k: Kernel, src: Address, stride: int, n: nat,
    rows: nat)
    requires |m1| == |m2| == MEMORY_BYTES && WholePixels(k, n)
    requires forall r, i :: 0 <= r < rows && 0 <= i < n && Seen(k, i) ==> SameAt(m1, m2, src, stride, r, i)
    ensures Visible(k, Strided(m1, src, stride, n, rows)) == Visible(k, Strided(m2, src, stride, n, rows))
    decreases rows
  {
    if rows > 0 {
      var next := Wrap(src + stride);
      var row1, row2 := Row(m1, src, n), Row(m2, src, n);
      forall i | 0 <= i < n && Seen(k, i) ensures row1[i] == row2[i] {
        assert SameAt(m1, m2, src, stride, 0, i);
      }
      RowsAgree(k, row1, row2);
      forall r, i | 0 <= r < rows - 1 && 0 <= i < n && Seen(k, i) ensures SameAt(m1, m2, next, stride, r, i) {
        SameAtShift(m1, m2, src, stride, r, i);
      }
      VisibleAgree(m1, m2, k, next, stride, n, rows - 1);
      VisibleOfRows(m1, k, src, stride, n, rows);
      VisibleOfRows(m2, k, src, stride, n, rows);
    }
  }

  lemma VisibleOfRows(m: seq<bv8>, k: Kernel, src: Address, stride: int, n: nat, rows: nat)
    requires |m| == MEMORY_BYTES && WholePixels(k, n) && rows > 0
    ensures Visible(k, Strided(m, src, stride, n, rows)) ==
      Visible(k, Row(m, src, n)) + Visible(k, Strided(m, Wrap(src + stride), stride, n, rows - 1))
  {
    StridedWholePixels(m, k, Wrap(src + stride), stride, n, rows - 1);
    VisibleConcat(k, Row(m, src, n), Strided(m, Wrap(src + stride), stride, n, rows - 1));
  }

  lemma {:induction false} StridedWholePixels(m: seq<bv8>, k: Kernel, src: Address, stride: int, n: nat, rows: nat)
    requires |m| == MEMORY_BYTES && WholePixels(k, n)
    ensures WholePixels(k, |Strided(m, src, stride, n, rows)|)
    decreases rows
  {
    if rows > 0 {
      StridedWholePixels(m, k, Wrap(src + stride), stride, n, rows - 1);
    }
  }

  /**
   Only seen bytes matter: memories that agree on them, and differ anywhere else, stride padding
   and the top bytes of 24-bit pixels included, give the same CRC.
   */
  lemma OnlySeenBytesMatter(m1: seq<bv8>, m2: seq<bv8>, k: Kernel, src: Address, width: nat, height: nat, stride: int)
    requires |m1| == |m2| == MEMORY_BYTES
    requires forall r, i :: 0 <= r < height && 0 <= i < width * BytesPerPixel(k) && Seen(k, i) ==>
      SameAt(m1, m2, src, stride, r, i)
    ensures ImageCrc(m1, k, src, width, height, stride) == ImageCrc(m2, k, src, width, height, stride)
  {
    RowsAreWholePixels(k, width, 1);
    VisibleAgree(m1, m2, k, src, stride, width * BytesPerPixel(k), height);
  }

  /** All seen bytes of the two images agree, except at one position. */
  ghost predicate AgreeExcept(m1: seq<bv8>, m2: seq<bv8>, k: Kernel, src: Address, stride: int, n: nat, rows: nat,
    row: int, col: nat)
    requires |m1| == |m2| == MEMORY_BYTES
  {
    forall r, i :: 0 <= r < rows && 0 <= i < n && Seen(k, i) && (r != row || i != col) ==>
      SameAt(m1, m2, src, stride, r, i)
  }

  lemma AgreeTail(m1: seq<bv8>, m2: seq<bv8>, k: Kernel, src: Address, stride: int, n: nat, rows: nat, row: int,
    col: nat)
    requires |m1| == |m2| == MEMORY_BYTES && rows > 0
    requires AgreeExcept(m1, m2, k, src, stride, n, rows, row, col)
    ensures AgreeExcept(m1, m2, k, Wrap(src + stride), stride, n, rows - 1, row - 1, col)
  {
    var next := Wrap(src + stride);
    forall r, i | 0 <= r < rows - 1 && 0 <= i < n && Seen(k, i) && (r != row - 1 || i != col)
      ensures SameAt(m1, m2, next, stride, r, i)
    {
      SameAtShift(m1, m2, src, stride, r, i);
    }
  }

  lemma AgreeRow(m1: seq<bv8>, m2: seq<bv8>, k: Kernel, src: Address, stride: int, n: nat, rows: nat, row: int,
    col: nat)
    requires |m1| == |m2| == MEMORY_BYTES && rows > 0
    requires AgreeExcept(m1, m2, k, src, stride, n, rows, row, col)
    ensures forall i :: 0 <= i < n && Seen(k, i) && (row != 0 || i != col) ==> Row(m1, src, n)[i] == Row(m2, src, n)[i]
  {
    forall i | 0 <= i < n && Seen(k, i) && (row != 0 || i != col) ensures Row(m1, src, n)[i] == Row(m2, src, n)[i] {
      assert SameAt(m1, m2, src, stride, 0, i);
    }
  }

  lemma Regroup<T>(a: seq<T>, b: seq<T>, w: seq<T>, c: seq<T>)
    ensures a + (b + w + c) == (a + b) + w + c
    ensures (a + w + b) + c == a + w + (b + c)
  {
  }

  lemma {:induction false} VisibleDiffers(
    m1: seq<bv8>, m2: seq<bv8>, k: Kernel, src: Address, stride: int, n: nat, rows: nat, row: nat, col: nat)
    returns (before: seq<bv8>, w1: seq<bv8>, w2: seq<bv8>, after: seq<bv8>)
    requires |m1| == |m2| == MEMORY_BYTES && WholePixels(k, n)
    requires row < rows && col < n && Seen(k, col)
    requires !SameAt(m1, m2, src, stride, row, col)
    requires AgreeExcept(m1, m2, k, src, stride, n, rows, row, col)
    ensures |w1| == |w2| <= 4 && w1 != w2
    ensures Visible(k, Strided(m1, src, stride, n, rows)) == before + w1 + after
    ensures Visible(k, Strided(m2, src, stride, n, rows)) == before + w2 + after
    decreases rows
  {
    if row == 0 {
      before, w1, w2, after := FirstRowDiffers(m1, m2, k, src, stride, n, rows, col);
    } else {
      var next := Wrap(src + stride);
      AgreeTail(m1, m2, k, src, stride, n, rows, row, col);
      SameAtShift(m1, m2, src, stride, row - 1, col);
      before, w1, w2, after := VisibleDiffers(m1, m2, k, next, stride, n, rows - 1, row - 1, col);
      FirstRowSame(m1, m2, k, src, stride, n, rows, row, col);
      before := Prepend(Visible(k, Row(m1, src, n)), before, w1, w2, after);
    }
  }

  lemma FirstRowDiffers(m1: seq<bv8>, m2: seq<bv8>, k: Kernel, src: Address, stride: int, n: nat, rows: nat, col: nat)
    returns (before: seq<bv8>, w1: seq<bv8>, w2: seq<bv8>, after: seq<bv8>)
    requires |m1| == |m2| == MEMORY_BYTES && WholePixels(k, n)
    requires 0 < rows && col < n && Seen(k, col)
    requires !SameAt(m1, m2, src, stride, 0, col)
    requires AgreeExcept(m1, m2, k, src, stride, n, rows, 0, col)
    ensures |w1| == |w2| <= 4 && w1 != w2
    ensures Visible(k, Strided(m1, src, stride, n, rows)) == before + w1 + after
    ensures Visible(k, Strided(m2, src, stride, n, rows)) == before + w2 + after
  {
    var tail := SameTail(m1, m2, k, src, stride, n, rows, col);
    AgreeRow(m1, m2, k, src, stride, n, rows, 0, col);
    before, w1, w2, after := RowsDiffer(k, Row(m1, src, n), Row(m2, src, n), col);
    after := Append(before, w1, w2, after, tail);
  }

  /** Behind a first row with the only difference both images feed the same bytes. */
  lemma SameTail(m1: seq<bv8>, m2: seq<bv8>, k: Kernel, src: Address, stride: int, n: nat, rows: nat, col: nat)
    returns (tail: seq<bv8>)
    requires |m1| == |m2| == MEMORY_BYTES && WholePixels(k, n) && rows > 0
    requires AgreeExcept(m1, m2, k, src, stride, n, rows, 0, col)
    ensures Visible(k, Strided(m1, src, stride, n, rows)) == Visible(k, Row(m1, src, n)) + tail
    ensures Visible(k, Strided(m2, src, stride, n, rows)) == Visible(k, Row(m2, src, n)) + tail
  {
    var next := Wrap(src + stride);
    tail := Visible(k, Strided(m1, next, stride, n, rows - 1));
    AgreeTail(m1, m2, k, src, stride, n, rows, 0, col);
    AgreeEverywhere(m1, m2, k, next, stride, n, rows - 1, col);
    VisibleOfRows(m1, k, src, stride, n, rows);
    VisibleOfRows(m2, k, src, stride, n, rows);
  }

  lemma AgreeEverywhere(m1: seq<bv8>, m2: seq<bv8>, k: Kernel, src: Address, stride: int, n: nat, rows: nat, col: nat)
    requires |m1| == |m2| == MEMORY_BYTES && WholePixels(k, n)
    requires AgreeExcept(m1, m2, k, src, stride, n, rows, -1, col)
    ensures Visible(k, Strided(m1, src, stride, n, rows)) == Visible(k, Strided(m2, src, stride, n, rows))
  {
    VisibleAgree(m1, m2, k, src, stride, n, rows);
  }

  lemma FirstRowSame(m1: seq<bv8>, m2: seq<bv8>, k: Kernel, src: Address, stride: int, n: nat, rows: nat, row: nat,
    col: nat)
    requires |m1| == |m2| == MEMORY_BYTES && WholePixels(k, n) && 0 < row < rows
    requires AgreeExcept(m1, m2, k, src, stride, n, rows, row, col)
    ensures Visible(k, Strided(m1, src, stride, n, rows)) ==
      Visible(k, Row(m1, src, n)) + Visible(k, Strided(m1, Wrap(src + stride), stride, n, rows - 1))
    ensures Visible(k, Strided(m2, src, stride, n, rows)) ==
      Visible(k, Row(m1, src, n)) + Visible(k, Strided(m2, Wrap(src + stride), stride, n, rows - 1))
  {
    AgreeRow(m1, m2, k, src, stride, n, rows, row, col);
    RowsAgree(k, Row(m1, src, n), Row(m2, src, n));
    VisibleOfRows(m1, k, src, stride, n, rows);
    VisibleOfRows(m2, k, src, stride, n, rows);
  }

  lemma Append(before: seq<bv8>, w1: seq<bv8>, w2: seq<bv8>, after: seq<bv8>, rest: seq<bv8>) returns (longer: seq<bv8>)
    ensures (before + w1 + after) + rest == before + w1 + longer
    ensures (before + w2 + after) + rest == before + w2 + longer
  {
    longer := after + rest;
    Regroup(before, after, w1, rest);
    Regroup(before, after, w2, rest);
  }

  lemma Prepend(head: seq<bv8>, before: seq<bv8>, w1: seq<bv8>, w2: seq<bv8>, after: seq<bv8>)
    returns (longer: seq<bv8>)
    ensures head + (before + w1 + after) == longer + w1 + after
    ensures head + (before + w2 + after) == longer + w2 + after
  {
    longer := head + before;
    Regroup(head, before, w1, after);
    Regroup(head, before, w2, after);
  }

  /**
   Error detection: images of one shape, of any size and in any format, that differ in exactly one
   seen byte never have the same CRC.
   */
  lemma SingleByteChangeDetected(
    m1: seq<bv8>, m2: seq<bv8>, k: Kernel, src: Address, width: nat, height: nat, stride: int, row: nat, col: nat)
    requires |m1| == |m2| == MEMORY_BYTES
    requires row < height && col < width * BytesPerPixel(k) && Seen(k, col)
    requires !SameAt(m1, m2, src, stride, row, col)
    requires AgreeExcept(m1, m2, k, src, stride, width * BytesPerPixel(k), height, row, col)
    ensures ImageCrc(m1, k, src, width, height, stride) != ImageCrc(m2, k, src, width, height, stride)
  {
    var n := width * BytesPerPixel(k);
    RowsAreWholePixels(k, width, 1);
    var before, w1, w2, after := VisibleDiffers(m1, m2, k, src, stride, n, height, row, col);
    BurstDetected(before, w1, w2, after);
  }

  /** The same for any change, in however many bytes, that stays within four consecutive visible bytes. */
  lemma WindowChangeDetected(
    m1: seq<bv8>, m2: seq<bv8>, k: Kernel, src: Address, width: nat, height: nat, stride: int, from: nat, to: nat)
    requires |m1| == |m2| == MEMORY_BYTES
    requires var v1 := Visible(k, Strided(m1, src, stride, width * BytesPerPixel(k), height));
      var v2 := Visible(k, Strided(m2, src, stride, width * BytesPerPixel(k), height));
      && v1 != v2 && |v1| == |v2| && from <= to <= |v1| && to - from <= 4
      && v1[..from] == v2[..from] && v1[to..] == v2[to..]
    ensures ImageCrc(m1, k, src, width, height, stride) != ImageCrc(m2, k, src, width, height, stride)
  {
    var v1 := Visible(k, Strided(m1, src, stride, width * BytesPerPixel(k), height));
    var v2 := Visible(k, Strided(m2, src, stride, width * BytesPerPixel(k), height));
    assert v1 == v1[..from] + v1[from..to] + v1[to..];
    assert v2 == v1[..from] + v2[from..to] + v1[to..];
    BurstDetected(v1[..from], v1[from..to], v2[from..to], v1[to..]);
  }
}
