/** Row-major byte images: a flat buffer whose byte at (row, column) sits at row * stride + column.

    `Blit` says pointwise what a rectangle copy must produce; `Rows` is the tightly packed content of
    a rectangle, as the extraction and cache loops build it. The loops that move bytes one row at a
    time are methods proved against these two functions. */
module Raster {
  import opened Words

  // ---------------------------------------------------------------- index arithmetic

  lemma MulLe(a: nat, b: nat, k: nat)
    requires a <= b
    ensures a * k <= b * k
  {
  }

  lemma NextRow(a: nat, b: nat, stride: nat)
    requires a < b
    ensures a * stride + stride <= b * stride
  {
    MulLe(a + 1, b, stride);
    assert (a + 1) * stride == a * stride + stride;
  }

  /** Rows `row < rows` of a `stride`-byte image end inside the buffer. */
  lemma IndexInside(row: nat, col: nat, stride: nat, rows: nat)
    requires row < rows && col < stride
    ensures 0 <= row * stride + col < rows * stride
  {
    NextRow(row, rows, stride);
  }

  /** A flat index determines its row and its column. */
  lemma DivModOf(row: nat, col: nat, stride: nat)
    requires col < stride
    ensures (row * stride + col) / stride == row
    ensures (row * stride + col) % stride == col
  {
    var i := row * stride + col;
    var q, r := i / stride, i % stride;
    assert i == q * stride + r;
    if q < row {
      NextRow(q, row, stride);
    } else if row < q {
      NextRow(row, q, stride);
    }
  }

  lemma RowOf(i: nat, stride: nat)
    requires 0 < stride
    ensures 0 <= i / stride && 0 <= i % stride < stride
    ensures i == (i / stride) * stride + i % stride
  {
  }

  // ---------------------------------------------------------------- rectangles of bytes

  /** Flat index `i` lies in the rectangle of `cols` byte columns and `rows` rows at (col, row). */
  predicate Inside(i: nat, stride: nat, col: nat, row: nat, cols: nat, rows: nat)
    requires 0 < stride
  {
    row <= i / stride < row + rows && col <= i % stride < col + cols
  }

  /** The rectangle lies inside an image of `len` bytes. */
  predicate Fits(len: nat, stride: nat, col: nat, row: nat, cols: nat, rows: nat) {
    0 < stride && col + cols <= stride && (row + rows) * stride <= len
  }

  lemma FitsAt(len: nat, stride: nat, col: nat, row: nat, cols: nat, rows: nat, r: nat, c: nat)
    requires Fits(len, stride, col, row, cols, rows)
    requires r < rows && c < cols
    ensures 0 <= (row + r) * stride + (col + c) < len
  {
    IndexInside(row + r, col + c, stride, row + rows);
  }

  lemma FitsRow(len: nat, stride: nat, col: nat, row: nat, cols: nat, rows: nat, r: nat)
    requires Fits(len, stride, col, row, cols, rows)
    requires r < rows
    ensures 0 <= (row + r) * stride + col <= (row + r) * stride + col + cols <= len
  {
    NextRow(row + r, row + rows, stride);
  }

  lemma FitsFewer(len: nat, stride: nat, col: nat, row: nat, cols: nat, rows: nat, fewer: nat)
    requires Fits(len, stride, col, row, cols, rows)
    requires fewer <= rows
    ensures Fits(len, stride, col, row, cols, fewer)
  {
    MulLe(row + fewer, row + rows, stride);
  }

  // ---------------------------------------------------------------- copying a rectangle

  /** `dst` with the rectangle at (col, row) replaced by the rectangle of `src` at (srcCol, srcRow). */
  function Blit(dst: seq<Byte>, stride: nat, col: nat, row: nat, cols: nat, rows: nat,
                src: seq<Byte>, srcStride: nat, srcCol: nat, srcRow: nat): (r: seq<Byte>)
    requires Fits(|dst|, stride, col, row, cols, rows)
    requires Fits(|src|, srcStride, srcCol, srcRow, cols, rows)
    ensures |r| == |dst|
  {
    seq(|dst|, i requires 0 <= i < |dst| =>
      if Inside(i, stride, col, row, cols, rows) then
        FitsAt(|src|, srcStride, srcCol, srcRow, cols, rows, i / stride - row, i % stride - col);
        src[(srcRow + (i / stride - row)) * srcStride + (srcCol + (i % stride - col))]
      else dst[i])
  }

  /** The content of a rectangle, row after row without gaps. */
  function Rows(src: seq<Byte>, stride: nat, col: nat, row: nat, cols: nat, rows: nat): (r: seq<Byte>)
    requires Fits(|src|, stride, col, row, cols, rows)
    ensures |r| == rows * cols
    decreases rows
  {
    if rows == 0 then []
    else
      FitsFewer(|src|, stride, col, row, cols, rows, rows - 1);
      FitsRow(|src|, stride, col, row, cols, rows, rows - 1);
      var from := (row + (rows - 1)) * stride + col;
      assert rows * cols == (rows - 1) * cols + cols;
      Rows(src, stride, col, row, cols, rows - 1) + src[from..from + cols]
  }

  /** Byte (r, c) of the packed content is byte (row + r, col + c) of the image. */
  lemma {:induction false} RowsAt(src: seq<Byte>, stride: nat, col: nat, row: nat, cols: nat, rows: nat, r: nat, c: nat)
    requires Fits(|src|, stride, col, row, cols, rows)
    requires r < rows && c < cols
    ensures 0 <= r * cols + c < rows * cols
    ensures 0 <= (row + r) * stride + (col + c) < |src|
    ensures Rows(src, stride, col, row, cols, rows)[r * cols + c] == src[(row + r) * stride + (col + c)]
    decreases rows
  {
    IndexInside(r, c, cols, rows);
    FitsAt(|src|, stride, col, row, cols, rows, r, c);
    FitsFewer(|src|, stride, col, row, cols, rows, rows - 1);
    FitsRow(|src|, stride, col, row, cols, rows, rows - 1);
    if r < rows - 1 {
      RowsAt(src, stride, col, row, cols, rows - 1, r, c);
    }
  }

  /** Copying out of a packed rectangle is copying from the image it was packed from, even when only
      a corner of the packed rectangle is used. */
  lemma FromPacked(dst: seq<Byte>, stride: nat, col: nat, row: nat, cols: nat, rows: nat,
                   src: seq<Byte>, srcStride: nat, srcCol: nat, srcRow: nat, packedCols: nat, packedRows: nat)
    requires Fits(|dst|, stride, col, row, cols, rows)
    requires Fits(|src|, srcStride, srcCol, srcRow, packedCols, packedRows)
    requires 0 < cols <= packedCols && rows <= packedRows
    ensures Fits(|src|, srcStride, srcCol, srcRow, cols, rows)
    ensures Fits(|Rows(src, srcStride, srcCol, srcRow, packedCols, packedRows)|, packedCols, 0, 0, cols, rows)
    ensures Blit(dst, stride, col, row, cols, rows, Rows(src, srcStride, srcCol, srcRow, packedCols, packedRows), packedCols, 0, 0)
         == Blit(dst, stride, col, row, cols, rows, src, srcStride, srcCol, srcRow)
  {
    FitsFewer(|src|, srcStride, srcCol, srcRow, packedCols, packedRows, rows);
    MulLe(rows, packedRows, packedCols);
    var packed := Rows(src, srcStride, srcCol, srcRow, packedCols, packedRows);
    var left := Blit(dst, stride, col, row, cols, rows, packed, packedCols, 0, 0);
    var right := Blit(dst, stride, col, row, cols, rows, src, srcStride, srcCol, srcRow);
    forall i | 0 <= i < |dst| ensures left[i] == right[i] {
      if Inside(i, stride, col, row, cols, rows) {
        RowsAt(src, srcStride, srcCol, srcRow, packedCols, packedRows, i / stride - row, i % stride - col);
      }
    }
  }

  /** Copying through a packed buffer is the simultaneous copy: whatever the overlap of source and
      destination, every byte that lands was read from the image as it was before the copy. */
  lemma ThroughScratch(dst: seq<Byte>, stride: nat, col: nat, row: nat, cols: nat, rows: nat,
                       src: seq<Byte>, srcStride: nat, srcCol: nat, srcRow: nat)
    requires Fits(|dst|, stride, col, row, cols, rows)
    requires Fits(|src|, srcStride, srcCol, srcRow, cols, rows)
    requires 0 < cols
    ensures Fits(|Rows(src, srcStride, srcCol, srcRow, cols, rows)|, cols, 0, 0, cols, rows)
    ensures Blit(dst, stride, col, row, cols, rows, Rows(src, srcStride, srcCol, srcRow, cols, rows), cols, 0, 0)
         == Blit(dst, stride, col, row, cols, rows, src, srcStride, srcCol, srcRow)
  {
    FromPacked(dst, stride, col, row, cols, rows, src, srcStride, srcCol, srcRow, cols, rows);
  }

  /** Painting a rectangle's own packed content over another image of the same shape makes the two
      agree inside the rectangle and changes nothing else. */
  lemma PaintBack(dst: seq<Byte>, src: seq<Byte>, stride: nat, col: nat, row: nat, cols: nat, rows: nat)
    requires |dst| == |src| && 0 < cols
    requires Fits(|src|, stride, col, row, cols, rows)
    ensures Fits(|Rows(src, stride, col, row, cols, rows)|, cols, 0, 0, cols, rows)
    ensures var r := Blit(dst, stride, col, row, cols, rows, Rows(src, stride, col, row, cols, rows), cols, 0, 0);
            && |r| == |dst|
            && forall i | 0 <= i < |dst| :: r[i] == if Inside(i, stride, col, row, cols, rows) then src[i] else dst[i]
  {
    ThroughScratch(dst, stride, col, row, cols, rows, src, stride, col, row);
    BlitInPlace(dst, src, stride, col, row, cols, rows);
  }

  /** Copying a rectangle to the same place of another image of the same shape. */
  lemma BlitInPlace(dst: seq<Byte>, src: seq<Byte>, stride: nat, col: nat, row: nat, cols: nat, rows: nat)
    requires |dst| == |src|
    requires Fits(|src|, stride, col, row, cols, rows)
    ensures var r := Blit(dst, stride, col, row, cols, rows, src, stride, col, row);
            forall i | 0 <= i < |dst| :: r[i] == if Inside(i, stride, col, row, cols, rows) then src[i] else dst[i]
  {
    forall i | 0 <= i < |dst| && Inside(i, stride, col, row, cols, rows)
      ensures (row + (i / stride - row)) * stride + (col + (i % stride - col)) == i
    {
      RowOf(i, stride);
      assert row + (i / stride - row) == i / stride;
    }
  }

  // ---------------------------------------------------------------- the row loops

  /** A byte is in one row more exactly when it is one of the bytes of that row. */
  lemma ByteOfRow(stride: nat, col: nat, row: nat, cols: nat, done: nat, i: nat)
    requires 0 < stride && col + cols <= stride
    ensures var to := (row + done) * stride + col;
            && (to <= i < to + cols ==> i / stride == row + done && i % stride == col + (i - to))
            && (Inside(i, stride, col, row, cols, done + 1) <==> Inside(i, stride, col, row, cols, done) || to <= i < to + cols)
  {
    var to := (row + done) * stride + col;
    RowOf(i, stride);
    if to <= i < to + cols {
      DivModOf(row + done, col + (i - to), stride);
    }
  }

  /** One more row: exactly the bytes of that row change. */
  lemma BlitNextRow(dst: seq<Byte>, stride: nat, col: nat, row: nat, cols: nat, rows: nat,
                    src: seq<Byte>, srcStride: nat, srcCol: nat, srcRow: nat, done: nat)
    requires Fits(|dst|, stride, col, row, cols, rows)
    requires Fits(|src|, srcStride, srcCol, srcRow, cols, rows)
    requires done < rows
    ensures Fits(|dst|, stride, col, row, cols, done) && Fits(|src|, srcStride, srcCol, srcRow, cols, done)
    ensures Fits(|dst|, stride, col, row, cols, done + 1) && Fits(|src|, srcStride, srcCol, srcRow, cols, done + 1)
    ensures var to := (row + done) * stride + col;
            var from := (srcRow + done) * srcStride + srcCol;
            && 0 <= to <= to + cols <= |dst| && 0 <= from <= from + cols <= |src|
            && Blit(dst, stride, col, row, cols, done + 1, src, srcStride, srcCol, srcRow)
            == Blit(dst, stride, col, row, cols, done, src, srcStride, srcCol, srcRow)[..to]
             + src[from..from + cols]
             + Blit(dst, stride, col, row, cols, done, src, srcStride, srcCol, srcRow)[to + cols..]
  {
    FitsFewer(|dst|, stride, col, row, cols, rows, done);
    FitsFewer(|src|, srcStride, srcCol, srcRow, cols, rows, done);
    FitsFewer(|dst|, stride, col, row, cols, rows, done + 1);
    FitsFewer(|src|, srcStride, srcCol, srcRow, cols, rows, done + 1);
    FitsRow(|dst|, stride, col, row, cols, rows, done);
    FitsRow(|src|, srcStride, srcCol, srcRow, cols, rows, done);
    var to := (row + done) * stride + col;
    var from := (srcRow + done) * srcStride + srcCol;
    var before := Blit(dst, stride, col, row, cols, done, src, srcStride, srcCol, srcRow);
    var after := Blit(dst, stride, col, row, cols, done + 1, src, srcStride, srcCol, srcRow);
    var built := before[..to] + src[from..from + cols] + before[to + cols..];
    forall i | 0 <= i < |dst| ensures after[i] == built[i] {
      ByteOfRow(stride, col, row, cols, done, i);
    }
  }

  /** `copy_from_slice` into `dst[to..to + |bytes|]`. */
  method CopySlice(dst: array<Byte>, to: nat, bytes: seq<Byte>)
    requires to + |bytes| <= dst.Length
    modifies dst
    ensures dst[..] == old(dst[..to]) + bytes + old(dst[to + |bytes|..])
  {
    for k := 0 to |bytes|
      invariant dst[..] == old(dst[..to]) + bytes[..k] + old(dst[to + k..])
    {
      dst[to + k] := bytes[k];
    }
  }

  lemma BlitNothing(dst: seq<Byte>, stride: nat, col: nat, row: nat, cols: nat, src: seq<Byte>, srcStride: nat, srcCol: nat, srcRow: nat)
    requires Fits(|dst|, stride, col, row, cols, 0) && Fits(|src|, srcStride, srcCol, srcRow, cols, 0)
    ensures Blit(dst, stride, col, row, cols, 0, src, srcStride, srcCol, srcRow) == dst
  {
  }

  /** The row loop shared by every rectangle copy of the sources. */
  method BlitRows(dst: array<Byte>, stride: nat, col: nat, row: nat, cols: nat, rows: nat,
                  src: seq<Byte>, srcStride: nat, srcCol: nat, srcRow: nat)
    requires Fits(dst.Length, stride, col, row, cols, rows)
    requires Fits(|src|, srcStride, srcCol, srcRow, cols, rows)
    modifies dst
    ensures dst[..] == Blit(old(dst[..]), stride, col, row, cols, rows, src, srcStride, srcCol, srcRow)
  {
    ghost var was := dst[..];
    FitsFewer(dst.Length, stride, col, row, cols, rows, 0);
    FitsFewer(|src|, srcStride, srcCol, srcRow, cols, rows, 0);
    BlitNothing(was, stride, col, row, cols, src, srcStride, srcCol, srcRow);
    for done := 0 to rows
      invariant Fits(|was|, stride, col, row, cols, done) && Fits(|src|, srcStride, srcCol, srcRow, cols, done)
      invariant dst[..] == Blit(was, stride, col, row, cols, done, src, srcStride, srcCol, srcRow)
    {
      BlitNextRow(was, stride, col, row, cols, rows, src, srcStride, srcCol, srcRow, done);
      var to := (row + done) * stride + col;
      var from := (srcRow + done) * srcStride + srcCol;
      CopySlice(dst, to, src[from..from + cols]);
    }
  }

  /** The `extend_from_slice` loop shared by extraction, the cache and the scratch buffer. */
  method PackRows(src: array<Byte>, stride: nat, col: nat, row: nat, cols: nat, rows: nat)
    returns (out: seq<Byte>)
    requires Fits(src.Length, stride, col, row, cols, rows)
    ensures out == Rows(src[..], stride, col, row, cols, rows)
  {
    out := [];
    FitsFewer(src.Length, stride, col, row, cols, rows, 0);
    for done := 0 to rows
      invariant Fits(src.Length, stride, col, row, cols, done)
      invariant out == Rows(src[..], stride, col, row, cols, done)
    {
      FitsRow(src.Length, stride, col, row, cols, rows, done);
      FitsFewer(src.Length, stride, col, row, cols, rows, done + 1);
      var from := (row + done) * stride + col;
      out := out + src[from..from + cols];
      assert src[from..from + cols] == src[..][from..from + cols];
    }
  }
}
