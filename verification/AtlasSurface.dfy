/**
  The pixel buffer under the allocator: the rows of a bitmap copied into a wider surface (`atlasCopyData`).
  All horizontal measures in this module are in bytes; `pitch` is the length of a scan line.
 */
module Surface {

  import opened Bytes

  /** `h` rows of `w` bytes, standing at byte column `x` of scan line `y`. */
  datatype Block = Block(x: nat, y: nat, w: nat, h: nat, data: seq<Byte>)

  ghost predicate InSurface(pitch: nat, rows: nat, b: Block) {
    b.x + b.w <= pitch && b.y + b.h <= rows && b.h * b.w <= |b.data|
  }

  predicate Apart(a: Block, b: Block) {
    a.y + a.h <= b.y || b.y + b.h <= a.y || a.x + a.w <= b.x || b.x + b.w <= a.x
  }

  /** The offset of row `i` of a block. */
  function RowAt(pitch: nat, b: Block, i: nat): nat {
    (b.y + i) * pitch + b.x
  }

  lemma LinesInOrder(pitch: nat, i: nat, j: nat)
    requires i <= j
    ensures i * pitch <= j * pitch
  {
    assert j * pitch == i * pitch + (j - i) * pitch;
  }

  lemma RowInLine(pitch: nat, b: Block, i: nat)
    requires b.x + b.w <= pitch
    ensures (b.y + i) * pitch <= RowAt(pitch, b, i)
    ensures RowAt(pitch, b, i) + b.w <= (b.y + i + 1) * pitch
  {
    assert (b.y + i + 1) * pitch == (b.y + i) * pitch + pitch;
  }

  lemma RowInBounds(pitch: nat, rows: nat, b: Block, i: nat)
    requires InSurface(pitch, rows, b) && i < b.h
    ensures RowAt(pitch, b, i) + b.w <= rows * pitch
    ensures i * b.w + b.w <= |b.data|
  {
    RowInLine(pitch, b, i);
    LinesInOrder(pitch, b.y + i + 1, rows);
    assert (i + 1) * b.w == i * b.w + b.w;
    LinesInOrder(b.w, i + 1, b.h);
  }

  function Row(b: Block, i: nat): (r: seq<Byte>)
    requires i * b.w + b.w <= |b.data|
    ensures |r| == b.w
  {
    b.data[i * b.w..i * b.w + b.w]
  }

  /** The surface after the first `n` rows of `b` were copied. */
  function CopyRows(m: seq<Byte>, pitch: nat, rows: nat, b: Block, n: nat): (r: seq<Byte>)
    requires InSurface(pitch, rows, b) && rows * pitch <= |m| && n <= b.h
    ensures |r| == |m|
  {
    if n == 0 then m
    else
      RowInBounds(pitch, rows, b, n - 1);
      Splice(CopyRows(m, pitch, rows, b, n - 1), RowAt(pitch, b, n - 1), Row(b, n - 1))
  }

  ghost predicate ShowsRow(m: seq<Byte>, pitch: nat, rows: nat, b: Block, i: nat)
    requires InSurface(pitch, rows, b) && rows * pitch <= |m| && i < b.h
  {
    RowInBounds(pitch, rows, b, i);
    m[RowAt(pitch, b, i)..RowAt(pitch, b, i) + b.w] == Row(b, i)
  }

  /** Reading the surface back gives the block. */
  ghost predicate Shows(m: seq<Byte>, pitch: nat, rows: nat, b: Block)
    requires InSurface(pitch, rows, b) && rows * pitch <= |m|
  {
    forall i :: 0 <= i < b.h ==> ShowsRow(m, pitch, rows, b, i)
  }

  /** Column `c` of row `i` of a block that is shown. */
  lemma ShownBytes(m: seq<Byte>, pitch: nat, rows: nat, b: Block, i: nat, c: nat)
    requires InSurface(pitch, rows, b) && rows * pitch <= |m| && Shows(m, pitch, rows, b) && i < b.h && c < b.w
    ensures var at, from := (b.y + i) * pitch + b.x + c, i * b.w + c;
      at < |m| && from < |b.data| && m[at] == b.data[from]
  {
    RowInBounds(pitch, rows, b, i);
    assert ShowsRow(m, pitch, rows, b, i);
    var at := RowAt(pitch, b, i);
    assert m[at..at + b.w][c] == Row(b, i)[c];
  }

  lemma RowsApart(pitch: nat, a: Block, i: nat, b: Block, j: nat)
    requires a.x + a.w <= pitch && b.x + b.w <= pitch && i < a.h && j < b.h
    requires Apart(a, b) || (a == b && i != j)
    ensures RowAt(pitch, a, i) + a.w <= RowAt(pitch, b, j) || RowAt(pitch, b, j) + b.w <= RowAt(pitch, a, i)
  {
    RowInLine(pitch, a, i);
    RowInLine(pitch, b, j);
    if a.y + i < b.y + j {
      LinesInOrder(pitch, a.y + i + 1, b.y + j);
    } else if b.y + j < a.y + i {
      LinesInOrder(pitch, b.y + j + 1, a.y + i);
    }
  }

  /** Copying rows of `b` leaves rows elsewhere, and its own later rows, as they were. */
  lemma {:induction false} CopyElsewhere(m: seq<Byte>, pitch: nat, rows: nat, b: Block, n: nat, a: Block, i: nat)
    requires InSurface(pitch, rows, a) && InSurface(pitch, rows, b)
    requires rows * pitch <= |m| && n <= b.h && i < a.h
    requires Apart(a, b) || (a == b && n <= i)
    ensures RowAt(pitch, a, i) + a.w <= |m|
    ensures CopyRows(m, pitch, rows, b, n)[RowAt(pitch, a, i)..RowAt(pitch, a, i) + a.w]
         == m[RowAt(pitch, a, i)..RowAt(pitch, a, i) + a.w]
  {
    RowInBounds(pitch, rows, a, i);
    if n > 0 {
      CopyElsewhere(m, pitch, rows, b, n - 1, a, i);
      OneRowElsewhere(CopyRows(m, pitch, rows, b, n - 1), pitch, rows, b, n - 1, a, i);
    }
  }

  lemma OneRowElsewhere(m: seq<Byte>, pitch: nat, rows: nat, b: Block, j: nat, a: Block, i: nat)
    requires InSurface(pitch, rows, a) && InSurface(pitch, rows, b)
    requires rows * pitch <= |m| && j < b.h && i < a.h && (Apart(a, b) || (a == b && i != j))
    ensures RowAt(pitch, b, j) + b.w <= |m| && RowAt(pitch, a, i) + a.w <= |m| && j * b.w + b.w <= |b.data|
    ensures Splice(m, RowAt(pitch, b, j), Row(b, j))[RowAt(pitch, a, i)..RowAt(pitch, a, i) + a.w]
         == m[RowAt(pitch, a, i)..RowAt(pitch, a, i) + a.w]
  {
    RowInBounds(pitch, rows, a, i);
    RowInBounds(pitch, rows, b, j);
    RowsApart(pitch, a, i, b, j);
    SpliceElsewhere(m, RowAt(pitch, b, j), Row(b, j), RowAt(pitch, a, i), a.w);
  }

  /** Copying a block makes the surface show it. */
  lemma {:induction false} CopyShows(m: seq<Byte>, pitch: nat, rows: nat, b: Block, n: nat, i: nat)
    requires InSurface(pitch, rows, b) && rows * pitch <= |m| && i < n <= b.h
    ensures ShowsRow(CopyRows(m, pitch, rows, b, n), pitch, rows, b, i)
  {
    RowInBounds(pitch, rows, b, n - 1);
    RowInBounds(pitch, rows, b, i);
    var before := CopyRows(m, pitch, rows, b, n - 1);
    if i < n - 1 {
      CopyShows(m, pitch, rows, b, n - 1, i);
      RowsApart(pitch, b, i, b, n - 1);
      SpliceElsewhere(before, RowAt(pitch, b, n - 1), Row(b, n - 1), RowAt(pitch, b, i), b.w);
    } else {
      SpliceAt(before, RowAt(pitch, b, i), Row(b, i));
    }
  }

  /** One copy: the block can be read back, */
  lemma CopyIsShown(m: seq<Byte>, pitch: nat, rows: nat, b: Block)
    requires InSurface(pitch, rows, b) && rows * pitch <= |m|
    ensures Shows(CopyRows(m, pitch, rows, b, b.h), pitch, rows, b)
  {
    forall i | 0 <= i < b.h
      ensures ShowsRow(CopyRows(m, pitch, rows, b, b.h), pitch, rows, b, i)
    {
      CopyShows(m, pitch, rows, b, b.h, i);
    }
  }

  /** and so can every block that stood apart from it. */
  lemma CopyKeeps(m: seq<Byte>, pitch: nat, rows: nat, b: Block, a: Block)
    requires InSurface(pitch, rows, a) && InSurface(pitch, rows, b) && rows * pitch <= |m|
    requires Apart(a, b) && Shows(m, pitch, rows, a)
    ensures Shows(CopyRows(m, pitch, rows, b, b.h), pitch, rows, a)
  {
    forall i | 0 <= i < a.h
      ensures ShowsRow(CopyRows(m, pitch, rows, b, b.h), pitch, rows, a, i)
    {
      assert ShowsRow(m, pitch, rows, a, i);
      CopyKeepsRow(m, pitch, rows, b, a, i);
    }
  }

  lemma {:induction false} CopyKeepsRow(m: seq<Byte>, pitch: nat, rows: nat, b: Block, a: Block, i: nat)
    requires InSurface(pitch, rows, a) && InSurface(pitch, rows, b) && rows * pitch <= |m|
    requires Apart(a, b) && i < a.h && ShowsRow(m, pitch, rows, a, i)
    ensures ShowsRow(CopyRows(m, pitch, rows, b, b.h), pitch, rows, a, i)
  {
    RowInBounds(pitch, rows, a, i);
    CopyElsewhere(m, pitch, rows, b, b.h, a, i);
  }

  /** `ps * (y * stride + x)`, with `pitch == ps * stride`, is where row 0 of the block starts. */
  lemma FirstRow(ps: nat, stride: nat, x: nat, y: nat)
    ensures ps * (y * stride + x) == y * (ps * stride) + ps * x
  {
    assert ps * (y * stride + x) == ps * (y * stride) + ps * x;
    assert ps * (y * stride) == y * (ps * stride);
  }

  lemma NextRow(pitch: nat, b: Block, i: nat)
    ensures RowAt(pitch, b, i + 1) == RowAt(pitch, b, i) + pitch && (i + 1) * b.w == i * b.w + b.w
  {
    assert (b.y + i + 1) * pitch == (b.y + i) * pitch + pitch;
  }

  /** The copy loop: one `memcpy` per row, both cursors advanced by their own line length. */
  method CopyBlock(mem: array<Byte>, ps: nat, stride: nat, ghost rows: nat, x: nat, y: nat,
                   width: nat, height: nat, src: seq<Byte>)
    requires InSurface(ps * stride, rows, Block(ps * x, y, ps * width, height, src))
    requires rows * (ps * stride) <= mem.Length
    modifies mem
    ensures mem[..] == CopyRows(old(mem[..]), ps * stride, rows, Block(ps * x, y, ps * width, height, src), height)
  {
    ghost var b := Block(ps * x, y, ps * width, height, src);
    ghost var m := mem[..];
    var pitch := ps * stride;
    var data := ps * (y * stride + x);
    var from := 0;
    var rowSize := width * ps;
    FirstRow(ps, stride, x, y);
    assert rowSize == b.w;
    for i := 0 to height
      invariant data == RowAt(pitch, b, i)
      invariant from == i * b.w
      invariant mem[..] == CopyRows(m, pitch, rows, b, i)
    {
      RowInBounds(pitch, rows, b, i);
      Copy(mem, data, src, from, rowSize);
      NextRow(pitch, b, i);
      data := data + pitch;
      from := from + rowSize;
    }
  }
}
