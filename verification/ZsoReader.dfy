/** Decompression of a ZSO file, `decompress_zso` of pc/ziso.py, and the round trip. */
module ZsoReader {
  import opened Prelude
  import opened Bytes
  import opened Zso

  /** `seek_and_read`: a short file gives fewer bytes, -1 everything up to the end, and a lower size is an error. */
  function ReadAt(file: seq<Byte>, pos: int, size: int): Option<seq<Byte>>
    requires pos >= 0
  {
    if size < -1 then None
    else if pos >= |file| then Some([])
    else if size == -1 || pos + size >= |file| then Some(file[pos..])
    else Some(file[pos..pos + size])
  }

  datatype Head = Head(magic: nat, headerSize: nat, total: nat, blockSize: nat, ver: Byte, align: Byte)

  function HeadOf(file: seq<Byte>): Head
    requires |file| >= HEADER_SIZE
  {
    Head(Word(file[..4]), Word(file[4..8]), Word(file[8..16]), Word(file[16..20]), file[20], file[21])
  }

  /** Version and alignment are signed bytes; a negative shift is an error. */
  predicate Readable(h: Head) {
    && h.magic == ZISO_MAGIC && h.blockSize != 0 && h.total != 0 && h.headerSize == 24 && (h.ver <= 1 || h.ver >= 128)
    && h.align < 128
  }

  function IndexAt(file: seq<Byte>, i: nat): nat
    requires HEADER_SIZE + 4 * i + 4 <= |file|
  {
    Word(file[HEADER_SIZE + 4 * i..][..4])
  }

  /** `lz4_decompress`: bytes are cut off the end until the codec accepts. `None`: it accepts no prefix. */
  function Trim(c: Codec, data: seq<Byte>, size: nat): Option<seq<Byte>> {
    var r := c.decompress(data, size);
    if r.Some? || data == [] then r else Trim(c, data[..|data| - 1], size)
  }

  /** Where block `b` of `n` is, and how much is read. */
  datatype Span = Span(plain: bool, pos: nat, size: int)

  function SpanOf(h: Head, n: nat, b: nat, entry: nat, next: nat): Span {
    var i := Offset(entry);
    ShiftUp(i, h.align);
    var pos := Up(i, h.align);
    Span(TopBit(entry), pos,
         if TopBit(entry) then h.blockSize
         else if b == n - 1 then h.total - pos
         else Up(Offset(next) - i, h.align))
  }

  /** An index entry without its top bit. */
  function Offset(entry: nat): nat {
    entry % PLAIN
  }

  lemma EntryBits(s: nat, plain: bool)
    requires s < PLAIN
    ensures var e := s + if plain then PLAIN else 0; TopBit(e) == plain && Offset(e) == s
  {
  }

  function BlockAt(c: Codec, file: seq<Byte>, h: Head, n: nat, b: nat): Option<seq<Byte>>
    requires b < n && HEADER_SIZE + 4 * (n + 1) <= |file|
  {
    var span := SpanOf(h, n, b, IndexAt(file, b), IndexAt(file, b + 1));
    var data := ReadAt(file, span.pos, span.size);
    if data.None? || span.plain then data else Trim(c, data.value, h.blockSize)
  }

  /** The first `k` blocks, if each is restored to a whole block. */
  function Restored(c: Codec, file: seq<Byte>, h: Head, n: nat, k: nat): Option<seq<Byte>>
    requires k <= n && HEADER_SIZE + 4 * (n + 1) <= |file|
  {
    if k == 0 then Some([])
    else
      var out := Restored(c, file, h, n, k - 1);
      if out.None? then None
      else
        var x := BlockAt(c, file, h, n, k - 1);
        if x.Some? && |x.value| == h.blockSize then Some(out.value + x.value) else None
  }

  /** The image in a file. `None` stands for every way to give up. */
  function Image(c: Codec, file: seq<Byte>): Option<seq<Byte>> {
    if |file| < HEADER_SIZE || !Readable(HeadOf(file)) then None
    else
      var h := HeadOf(file);
      var n := h.total / h.blockSize;
      if |file| < HEADER_SIZE + 4 * (n + 1) then None else Restored(c, file, h, n, n)
  }

  /** Trimming finds the longest prefix that the codec accepts. */
  lemma {:induction false} TrimIsLongest(c: Codec, data: seq<Byte>, size: nat)
    ensures Trim(c, data, size).None? <==> forall k :: 0 <= k <= |data| ==> c.decompress(data[..k], size).None?
    ensures Trim(c, data, size).Some? ==> exists k ::
      && 0 <= k <= |data| && c.decompress(data[..k], size) == Trim(c, data, size)
      && forall j :: k < j <= |data| ==> c.decompress(data[..j], size).None?
  {
    var n := |data|;
    assert data[..n] == data;
    if c.decompress(data, size).None? && n > 0 {
      var init := data[..n - 1];
      TrimIsLongest(c, init, size);
      assert forall k :: 0 <= k < n ==> init[..k] == data[..k];
      if Trim(c, init, size).Some? {
        var k :| 0 <= k <= n - 1 && c.decompress(init[..k], size) == Trim(c, init, size)
          && forall j :: k < j <= n - 1 ==> c.decompress(init[..j], size).None?;
        assert forall j :: k < j <= n ==> c.decompress(data[..j], size).None?;
        assert c.decompress(data[..k], size) == Trim(c, data, size);
      }
    }
  }

  /** A file with another magic number, header size or version, or without blocks or size, is refused. */
  lemma BadHeaderIsRefused(c: Codec, file: seq<Byte>)
    requires |file| < 24 || Word(file[..4]) != 0x4F53495A || Word(file[4..8]) != 24 || Word(file[8..16]) == 0
      || Word(file[16..20]) == 0 || 1 < file[20] < 128
    ensures Image(c, file) == None
  {
  }

  // ---- reading ----

  method TrimLoop(c: Codec, data: seq<Byte>, size: nat) returns (r: Option<seq<Byte>>)
    ensures r == Trim(c, data, size)
  {
    var rest := data;
    r := c.decompress(rest, size);
    while r.None? && rest != []
      invariant r == c.decompress(rest, size) && Trim(c, rest, size) == Trim(c, data, size)
      decreases |rest|
    {
      rest := rest[..|rest| - 1];
      r := c.decompress(rest, size);
    }
  }

  method ReadIndex(file: seq<Byte>, n: nat) returns (index: seq<nat>)
    requires HEADER_SIZE + 4 * (n + 1) <= |file|
    ensures |index| == n + 1 && forall i :: 0 <= i <= n ==> index[i] == IndexAt(file, i)
  {
    index := [];
    var i := 0;
    while i < n + 1
      invariant 0 <= i <= n + 1 && |index| == i && forall k :: 0 <= k < i ==> index[k] == IndexAt(file, k)
    {
      index := index + [IndexAt(file, i)];
      i := i + 1;
    }
  }

  /** `decompress_zso` */
  method Decompress(c: Codec, file: seq<Byte>) returns (r: Option<seq<Byte>>)
    ensures r == Image(c, file)
  {
    if |file| < HEADER_SIZE || !Readable(HeadOf(file)) {
      return None;
    }
    var h := HeadOf(file);
    var n := h.total / h.blockSize;
    if |file| < HEADER_SIZE + 4 * (n + 1) {
      return None;
    }
    r := ReadBlocks(c, file, h, n);
  }

  method ReadBlock(c: Codec, file: seq<Byte>, h: Head, n: nat, b: nat, entry: nat, next: nat)
      returns (x: Option<seq<Byte>>)
    requires b < n && HEADER_SIZE + 4 * (n + 1) <= |file| && entry == IndexAt(file, b) && next == IndexAt(file, b + 1)
    ensures x == BlockAt(c, file, h, n, b)
  {
    var span := SpanOf(h, n, b, entry, next);
    var data := ReadAt(file, span.pos, span.size);
    if data.None? || span.plain {
      return data;
    }
    x := TrimLoop(c, data.value, h.blockSize);
  }

  method ReadBlocks(c: Codec, file: seq<Byte>, h: Head, n: nat) returns (r: Option<seq<Byte>>)
    requires HEADER_SIZE + 4 * (n + 1) <= |file|
    ensures r == Restored(c, file, h, n, n)
  {
    var index := ReadIndex(file, n);
    var out, block := [], 0;
    while block < n
      invariant 0 <= block <= n && Restored(c, file, h, n, block) == Some(out)
    {
      var dec := ReadBlock(c, file, h, n, block, index[block], index[block + 1]);
      if dec.None? || |dec.value| != h.blockSize {
        GivenUp(c, file, h, n, block + 1, n);
        return None;
      }
      out, block := out + dec.value, block + 1;
    }
    r := Some(out);
  }

  lemma {:induction false} GivenUp(c: Codec, file: seq<Byte>, h: Head, n: nat, k: nat, m: nat)
    requires k <= m <= n && HEADER_SIZE + 4 * (n + 1) <= |file| && Restored(c, file, h, n, k).None?
    ensures Restored(c, file, h, n, m).None?
    decreases m
  {
    if k < m {
      GivenUp(c, file, h, n, k, m - 1);
    }
  }

  // ---- what was written can be found ----

  /** Piece `i` stands in the body, followed by the padding of the next, or by nothing. */
  ghost predicate PieceAt(f: Format, align: nat, start: nat, xs: seq<seq<Byte>>, l: seq<Piece>, body: seq<Byte>, i: nat)
    requires i < |l| == |xs|
  {
    var p := l[i];
    var at, end := p.pos - start, p.pos - start + |p.data|;
    && p.data == (if p.plain then xs[i] else f.codec.compress(xs[i]))
    && Up(Shift(p.pos, align), align) == p.pos
    && 0 <= at && end <= |body| && body[at..end] == p.data
    && (i == |l| - 1 ==> end == |body|)
    && (i < |l| - 1 ==>
          var gap := l[i + 1].gap;
          gap < Pow2(align) && end + gap <= |body| && l[i + 1].pos == start + end + gap
            && body[end..end + gap] == Pad(f.pad, gap))
  }

  ghost predicate Laid(f: Format, align: nat, start: nat, xs: seq<seq<Byte>>, l: seq<Piece>, body: seq<Byte>) {
    && |l| == |xs| && End(start, l) == start + |body|
    && forall i :: 0 <= i < |l| ==> PieceAt(f, align, start, xs, l, body, i)
  }

  lemma {:induction false} LaidStep(f: Format, align: nat, start: nat, xs: seq<seq<Byte>>, l: seq<Piece>,
      body: seq<Byte>, x: seq<Byte>)
    requires Laid(f, align, start, xs, l, body)
    ensures var p := Place(f, align, End(start, l), x);
      Laid(f, align, start, xs + [x], l + [p], body + (Pad(f.pad, p.gap) + p.data))
  {
    var p := Place(f, align, End(start, l), x);
    var xs', l', body' := xs + [x], l + [p], body + (Pad(f.pad, p.gap) + p.data);
    GapAligns(End(start, l), align);
    forall i | 0 <= i < |l'| ensures PieceAt(f, align, start, xs', l', body', i) {
      if i < |l| {
        assert PieceAt(f, align, start, xs, l, body, i);
        PieceStays(f, align, start, xs, l, body, i, x, p);
      } else {
        NewPieceStands(f, align, start, xs, l, body, x, p);
      }
    }
  }

  lemma {:induction false} NewPieceStands(f: Format, align: nat, start: nat, xs: seq<seq<Byte>>, l: seq<Piece>,
      body: seq<Byte>, x: seq<Byte>, p: Piece)
    requires |l| == |xs| && p.pos == start + |body| + p.gap && Up(Shift(p.pos, align), align) == p.pos
    requires p.data == if p.plain then x else f.codec.compress(x)
    ensures PieceAt(f, align, start, xs + [x], l + [p], body + (Pad(f.pad, p.gap) + p.data), |l|)
  {
    var body' := body + (Pad(f.pad, p.gap) + p.data);
    assert body'[|body| + p.gap..|body'|] == p.data;
  }

  lemma {:induction false} PieceStays(f: Format, align: nat, start: nat, xs: seq<seq<Byte>>, l: seq<Piece>,
      body: seq<Byte>, i: nat,
                                      x: seq<Byte>, p: Piece)
    requires i < |l| == |xs| && PieceAt(f, align, start, xs, l, body, i)
    requires p.pos == start + |body| + p.gap && p.gap < Pow2(align)
    ensures PieceAt(f, align, start, xs + [x], l + [p], body + (Pad(f.pad, p.gap) + p.data), i)
  {
    var l', body' := l + [p], body + (Pad(f.pad, p.gap) + p.data);
    var at, end := l[i].pos - start, l[i].pos - start + |l[i].data|;
    assert l'[i] == l[i] && (xs + [x])[i] == xs[i];
    assert body'[at..end] == body[at..end];
    if i < |l| - 1 {
      assert l'[i + 1] == l[i + 1];
      assert body'[end..end + l[i + 1].gap] == body[end..end + l[i + 1].gap];
    } else {
      assert l'[i + 1] == p;
      assert body'[end..end + p.gap] == Pad(f.pad, p.gap);
    }
  }

  lemma {:induction false} LayoutIsLaid(f: Format, align: nat, start: nat, xs: seq<seq<Byte>>)
    ensures var l := Layout(f, align, start, xs); Laid(f, align, start, xs, l, Body(f.pad, l))
  {
    if xs != [] {
      var ys, x := xs[..|xs| - 1], xs[|xs| - 1];
      assert ys + [x] == xs;
      LayoutIsLaid(f, align, start, ys);
      var m := Layout(f, align, start, ys);
      LaidStep(f, align, start, ys, m, Body(f.pad, m), x);
      BodyStep(f.pad, m, Place(f, align, End(start, m), x));
    }
  }

  // ---- the parts of a file ----

  /** A file and what it was made of. */
  datatype Archive = Archive(
    file: seq<Byte>, total: nat, align: nat, start: nat, xs: seq<seq<Byte>>, pieces: seq<Piece>, body: seq<Byte>,
      index: seq<nat>)

  function ArchiveOf(f: Format, image: seq<Byte>): Archive
    requires f.blockSize > 0 && File(f, image).Some?
  {
    var j := JobOf(f, image);
    var l := Pieces(f, j);
    Archive(File(f, image).value, |image|, j.align, j.start, j.xs, l, Body(f.pad, l), Index(l, j.start, j.align))
  }

  /** The offsets stay below the top bit of an index entry. */
  ghost predicate OffsetsFit(l: seq<Piece>, align: nat) {
    forall i :: 0 <= i < |l| ==> Shift(l[i].pos, align) < PLAIN
  }

  ghost predicate Entered(a: Archive, i: nat)
    requires i < |a.pieces| < |a.index|
  {
    var s := Shift(a.pieces[i].pos, a.align);
    s < PLAIN && a.index[i] == s + if a.pieces[i].plain then PLAIN else 0
  }

  /** What the reader finds in the file. */
  ghost predicate Parsed(f: Format, a: Archive) {
    && |a.file| == a.start + |a.body| && a.start == HEADER_SIZE + 4 * |a.index| && a.file[a.start..] == a.body
    && a.align < 128 && HeadOf(a.file) == Head(ZISO_MAGIC, 24, a.total, f.blockSize, 1, a.align)
    && (forall i :: 0 <= i < |a.index| ==> IndexAt(a.file, i) == a.index[i])
  }

  ghost predicate Sound(f: Format, a: Archive) {
    && f.blockSize > 0 && Parsed(f, a) && |a.index| == |a.pieces| + 1
    && (forall i :: 0 <= i < |a.pieces| ==> Entered(a, i))
    && Laid(f, a.align, a.start, a.xs, a.pieces, a.body)
    && (forall i :: 0 <= i < |a.xs| ==> |a.xs[i]| == f.blockSize)
  }

  lemma {:induction false} HeadIsRead(total: nat, blockSize: nat, align: nat, file: seq<Byte>)
    requires align < 128 && total < 0x1_0000_0000_0000_0000 && blockSize < 0x1_0000_0000
    requires Header(total, blockSize, align) <= file
    ensures HeadOf(file) == Head(ZISO_MAGIC, 24, total, blockSize, 1, align)
  {
    var a, b, c, d := Little(4, ZISO_MAGIC), Little(4, HEADER_SIZE), Little(8, total), Little(4, blockSize);
    Pow256Values();
    WordOfLittle(4, ZISO_MAGIC);
    WordOfLittle(4, HEADER_SIZE);
    WordOfLittle(8, total);
    WordOfLittle(4, blockSize);
    HeadSlices(a, b, c, d, [1, align, 0, 0], file);
  }

  lemma HeadSlices(a: seq<Byte>, b: seq<Byte>, c: seq<Byte>, d: seq<Byte>, e: seq<Byte>, file: seq<Byte>)
    requires |a| == |b| == |d| == |e| == 4 && |c| == 8 && a + b + c + d + e <= file
    ensures |file| >= 24 && file[..4] == a && file[4..8] == b && file[8..16] == c && file[16..20] == d
    ensures file[20] == e[0] && file[21] == e[1]
  {
    var h := a + b + c + d + e;
    assert forall i :: 0 <= i < 24 ==> file[i] == h[i];
  }

  lemma {:induction false} IndexIsRead(head: seq<Byte>, index: seq<nat>, body: seq<Byte>, i: nat)
    requires |head| == HEADER_SIZE && i < |index| && index[i] < 0x1_0000_0000
    ensures IndexAt(head + PackAll(index) + body, i) == index[i]
  {
    var packed := PackAll(index);
    var file := head + packed + body;
    PackAllAt(index, i);
    assert file[HEADER_SIZE + 4 * i..][..4] == packed[4 * i..4 * i + 4];
    Pow256Values();
    WordOfLittle(4, index[i]);
  }

  lemma {:induction false} FileIsParsed(f: Format, a: Archive)
    requires a.align < 128 && a.total < 0x1_0000_0000_0000_0000 && f.blockSize < 0x1_0000_0000
    requires a.start == HEADER_SIZE + 4 * |a.index| && forall i :: 0 <= i < |a.index| ==> a.index[i] < 0x1_0000_0000
    requires a.file == Header(a.total, f.blockSize, a.align) + PackAll(a.index) + a.body
    ensures Parsed(f, a)
  {
    var h := Header(a.total, f.blockSize, a.align);
    HeadIsRead(a.total, f.blockSize, a.align, a.file);
    forall i | 0 <= i < |a.index| ensures IndexAt(a.file, i) == a.index[i] {
      IndexIsRead(h, a.index, a.body, i);
    }
  }

  lemma {:induction false} IndexIsEntered(a: Archive, i: nat)
    requires a.index == Index(a.pieces, a.start, a.align) && OffsetsFit(a.pieces, a.align) && i < |a.pieces|
    ensures Entered(a, i)
  {
    EntryBits(Shift(a.pieces[i].pos, a.align), false);
    assert a.index[i] == IndexEntry(a.pieces[i], a.align);
  }

  lemma {:induction false} ArchiveIs(f: Format, image: seq<Byte>)
    requires f.blockSize > 0 && File(f, image).Some?
    ensures var a := ArchiveOf(f, image);
      && a.align < 128 && a.total < 0x1_0000_0000_0000_0000 && f.blockSize < 0x1_0000_0000
      && |a.index| == |a.pieces| + 1 && a.start == HEADER_SIZE + 4 * |a.index|
      && (forall i :: 0 <= i < |a.index| ==> a.index[i] < 0x1_0000_0000)
      && a.file == Header(a.total, f.blockSize, a.align) + PackAll(a.index) + a.body
      && (forall i :: 0 <= i < |a.xs| ==> |a.xs[i]| == f.blockSize)
  {
  }

  /** A written file is read back as what it was made of. */
  lemma {:induction false} WrittenIsSound(f: Format, image: seq<Byte>)
    requires f.blockSize > 0 && File(f, image).Some? && OffsetsFit(ArchiveOf(f, image).pieces, AlignOf(|image|))
    ensures Sound(f, ArchiveOf(f, image))
  {
    var a := ArchiveOf(f, image);
    ArchiveIs(f, image);
    LayoutIsLaid(f, a.align, a.start, a.xs);
    FileIsParsed(f, a);
    forall i | 0 <= i < |a.pieces| ensures Entered(a, i) {
      IndexIsEntered(a, i);
    }
  }

  /** The header of a written file, field by field. */
  lemma {:induction false} HeaderIs(f: Format, image: seq<Byte>)
    requires f.blockSize > 0 && File(f, image).Some?
    ensures var file := File(f, image).value;
      && |file| >= 24 + 4 * (|Blocks(image, f.blockSize)| + 1)
      && Word(file[..4]) == 0x4F53495A && Word(file[4..8]) == 24 && Word(file[8..16]) == |image|
      && Word(file[16..20]) == f.blockSize && file[20] == 1 && file[21] == |image| / 0x8000_0000
  {
    ArchiveIs(f, image);
    FileIsParsed(f, ArchiveOf(f, image));
  }

  /** The last index entry is the end of the file, in units. */
  lemma {:induction false} LastEntryIsEnd(f: Format, image: seq<Byte>)
    requires f.blockSize > 0 && File(f, image).Some?
    ensures var a := ArchiveOf(f, image);
      var n := |a.pieces|;
      && HEADER_SIZE + 4 * n + 4 <= |a.file| && IndexAt(a.file, n) == |a.file| / Pow2(a.align)
      && Up(IndexAt(a.file, n), a.align) + Low(|a.file|, a.align) == |a.file|
  {
    var a := ArchiveOf(f, image);
    ArchiveIs(f, image);
    FileIsParsed(f, a);
    LayoutIsLaid(f, a.align, a.start, a.xs);
    EndEntry(f, a);
  }

  lemma {:induction false} EndEntry(f: Format, a: Archive)
    requires Parsed(f, a) && a.index == Index(a.pieces, a.start, a.align) && End(a.start, a.pieces) == |a.file|
    ensures IndexAt(a.file, |a.pieces|) == |a.file| / Pow2(a.align)
    ensures Up(IndexAt(a.file, |a.pieces|), a.align) + Low(|a.file|, a.align) == |a.file|
  {
    var n := |a.pieces|;
    assert a.index[n] == Shift(|a.file|, a.align) && IndexAt(a.file, n) == a.index[n];
    ShiftsAre(|a.file|, a.align);
    LowIsRest(|a.file|, a.align);
  }

  /**
    Neighbouring index entries tell a block's length: their distance, in bytes, is the stored length and the gap
    behind it, and for the last block the stored length less what the end of the file is past a whole unit.
   */
  ghost predicate LengthIsTold(a: Archive, b: nat)
    requires b < |a.pieces| && HEADER_SIZE + 4 * (|a.pieces| + 1) <= |a.file|
  {
    var here := Offset(IndexAt(a.file, b));
    if b == |a.pieces| - 1 then
      Up(IndexAt(a.file, b + 1) - here, a.align) + Low(|a.file|, a.align) == |a.pieces[b].data|
    else
      Up(Offset(IndexAt(a.file, b + 1)) - here, a.align) == |a.pieces[b].data| + a.pieces[b + 1].gap
  }

  lemma {:induction false} NeighboursTellLength(f: Format, image: seq<Byte>, b: nat)
    requires f.blockSize > 0 && File(f, image).Some? && OffsetsFit(ArchiveOf(f, image).pieces, AlignOf(|image|))
    requires b < |ArchiveOf(f, image).pieces|
    ensures var a := ArchiveOf(f, image); HEADER_SIZE + 4 * (|a.pieces| + 1) <= |a.file| && LengthIsTold(a, b)
  {
    WrittenIsSound(f, image);
    LastEntryIsEnd(f, image);
    SoundTells(f, ArchiveOf(f, image), b);
  }

  lemma {:induction false} SoundTells(f: Format, a: Archive, b: nat)
    requires Sound(f, a) && b < |a.pieces|
    requires Up(IndexAt(a.file, |a.pieces|), a.align) + Low(|a.file|, a.align) == |a.file|
    ensures LengthIsTold(a, b)
  {
    if b == |a.pieces| - 1 {
      LastNeighbour(f, a);
    } else {
      SoundNeighbours(f, a, b);
    }
  }

  lemma {:induction false} SoundNeighbours(f: Format, a: Archive, b: nat)
    requires Sound(f, a) && b < |a.pieces|
    ensures Offset(IndexAt(a.file, b)) == Shift(a.pieces[b].pos, a.align)
    ensures TopBit(IndexAt(a.file, b)) == a.pieces[b].plain
    ensures Up(Offset(IndexAt(a.file, b)), a.align) == a.pieces[b].pos
    ensures b < |a.pieces| - 1 ==>
      Up(Offset(IndexAt(a.file, b + 1)) - Offset(IndexAt(a.file, b)), a.align)
      == |a.pieces[b].data| + a.pieces[b + 1].gap
  {
    var p := a.pieces[b];
    assert PieceAt(f, a.align, a.start, a.xs, a.pieces, a.body, b);
    assert Entered(a, b);
    EntryBits(Shift(p.pos, a.align), p.plain);
    if b < |a.pieces| - 1 {
      var q := a.pieces[b + 1];
      assert PieceAt(f, a.align, a.start, a.xs, a.pieces, a.body, b + 1);
      assert Entered(a, b + 1);
      EntryBits(Shift(q.pos, a.align), q.plain);
      UpMinus(Shift(p.pos, a.align), Shift(q.pos, a.align), a.align);
    }
  }

  lemma {:induction false} LastNeighbour(f: Format, a: Archive)
    requires Sound(f, a) && a.pieces != []
    requires Up(IndexAt(a.file, |a.pieces|), a.align) + Low(|a.file|, a.align) == |a.file|
    ensures var n := |a.pieces|;
      Up(IndexAt(a.file, n) - Offset(IndexAt(a.file, n - 1)), a.align) + Low(|a.file|, a.align)
      == |a.pieces[n - 1].data|
  {
    var n := |a.pieces|;
    assert PieceAt(f, a.align, a.start, a.xs, a.pieces, a.body, n - 1);
    SoundNeighbours(f, a, n - 1);
    UpMinus(Offset(IndexAt(a.file, n - 1)), IndexAt(a.file, n), a.align);
  }

  /** In the index, exactly the blocks that compression does not get below the threshold are marked. */
  lemma {:induction false} MarkedExactly(f: Format, image: seq<Byte>, b: nat)
    requires f.blockSize > 0 && File(f, image).Some? && OffsetsFit(ArchiveOf(f, image).pieces, AlignOf(|image|))
    requires b < |Blocks(image, f.blockSize)|
    ensures var x, file := Blocks(image, f.blockSize)[b], File(f, image).value;
      && HEADER_SIZE + 4 * b + 4 <= |file|
      && (IndexAt(file, b) >= 0x8000_0000 <==> 100 * |f.codec.compress(x)| >= f.threshold * |x|)
  {
    var a := ArchiveOf(f, image);
    WrittenIsSound(f, image);
    assert Entered(a, b);
    PlainExactly(f, a.align, a.start, a.xs, b);
  }

  /** Index entries strictly increase up to the last block, plain marks aside. */
  lemma {:induction false} IndexIncreases(f: Format, a: Archive, i: nat)
    requires Sound(f, a) && i + 1 < |a.pieces| && |a.pieces[i].data| > 0
    ensures Offset(a.index[i]) < Offset(a.index[i + 1])
  {
    assert PieceAt(f, a.align, a.start, a.xs, a.pieces, a.body, i);
    assert PieceAt(f, a.align, a.start, a.xs, a.pieces, a.body, i + 1);
    assert Entered(a, i) && Entered(a, i + 1);
    var p, q := Shift(a.pieces[i].pos, a.align), Shift(a.pieces[i + 1].pos, a.align);
    EntryBits(p, a.pieces[i].plain);
    EntryBits(q, a.pieces[i + 1].plain);
    UpOrder(p, q, a.align);
  }

  lemma UpOrder(p: nat, q: nat, align: nat)
    requires Up(p, align) < Up(q, align)
    ensures p < q
  {
    if q <= p {
      UpGrows(q, p, align);
    }
  }

  lemma UpGrows(p: nat, q: nat, align: nat)
    requires p <= q
    ensures Up(p, align) <= Up(q, align)
  {
    UpAdd(p, q - p, align);
    ShiftUp(q - p, align);
  }

  // ---- the round trip ----

  /**
    The codec restores what it compressed; refuses it with padding behind it, which is why the reader trims; and
    does not restore it from less.
   */
  ghost predicate Lawful(f: Format) {
    forall x: seq<Byte> :: |x| == f.blockSize ==> LawfulOn(f, x, f.codec.compress(x))
  }

  ghost predicate LawfulOn(f: Format, x: seq<Byte>, z: seq<Byte>) {
    && f.codec.decompress(z, |x|) == Some(x)
    && (forall n: nat :: n > 0 ==> f.codec.decompress(z + Pad(f.pad, n), |x|) == None)
    && (forall k :: 0 <= k < |z| ==> f.codec.decompress(z[..k], |x|) != Some(x))
  }

  lemma {:induction false} TrimPadding(f: Format, x: seq<Byte>, z: seq<Byte>, n: nat)
    requires LawfulOn(f, x, z)
    ensures Trim(f.codec, z + Pad(f.pad, n), |x|) == Some(x)
  {
    var data := z + Pad(f.pad, n);
    if n == 0 {
      assert data == z;
    } else {
      TrimPadding(f, x, z, n - 1);
      assert data[..|data| - 1] == z + Pad(f.pad, n - 1);
    }
  }

  lemma {:induction false} TrimCut(f: Format, x: seq<Byte>, z: seq<Byte>, k: nat)
    requires LawfulOn(f, x, z) && k < |z|
    ensures Trim(f.codec, z[..k], |x|) != Some(x)
  {
    if k > 0 {
      TrimCut(f, x, z, k - 1);
      assert z[..k][..k - 1] == z[..k - 1];
    }
  }

  /** The last block's length is taken from the size of the image: right for a plain block, or if that is enough,
      or if it happens to be -1, which reads to the end. Below -1 the read is an error. */
  predicate Covered(p: Piece, total: nat) {
    p.plain || total >= p.pos + |p.data| || total == p.pos - 1
  }

  predicate CutShort(a: Archive, b: nat) {
    b == |a.pieces| - 1 && !Covered(a.pieces[b], a.total)
  }

  ghost function SpanAt(a: Archive, b: nat): Span
    requires b < |a.pieces| < |a.index| && HEADER_SIZE + 4 * |a.index| <= |a.file|
  {
    SpanOf(HeadOf(a.file), |a.pieces|, b, IndexAt(a.file, b), IndexAt(a.file, b + 1))
  }

  lemma {:induction false} SpanIsRight(f: Format, a: Archive, b: nat)
    requires Sound(f, a) && b < |a.pieces|
    ensures var p, span := a.pieces[b], SpanAt(a, b);
      && span.plain == p.plain && span.pos == p.pos
      && span.size == (if p.plain then f.blockSize
                       else if b == |a.pieces| - 1 then a.total - p.pos
                       else |p.data| + a.pieces[b + 1].gap)
  {
    SoundNeighbours(f, a, b);
  }

  lemma UpMinus(i: nat, k: nat, align: nat)
    ensures Up(k - i, align) == Up(k, align) - Up(i, align)
  {
    UpAdd(k - i, i, align);
  }

  /**
    What is read of a block: the stored bytes, with fewer than `1 << align` padding bytes behind them if it is not
    the last; of a last block that is cut short, a proper prefix, or nothing when the reader gives up.
   */
  lemma {:induction false} ReadIs(f: Format, a: Archive, b: nat)
    requires Sound(f, a) && b < |a.pieces|
    ensures var p, span := a.pieces[b], SpanAt(a, b);
      var data := ReadAt(a.file, span.pos, span.size);
      if CutShort(a, b) then
        if a.total < p.pos then data.None? else a.total - p.pos < |p.data| && data == Some(p.data[..a.total - p.pos])
      else if p.plain || b == |a.pieces| - 1 then data == Some(p.data)
      else a.pieces[b + 1].gap < Pow2(a.align) && data == Some(p.data + Pad(f.pad, a.pieces[b + 1].gap))
  {
    SpanIsRight(f, a, b);
    assert PieceAt(f, a.align, a.start, a.xs, a.pieces, a.body, b);
    var p, size := a.pieces[b], SpanAt(a, b).size;
    assert p.plain ==> |p.data| == f.blockSize;
    if b == |a.pieces| - 1 {
      ReadLast(a, p, size);
    } else {
      ReadInner(f, a, p, a.pieces[b + 1].gap, size);
    }
  }

  lemma {:induction false} ReadLast(a: Archive, p: Piece, size: int)
    requires |a.file| == a.start + |a.body| && a.file[a.start..] == a.body
    requires a.start <= p.pos && p.pos + |p.data| == |a.file| && a.body[p.pos - a.start..] == p.data
    requires size == if p.plain then |p.data| else a.total - p.pos
    ensures var data := ReadAt(a.file, p.pos, size);
      if Covered(p, a.total) then data == Some(p.data)
      else if a.total < p.pos then data.None?
      else a.total - p.pos < |p.data| && data == Some(p.data[..a.total - p.pos])
  {
    var at, end := p.pos - a.start, |a.body|;
    assert a.body[at..end] == p.data;
    if Covered(p, a.total) {
      InFile(a, at, end, size);
    } else if a.total >= p.pos {
      InFile(a, at, a.total - a.start, size);
      Halves(a.body, at, a.total - a.start, end);
    }
  }

  lemma {:induction false} ReadInner(f: Format, a: Archive, p: Piece, gap: nat, size: int)
    requires |a.file| == a.start + |a.body| && a.file[a.start..] == a.body && a.start <= p.pos
    requires p.pos + |p.data| + gap <= |a.file|
    requires var at, end := p.pos - a.start, p.pos - a.start + |p.data|;
      a.body[at..end] == p.data && a.body[end..end + gap] == Pad(f.pad, gap)
    requires size == |p.data| + if p.plain then 0 else gap
    ensures ReadAt(a.file, p.pos, size) == Some(if p.plain then p.data else p.data + Pad(f.pad, gap))
  {
    var at, end := p.pos - a.start, p.pos - a.start + |p.data|;
    if p.plain {
      InFile(a, at, end, size);
    } else {
      ReadMiddle(a, at, end, gap, p.data, Pad(f.pad, gap));
    }
  }

  lemma {:induction false} ReadMiddle(a: Archive, at: nat, end: nat, gap: nat, data: seq<Byte>, pad: seq<Byte>)
    requires |a.file| == a.start + |a.body| && a.file[a.start..] == a.body && at <= end && end + gap <= |a.body|
    requires a.body[at..end] == data && a.body[end..end + gap] == pad
    ensures ReadAt(a.file, a.start + at, end - at + gap) == Some(data + pad)
  {
    InFile(a, at, end + gap, end + gap - at);
    Halves(a.body, at, end, end + gap);
  }

  lemma Halves(s: seq<Byte>, i: nat, m: nat, k: nat)
    requires i <= m <= k <= |s|
    ensures s[i..k] == s[i..m] + s[m..k] && s[i..m] == s[i..k][..m - i]
  {
  }

  lemma InFile(a: Archive, from: nat, to: nat, size: int)
    requires |a.file| == a.start + |a.body| && a.file[a.start..] == a.body && from <= to <= |a.body|
    requires size == to - from || (to == |a.body| && (size == -1 || size >= to - from))
    ensures ReadAt(a.file, a.start + from, size) == Some(a.body[from..to])
  {
    assert a.file[a.start + from..a.start + to] == a.file[a.start..][from..to];
    if to == |a.body| {
      assert a.file[a.start + from..] == a.file[a.start..][from..] == a.body[from..to];
    }
  }

  /** Every block is restored, except a last block that is cut short. */
  lemma {:induction false} BlockIsRestored(f: Format, a: Archive, b: nat)
    requires Sound(f, a) && b < |a.pieces| && Lawful(f)
    ensures BlockAt(f.codec, a.file, HeadOf(a.file), |a.pieces|, b) == Some(a.xs[b]) <==> !CutShort(a, b)
  {
    SpanIsRight(f, a, b);
    ReadIs(f, a, b);
    assert PieceAt(f, a.align, a.start, a.xs, a.pieces, a.body, b);
    var p, x := a.pieces[b], a.xs[b];
    if !p.plain {
      assert LawfulOn(f, x, p.data);
      if CutShort(a, b) {
        if a.total >= p.pos {
          TrimCut(f, x, p.data, a.total - p.pos);
        }
      } else if b == |a.pieces| - 1 {
        TrimPadding(f, x, p.data, 0);
        assert p.data + Pad(f.pad, 0) == p.data;
      } else {
        TrimPadding(f, x, p.data, a.pieces[b + 1].gap);
      }
    }
  }

  function Joined(xs: seq<seq<Byte>>): seq<Byte> {
    if xs == [] then [] else Joined(xs[..|xs| - 1]) + xs[|xs| - 1]
  }

  lemma {:induction false} JoinedFront(x: seq<Byte>, xs: seq<seq<Byte>>)
    ensures Joined([x] + xs) == x + Joined(xs)
  {
    var all := [x] + xs;
    if xs == [] {
      assert all[..0] == [];
    } else {
      JoinedFront(x, xs[..|xs| - 1]);
      assert all[..|all| - 1] == [x] + xs[..|xs| - 1];
    }
  }

  /** An image of whole blocks is its blocks joined. */
  lemma {:induction false} BlocksJoined(image: seq<Byte>, size: nat)
    requires size > 0 && |image| == size * |Blocks(image, size)|
    ensures Joined(Blocks(image, size)) == image
  {
    if |image| >= size {
      var rest := image[size..];
      assert size * (|Blocks(rest, size)| + 1) == size * |Blocks(rest, size)| + size;
      BlocksJoined(rest, size);
      JoinedFront(image[..size], Blocks(rest, size));
    }
  }

  lemma {:induction false} FrontIsRestored(f: Format, a: Archive, k: nat)
    requires Sound(f, a) && Lawful(f) && k <= |a.pieces|
    requires k == |a.pieces| > 0 ==> !CutShort(a, k - 1)
    ensures Restored(f.codec, a.file, HeadOf(a.file), |a.pieces|, k) == Some(Joined(a.xs[..k]))
  {
    if k > 0 {
      FrontIsRestored(f, a, k - 1);
      BlockIsRestored(f, a, k - 1);
      assert a.xs[..k][..k - 1] == a.xs[..k - 1];
    }
  }

  /** The blocks come back, joined, exactly when the last is not cut short. */
  lemma {:induction false} AllRestored(f: Format, a: Archive)
    requires Sound(f, a) && Lawful(f) && a.pieces != []
    ensures var n := |a.pieces|;
      Restored(f.codec, a.file, HeadOf(a.file), n, n) == Some(Joined(a.xs)) <==> Covered(a.pieces[n - 1], a.total)
  {
    var n := |a.pieces|;
    assert a.xs[..n] == a.xs;
    if Covered(a.pieces[n - 1], a.total) {
      FrontIsRestored(f, a, n);
    } else {
      FrontIsRestored(f, a, n - 1);
      BlockIsRestored(f, a, n - 1);
      var y := BlockAt(f.codec, a.file, HeadOf(a.file), n, n - 1);
      LastDiffers(Joined(a.xs[..n - 1]), a.xs[n - 1], y);
    }
  }

  lemma {:induction false} ImageIsRestored(f: Format, a: Archive)
    requires Sound(f, a) && a.total == f.blockSize * |a.pieces| && a.total > 0
    ensures Image(f.codec, a.file) == Restored(f.codec, a.file, HeadOf(a.file), |a.pieces|, |a.pieces|)
  {
    Quotient(a.total, f.blockSize, |a.pieces|, 0);
  }

  /**
    Decompression restores an image of whole blocks exactly when the last block is plain or its length, taken from
    the size of the image, covers it or is -1.
   */
  lemma {:induction false} RoundTrip(f: Format, image: seq<Byte>)
    requires f.blockSize > 0 && |image| > 0 && |image| % f.blockSize == 0
    requires Lawful(f) && File(f, image).Some? && OffsetsFit(ArchiveOf(f, image).pieces, AlignOf(|image|))
    ensures var a := ArchiveOf(f, image);
      a.pieces != [] && (Image(f.codec, a.file) == Some(image) <==> Covered(a.pieces[|a.pieces| - 1], |image|))
  {
    var a := ArchiveOf(f, image);
    WrittenIsSound(f, image);
    WholeBlocks(image, f.blockSize);
    SoundRoundTrip(f, a);
  }

  lemma {:induction false} WholeBlocks(image: seq<Byte>, size: nat)
    requires size > 0 && |image| > 0 && |image| % size == 0
    ensures |image| == size * |Blocks(image, size)| && Joined(Blocks(image, size)) == image
  {
    BlockCount(image, size);
    assert |image| == size * (|image| / size);
    BlocksJoined(image, size);
  }

  lemma {:induction false} SoundRoundTrip(f: Format, a: Archive)
    requires Sound(f, a) && Lawful(f) && a.total == f.blockSize * |a.pieces| && a.total > 0
    ensures a.pieces != []
    ensures Image(f.codec, a.file) == Some(Joined(a.xs)) <==> Covered(a.pieces[|a.pieces| - 1], a.total)
  {
    ImageIsRestored(f, a);
    AllRestored(f, a);
  }

  lemma LastDiffers(front: seq<Byte>, x: seq<Byte>, y: Option<seq<Byte>>)
    requires y != Some(x)
    ensures y.Some? && |y.value| == |x| ==> front + y.value != front + x
  {
    if y.Some? && |y.value| == |x| {
      assert (front + y.value)[|front|..] == y.value && (front + x)[|front|..] == x;
    }
  }

  // ---- the exception is real ----

  /** Blocks that do not compress are stored one behind the other, if nothing is aligned. */
  lemma {:induction false} PlainRun(f: Format, start: nat, xs: seq<seq<Byte>>, size: nat)
    requires forall i :: 0 <= i < |xs| ==> |xs[i]| == size && TooBig(f.codec.compress(xs[i]), xs[i], f.threshold)
    ensures End(start, Layout(f, 0, start, xs)) == start + size * |xs|
  {
    if xs != [] {
      var ys := xs[..|xs| - 1];
      PlainRun(f, start, ys, size);
      TimesStep(size, |ys|);
    }
  }

  lemma TimesStep(size: nat, n: nat)
    ensures size * (n + 1) == size * n + size
  {
  }

  lemma SmallIndexFits(l: seq<Piece>, start: nat)
    requires End(start, l) < PLAIN && forall i :: 0 <= i < |l| ==> l[i].pos < PLAIN
    ensures IndexFits(l, start, 0) && OffsetsFit(l, 0)
  {
    var index := Index(l, start, 0);
    forall i | 0 <= i < |l| ensures !Clashes(l[i], 0) && index[i] < 0x1_0000_0000 && Shift(l[i].pos, 0) < PLAIN {
      EntryBits(l[i].pos, false);
      assert index[i] == IndexEntry(l[i], 0);
    }
  }

  lemma {:induction false} SmallOffsets(f: Format, start: nat, xs: seq<seq<Byte>>)
    requires End(start, Layout(f, 0, start, xs)) < PLAIN
    ensures var l := Layout(f, 0, start, xs); IndexFits(l, start, 0) && OffsetsFit(l, 0)
  {
    var l := Layout(f, 0, start, xs);
    LayoutIsLaid(f, 0, start, xs);
    forall i | 0 <= i < |l| ensures l[i].pos < PLAIN {
      assert PieceAt(f, 0, start, xs, l, Body(f.pad, l), i);
    }
    SmallIndexFits(l, start);
  }

  lemma {:induction false} SmallFileIsWritten(f: Format, image: seq<Byte>)
    requires 0 < f.blockSize < 0x1_0000_0000 && |image| < PLAIN
    requires var j := JobOf(f, image); End(j.start, Pieces(f, j)) < PLAIN
    ensures File(f, image).Some? && OffsetsFit(ArchiveOf(f, image).pieces, AlignOf(|image|))
  {
    var j := JobOf(f, image);
    SmallOffsets(f, j.start, j.xs);
  }

  /** Blocks of 2048 bytes of which only the last one compresses, to `len` bytes. */
  ghost predicate OnlyLastPacked(f: Format, xs: seq<seq<Byte>>, len: nat) {
    && f.threshold == 95 && xs != [] && len < 1946
    && (forall i :: 0 <= i < |xs| ==> |xs[i]| == 2048)
    && |f.codec.compress(xs[|xs| - 1])| == len
    && (forall i :: 0 <= i < |xs| - 1 ==> |f.codec.compress(xs[i])| >= 1946)
  }

  /**
    An image of `n` such blocks is restored exactly when `len + 4n` is at most 2020: the index takes four bytes a
    block, so that the last block lies ever further behind what the size of the image allows for. Of more than 505
    blocks no such image is restored.
   */
  lemma {:induction false} MostlyPlainImage(f: Format, image: seq<Byte>, len: nat)
    requires f.blockSize == 2048 && Lawful(f) && 0 < |image| < 0x4000_0000 && |image| % 2048 == 0
    requires OnlyLastPacked(f, Blocks(image, 2048), len)
    ensures File(f, image).Some?
    ensures Image(f.codec, File(f, image).value) == Some(image) <==> len + 4 * |Blocks(image, 2048)| <= 2020
  {
    MostlyPlainFile(f, image, len);
    RoundTrip(f, image);
  }

  lemma {:induction false} MostlyPlainFile(f: Format, image: seq<Byte>, len: nat)
    requires f.blockSize == 2048 && 0 < |image| < 0x4000_0000 && |image| % 2048 == 0
    requires OnlyLastPacked(f, Blocks(image, 2048), len)
    ensures File(f, image).Some?
    ensures var l := ArchiveOf(f, image).pieces;
      && OffsetsFit(l, AlignOf(|image|)) && |l| == |Blocks(image, 2048)|
      && (Covered(l[|l| - 1], |image|) <==> len + 4 * |l| <= 2020)
  {
    var j := JobOf(f, image);
    var n := |j.xs|;
    BlockCount(image, 2048);
    assert |image| == 2048 * n && j.start == 28 + 4 * n && j.align == 0;
    MostlyPlainLayout(f, j.start, j.xs, len);
    LateLastBlock(Pieces(f, j)[n - 1], n, len);
    SmallFileIsWritten(f, image);
  }

  lemma LateLastBlock(p: Piece, n: nat, len: nat)
    requires p.pos == 28 + 4 * n + 2048 * (n - 1) && |p.data| == len && !p.plain
    ensures Covered(p, 2048 * n) <==> len + 4 * n <= 2020
  {
  }

  lemma {:induction false} MostlyPlainLayout(f: Format, start: nat, xs: seq<seq<Byte>>, len: nat)
    requires OnlyLastPacked(f, xs, len)
    ensures var p := Layout(f, 0, start, xs)[|xs| - 1];
      p.pos == start + 2048 * (|xs| - 1) && |p.data| == len && !p.plain
    ensures End(start, Layout(f, 0, start, xs)) == start + 2048 * (|xs| - 1) + len
  {
    var ys := xs[..|xs| - 1];
    PlainRun(f, start, ys, 2048);
    assert Gap(End(start, Layout(f, 0, start, ys)), 0) == 0;
  }

  /** Twenty blocks, the last one compressed to 1945 bytes: only 1940 of them are read back. */
  lemma {:induction false} LastBlockIsLost(f: Format, image: seq<Byte>)
    requires f.blockSize == 2048 && Lawful(f) && |image| == 20 * 2048 && OnlyLastPacked(f, Blocks(image, 2048), 1945)
    ensures File(f, image).Some? && Image(f.codec, File(f, image).value) != Some(image)
  {
    BlockCount(image, 2048);
    MostlyPlainImage(f, image, 1945);
  }

  /** 600 blocks, the last one compressed to 100 bytes: the length to be read is -380, and the reader gives up. */
  lemma {:induction false} LastReadFails(f: Format, image: seq<Byte>)
    requires f.blockSize == 2048 && Lawful(f) && |image| == 600 * 2048 && OnlyLastPacked(f, Blocks(image, 2048), 100)
    ensures File(f, image).Some? && Image(f.codec, File(f, image).value) != Some(image)
  {
    BlockCount(image, 2048);
    MostlyPlainImage(f, image, 100);
  }

  // ---- a codec and images for which this happens ----

  /** A block of zeros is packed into `len` ones, any other block gets a byte behind it. */
  function ToyPack(len: nat, x: seq<Byte>): seq<Byte> {
    if x == Zeros(2048) then Pad(1, len) else x + [7]
  }

  function ToyUnpack(len: nat, z: seq<Byte>, size: nat): Option<seq<Byte>> {
    if z == Pad(1, len) then Some(Zeros(2048))
    else if |z| == size + 1 && z[size] == 7 then Some(z[..size])
    else None
  }

  function Toy(len: nat): Format {
    Format(Codec(x => ToyPack(len, x), (z, size) => ToyUnpack(len, z, size)), 2048, 95, 88)
  }

  lemma ToyIsLawful(len: nat)
    requires 0 < len < 1946
    ensures Lawful(Toy(len))
  {
    var f := Toy(len);
    forall x: seq<Byte> | |x| == 2048 ensures LawfulOn(f, x, f.codec.compress(x)) {
      ToyIsLawfulOn(len, x);
    }
  }

  lemma ToyIsLawfulOn(len: nat, x: seq<Byte>)
    requires 0 < len < 1946 && |x| == 2048
    ensures LawfulOn(Toy(len), x, ToyPack(len, x))
  {
    var z := ToyPack(len, x);
    assert ToyUnpack(len, z, 2048) == Some(x) by {
      assert (x + [7])[..2048] == x && |Pad(1, len)| == len;
    }
    forall n: nat | n > 0 ensures ToyUnpack(len, z + Pad(88, n), 2048) == None {
      var padded := z + Pad(88, n);
      assert padded[|padded| - 1] == 88 && |padded| == |z| + n;
      assert |Pad(1, len)| == len;
    }
    forall k | 0 <= k < |z| ensures ToyUnpack(len, z[..k], 2048) != Some(x) {
      assert |z[..k]| == k && |Pad(1, len)| == len;
    }
  }

  /** `n` blocks of fives, and one of zeros. */
  function ToyImage(n: nat): seq<Byte> {
    if n == 0 then Zeros(2048) else Pad(5, 2048) + ToyImage(n - 1)
  }

  lemma {:induction false} ToyBlocks(n: nat)
    ensures |ToyImage(n)| == 2048 * (n + 1)
    ensures var xs := Blocks(ToyImage(n), 2048);
      && |xs| == n + 1 && xs[n] == Zeros(2048) && forall i :: 0 <= i < n ==> xs[i] == Pad(5, 2048)
  {
    var image := ToyImage(n);
    if n == 0 {
      assert image[..2048] == Zeros(2048) && image[2048..] == [];
    } else {
      ToyBlocks(n - 1);
      assert image[..2048] == Pad(5, 2048) && image[2048..] == ToyImage(n - 1);
    }
  }

  lemma ToyIsMostlyPlain(len: nat, n: nat)
    requires 0 < len < 1946
    ensures OnlyLastPacked(Toy(len), Blocks(ToyImage(n), 2048), len)
  {
    ToyBlocks(n);
    var f, xs := Toy(len), Blocks(ToyImage(n), 2048);
    assert |f.codec.compress(xs[n])| == |Pad(1, len)| == len;
    forall i | 0 <= i < n ensures |f.codec.compress(xs[i])| >= 1946 {
      assert Pad(5, 2048)[0] == 5 && Zeros(2048)[0] == 0;
    }
  }

  /** Both failures happen: twenty blocks with a last one of 1945 bytes, and 600 blocks with a last one of 100. */
  lemma ToyImagesAreLost()
    ensures File(Toy(1945), ToyImage(19)).Some?
    ensures Image(Toy(1945).codec, File(Toy(1945), ToyImage(19)).value) != Some(ToyImage(19))
    ensures File(Toy(100), ToyImage(599)).Some?
    ensures Image(Toy(100).codec, File(Toy(100), ToyImage(599)).value) != Some(ToyImage(599))
  {
    ToyIsLawful(1945);
    ToyIsMostlyPlain(1945, 19);
    ToyBlocks(19);
    LastBlockIsLost(Toy(1945), ToyImage(19));
    ToyIsLawful(100);
    ToyIsMostlyPlain(100, 599);
    ToyBlocks(599);
    LastReadFails(Toy(100), ToyImage(599));
  }
}
