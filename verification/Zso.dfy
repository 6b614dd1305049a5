/**
  The ZSO container of pc/ziso.py: an image cut into blocks, each stored compressed or plain behind an index of
  shifted offsets whose top bit marks a plain block. LZ4 is any codec.
 */
module Zso {
  import opened Prelude
  import opened Bytes

  /** `decompress` is given the size of the block it is to restore. */
  datatype Codec = Codec(compress: seq<Byte> -> seq<Byte>, decompress: (seq<Byte>, nat) -> Option<seq<Byte>>)

  /** The options of a run: block size, threshold in percent, padding byte. */
  datatype Format = Format(codec: Codec, blockSize: nat, threshold: int, pad: Byte)

  const ZISO_MAGIC: nat := 0x4F53495A
  const HEADER_SIZE: nat := 24
  const PLAIN: nat := 0x80000000

  function Pow2(n: nat): (p: nat)
    ensures p >= 1
  {
    if n == 0 then 1 else 2 * Pow2(n - 1)
  }

  // ---- shifts ----

  /** `i << align` */
  function Up(i: int, align: nat): int {
    if align == 0 then i else 2 * Up(i, align - 1)
  }

  /** `n >> align` */
  function Shift(n: nat, align: nat): nat {
    if align == 0 then n else Shift(n / 2, align - 1)
  }

  /** `n % (1 << align)` */
  function Low(n: nat, align: nat): nat {
    if align == 0 then 0 else n % 2 + 2 * Low(n / 2, align - 1)
  }

  lemma {:induction false} LowIsRest(n: nat, align: nat)
    ensures n == Up(Shift(n, align), align) + Low(n, align) && Low(n, align) < Pow2(align)
  {
    if align > 0 {
      LowIsRest(n / 2, align - 1);
    }
  }

  /** Shifting is multiplying and dividing by the unit, and the low bits are the rest. */
  lemma {:induction false} ShiftsAre(n: nat, align: nat)
    ensures Up(n, align) == n * Pow2(align)
    ensures Shift(n, align) == n / Pow2(align) && Low(n, align) == n % Pow2(align)
  {
    UpIs(n, align);
    UpIs(Shift(n, align), align);
    LowIsRest(n, align);
    Quotient(n, Pow2(align), Shift(n, align), Low(n, align));
  }

  lemma {:induction false} UpIs(n: nat, align: nat)
    ensures Up(n, align) == n * Pow2(align)
  {
    if align > 0 {
      UpIs(n, align - 1);
      assert n * (2 * Pow2(align - 1)) == 2 * (n * Pow2(align - 1));
    }
  }

  lemma {:induction false} UpAdd(i: int, k: int, align: nat)
    ensures Up(i + k, align) == Up(i, align) + Up(k, align)
  {
    if align > 0 {
      UpAdd(i, k, align - 1);
    }
  }

  lemma {:induction false} UpOne(align: nat)
    ensures Up(1, align) == Pow2(align)
  {
    if align > 0 {
      UpOne(align - 1);
    }
  }

  lemma {:induction false} ShiftUp(q: nat, align: nat)
    ensures Up(q, align) >= 0 && Shift(Up(q, align), align) == q
  {
    if align > 0 {
      ShiftUp(q, align - 1);
    }
  }

  lemma Quotient(a: nat, d: nat, q: nat, r: nat)
    requires a == d * q + r && r < d
    ensures a / d == q && a % d == r
  {
    var q', r' := a / d, a % d;
    assert a == d * q' + r';
    if q' < q {
      Times(d, q', q);
    } else if q < q' {
      Times(d, q, q');
    }
  }

  lemma Times(d: nat, p: nat, q: nat)
    requires p < q
    ensures d * q >= d * p + d
  {
    var k := q - p - 1;
    calc {
      d * q;
      d * (p + (k + 1));
      d * p + d * (k + 1);
      d * p + (d * k + d);
    }
    assert d * k >= 0;
  }

  // ---- the index ----

  function PackAll(index: seq<nat>): (s: seq<Byte>)
    ensures |s| == 4 * |index|
  {
    if index == [] then [] else PackAll(index[..|index| - 1]) + Little(4, index[|index| - 1])
  }

  lemma {:induction false} PackAllAt(index: seq<nat>, i: nat)
    requires i < |index|
    ensures PackAll(index)[4 * i..4 * i + 4] == Little(4, index[i])
  {
    var init := index[..|index| - 1];
    if i < |init| {
      PackAllAt(init, i);
      assert PackAll(index)[4 * i..4 * i + 4] == PackAll(init)[4 * i..4 * i + 4];
    }
  }

  // ---- where everything goes ----

  /** A stored block: `gap` padding bytes, then `data` at offset `pos`. */
  datatype Piece = Piece(gap: nat, pos: nat, plain: bool, data: seq<Byte>)

  /** The whole blocks of the image; a rest shorter than a block is not read. */
  function Blocks(image: seq<Byte>, size: nat): (xs: seq<seq<Byte>>)
    requires size > 0
    ensures forall i :: 0 <= i < |xs| ==> |xs[i]| == size
  {
    if |image| < size then [] else [image[..size]] + Blocks(image[size..], size)
  }

  lemma {:induction false} BlockCount(image: seq<Byte>, size: nat)
    requires size > 0
    ensures |Blocks(image, size)| == |image| / size
  {
    if |image| >= size {
      BlockCount(image[size..], size);
      var n := |image| - size;
      assert |image| == size * (n / size + 1) + n % size;
      Quotient(|image|, size, n / size + 1, n % size);
    } else {
      Quotient(|image|, size, 0, |image|);
    }
  }

  /** Bytes from `pos` to the next multiple of `1 << align`. */
  function Gap(pos: nat, align: nat): (g: nat)
    ensures g < Pow2(align)
  {
    LowIsRest(pos, align);
    if Low(pos, align) == 0 then 0 else Pow2(align) - Low(pos, align)
  }

  /** The gap ends at a multiple of the unit. */
  lemma GapAligns(pos: nat, align: nat)
    ensures Up(Shift(pos + Gap(pos, align), align), align) == pos + Gap(pos, align)
  {
    LowIsRest(pos, align);
    var q := Shift(pos, align);
    if Low(pos, align) != 0 {
      UpAdd(q, 1, align);
      UpOne(align);
      ShiftUp(q + 1, align);
    }
  }

  /** Compression does not get below the threshold. */
  predicate TooBig(z: seq<Byte>, x: seq<Byte>, threshold: int) {
    100 * |z| >= threshold * |x|
  }

  function Place(f: Format, align: nat, end: nat, x: seq<Byte>): Piece
  {
    var z := f.codec.compress(x);
    var plain := TooBig(z, x, f.threshold);
    Piece(Gap(end, align), end + Gap(end, align), plain, if plain then x else z)
  }

  function End(start: nat, l: seq<Piece>): nat {
    if l == [] then start else l[|l| - 1].pos + |l[|l| - 1].data|
  }

  /** The blocks, stored one behind the other from `start` on. */
  function Layout(f: Format, align: nat, start: nat, xs: seq<seq<Byte>>): (l: seq<Piece>)
    ensures |l| == |xs|
  {
    if xs == [] then []
    else
      var l := Layout(f, align, start, xs[..|xs| - 1]);
      l + [Place(f, align, End(start, l), xs[|xs| - 1])]
  }

  function Pad(b: Byte, n: nat): (s: seq<Byte>)
    ensures |s| == n && forall i :: 0 <= i < n ==> s[i] == b
  {
    seq(n, _ => b)
  }

  function Body(pad: Byte, l: seq<Piece>): seq<Byte> {
    if l == [] then []
    else
      var last := l[|l| - 1];
      Body(pad, l[..|l| - 1]) + (Pad(pad, last.gap) + last.data)
  }

  predicate TopBit(i: nat) {
    (i / PLAIN) % 2 == 1
  }

  /** `|=` with the top bit. */
  function Marked(i: nat): nat {
    if TopBit(i) then i else i + PLAIN
  }

  function IndexEntry(p: Piece, align: nat): nat
  {
    if p.plain then Marked(Shift(p.pos, align)) else Shift(p.pos, align)
  }

  /** The block must be stored compressed, but its offset reaches into the top bit. */
  predicate Clashes(p: Piece, align: nat)
  {
    !p.plain && TopBit(Shift(p.pos, align))
  }

  function Index(l: seq<Piece>, start: nat, align: nat): (s: seq<nat>)
    ensures |s| == |l| + 1
  {
    seq(|l|, i requires 0 <= i < |l| => IndexEntry(l[i], align)) + [Shift(End(start, l), align)]
  }

  function Header(total: nat, blockSize: nat, align: nat): (h: seq<Byte>)
    requires align < 128
    ensures |h| == HEADER_SIZE
  {
    Little(4, ZISO_MAGIC) + Little(4, HEADER_SIZE) + Little(8, total) + Little(4, blockSize) + [1, align, 0, 0]
  }

  function AlignOf(total: nat): nat {
    total / 0x8000_0000
  }

  /** What one compression is about: its blocks, the alignment and the first free offset. */
  datatype Job = Job(xs: seq<seq<Byte>>, align: nat, start: nat)

  function JobOf(f: Format, image: seq<Byte>): (j: Job)
    requires f.blockSize > 0
  {
    var xs := Blocks(image, f.blockSize);
    Job(xs, AlignOf(|image|), HEADER_SIZE + 4 * (|xs| + 1))
  }

  function Pieces(f: Format, j: Job): (l: seq<Piece>)
    ensures |l| == |j.xs|
  {
    Layout(f, j.align, j.start, j.xs)
  }

  /** The header's fields are wide enough. */
  predicate HeaderFits(f: Format, total: nat) {
    AlignOf(total) < 128 && total < 0x1_0000_0000_0000_0000 && f.blockSize < 0x1_0000_0000
  }

  /** No compressed block's offset reaches the top bit, and every index entry has 32 bits. */
  predicate IndexFits(l: seq<Piece>, start: nat, align: nat)
  {
    && NoClash(l, align)
    && (forall i :: 0 <= i <= |l| ==> Index(l, start, align)[i] < 0x1_0000_0000)
  }

  /** The file that compression leaves behind, if it does not give up. */
  function File(f: Format, image: seq<Byte>): Option<seq<Byte>>
    requires f.blockSize > 0
  {
    var j := JobOf(f, image);
    var l := Pieces(f, j);
    if HeaderFits(f, |image|) && IndexFits(l, j.start, j.align) then
      Some(Header(|image|, f.blockSize, AlignOf(|image|)) + PackAll(Index(l, j.start, j.align)) + Body(f.pad, l))
    else None
  }

  /** Compression gives up exactly when a field is too narrow or a compressed block's offset has its top bit set. */
  lemma GivesUpExactly(f: Format, image: seq<Byte>)
    requires f.blockSize > 0
    ensures var j := JobOf(f, image);
      var l := Pieces(f, j);
      File(f, image).None? <==>
        || |image| / 0x8000_0000 >= 128 || |image| >= 0x1_0000_0000_0000_0000 || f.blockSize >= 0x1_0000_0000
        || (exists i :: 0 <= i < |l| && !l[i].plain && (Shift(l[i].pos, j.align) / 0x8000_0000) % 2 == 1)
        || (exists i :: 0 <= i <= |l| && Index(l, j.start, j.align)[i] >= 0x1_0000_0000)
  {
    var j := JobOf(f, image);
    var l := Pieces(f, j);
    assert forall i :: 0 <= i < |l| ==>
      (Clashes(l[i], j.align) <==> !l[i].plain && (Shift(l[i].pos, j.align) / 0x8000_0000) % 2 == 1);
  }

  /** A block is stored plain exactly when compression does not get it below the threshold. */
  lemma {:induction false} PlainExactly(f: Format, align: nat, start: nat, xs: seq<seq<Byte>>, i: nat)
    requires i < |xs|
    ensures Layout(f, align, start, xs)[i].plain <==> 100 * |f.codec.compress(xs[i])| >= f.threshold * |xs[i]|
  {
    if i < |xs| - 1 {
      PlainExactly(f, align, start, xs[..|xs| - 1], i);
    }
  }

  // ---- the layout ----

  /** One more block. */
  lemma {:induction false} LayoutStep(f: Format, align: nat, start: nat, xs: seq<seq<Byte>>, b: nat)
    requires b < |xs|
    ensures var l := Layout(f, align, start, xs[..b]);
      Layout(f, align, start, xs[..b + 1]) == l + [Place(f, align, End(start, l), xs[b])]
  {
    assert xs[..b + 1][..b] == xs[..b];
  }

  lemma {:induction false} BodyStep(pad: Byte, l: seq<Piece>, p: Piece)
    ensures Body(pad, l + [p]) == Body(pad, l) + (Pad(pad, p.gap) + p.data)
  {
    assert (l + [p])[..|l|] == l;
  }

  // ---- writing ----

  /** `set_align` */
  method SetAlign(out: seq<Byte>, pos: nat, align: nat, pad: Byte) returns (out': seq<Byte>, pos': nat)
    ensures pos' == pos + Gap(pos, align) && out' == out + Pad(pad, Gap(pos, align))
  {
    out', pos' := out, pos;
    LowIsRest(pos, align);
    if Low(pos, align) != 0 {
      var len := Pow2(align) - Low(pos, align);
      out' := out' + Pad(pad, len);
      pos' := pos' + len;
    } else {
      assert out + Pad(pad, 0) == out;
    }
  }

  /** How far writing has come. */
  datatype Sink = Sink(out: seq<Byte>, index: seq<nat>, pos: nat)

  /** The first `b` blocks behind `head`, entered in an index of zeros. */
  ghost function Sunk(f: Format, j: Job, head: seq<Byte>, b: nat): Sink
    requires b <= |j.xs|
  {
    SinkOf(f, j, head, Layout(f, j.align, j.start, j.xs[..b]))
  }

  ghost function SinkOf(f: Format, j: Job, head: seq<Byte>, l: seq<Piece>): Sink {
    Sink(head + Body(f.pad, l), Entries(l, j.align, |j.xs| + 1), End(j.start, l))
  }

  ghost function Entries(l: seq<Piece>, align: nat, n: nat): (index: seq<nat>)
    ensures |index| == n
  {
    seq(n, i requires 0 <= i < n => if i < |l| then IndexEntry(l[i], align) else 0)
  }

  predicate NoClash(l: seq<Piece>, align: nat)
  {
    forall i :: 0 <= i < |l| ==> !Clashes(l[i], align)
  }

  /** The sink with one more piece. */
  function Stored(f: Format, s: Sink, b: nat, p: Piece, align: nat): Sink
    requires b < |s.index|
  {
    Sink(s.out + (Pad(f.pad, p.gap) + p.data), s.index[b := IndexEntry(p, align)], p.pos + |p.data|)
  }

  /** Block `b` stored, or the alignment error. */
  function StoreOne(f: Format, align: nat, s: Sink, b: nat, x: seq<Byte>): (r: Option<Sink>)
    requires b < |s.index|
    ensures r.Some? ==> |r.value.index| == |s.index|
  {
    var p := Place(f, align, s.pos, x);
    if Clashes(p, align) then None else Some(Stored(f, s, b, p, align))
  }

  function StoreSeq(f: Format, align: nat, s: Sink, b: nat, xs: seq<seq<Byte>>): Option<Sink>
    requires b + |xs| <= |s.index|
    decreases |xs|
  {
    if xs == [] then Some(s)
    else
      var r := StoreOne(f, align, s, b, xs[0]);
      if r.None? then None else StoreSeq(f, align, r.value, b + 1, xs[1..])
  }

  /** One block: aligned, entered in the index, compressed or plain. `None` is the alignment error, which exits. */
  method Store(f: Format, align: nat, x: seq<Byte>, z: seq<Byte>, limit: int, s: Sink, b: nat) returns (r: Option<Sink>)
    requires b < |s.index| && z == f.codec.compress(x) && limit == f.threshold
    ensures r == StoreOne(f, align, s, b, x)
  {
    var out, pos := SetAlign(s.out, s.pos, align, f.pad);
    var entry := Shift(pos, align);
    var data := z;
    if TooBig(z, x, limit) {
      data := x;
      entry := Marked(entry);
    } else if TopBit(entry) {
      return None;
    }
    assert out + data == s.out + (Pad(f.pad, Gap(s.pos, align)) + data);
    r := Some(Sink(out + data, s.index[b := entry], pos + |data|));
  }

  lemma {:induction false} StoredIsSink(f: Format, j: Job, head: seq<Byte>, l: seq<Piece>, p: Piece)
    requires |l| < |j.xs|
    ensures Stored(f, SinkOf(f, j, head, l), |l|, p, j.align) == SinkOf(f, j, head, l + [p])
  {
    var s' := Stored(f, SinkOf(f, j, head, l), |l|, p, j.align);
    BodyStep(f.pad, l, p);
    assert s'.out == head + Body(f.pad, l + [p]);
    assert s'.index == Entries(l + [p], j.align, |j.xs| + 1);
  }

  /** The pieces `l`, and `xs` stored behind them. */
  ghost function Extended(f: Format, j: Job, l: seq<Piece>, xs: seq<seq<Byte>>): (r: seq<Piece>)
    ensures l <= r && |r| == |l| + |xs|
    decreases |xs|
  {
    if xs == [] then l else Extended(f, j, l + [Place(f, j.align, End(j.start, l), xs[0])], xs[1..])
  }

  lemma {:induction false} ExtendedIsLayout(f: Format, j: Job, b: nat)
    requires b <= |j.xs|
    ensures Extended(f, j, Layout(f, j.align, j.start, j.xs[..b]), j.xs[b..]) == Pieces(f, j)
    decreases |j.xs| - b
  {
    if b == |j.xs| {
      assert j.xs[..b] == j.xs;
    } else {
      assert j.xs[b..][1..] == j.xs[b + 1..];
      LayoutStep(f, j.align, j.start, j.xs, b);
      ExtendedIsLayout(f, j, b + 1);
    }
  }

  lemma {:induction false} StoringExtends(f: Format, j: Job, head: seq<Byte>, l: seq<Piece>, xs: seq<seq<Byte>>)
    requires |l| + |xs| <= |j.xs| && NoClash(l, j.align)
    ensures var r := Extended(f, j, l, xs);
      StoreSeq(f, j.align, SinkOf(f, j, head, l), |l|, xs) ==
        if NoClash(r, j.align) then Some(SinkOf(f, j, head, r)) else None
    decreases |xs|
  {
    if xs != [] {
      var p := Place(f, j.align, End(j.start, l), xs[0]);
      if Clashes(p, j.align) {
        assert Extended(f, j, l, xs)[|l|] == p;
      } else {
        StoredIsSink(f, j, head, l, p);
        StoringExtends(f, j, head, l + [p], xs[1..]);
      }
    }
  }

  /** Storing the blocks one after the other gives the layout, unless some offset reaches the top bit. */
  lemma {:induction false} StoringIsLayout(f: Format, j: Job, head: seq<Byte>)
    ensures StoreSeq(f, j.align, Sunk(f, j, head, 0), 0, j.xs) ==
      if NoClash(Pieces(f, j), j.align) then Some(Sunk(f, j, head, |j.xs|)) else None
  {
    assert j.xs[..0] == [] && j.xs[0..] == j.xs && j.xs[..|j.xs|] == j.xs;
    ExtendedIsLayout(f, j, 0);
    StoringExtends(f, j, head, [], j.xs);
  }

  /** The last entry is the end of the file; then the index is written over the zeros that held its place. */
  method Finish(f: Format, align: nat, blocks: nat, s: Sink, ghost j: Job, ghost image: seq<Byte>,
      ghost head: seq<Byte>)
    returns (r: Option<seq<Byte>>)
    requires f.blockSize > 0 && j == JobOf(f, image) && Prepared(f, j, image, head)
    requires align == j.align && blocks == |j.xs|
    requires NoClash(Pieces(f, j), j.align) && s == Sunk(f, j, head, |j.xs|)
    ensures r == File(f, image)
  {
    assert j.xs[..|j.xs|] == j.xs;
    var all := s.index[blocks := Shift(s.pos, align)];
    SinkIsFile(f, j, head, Pieces(f, j));
    r := WriteIndex(all, s.out);
  }

  /** All blocks stored: the index lacks its last entry, and the file its index. */
  lemma SinkIsFile(f: Format, j: Job, head: seq<Byte>, l: seq<Piece>)
    requires |l| == |j.xs| && |head| == j.start >= HEADER_SIZE
    ensures var s := SinkOf(f, j, head, l);
      && s.index[|l| := Shift(s.pos, j.align)] == Index(l, j.start, j.align)
      && s.out[..HEADER_SIZE] == head[..HEADER_SIZE] && s.out[j.start..] == Body(f.pad, l)
  {
  }

  /** Seeks behind the header and packs the entries one by one; packing fails on an entry of more than 32 bits. */
  method WriteIndex(index: seq<nat>, out: seq<Byte>) returns (r: Option<seq<Byte>>)
    requires HEADER_SIZE + 4 * |index| <= |out|
    ensures r.Some? <==> forall i :: 0 <= i < |index| ==> index[i] < 0x1_0000_0000
    ensures r.Some? ==> r.value == out[..HEADER_SIZE] + PackAll(index) + out[HEADER_SIZE + 4 * |index|..]
  {
    var s, i := out, 0;
    while i < |index|
      invariant 0 <= i <= |index| && |s| == |out|
      invariant forall k :: 0 <= k < i ==> index[k] < 0x1_0000_0000
      invariant s == out[..HEADER_SIZE] + PackAll(index[..i]) + out[HEADER_SIZE + 4 * i..]
    {
      if index[i] >= 0x1_0000_0000 {
        return None;
      }
      var at := HEADER_SIZE + 4 * i;
      var next := s[..at] + Little(4, index[i]) + s[at + 4..];
      assert index[..i + 1][..i] == index[..i];
      assert PackAll(index[..i + 1]) == PackAll(index[..i]) + Little(4, index[i]);
      assert s[..at] == out[..HEADER_SIZE] + PackAll(index[..i]);
      assert s[at + 4..] == out[at + 4..];
      s := next;
      i := i + 1;
    }
    assert index[..i] == index;
    return Some(s);
  }

  ghost predicate Prepared(f: Format, j: Job, image: seq<Byte>, head: seq<Byte>) {
    && HeaderFits(f, |image|) && |head| == j.start && |head| >= HEADER_SIZE
    && head[..HEADER_SIZE] == Header(|image|, f.blockSize, AlignOf(|image|))
  }

  /** Header, and zeros where the index will be. */
  method Prepare(f: Format, image: seq<Byte>) returns (r: Option<Sink>, ghost j: Job)
    requires f.blockSize > 0
    ensures j == JobOf(f, image)
    ensures r.None? ==> File(f, image) == None
    ensures r.Some? ==> Prepared(f, j, image, r.value.out) && r.value == Sunk(f, j, r.value.out, 0)
  {
    j := JobOf(f, image);
    var align := AlignOf(|image|);
    if align >= 128 || |image| >= 0x1_0000_0000_0000_0000 || f.blockSize >= 0x1_0000_0000 {
      return None, j;
    }
    BlockCount(image, f.blockSize);
    var n := |image| / f.blockSize;
    var head := Header(|image|, f.blockSize, align) + Zeros(4 * (n + 1));
    assert head + Body(f.pad, []) == head;
    r := Some(Sink(head, seq(n + 1, _ => 0), |head|));
    assert r.value.index == Entries([], j.align, n + 1);
  }

  /** The loop of `compress_zso`, one block at a time */
  method StoreOneByOne(f: Format, align: nat, image: seq<Byte>, n: nat, start: Sink) returns (r: Option<Sink>)
    requires f.blockSize > 0 && n == |Blocks(image, f.blockSize)| && |start.index| == n + 1
    ensures r == StoreSeq(f, align, start, 0, Blocks(image, f.blockSize))
  {
    var s, rest, block := start, image, 0;
    while block < n
      invariant |s.index| == n + 1 && block + |Blocks(rest, f.blockSize)| == n
      invariant StoreSeq(f, align, s, block, Blocks(rest, f.blockSize))
        == StoreSeq(f, align, start, 0, Blocks(image, f.blockSize))
      decreases n - block
    {
      var x := rest[..f.blockSize];
      rest := rest[f.blockSize..];
      var z := f.codec.compress(x);
      var stored := Store(f, align, x, z, f.threshold, s, block);
      if stored.None? {
        return None;
      }
      s, block := stored.value, block + 1;
    }
    r := Some(s);
  }

  /** `compress_zso`, one block at a time */
  method CompressOneByOne(f: Format, image: seq<Byte>) returns (r: Option<seq<Byte>>)
    requires f.blockSize > 0
    ensures r == File(f, image)
  {
    var start, j := Prepare(f, image);
    if start.None? {
      return None;
    }
    BlockCount(image, f.blockSize);
    StoringIsLayout(f, j, start.value.out);
    var n, align := |image| / f.blockSize, AlignOf(|image|);
    var s := StoreOneByOne(f, align, image, n, start.value);
    if s.None? {
      return None;
    }
    r := Finish(f, align, n, s.value, j, image, start.value.out);
  }

  /** The next `count` blocks of the input, and what the pool makes of them. */
  method CompressTogether(f: Format, rest: seq<Byte>, count: nat)
    returns (plain: seq<seq<Byte>>, packed: seq<seq<Byte>>, rest': seq<Byte>)
    requires f.blockSize > 0 && count <= |Blocks(rest, f.blockSize)|
    ensures plain + Blocks(rest', f.blockSize) == Blocks(rest, f.blockSize)
    ensures |plain| == |packed| == count
    ensures forall i :: 0 <= i < count ==> packed[i] == f.codec.compress(plain[i])
  {
    plain, packed, rest' := [], [], rest;
    while |plain| < count
      invariant |plain| <= count && plain + Blocks(rest', f.blockSize) == Blocks(rest, f.blockSize)
      decreases count - |plain|
    {
      assert Blocks(rest', f.blockSize) != [];
      plain, rest' := plain + [rest'[..f.blockSize]], rest'[f.blockSize..];
    }
    packed := seq(|plain|, i requires 0 <= i < |plain| => f.codec.compress(plain[i]));
  }

  /** Stores a compressed batch; `more` are the blocks behind it. */
  method StoreAll(f: Format, align: nat, plain: seq<seq<Byte>>, packed: seq<seq<Byte>>, s: Sink, block: nat,
      ghost more: seq<seq<Byte>>)
    returns (r: Option<Sink>)
    requires f.threshold <= 100 && |plain| == |packed| && block + |plain| + |more| <= |s.index|
    requires forall i :: 0 <= i < |plain| ==> packed[i] == f.codec.compress(plain[i])
    ensures r.Some? ==> |r.value.index| == |s.index|
    ensures StoreSeq(f, align, s, block, plain + more) ==
      if r.None? then None else StoreSeq(f, align, r.value, block + |plain|, more)
  {
    var t, i := s, 0;
    assert plain[0..] == plain;
    while i < |packed|
      invariant 0 <= i <= |packed| && |t.index| == |s.index|
      invariant StoreSeq(f, align, t, block + i, plain[i..] + more) == StoreSeq(f, align, s, block, plain + more)
    {
      assert (plain[i..] + more)[1..] == plain[i + 1..] + more;
      var stored := Store(f, align, plain[i], packed[i], if f.threshold < 100 then f.threshold else 100, t, block + i);
      if stored.None? {
        return None;
      }
      t, i := stored.value, i + 1;
    }
    assert plain[i..] + more == more;
    r := Some(t);
  }

  /** The loop of `compress_zso` with worker processes: up to `batch` blocks are compressed together, then stored in
      order. */
  method StoreBatched(f: Format, align: nat, image: seq<Byte>, n: nat, start: Sink, batch: nat)
      returns (r: Option<Sink>)
    requires f.blockSize > 0 && batch > 0 && f.threshold <= 100
    requires n == |Blocks(image, f.blockSize)| && |start.index| == n + 1
    ensures r == StoreSeq(f, align, start, 0, Blocks(image, f.blockSize))
  {
    var s, rest, block := start, image, 0;
    while block < n
      invariant |s.index| == n + 1 && block + |Blocks(rest, f.blockSize)| == n
      invariant StoreSeq(f, align, s, block, Blocks(rest, f.blockSize))
        == StoreSeq(f, align, start, 0, Blocks(image, f.blockSize))
      decreases n - block
    {
      ghost var todo := Blocks(rest, f.blockSize);
      var plain, packed;
      plain, packed, rest := CompressTogether(f, rest, if n - block < batch then n - block else batch);
      var stored := StoreAll(f, align, plain, packed, s, block, Blocks(rest, f.blockSize));
      assert StoreSeq(f, align, s, block, todo) == StoreSeq(f, align, start, 0, Blocks(image, f.blockSize));
      if stored.None? {
        return None;
      }
      s, block := stored.value, block + |packed|;
    }
    r := Some(s);
  }

  /** `compress_zso` with worker processes */
  method CompressBatched(f: Format, image: seq<Byte>, batch: nat) returns (r: Option<seq<Byte>>)
    requires f.blockSize > 0 && batch > 0 && f.threshold <= 100
    ensures r == File(f, image)
  {
    var start, j := Prepare(f, image);
    if start.None? {
      return None;
    }
    BlockCount(image, f.blockSize);
    StoringIsLayout(f, j, start.value.out);
    var n, align := |image| / f.blockSize, AlignOf(|image|);
    var s := StoreBatched(f, align, image, n, start.value, batch);
    if s.None? {
      return None;
    }
    r := Finish(f, align, n, s.value, j, image, start.value.out);
  }
}
