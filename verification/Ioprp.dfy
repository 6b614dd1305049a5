/**
  The IOPRP archive rewriter (src/ioprp.c). An archive is a directory of 16-byte entries, ended by an entry
  without a name, followed by the files in order, each padded to a multiple of 16. The directory is itself one
  of the files, so the output directory is overwritten by a copy of the input directory while it is being
  written.
 */
module Ioprp {
  import opened Prelude
  import opened Bytes

  const ENTRY: nat := 16
  const NAME: nat := 10

  datatype Entry = Entry(name: seq<Byte>, extinfo: nat, size: nat)

  // ----- Reading an archive -----

  /** The bytes of a field before its first zero. */
  function CString(field: seq<Byte>): (s: seq<Byte>)
    ensures |s| <= |field| && s == field[..|s|]
    ensures |s| < |field| ==> field[|s|] == 0
    ensures forall i :: 0 <= i < |s| ==> s[i] != 0
  {
    if field == [] || field[0] == 0 then [] else [field[0]] + CString(field[1..])
  }

  function EntryOf(e: seq<Byte>): Entry
    requires |e| == ENTRY
  {
    Entry(CString(e[..NAME]), Word(e[NAME..12]), Word(e[12..ENTRY]))
  }

  /** Entry `k` of the directory that an image starts with. */
  function EntryAt(img: seq<Byte>, k: nat): Entry
    requires ENTRY * k + ENTRY <= |img|
  {
    EntryOf(img[ENTRY * k..ENTRY * k + ENTRY])
  }

  /** `n` named entries and a terminator. */
  ghost predicate Directory(img: seq<Byte>, n: nat) {
    && ENTRY * n + ENTRY <= |img|
    && (forall k :: 0 <= k < n ==> img[ENTRY * k] != 0)
    && img[ENTRY * n] == 0
  }

  function Entries(img: seq<Byte>, n: nat): (es: seq<Entry>)
    requires ENTRY * n <= |img|
    ensures |es| == n && forall k :: 0 <= k < n ==> es[k] == EntryAt(img, k)
  {
    seq(n, k requires 0 <= k < n => EntryAt(img, k))
  }

  /** The zero bytes behind a file. */
  function Pad(size: nat): (p: nat)
    ensures p < 16
  {
    if size % 16 == 0 then 0 else 16 - size % 16
  }

  function Round(size: nat): nat {
    size + Pad(size)
  }

  /** Where file `k` starts, walking the directory with sizes rounded up. */
  function Start(es: seq<Entry>, k: nat): nat
    requires k <= |es|
  {
    if k == 0 then 0 else Start(es, k - 1) + Round(es[k - 1].size)
  }

  /** Sizes go up to the next multiple of 16. */
  lemma RoundIs(size: nat)
    ensures Round(size) % 16 == 0 && size <= Round(size) < size + 16
  {
  }

  /** Files start at multiples of 16, each behind the one before it and with fewer than 16 bytes between them. */
  lemma {:induction false} StartsAre(es: seq<Entry>, k: nat)
    requires k < |es|
    ensures Start(es, 0) == 0 && Start(es, k + 1) % 16 == 0
    ensures Start(es, k) + es[k].size <= Start(es, k + 1) < Start(es, k) + es[k].size + 16
    ensures k == 0 || Start(es, k) % 16 == 0
  {
    RoundIs(es[k].size);
    if k > 0 {
      StartsAre(es, k - 1);
    }
  }

  /** An entry's fields: ten bytes of name, two of extended info size, four of size. */
  lemma EntryFields(e: seq<Byte>)
    requires |e| == 16
    ensures EntryOf(e).extinfo == e[10] + 0x100 * (e[11] as int)
    ensures EntryOf(e).size == e[12] + 0x100 * (e[13] as int) + 0x1_0000 * (e[14] as int) + 0x100_0000 * (e[15] as int)
    ensures var n := |EntryOf(e).name|;
      n <= 10 && EntryOf(e).name == e[..n] && (forall i :: 0 <= i < n ==> e[i] != 0) && (n < 10 ==> e[n] == 0)
  {
    WordBytes(e[10..12]);
    WordBytes(e[12..16]);
    var name := CString(e[..10]);
    assert e[..10][..|name|] == e[..|name|];
  }

  lemma {:induction false} StartsGrow(es: seq<Entry>, j: nat, k: nat)
    requires j <= k <= |es|
    ensures Start(es, j) <= Start(es, k)
    decreases k
  {
    if j < k {
      StartsGrow(es, j, k - 1);
    }
  }

  // ----- What the rewriter should produce -----

  datatype Modules = Modules(cdvdman: seq<Byte>, cdvdfsv: seq<Byte>, eesync: seq<Byte>)

  const CDVDMAN: seq<Byte> := [67, 68, 86, 68, 77, 65, 78]
  const CDVDFSV: seq<Byte> := [67, 68, 86, 68, 70, 83, 86]
  const EESYNC: seq<Byte> := [69, 69, 83, 89, 78, 67]

  /** The bytes of a text. */
  predicate Spells(name: seq<Byte>, text: string) {
    |name| == |text| && forall i :: 0 <= i < |name| ==> name[i] == text[i] as int
  }

  /** The name is one of the three whose files are replaced. */
  predicate Replaced(name: seq<Byte>) {
    Spells(name, "CDVDMAN") || Spells(name, "CDVDFSV") || Spells(name, "EESYNC")
  }

  lemma ReplacementIs(name: seq<Byte>, m: Modules)
    ensures Replacement(name, m).Some? <==> Replaced(name)
    ensures Spells(name, "CDVDMAN") ==> Replacement(name, m) == Some(m.cdvdman)
    ensures Spells(name, "CDVDFSV") ==> Replacement(name, m) == Some(m.cdvdfsv)
    ensures Spells(name, "EESYNC") ==> Replacement(name, m) == Some(m.eesync)
  {
    SpellsOne(name, CDVDMAN, "CDVDMAN");
    SpellsOne(name, CDVDFSV, "CDVDFSV");
    SpellsOne(name, EESYNC, "EESYNC");
    assert CDVDMAN[4] != CDVDFSV[4] && |EESYNC| != |CDVDMAN| && |EESYNC| != |CDVDFSV|;
  }

  lemma SpellsOne(name: seq<Byte>, word: seq<Byte>, text: string)
    requires Spells(word, text)
    ensures Spells(name, text) <==> name == word
  {
  }

  function Replacement(name: seq<Byte>, m: Modules): Option<seq<Byte>> {
    if name == CDVDMAN then Some(m.cdvdman)
    else if name == CDVDFSV then Some(m.cdvdfsv)
    else if name == EESYNC then Some(m.eesync)
    else None
  }

  /** Files that are copied lie inside the image. */
  ghost predicate FileInside(img: seq<Byte>, es: seq<Entry>, m: Modules, k: nat)
    requires k < |es|
  {
    Replacement(es[k].name, m).None? ==> Start(es, k) + es[k].size <= |img|
  }

  /** The replacement, or the file of the input. */
  function NewFile(img: seq<Byte>, es: seq<Entry>, m: Modules, k: nat): seq<Byte>
    requires k < |es| && FileInside(img, es, m, k)
  {
    match Replacement(es[k].name, m)
    case Some(data) => data
    case None => img[Start(es, k)..Start(es, k) + es[k].size]
  }

  /** The entries and files of the new archive. */
  datatype Plan = Plan(entries: seq<Entry>, files: seq<seq<Byte>>)

  function PlanOf(img: seq<Byte>, n: nat, m: Modules): (p: Plan)
    requires ENTRY * n <= |img|
    requires forall k :: 0 <= k < n ==> FileInside(img, Entries(img, n), m, k)
    ensures |p.entries| == |p.files| == n
    ensures forall k :: 0 <= k < n ==> p.files[k] == NewFile(img, Entries(img, n), m, k)
    ensures forall k :: 0 <= k < n ==> p.entries[k] == EntryAt(img, k).(size := |p.files[k]|)
  {
    var es := Entries(img, n);
    var files := seq(n, k requires 0 <= k < n => NewFile(img, es, m, k));
    Plan(seq(n, k requires 0 <= k < n => es[k].(size := |files[k]|)), files)
  }

  // ----- Writing an entry -----

  lemma {:induction false} CStringIs(field: seq<Byte>, name: seq<Byte>)
    requires |name| < |field| && field[..|name|] == name && field[|name|] == 0
    requires forall i :: 0 <= i < |name| ==> name[i] != 0
    ensures CString(field) == name
  {
    if name != [] {
      assert field[0] == name[0];
      assert field[1..][..|name| - 1] == name[1..];
      CStringIs(field[1..], name[1..]);
    }
  }

  /** An entry that fits its fields. */
  ghost predicate Storable(e: Entry) {
    && |e.name| < NAME && (forall i :: 0 <= i < |e.name| ==> e.name[i] != 0)
    && e.extinfo < 65536 && e.size < 0x1_0000_0000
  }

  /** The size field, then the name with its terminator, then the extended info size. */
  function PutEntry(o: seq<Byte>, at: nat, e: Entry): (r: seq<Byte>)
    requires at + ENTRY <= |o| && |e.name| < NAME
    ensures |r| == |o|
  {
    Splice(Splice(Splice(o, at + 12, Little(4, e.size)), at, e.name + [0]), at + NAME, Little(2, e.extinfo))
  }

  /** Outside its sixteen bytes nothing changes; inside, the three fields are where they belong. */
  lemma {:induction false} PutEntryBytes(o: seq<Byte>, at: nat, e: Entry)
    requires at + ENTRY <= |o| && |e.name| < NAME
    ensures var r := PutEntry(o, at, e);
            && (forall i :: 0 <= i < |o| && !(at <= i < at + ENTRY) ==> r[i] == o[i])
            && (forall i :: 0 <= i < |e.name| ==> r[at + i] == e.name[i]) && r[at + |e.name|] == 0
            && (forall i :: 0 <= i < 2 ==> r[at + NAME + i] == Little(2, e.extinfo)[i])
            && (forall i :: 0 <= i < 4 ==> r[at + 12 + i] == Little(4, e.size)[i])
  {
    var s1 := Splice(o, at + 12, Little(4, e.size));
    var s2 := Splice(s1, at, e.name + [0]);
    SpliceIndex(o, at + 12, Little(4, e.size));
    SpliceIndex(s1, at, e.name + [0]);
    SpliceIndex(s2, at + NAME, Little(2, e.extinfo));
  }

  /** Sixteen bytes laid out like that read back as the entry. */
  lemma {:induction false} EntryReads(f: seq<Byte>, e: Entry)
    requires |f| == ENTRY && Storable(e)
    requires (forall i :: 0 <= i < |e.name| ==> f[i] == e.name[i]) && f[|e.name|] == 0
    requires forall i :: 0 <= i < 2 ==> f[NAME + i] == Little(2, e.extinfo)[i]
    requires forall i :: 0 <= i < 4 ==> f[12 + i] == Little(4, e.size)[i]
    ensures EntryOf(f) == e
  {
    assert f[..NAME][..|e.name|] == e.name;
    CStringIs(f[..NAME], e.name);
    assert f[NAME..12] == Little(2, e.extinfo);
    assert f[12..ENTRY] == Little(4, e.size);
    Pow256Values();
    WordOfLittle(4, e.size);
    WordOfLittle(2, e.extinfo);
  }

  lemma {:induction false} PutEntryReads(o: seq<Byte>, at: nat, e: Entry)
    requires at + ENTRY <= |o| && Storable(e)
    ensures EntryOf(PutEntry(o, at, e)[at..at + ENTRY]) == e
  {
    PutEntryBytes(o, at, e);
    EntryReads(PutEntry(o, at, e)[at..at + ENTRY], e);
  }

  // ----- One turn of the loop -----

  /**
    A plan that can be carried out in `len` bytes: the entries fit their fields, the first file is empty and
    the second is a copy of a directory that has the first entry of the plan in place and a terminator at the end.
   */
  ghost predicate Feasible(p: Plan, len: nat) {
    && |p.files| == |p.entries| >= 2 && Start(p.entries, |p.entries|) <= len
    && (forall k :: 0 <= k < |p.entries| ==> Storable(p.entries[k]) && p.entries[k].size == |p.files[k]|)
    && p.files[0] == []
    && var n := |p.entries|;
    && Directory(p.files[1], n) && EntryAt(p.files[1], 0) == p.entries[0]
  }

  lemma {:induction false} Layout(es: seq<Entry>, k: nat)
    requires 2 <= |es| && k < |es| && es[0].size == 0
    ensures Start(es, 1) == 0 && Start(es, 2) == Round(es[1].size) <= Start(es, |es|)
    ensures k >= 2 ==> Start(es, 2) <= Start(es, k)
    ensures Start(es, k) + Round(es[k].size) <= Start(es, |es|)
  {
    assert Start(es, 1) == Start(es, 0) + Round(es[0].size);
    assert Start(es, 2) == Start(es, 1) + Round(es[1].size);
    StartsGrow(es, k + 1, |es|);
    StartsGrow(es, 2, |es|);
    if k >= 2 {
      StartsGrow(es, 2, k);
    }
  }

  lemma {:induction false} FileFits(p: Plan, len: nat, k: nat)
    requires Feasible(p, len) && k < |p.entries|
    ensures Start(p.entries, k) + Round(|p.files[k]|) <= len
    ensures ENTRY * |p.entries| + ENTRY <= |p.files[1]| <= len
    ensures k <= 1 ==> Start(p.entries, k) == 0
    ensures k >= 2 ==> |p.files[1]| <= Start(p.entries, k)
  {
    Layout(p.entries, k);
  }

  /** Clear the entry at `ek`, copy the file to `at`, fill the entry in, clear the padding. */
  function Written(o: seq<Byte>, ek: nat, e: Entry, at: nat, file: seq<Byte>): (r: seq<Byte>)
    requires ek + ENTRY <= |o| && at + Round(|file|) <= |o| && |e.name| < NAME
    ensures |r| == |o|
  {
    Splice(PutEntry(Splice(Splice(o, ek, Zeros(ENTRY)), at, file), ek, e), at + |file|, Zeros(Round(|file|) - |file|))
  }

  /** What a turn leaves outside its entry, byte by byte. */
  ghost predicate BytesEffect(o: seq<Byte>, o': seq<Byte>, ek: nat, at: nat, file: seq<Byte>)
    requires ek + ENTRY <= |o| && at + Round(|file|) <= |o|
  {
    && |o'| == |o|
    && (forall i :: 0 <= i < |o| && !(ek <= i < ek + ENTRY) && !(at <= i < at + Round(|file|)) ==> o'[i] == o[i])
    && (forall i :: at <= i < at + |file| && !(ek <= i < ek + ENTRY) ==> o'[i] == file[i - at])
    && (forall i :: at + |file| <= i < at + Round(|file|) ==> o'[i] == 0)
  }

  /** And its entry, which the padding must not fall on. */
  ghost predicate Effect(o: seq<Byte>, o': seq<Byte>, ek: nat, e: Entry, at: nat, file: seq<Byte>)
    requires ek + ENTRY <= |o| && at + Round(|file|) <= |o|
  {
    BytesEffect(o, o', ek, at, file) && EntryOf(o'[ek..ek + ENTRY]) == e
  }

  lemma {:induction false} FourWrites(
    o: seq<Byte>, s1: seq<Byte>, s2: seq<Byte>, s3: seq<Byte>, r: seq<Byte>, ek: nat, at: nat, file: seq<Byte>)
    requires |o| == |s1| == |s2| == |s3| == |r| && ek + ENTRY <= |o| && at + Round(|file|) <= |o|
    requires ek + ENTRY <= at + |file| || file == []
    requires forall i :: 0 <= i < |o| && !(ek <= i < ek + ENTRY) ==> s1[i] == o[i]
    requires forall i :: 0 <= i < |o| ==> s2[i] == if at <= i < at + |file| then file[i - at] else s1[i]
    requires forall i :: 0 <= i < |o| && !(ek <= i < ek + ENTRY) ==> s3[i] == s2[i]
    requires forall i :: 0 <= i < |o| ==> r[i] == if at + |file| <= i < at + Round(|file|) then 0 else s3[i]
    ensures BytesEffect(o, r, ek, at, file)
    ensures forall i :: ek <= i < ek + ENTRY ==> r[i] == s3[i]
  {
  }

  lemma {:induction false} WrittenBytes(o: seq<Byte>, ek: nat, e: Entry, at: nat, file: seq<Byte>)
    requires ek + ENTRY <= |o| && at + Round(|file|) <= |o| && |e.name| < NAME
    requires ek + ENTRY <= at + |file| || file == []
    ensures var s3, r := PutEntry(Splice(Splice(o, ek, Zeros(ENTRY)), at, file), ek, e), Written(o, ek, e, at, file);
            && BytesEffect(o, r, ek, at, file)
            && forall i :: ek <= i < ek + ENTRY ==> r[i] == s3[i]
  {
    var s1 := Splice(o, ek, Zeros(ENTRY));
    var s2 := Splice(s1, at, file);
    SpliceIndex(o, ek, Zeros(ENTRY));
    SpliceIndex(s1, at, file);
    PutEntryBytes(s2, ek, e);
    var s3 := PutEntry(s2, ek, e);
    SpliceIndex(s3, at + |file|, Zeros(Round(|file|) - |file|));
    FourWrites(o, s1, s2, s3, Splice(s3, at + |file|, Zeros(Round(|file|) - |file|)), ek, at, file);
  }

  lemma {:induction false} WrittenEffect(o: seq<Byte>, ek: nat, e: Entry, at: nat, file: seq<Byte>)
    requires ek + ENTRY <= |o| && at + Round(|file|) <= |o| && Storable(e)
    requires ek + ENTRY <= at + |file| || file == []
    ensures Effect(o, Written(o, ek, e, at, file), ek, e, at, file)
  {
    var s2 := Splice(Splice(o, ek, Zeros(ENTRY)), at, file);
    WrittenBytes(o, ek, e, at, file);
    PutEntryReads(s2, ek, e);
    assert Written(o, ek, e, at, file)[ek..ek + ENTRY] == PutEntry(s2, ek, e)[ek..ek + ENTRY];
  }

  // ----- The whole loop -----

  /** What the bytes of entry, file and padding `j` must be once they are written. */
  ghost predicate EntryStands(p: Plan, o: seq<Byte>, j: nat)
    requires j < |p.entries| && ENTRY * j + ENTRY <= |o|
  {
    EntryAt(o, j) == p.entries[j]
  }

  ghost predicate FileStands(p: Plan, o: seq<Byte>, j: nat)
    requires j < |p.entries| == |p.files|
  {
    var at, size := Start(p.entries, j), |p.files[j]|;
    at + size <= |o| && forall i :: at <= i < at + size ==> o[i] == p.files[j][i - at]
  }

  ghost predicate GapIsZero(p: Plan, o: seq<Byte>, j: nat)
    requires j < |p.entries| == |p.files|
  {
    var at, size := Start(p.entries, j), |p.files[j]|;
    at + Round(size) <= |o| && forall i :: at + size <= i < at + Round(size) ==> o[i] == 0
  }

  /** From the terminator on, the directory is still the copy it was. */
  ghost predicate TailStands(p: Plan, o: seq<Byte>)
    requires |p.files| >= 2
  {
    |p.files[1]| <= |o| && forall i :: ENTRY * |p.entries| <= i < |p.files[1]| ==> o[i] == p.files[1][i]
  }

  /** After `k` turns. */
  ghost predicate Inv(p: Plan, o: seq<Byte>, k: nat)
    requires Feasible(p, |o|) && k <= |p.entries|
  {
    FileFits(p, |o|, 1);
    && (forall j :: 0 <= j < k ==> EntryStands(p, o, j))
    && (k >= 2 ==> TailStands(p, o))
    && (forall j :: 1 <= j < k ==> GapIsZero(p, o, j))
    && (forall j :: 2 <= j < k ==> FileStands(p, o, j))
  }

  ghost predicate Turned(p: Plan, o: seq<Byte>, o': seq<Byte>, k: nat)
    requires Feasible(p, |o|) && k < |p.entries|
  {
    FileFits(p, |o|, k);
    Effect(o, o', ENTRY * k, p.entries[k], Start(p.entries, k), p.files[k])
  }

  lemma {:induction false} DirectoryBytes(p: Plan, o: seq<Byte>, o': seq<Byte>)
    requires Feasible(p, |o|) && Turned(p, o, o', 1)
    ensures |o'| == |o| >= Round(|p.files[1]|) && |p.files[1]| >= ENTRY * |p.entries| + ENTRY
    ensures forall i :: 0 <= i < |p.files[1]| && !(ENTRY <= i < 2 * ENTRY) ==> o'[i] == p.files[1][i]
    ensures GapIsZero(p, o', 1) && EntryStands(p, o', 1)
  {
    FileFits(p, |o|, 1);
  }

  /** The second turn copies the input directory over the first entry, and leaves the terminator behind. */
  lemma {:induction false} DirectoryTurn(p: Plan, o: seq<Byte>, o': seq<Byte>)
    requires Feasible(p, |o|) && Turned(p, o, o', 1)
    ensures Inv(p, o', 2)
  {
    DirectoryBytes(p, o, o');
    SameBytesSameEntry(p.files[1], o', 0);
    InvTwo(p, o');
  }

  lemma {:induction false} InvTwo(p: Plan, o: seq<Byte>)
    requires Feasible(p, |o|) && ENTRY * |p.entries| + ENTRY <= |o|
    requires EntryStands(p, o, 0) && EntryStands(p, o, 1) && TailStands(p, o) && GapIsZero(p, o, 1)
    ensures Inv(p, o, 2)
  {
    forall j | 0 <= j < 2
      ensures EntryStands(p, o, j)
    {
      assert j == 0 || j == 1;
    }
  }

  lemma {:induction false} SameBytesSameEntry(a: seq<Byte>, b: seq<Byte>, k: nat)
    requires ENTRY * k + ENTRY <= |a| && ENTRY * k + ENTRY <= |b|
    requires forall i :: ENTRY * k <= i < ENTRY * k + ENTRY ==> a[i] == b[i]
    ensures EntryAt(a, k) == EntryAt(b, k)
  {
    assert a[ENTRY * k..ENTRY * k + ENTRY] == b[ENTRY * k..ENTRY * k + ENTRY];
  }

  /** Later turns write behind the directory and behind all earlier files, but for their own entry. */
  lemma {:induction false} LaterTurn(p: Plan, o: seq<Byte>, o': seq<Byte>, k: nat, i: nat)
    requires Feasible(p, |o|) && 2 <= k < |p.entries| && Turned(p, o, o', k)
    requires i < Start(p.entries, k) && !(ENTRY * k <= i < ENTRY * k + ENTRY)
    ensures i < |o'| == |o| && o'[i] == o[i]
  {
    FileFits(p, |o|, k);
  }

  lemma {:induction false} EntryKept(p: Plan, o: seq<Byte>, o': seq<Byte>, k: nat, j: nat)
    requires Feasible(p, |o|) && 2 <= k < |p.entries| && Turned(p, o, o', k) && j < k
    ensures ENTRY * j + ENTRY <= |o| == |o'| && EntryAt(o', j) == EntryAt(o, j)
  {
    FileFits(p, |o|, k);
    forall i | ENTRY * j <= i < ENTRY * j + ENTRY
      ensures o'[i] == o[i]
    {
      LaterTurn(p, o, o', k, i);
    }
    SameBytesSameEntry(o, o', j);
  }

  lemma {:induction false} FileKept(p: Plan, o: seq<Byte>, o': seq<Byte>, k: nat, j: nat)
    requires Feasible(p, |o|) && 2 <= k < |p.entries| && Turned(p, o, o', k) && 1 <= j < k
    ensures GapIsZero(p, o, j) ==> GapIsZero(p, o', j)
    ensures 2 <= j && FileStands(p, o, j) ==> FileStands(p, o', j)
    ensures TailStands(p, o) ==> TailStands(p, o')
  {
    FileFits(p, |o|, k);
    FileFits(p, |o|, j);
    StartsGrow(p.entries, j + 1, k);
    forall i | ENTRY * |p.entries| <= i < Start(p.entries, k)
      ensures o'[i] == o[i]
    {
      LaterTurn(p, o, o', k, i);
    }
  }

  lemma {:induction false} LaterTurns(p: Plan, o: seq<Byte>, o': seq<Byte>, k: nat)
    requires Feasible(p, |o|) && 2 <= k < |p.entries| && Inv(p, o, k) && Turned(p, o, o', k)
    ensures Inv(p, o', k + 1)
  {
    FileFits(p, |o|, k);
    forall j | 0 <= j < k
      ensures EntryStands(p, o', j)
    {
      EntryKept(p, o, o', k, j);
      assert EntryStands(p, o, j);
    }
    forall j | 1 <= j < k
      ensures GapIsZero(p, o', j) && (j >= 2 ==> FileStands(p, o', j)) && TailStands(p, o')
    {
      FileKept(p, o, o', k, j);
      assert GapIsZero(p, o, j);
      assert j >= 2 ==> FileStands(p, o, j);
    }
    OwnTurn(p, o, o', k);
  }

  lemma {:induction false} OwnTurn(p: Plan, o: seq<Byte>, o': seq<Byte>, k: nat)
    requires Feasible(p, |o|) && 2 <= k < |p.entries| && Turned(p, o, o', k)
    ensures ENTRY * k + ENTRY <= |o'| && EntryStands(p, o', k) && GapIsZero(p, o', k) && FileStands(p, o', k)
  {
    FileFits(p, |o|, k);
  }

  lemma {:induction false} TurnKeepsInv(p: Plan, o: seq<Byte>, o': seq<Byte>, k: nat)
    requires Feasible(p, |o|) && k < |p.entries| && Inv(p, o, k) && Turned(p, o, o', k)
    ensures Inv(p, o', k + 1)
  {
    if k == 1 {
      DirectoryTurn(p, o, o');
    } else if k >= 2 {
      LaterTurns(p, o, o', k);
    }
  }

  // ----- The rewriter -----

  /**
    What the input must look like: names end inside their field, files that are copied lie inside the image,
    the first entry is empty and stays so, and the second file covers the directory with its terminator.
   */
  ghost predicate Archive(img: seq<Byte>, n: nat, m: Modules) {
    && Directory(img, n) && n >= 2
    && var es := Entries(img, n);
    && (forall k :: 0 <= k < n ==> |es[k].name| < NAME && FileInside(img, es, m, k))
    && Start(es, n) < 0x1_0000_0000
    && Replacement(es[0].name, m).None? && es[0].size == 0
    && Replacement(es[1].name, m).None? && es[1].size >= ENTRY * n + ENTRY
  }

  /** The output buffer holds the new archive. */
  ghost predicate Room(img: seq<Byte>, n: nat, m: Modules, len: nat)
    requires Archive(img, n, m)
  {
    Start(PlanOf(img, n, m).entries, n) <= len < 0x1_0000_0000
  }

  lemma {:induction false} ArchiveIsFeasible(img: seq<Byte>, n: nat, m: Modules, len: nat)
    requires Archive(img, n, m) && Room(img, n, m, len)
    ensures Feasible(PlanOf(img, n, m), len)
  {
    var p, es := PlanOf(img, n, m), Entries(img, n);
    assert NewFile(img, es, m, 0) == [];
    assert Start(es, 1) == Start(es, 0) + Round(es[0].size) == 0;
    assert p.files[1] == img[..es[1].size];
    assert p.files[1][0..ENTRY] == img[0..ENTRY];
    assert p.entries[0] == EntryAt(img, 0);
    forall k | 0 <= k < n
      ensures Storable(p.entries[k])
    {
      EntryIsStorable(img, n, m, len, k);
    }
  }

  lemma {:induction false} EntryIsStorable(img: seq<Byte>, n: nat, m: Modules, len: nat, k: nat)
    requires Archive(img, n, m) && Room(img, n, m, len) && k < n
    ensures Storable(PlanOf(img, n, m).entries[k])
  {
    var p := PlanOf(img, n, m);
    assert NewFile(img, Entries(img, n), m, 0) == [];
    assert p.entries[0].size == 0;
    Layout(p.entries, k);
    WordIsSmall(img[ENTRY * k..ENTRY * k + ENTRY][NAME..12]);
    Pow256Values();
  }

  /** `Align_offsets`: a size with low bits set goes up to the next multiple of 16. */
  method Aligned(size: nat) returns (r: nat)
    ensures r == Round(size) && r % 16 == 0 && size <= r < size + 16
  {
    if size % 16 == 0 {
      r := size;
    } else {
      r := (size + 15) / 16 * 16;
    }
  }

  method FillEntry(out: array<Byte>, at: nat, e: Entry)
    requires at + ENTRY <= out.Length && |e.name| < NAME
    modifies out
    ensures out[..] == PutEntry(old(out[..]), at, e)
  {
    var size, name, ext := Little(4, e.size), e.name + [0], Little(2, e.extinfo);
    assert size[0..4] == size && name[0..|name|] == name && ext[0..2] == ext;
    Copy(out, at + 12, size, 0, 4);
    Copy(out, at, name, 0, |name|);
    Copy(out, at + NAME, ext, 0, 2);
  }

  /** One turn of the loop, on the buffer. */
  method Turn(out: array<Byte>, ek: nat, e: Entry, at: nat, src: seq<Byte>, from: nat)
    requires ek + ENTRY <= out.Length && from + e.size <= |src| && at + Round(e.size) <= out.Length
    requires Storable(e) && (ek + ENTRY <= at + e.size || e.size == 0)
    modifies out
    ensures Effect(old(out[..]), out[..], ek, e, at, src[from..from + e.size])
  {
    WrittenEffect(out[..], ek, e, at, src[from..from + e.size]);
    WriteFile(out, ek, e, at, src, from);
  }

  /** The four writes of a turn, in order. */
  method WriteFile(out: array<Byte>, ek: nat, e: Entry, at: nat, src: seq<Byte>, from: nat)
    requires ek + ENTRY <= out.Length && from + e.size <= |src| && at + Round(e.size) <= out.Length && Storable(e)
    modifies out
    ensures out[..] == Written(old(out[..]), ek, e, at, src[from..from + e.size])
  {
    Clear(out, ek, ENTRY);
    Copy(out, at, src, from, e.size);
    FillEntry(out, ek, e);
    var aligned := Aligned(e.size);
    Clear(out, at + e.size, aligned - e.size);
  }

  /** Which bytes an entry's file is taken from. */
  method Source(img: seq<Byte>, ghost es: seq<Entry>, ghost k: nat, e: Entry, offsetIn: nat, m: Modules)
    returns (src: seq<Byte>, from: nat, size: nat)
    requires k < |es| && e == es[k] && FileInside(img, es, m, k) && offsetIn == Start(es, k)
    ensures from + size <= |src| && src[from..from + size] == NewFile(img, es, m, k)
  {
    if e.name == CDVDMAN {
      src, from, size := m.cdvdman, 0, |m.cdvdman|;
    } else if e.name == CDVDFSV {
      src, from, size := m.cdvdfsv, 0, |m.cdvdfsv|;
    } else if e.name == EESYNC {
      src, from, size := m.eesync, 0, |m.eesync|;
    } else {
      src, from, size := img, offsetIn, e.size;
    }
  }

  /** The bytes of `o` from `at` on are `file`. */
  ghost predicate Holds(o: seq<Byte>, at: nat, file: seq<Byte>) {
    at + |file| <= |o| && o[at..at + |file|] == file
  }

  /**
    File `k` of the new archive `o`, found by walking its directory `es'`, against entry `k` of the old one: the
    same name and extended info size, and zeros up to the next file. A file of one of the three names is the module
    given for that name; any other, unless it is the directory itself, has the size and, byte for byte, the contents
    of file `k` of the old archive.
   */
  ghost predicate FilePreserved(img: seq<Byte>, es: seq<Entry>, m: Modules, o: seq<Byte>, es': seq<Entry>, k: nat)
    requires k < |es| == |es'|
  {
    var name, at, size := es[k].name, Start(es', k), es'[k].size;
    && es'[k].name == name && es'[k].extinfo == es[k].extinfo
    && AllZero(o, at + size, at + Round(size))
    && (Spells(name, "CDVDMAN") ==> size == |m.cdvdman| && Holds(o, at, m.cdvdman))
    && (Spells(name, "CDVDFSV") ==> size == |m.cdvdfsv| && Holds(o, at, m.cdvdfsv))
    && (Spells(name, "EESYNC") ==> size == |m.eesync| && Holds(o, at, m.eesync))
    && (!Replaced(name) ==> size == es[k].size)
    && (!Replaced(name) && k != 1
      ==> Start(es, k) + size <= |img| && Holds(o, at, img[Start(es, k)..Start(es, k) + size]))
  }

  /** The same with the file's bytes as planned. */
  ghost predicate FileMatches(img: seq<Byte>, es: seq<Entry>, m: Modules, o: seq<Byte>, es': seq<Entry>, k: nat)
    requires k < |es| == |es'| && FileInside(img, es, m, k)
  {
    var at, size := Start(es', k), es'[k].size;
    && es'[k].name == es[k].name && es'[k].extinfo == es[k].extinfo && size == |NewFile(img, es, m, k)|
    && AllZero(o, at + size, at + Round(size))
    && (k != 1 ==> at + size <= |o| && o[at..at + size] == NewFile(img, es, m, k))
  }

  lemma {:induction false} MatchedIsPreserved(img: seq<Byte>, es: seq<Entry>, m: Modules, o: seq<Byte>,
      es': seq<Entry>, k: nat)
    requires k < |es| == |es'| && FileInside(img, es, m, k) && FileMatches(img, es, m, o, es', k)
    requires k == 1 ==> Replacement(es[k].name, m).None?
    ensures FilePreserved(img, es, m, o, es', k)
  {
    ReplacementIs(es[k].name, m);
    var file := NewFile(img, es, m, k);
    assert k != 1 ==> Holds(o, Start(es', k), file);
    assert Replacement(es[k].name, m).None? ==> file == img[Start(es, k)..Start(es, k) + es[k].size];
  }

  /** The meaning the rewrite preserves. */
  ghost predicate Preserves(img: seq<Byte>, n: nat, m: Modules, o: seq<Byte>, end: nat)
    requires Archive(img, n, m)
  {
    && Directory(o, n)
    && (forall k :: 0 <= k < n ==> FilePreserved(img, Entries(img, n), m, o, Entries(o, n), k))
    && end == Start(Entries(o, n), n)
  }

  ghost predicate AllZero(o: seq<Byte>, from: nat, to: nat) {
    to <= |o| && forall i :: from <= i < to ==> o[i] == 0
  }

  lemma {:induction false} NamesStayNamed(img: seq<Byte>, n: nat, m: Modules, o: seq<Byte>)
    requires Archive(img, n, m) && Room(img, n, m, |o|) && Feasible(PlanOf(img, n, m), |o|)
      && Inv(PlanOf(img, n, m), o, n)
    ensures Directory(o, n) && Entries(o, n) == PlanOf(img, n, m).entries
  {
    var p := PlanOf(img, n, m);
    FileFits(p, |o|, 1);
    forall k | 0 <= k < n
      ensures o[ENTRY * k] != 0 && EntryAt(o, k) == p.entries[k]
    {
      assert EntryStands(p, o, k);
      FirstByte(img, k);
      FirstByte(o, k);
    }
    assert TailStands(p, o);
    assert o[ENTRY * n] == p.files[1][ENTRY * n];
  }

  lemma {:induction false} FirstByte(img: seq<Byte>, k: nat)
    requires ENTRY * k + ENTRY <= |img|
    ensures EntryAt(img, k).name == [] <==> img[ENTRY * k] == 0
  {
    var field := img[ENTRY * k..ENTRY * k + ENTRY][..NAME];
    assert field[0] == img[ENTRY * k];
  }

  /** Entry `k` of the plan is made from entry `k` of the image. */
  ghost predicate Planned(img: seq<Byte>, es: seq<Entry>, m: Modules, p: Plan, k: nat) {
    && k < |p.entries| == |es| == |p.files| && ENTRY * k + ENTRY <= |img|
    && es[k] == EntryAt(img, k) && FileInside(img, es, m, k)
    && p.files[k] == NewFile(img, es, m, k) && p.entries[k] == es[k].(size := |p.files[k]|)
  }

  lemma {:induction false} FileReads(p: Plan, o: seq<Byte>, k: nat)
    requires Feasible(p, |o|) && Inv(p, o, |p.entries|) && k < |p.entries|
    ensures var at, size := Start(p.entries, k), p.entries[k].size;
            && size == |p.files[k]| && at + Round(size) <= |o| && AllZero(o, at + size, at + Round(size))
            && (k != 1 ==> o[at..at + size] == p.files[k])
  {
    FileFits(p, |o|, k);
    assert k >= 1 ==> GapIsZero(p, o, k);
    assert k >= 2 ==> FileStands(p, o, k);
  }

  lemma {:induction false} PlanPreserves(img: seq<Byte>, es: seq<Entry>, m: Modules, p: Plan, o: seq<Byte>, k: nat)
    requires Feasible(p, |o|) && Inv(p, o, |p.entries|) && Planned(img, es, m, p, k)
    ensures FileMatches(img, es, m, o, p.entries, k)
  {
    FileReads(p, o, k);
  }

  lemma {:induction false} InvPreserves(img: seq<Byte>, n: nat, m: Modules, o: seq<Byte>)
    requires Archive(img, n, m) && Room(img, n, m, |o|) && Feasible(PlanOf(img, n, m), |o|)
      && Inv(PlanOf(img, n, m), o, n)
    ensures Preserves(img, n, m, o, Start(PlanOf(img, n, m).entries, n))
  {
    var p, es := PlanOf(img, n, m), Entries(img, n);
    NamesStayNamed(img, n, m, o);
    forall k | 0 <= k < n
      ensures FilePreserved(img, es, m, o, Entries(o, n), k)
    {
      PlanPreserves(img, es, m, p, o, k);
      MatchedIsPreserved(img, es, m, o, p.entries, k);
    }
  }

  /** The body of the loop. */
  method NextFile(img: seq<Byte>, ghost es: seq<Entry>, ghost p: Plan, out: array<Byte>, m: Modules,
                  k: nat, offsetIn: nat, offsetOut: nat)
    returns (nextIn: nat, nextOut: nat)
    requires Feasible(p, out.Length) && Planned(img, es, m, p, k)
    requires offsetIn == Start(es, k) && offsetOut == Start(p.entries, k) && Inv(p, out[..], k)
    modifies out
    ensures nextIn == Start(es, k + 1) && nextOut == Start(p.entries, k + 1) && Inv(p, out[..], k + 1)
  {
    var e := EntryAt(img, k);
    var src, from, size := Source(img, es, k, e, offsetIn, m);
    PutFile(out, p, k, e.(size := size), offsetOut, src, from);
    var alignedIn := Aligned(e.size);
    var alignedOut := Aligned(size);
    nextIn, nextOut := offsetIn + alignedIn, offsetOut + alignedOut;
  }

  /** The planned file and entry are written. */
  method PutFile(out: array<Byte>, ghost p: Plan, k: nat, e: Entry, offsetOut: nat, src: seq<Byte>, from: nat)
    requires Feasible(p, out.Length) && k < |p.entries| && Inv(p, out[..], k)
    requires offsetOut == Start(p.entries, k) && e == p.entries[k]
    requires from + e.size <= |src| && src[from..from + e.size] == p.files[k]
    modifies out
    ensures Inv(p, out[..], k + 1)
  {
    ghost var o := out[..];
    FileFits(p, |o|, k);
    Turn(out, ENTRY * k, e, offsetOut, src, from);
    assert Turned(p, o, out[..], k);
    TurnKeepsInv(p, o, out[..], k);
  }

  /** `patch_IOPRP_image`. */
  method PatchImage(img: seq<Byte>, ghost n: nat, out: array<Byte>, m: Modules) returns (end: nat)
    requires Archive(img, n, m) && Room(img, n, m, out.Length)
    modifies out
    ensures Preserves(img, n, m, out[..], end)
  {
    ghost var p := PlanOf(img, n, m);
    ArchiveIsFeasible(img, n, m, out.Length);
    end := Rewrite(img, Entries(img, n), p, out, m);
    InvPreserves(img, n, m, out[..]);
  }

  method Rewrite(img: seq<Byte>, ghost es: seq<Entry>, ghost p: Plan, out: array<Byte>, m: Modules) returns (end: nat)
    requires Feasible(p, out.Length) && |p.entries| == |es| && Directory(img, |es|)
    requires forall k :: 0 <= k < |es| ==> Planned(img, es, m, p, k)
    modifies out
    ensures Inv(p, out[..], |es|) && end == Start(p.entries, |es|)
  {
    var offsetIn, offsetOut, k := 0, 0, 0;
    while img[ENTRY * k] != 0
      invariant k <= |es|
      invariant offsetIn == Start(es, k) && offsetOut == Start(p.entries, k)
      invariant Inv(p, out[..], k)
      decreases |es| - k
    {
      offsetIn, offsetOut := NextFile(img, es, p, out, m, k, offsetIn, offsetOut);
      k := k + 1;
    }
    end := offsetOut;
  }
}
