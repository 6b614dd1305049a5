/** Configuration sets of src/config.c: ordered entries that act as a map, their text form, and the dirty bit. */
module Config {
  import opened Prelude

  const KEY_MAX: nat := 31
  const VALUE_MAX: nat := 255

  /** Texts hold no NUL; stored ones were clipped to their buffers. */
  datatype Entry = Entry(key: string, val: string)

  predicate ValidKey(key: string) {
    key != "" && '=' !in key
  }

  /** Entries whose key starts with a hash are never saved. */
  predicate Hidden(key: string) {
    key != "" && key[0] == '#'
  }

  /** The first entry with that key, or the length. A key longer than the buffer matches none. */
  function Find(es: seq<Entry>, key: string): (i: nat)
    ensures i <= |es| && (i < |es| ==> es[i].key == key)
    ensures forall j :: 0 <= j < i ==> es[j].key != key
  {
    if es == [] then 0
    else
      var i := Find(es[..|es| - 1], key);
      if i < |es| - 1 || es[|es| - 1].key == key then i else |es|
  }

  predicate Has(es: seq<Entry>, key: string) {
    Find(es, key) < |es|
  }

  /** `configSetStr` */
  function Put(es: seq<Entry>, key: string, val: string): seq<Entry> {
    if !ValidKey(key) then es
    else if Has(es, key) then es[Find(es, key) := Entry(key, Clip(val, VALUE_MAX))]
    else es + [Entry(Clip(key, KEY_MAX), Clip(val, VALUE_MAX))]
  }

  /** Whether `configSetStr` sets the dirty bit. */
  predicate PutMarks(es: seq<Entry>, key: string, val: string) {
    ValidKey(key) && !Hidden(key) && (Has(es, key) ==> es[Find(es, key)].val != val)
  }

  /** `configRemoveKey` */
  function Remove(es: seq<Entry>, key: string): seq<Entry> {
    if !ValidKey(key) then es else Without(es, key)
  }

  function Without(es: seq<Entry>, key: string): seq<Entry> {
    if es == [] then []
    else Without(es[..|es| - 1], key) + if es[|es| - 1].key == key then [] else [es[|es| - 1]]
  }

  predicate RemoveMarks(es: seq<Entry>, key: string) {
    ValidKey(key) && !Hidden(key) && Has(es, key)
  }

  /** `configMerge` */
  function Merge(es: seq<Entry>, from: seq<Entry>): seq<Entry> {
    if from == [] then es
    else Put(Merge(es, from[..|from| - 1]), from[|from| - 1].key, from[|from| - 1].val)
  }

  predicate MergeMarks(es: seq<Entry>, from: seq<Entry>) {
    from != [] &&
    (MergeMarks(es, from[..|from| - 1])
     || PutMarks(Merge(es, from[..|from| - 1]), from[|from| - 1].key, from[|from| - 1].val))
  }

  // ---- a set is a map ----

  predicate Distinct(es: seq<Entry>) {
    forall i, j :: 0 <= i < j < |es| ==> es[i].key != es[j].key
  }

  predicate Sized(es: seq<Entry>) {
    forall i :: 0 <= i < |es| ==> ValidKey(es[i].key) && |es[i].key| <= KEY_MAX && |es[i].val| <= VALUE_MAX
  }

  predicate WellFormed(es: seq<Entry>) {
    Distinct(es) && Sized(es)
  }

  function AsMap(es: seq<Entry>): map<string, string> {
    if es == [] then map[] else AsMap(es[..|es| - 1])[es[|es| - 1].key := es[|es| - 1].val]
  }

  /** The map is what `configGetStr` looks up. */
  lemma {:induction false} MapIsLookup(es: seq<Entry>, key: string)
    requires Distinct(es)
    ensures key in AsMap(es) <==> Has(es, key)
    ensures Has(es, key) ==> AsMap(es)[key] == es[Find(es, key)].val
  {
    if es != [] {
      MapIsLookup(es[..|es| - 1], key);
    }
  }

  lemma {:induction false} MapUpdate(es: seq<Entry>, i: nat, val: string)
    requires Distinct(es) && i < |es|
    ensures AsMap(es[i := Entry(es[i].key, val)]) == AsMap(es)[es[i].key := val]
  {
    var e, init := Entry(es[i].key, val), es[..|es| - 1];
    if i == |es| - 1 {
      assert es[i := e][..i] == init;
    } else {
      assert es[i := e][..|es| - 1] == init[i := e];
      MapUpdate(init, i, val);
    }
  }

  /** A key that fits its buffer is set as in a map, and keys stay distinct. */
  lemma {:induction false} PutIsUpdate(es: seq<Entry>, key: string, val: string)
    requires WellFormed(es) && ValidKey(key) && |key| <= KEY_MAX
    ensures WellFormed(Put(es, key, val))
    ensures AsMap(Put(es, key, val)) == AsMap(es)[key := Clip(val, VALUE_MAX)]
  {
    if Has(es, key) {
      MapUpdate(es, Find(es, key), Clip(val, VALUE_MAX));
    } else {
      assert Put(es, key, val)[..|es|] == es;
    }
  }

  lemma LongKeyAppends(es: seq<Entry>, key: string, val: string)
    requires ValidKey(key) && |key| > KEY_MAX && forall i :: 0 <= i < |es| ==> |es[i].key| <= KEY_MAX
    ensures Put(es, key, val) == es + [Entry(Clip(key, KEY_MAX), Clip(val, VALUE_MAX))]
  {
  }

  /** A longer key is never found again: setting it keeps the keys distinct exactly when its clipped form is new. */
  lemma {:induction false} LongKeyDuplicates(es: seq<Entry>, key: string, val: string)
    requires WellFormed(es) && ValidKey(key) && |key| > KEY_MAX
    ensures Put(es, key, val) == es + [Entry(Clip(key, KEY_MAX), Clip(val, VALUE_MAX))]
    ensures Distinct(Put(es, key, val)) <==> !Has(es, Clip(key, KEY_MAX))
    ensures !Distinct(Put(Put(es, key, val), key, val))
  {
    var i := Find(es, Clip(key, KEY_MAX));
    var es' := Put(es, key, val);
    assert es'[|es|].key == Clip(key, KEY_MAX);
    if i < |es| {
      assert es'[i].key == es'[|es|].key;
    }
    var es'' := Put(es', key, val);
    assert forall j :: 0 <= j < |es'| ==> |es'[j].key| <= KEY_MAX;
    assert es''[|es'|].key == es''[|es|].key;
  }

  lemma {:induction false} KeysFit(es: seq<Entry>, key: string)
    requires key in AsMap(es) && forall i :: 0 <= i < |es| ==> |es[i].key| <= KEY_MAX
    ensures |key| <= KEY_MAX
  {
    if key != es[|es| - 1].key {
      KeysFit(es[..|es| - 1], key);
    }
  }

  /** Setting a valid key acts as on a map exactly when the key fits its buffer. */
  lemma {:induction false} PutIsUpdateExactly(es: seq<Entry>, key: string, val: string)
    requires WellFormed(es) && ValidKey(key)
    ensures AsMap(Put(es, key, val)) == AsMap(es)[key := Clip(val, VALUE_MAX)] <==> |key| <= KEY_MAX
  {
    if |key| <= KEY_MAX {
      PutIsUpdate(es, key, val);
    } else {
      LongKeyDuplicates(es, key, val);
      if key in AsMap(Put(es, key, val)) {
        KeysFit(Put(es, key, val), key);
      }
    }
  }

  /** A key too long for its buffer, set twice in an empty set, is there twice. */
  lemma {:induction false} LongKeyTwice(key: string, v: string, w: string)
    requires ValidKey(key) && |key| > KEY_MAX
    ensures Put(Put([], key, v), key, w)
      == [Entry(Clip(key, KEY_MAX), Clip(v, VALUE_MAX)), Entry(Clip(key, KEY_MAX), Clip(w, VALUE_MAX))]
  {
    LongKeyAppends([], key, v);
    var e := Entry(Clip(key, KEY_MAX), Clip(v, VALUE_MAX));
    assert [] + [e] == [e];
    LongKeyAppends([e], key, w);
  }

  /** 32 times the letter k */
  lemma LongKeyExample(key: string)
    requires |key| == 32 && forall i :: 0 <= i < 32 ==> key[i] == 'k'
    ensures Put(Put([], key, "1"), key, "2") == [Entry(key[..31], "1"), Entry(key[..31], "2")]
  {
    assert '=' !in key;
    LongKeyTwice(key, "1", "2");
  }

  lemma {:induction false} WithoutIs(es: seq<Entry>, key: string)
    ensures forall e :: e in Without(es, key) <==> e in es && e.key != key
    ensures Distinct(es) ==> Distinct(Without(es, key))
  {
    if es != [] {
      var init := es[..|es| - 1];
      WithoutIs(init, key);
      assert es == init + [es[|es| - 1]];
      var w := Without(init, key);
      assert forall i :: 0 <= i < |w| ==> w[i] in init;
    }
  }

  lemma {:induction false} WithoutIsMinus(es: seq<Entry>, key: string)
    ensures AsMap(Without(es, key)) == AsMap(es) - {key}
  {
    if es != [] {
      var init, e := es[..|es| - 1], es[|es| - 1];
      WithoutIsMinus(init, key);
      var w := Without(init, key);
      MapAlgebra(AsMap(init), map[], e.key, e.val, key);
      if e.key == key {
        assert Without(es, key) == w;
      } else {
        assert (w + [e])[..|w|] == w;
        assert AsMap(w + [e]) == AsMap(w)[e.key := e.val];
      }
    }
  }

  lemma MapAlgebra(m: map<string, string>, n: map<string, string>, k: string, v: string, gone: string)
    ensures if k == gone then m[k := v] - {gone} == m - {gone} else m[k := v] - {gone} == (m - {gone})[k := v]
    ensures (m + n)[k := v] == m + n[k := v]
  {
  }

  lemma {:induction false} InvalidIsAbsent(es: seq<Entry>, key: string)
    requires Sized(es) && !ValidKey(key)
    ensures key !in AsMap(es)
  {
    if es != [] {
      InvalidIsAbsent(es[..|es| - 1], key);
    }
  }

  lemma {:induction false} RemoveIsMinus(es: seq<Entry>, key: string)
    requires WellFormed(es)
    ensures WellFormed(Remove(es, key)) && AsMap(Remove(es, key)) == AsMap(es) - {key}
  {
    WithoutIs(es, key);
    var w := Without(es, key);
    assert forall i :: 0 <= i < |w| ==> w[i] in es;
    if ValidKey(key) {
      WithoutIsMinus(es, key);
    } else {
      InvalidIsAbsent(es, key);
    }
  }

  /** Merging overrides. */
  lemma {:induction false} MergeIsOverride(es: seq<Entry>, from: seq<Entry>)
    requires WellFormed(es) && WellFormed(from)
    ensures WellFormed(Merge(es, from)) && AsMap(Merge(es, from)) == AsMap(es) + AsMap(from)
  {
    if from != [] {
      var init, e := from[..|from| - 1], from[|from| - 1];
      MergeIsOverride(es, init);
      PutIsUpdate(Merge(es, init), e.key, e.val);
      MapAlgebra(AsMap(es), AsMap(init), e.key, e.val, "");
    } else {
      assert AsMap(es) + map[] == AsMap(es);
    }
  }

  /** Merging a set into itself: the entries not yet reached are as they were. */
  lemma {:induction false} SelfMerge(es: seq<Entry>, i: nat)
    requires i <= |es|
    ensures var m := Merge(es, es[..i]);
      && |m| == |es| && (forall k :: 0 <= k < |es| ==> m[k].key == es[k].key)
      && (forall k :: i <= k < |es| ==> m[k] == es[k])
  {
    if i > 0 {
      SelfMerge(es, i - 1);
      assert es[..i][..i - 1] == es[..i - 1];
      var m := Merge(es, es[..i - 1]);
      assert Find(m, es[i - 1].key) <= i - 1;
    }
  }

  // ---- order ----

  /** Setting a key writes its entry in place, or appends one; an invalid key changes nothing. */
  lemma {:induction false} PutIsInPlace(a: seq<Entry>, e: Entry, b: seq<Entry>, key: string, val: string)
    requires Distinct(a + [e] + b)
    ensures ValidKey(e.key) ==> Put(a + [e] + b, e.key, val) == a + [Entry(e.key, Clip(val, 255))] + b
    ensures key != "" && '=' !in key && (forall i :: 0 <= i < |a| ==> a[i].key != key) ==>
      Put(a, key, val) == a + [Entry(Clip(key, 31), Clip(val, 255))]
    ensures key == "" || '=' in key ==> Put(a, key, val) == a
  {
    var es := a + [e] + b;
    assert es[|a|] == e;
    assert Find(es, e.key) == |a|;
  }

  /** Removing a key takes its entry out and leaves the others in order. */
  lemma {:induction false} RemoveIsInPlace(a: seq<Entry>, e: Entry, b: seq<Entry>)
    requires Distinct(a + [e] + b) && ValidKey(e.key)
    ensures Remove(a + [e] + b, e.key) == a + b
    decreases |b|
  {
    var es := a + [e] + b;
    assert es[|a|] == e;
    if b == [] {
      assert es[..|es| - 1] == a && a + b == a;
      forall i | 0 <= i < |a| ensures a[i].key != e.key {
        assert es[i].key != es[|a|].key;
      }
      WithoutAbsent(a, e.key);
    } else {
      var init, last := b[..|b| - 1], b[|b| - 1];
      assert es[..|es| - 1] == a + [e] + init && es[|es| - 1] == last;
      assert es[|es| - 1].key != es[|a|].key;
      RemoveIsInPlace(a, e, init);
      assert a + init + [last] == a + b;
    }
  }

  lemma {:induction false} WithoutAbsent(es: seq<Entry>, key: string)
    requires forall i :: 0 <= i < |es| ==> es[i].key != key
    ensures Without(es, key) == es
  {
    if es != [] {
      WithoutAbsent(es[..|es| - 1], key);
    }
  }

  // ---- the text form ----

  predicate IsBlank(c: char) {
    c == ' ' || c == '\t'
  }

  function Skip(line: string): (r: string)
    ensures r != "" ==> !IsBlank(r[0])
    ensures line != "" && !IsBlank(line[0]) ==> r == line
  {
    if line != "" && IsBlank(line[0]) then Skip(line[1..]) else line
  }

  /** The first position of `c`, or the length: `strchr` */
  function Position(s: string, c: char): (i: nat)
    ensures i <= |s| && (i < |s| ==> s[i] == c) && c !in s[..i]
  {
    if s == "" || s[0] == c then 0
    else
      var i := Position(s[1..], c);
      assert s[..1 + i] == [s[0]] + s[1..][..i];
      1 + i
  }

  /** `splitAssignment` */
  function Assignment(line: string): (r: Option<Entry>)
    ensures r.Some? ==> line != "" && '=' !in r.value.key && (r.value.key != "" ==> !IsBlank(r.value.key[0]))
  {
    var s := Skip(line);
    var i := Position(s, '=');
    if i == |s| then None else Some(Entry(s[..i], s[i + 1..]))
  }

  /** What has been read: the entries and the current prefix. */
  datatype Reader = Reader(es: seq<Entry>, prefix: string)

  function ReadLine(r: Reader, line: string): Reader {
    var a := Assignment(line);
    if a.Some? then
      var prefix := if IsBlank(line[0]) then r.prefix else "";
      var key := if prefix != "" then Clip(prefix + "_" + a.value.key, KEY_MAX) else a.value.key;
      Reader(Put(r.es, key, a.value.val), prefix)
    else
      var colon := Position(line, ':');
      if 0 < colon < |line| then r.(prefix := line[..colon]) else r
  }

  function Read(r: Reader, lines: seq<string>): Reader {
    if lines == [] then r else ReadLine(Read(r, lines[..|lines| - 1]), lines[|lines| - 1])
  }

  /** `configRead` into an empty set. */
  function Parse(lines: seq<string>): seq<Entry> {
    Read(Reader([], ""), lines).es
  }

  /** The line is within the reader's buffers. */
  predicate Fits(line: string) {
    var a := Assignment(line);
    if a.Some? then |a.value.key| <= KEY_MAX && |a.value.val| <= VALUE_MAX
    else Position(line, ':') < |line| ==> Position(line, ':') <= KEY_MAX
  }

  function Line(e: Entry): string {
    e.key + "=" + e.val
  }

  /** The lines that `configWrite` writes. */
  function Print(es: seq<Entry>): seq<string> {
    if es == [] then []
    else
      var e := es[|es| - 1];
      Print(es[..|es| - 1]) + if e.key == "" || Hidden(e.key) then [] else [Line(e)]
  }

  function Visible(es: seq<Entry>): seq<Entry> {
    if es == [] then []
    else
      var e := es[|es| - 1];
      Visible(es[..|es| - 1]) + if Hidden(e.key) then [] else [e]
  }

  predicate Tidy(es: seq<Entry>) {
    forall i :: 0 <= i < |es| ==> es[i].key != "" && !IsBlank(es[i].key[0])
  }

  lemma {:induction false} VisibleIs(es: seq<Entry>)
    ensures forall e :: e in Visible(es) <==> e in es && !Hidden(e.key)
    ensures Distinct(es) ==> Distinct(Visible(es))
  {
    if es != [] {
      var init := es[..|es| - 1];
      VisibleIs(init);
      assert es == init + [es[|es| - 1]];
      var w := Visible(init);
      assert forall i :: 0 <= i < |w| ==> w[i] in init;
    }
  }

  lemma {:induction false} PositionOf(key: string, rest: string, c: char)
    requires c !in key
    ensures Position(key + [c] + rest, c) == |key|
  {
    var s := key + [c] + rest;
    if key != "" {
      assert s[1..] == key[1..] + [c] + rest;
      PositionOf(key[1..], rest, c);
    }
  }

  lemma LineIsAssignment(e: Entry)
    requires ValidKey(e.key) && !IsBlank(e.key[0])
    ensures Assignment(Line(e)) == Some(e)
  {
    PositionOf(e.key, e.val, '=');
    assert Line(e)[..|e.key|] == e.key && Line(e)[|e.key| + 1..] == e.val;
  }

  /** Printed lines leave no prefix behind, and what is read from them has no leading blanks. */
  lemma {:induction false} PrintedIsTidy(es: seq<Entry>)
    requires Sized(es)
    ensures var r := Read(Reader([], ""), Print(es)); r.prefix == "" && Tidy(r.es)
  {
    if es != [] {
      var init, e := es[..|es| - 1], es[|es| - 1];
      PrintedIsTidy(init);
      if !Hidden(e.key) {
        var lines := Print(es);
        assert lines[..|lines| - 1] == Print(init) && lines[|lines| - 1] == Line(e);
        HasAssignment(e);
        ReadAssignment(Read(Reader([], ""), Print(init)), Line(e));
      } else {
        assert Print(es) == Print(init);
      }
    }
  }

  lemma ReadAssignment(r: Reader, line: string)
    requires r.prefix == "" && Tidy(r.es) && Assignment(line).Some?
    ensures ReadLine(r, line).prefix == "" && Tidy(ReadLine(r, line).es)
  {
  }

  lemma HasAssignment(e: Entry)
    ensures Assignment(Line(e)).Some?
  {
    SkipKeeps(Line(e));
    assert Line(e)[|e.key|] == '=';
  }

  lemma {:induction false} SkipKeeps(line: string)
    requires '=' in line
    ensures '=' in Skip(line)
  {
    if IsBlank(line[0]) {
      SkipKeeps(line[1..]);
    }
  }

  lemma {:induction false} NotVisible(es: seq<Entry>, key: string)
    requires !Has(es, key)
    ensures !Has(Visible(es), key)
  {
    VisibleIs(es);
    var v := Visible(es);
    assert forall i :: 0 <= i < |v| ==> v[i] in es;
  }

  lemma {:induction false} TidyRoundTrip(es: seq<Entry>)
    requires WellFormed(es) && Tidy(Visible(es))
    ensures Read(Reader([], ""), Print(es)) == Reader(Visible(es), "")
  {
    if es != [] {
      var init, e := es[..|es| - 1], es[|es| - 1];
      assert forall i :: 0 <= i < |Visible(init)| ==> Visible(es)[i] == Visible(init)[i];
      TidyRoundTrip(init);
      if Hidden(e.key) {
        assert Print(es) == Print(init) && Visible(es) == Visible(init);
      } else {
        var lines := Print(es);
        assert lines[..|lines| - 1] == Print(init) && lines[|lines| - 1] == Line(e);
        assert Visible(es)[|Visible(init)|] == e;
        LineIsAssignment(e);
        NotVisible(init, e.key);
      }
    }
  }

  /** Reading the printed lines gives back the visible entries, in order, if and only if no key starts with a blank. */
  lemma {:induction false} LinesRoundTrip(es: seq<Entry>)
    requires WellFormed(es)
    ensures Parse(Print(es)) == Visible(es) <==> Tidy(Visible(es))
  {
    PrintedIsTidy(es);
    if Tidy(Visible(es)) {
      TidyRoundTrip(es);
    }
  }

  // ---- prefixes ----

  /** A line with a colon and no assignment sets the prefix, which is what is before the colon. */
  lemma PrefixLine(r: Reader, prefix: string, rest: string)
    requires prefix != "" && ':' !in prefix && '=' !in prefix && '=' !in rest
    ensures ReadLine(r, prefix + ":" + rest) == Reader(r.es, prefix)
  {
    var line := prefix + ":" + rest;
    SkipKeepsOut(line);
    PositionOf(prefix, rest, ':');
  }

  /** An indented assignment keeps the prefix, which goes in front of its key. */
  lemma IndentedLine(r: Reader, blank: char, e: Entry)
    requires IsBlank(blank) && ValidKey(e.key) && !IsBlank(e.key[0])
    ensures ReadLine(r, [blank] + Line(e)) == Reader(
      Put(r.es, if r.prefix == "" then e.key else Clip(r.prefix + "_" + e.key, 31), e.val), r.prefix)
  {
    var line := [blank] + Line(e);
    assert line[1..] == Line(e);
    assert Skip(line) == Skip(Line(e));
    LineIsAssignment(e);
  }

  /** An assignment that is not indented ends the prefix. */
  lemma OuterLine(r: Reader, e: Entry)
    requires ValidKey(e.key) && !IsBlank(e.key[0])
    ensures ReadLine(r, Line(e)) == Reader(Put(r.es, e.key, e.val), "")
  {
    LineIsAssignment(e);
  }

  /** A line with neither changes nothing. */
  lemma OtherLine(r: Reader, line: string)
    requires '=' !in line && (':' !in line || line[0] == ':')
    ensures ReadLine(r, line) == r
  {
    SkipKeepsOut(line);
  }

  /** The entries as lines indented by a tab. */
  function Indented(es: seq<Entry>): (lines: seq<string>)
    ensures |lines| == |es| && forall i :: 0 <= i < |es| ==> lines[i] == "\t" + Line(es[i])
  {
    seq(|es|, i requires 0 <= i < |es| => "\t" + Line(es[i]))
  }

  function Prefixed(prefix: string, es: seq<Entry>): (r: seq<Entry>)
    ensures |r| == |es| && forall i :: 0 <= i < |es| ==> r[i] == Entry(prefix + "_" + es[i].key, es[i].val)
  {
    seq(|es|, i requires 0 <= i < |es| => Entry(prefix + "_" + es[i].key, es[i].val))
  }

  /** The prefix and the key of each entry fit. */
  predicate GroupFits(prefix: string, es: seq<Entry>) {
    && prefix != "" && '=' !in prefix && Sized(es) && Tidy(es)
    && forall i :: 0 <= i < |es| ==> |prefix| + 1 + |es[i].key| <= KEY_MAX
  }

  lemma {:induction false} OneMoreInGroup(done: seq<Entry>, prefix: string, e: Entry)
    requires GroupFits(prefix, [e]) && forall i :: 0 <= i < |done| ==> done[i].key != prefix + "_" + e.key
    ensures ReadLine(Reader(done, prefix), "\t" + Line(e))
      == Reader(done + [Entry(prefix + "_" + e.key, e.val)], prefix)
  {
    assert e == [e][0];
    var key := prefix + "_" + e.key;
    IndentedLine(Reader(done, prefix), '\t', e);
    assert Put(done, key, e.val) == done + [Entry(key, e.val)];
  }

  lemma {:induction false} GroupFollows(r: Reader, lines: seq<string>, es: seq<Entry>)
    requires var now := Read(r, lines); now.es == [] && GroupFits(now.prefix, es)
    requires Distinct(es)
    ensures var now := Read(r, lines); Read(r, lines + Indented(es)) == Reader(Prefixed(now.prefix, es), now.prefix)
  {
    var prefix := Read(r, lines).prefix;
    if es == [] {
      assert lines + Indented(es) == lines;
    } else {
      var init, e := es[..|es| - 1], es[|es| - 1];
      var done := Prefixed(prefix, init);
      LastKeyIsNew(prefix, es);
      GroupFollows(r, lines, init);
      ReadStep(r, lines + Indented(init), "\t" + Line(e));
      OneMoreInGroup(done, prefix, e);
      GroupStep(lines, prefix, es);
    }
  }

  lemma GroupStep(lines: seq<string>, prefix: string, es: seq<Entry>)
    requires es != []
    ensures var init, e := es[..|es| - 1], es[|es| - 1];
      && lines + Indented(es) == lines + Indented(init) + ["\t" + Line(e)]
      && Prefixed(prefix, es) == Prefixed(prefix, init) + [Entry(prefix + "_" + e.key, e.val)]
  {
  }

  lemma LastKeyIsNew(prefix: string, es: seq<Entry>)
    requires es != [] && Distinct(es)
    ensures var done := Prefixed(prefix, es[..|es| - 1]);
      forall i :: 0 <= i < |done| ==> done[i].key != prefix + "_" + es[|es| - 1].key
  {
    forall i | 0 <= i < |es| - 1 ensures prefix + "_" + es[i].key != prefix + "_" + es[|es| - 1].key {
      KeysDiffer(prefix, es[i].key, es[|es| - 1].key);
    }
  }

  lemma KeysDiffer(prefix: string, k: string, l: string)
    ensures prefix + "_" + k == prefix + "_" + l ==> k == l
  {
    assert (prefix + "_" + k)[|prefix| + 1..] == k && (prefix + "_" + l)[|prefix| + 1..] == l;
  }

  /** Lines indented under a prefix are read as entries whose keys start with it, in order. */
  lemma {:induction false} GroupIsPrefixed(prefix: string, es: seq<Entry>)
    requires ':' !in prefix && GroupFits(prefix, es) && Distinct(es)
    ensures Parse([prefix + ":"] + Indented(es)) == Prefixed(prefix, es)
  {
    var r, head := Reader([], ""), prefix + ":";
    PrefixLine(r, prefix, "");
    assert head == prefix + ":" + "";
    ReadStep(r, [], head);
    assert [] + [head] == [head];
    GroupFollows(r, [head], es);
  }

  lemma ReadStep(r: Reader, lines: seq<string>, line: string)
    ensures Read(r, lines + [line]) == ReadLine(Read(r, lines), line)
  {
    assert (lines + [line])[..|lines|] == lines;
  }

  // ---- files ----

  /** The lines as they are written, each with its end. */
  function Text(lines: seq<string>): string {
    if lines == [] then "" else lines[0] + "\r\n" + Text(lines[1..])
  }

  function CutReturn(raw: string): string {
    if raw != "" && raw[|raw| - 1] == '\r' then raw[..|raw| - 1] else raw
  }

  /**
    `readFileBuffer`: the lines of a file, up to each line feed and without a carriage return before it. Lines that
    start with a hash are comments.
   */
  function LinesOf(text: string): seq<string>
    decreases |text|
  {
    if text == "" then []
    else
      var i := Position(text, '\n');
      var line := CutReturn(text[..i]);
      (if Hidden(line) then [] else [line]) + LinesOf(if i < |text| then text[i + 1..] else "")
  }

  function PrintFile(es: seq<Entry>): string {
    Text(Print(es))
  }

  function ParseFile(text: string): seq<Entry> {
    Parse(LinesOf(text))
  }

  predicate Unbroken(e: Entry) {
    '\n' !in e.key && '\n' !in e.val
  }

  predicate AllUnbroken(es: seq<Entry>) {
    forall i :: 0 <= i < |es| ==> Unbroken(es[i])
  }

  lemma {:induction false} TextAppend(lines: seq<string>, line: string)
    ensures Text(lines + [line]) == Text(lines) + line + "\r\n"
  {
    if lines == [] {
      assert [line][1..] == [] && lines + [line] == [line];
    } else {
      TextAppend(lines[1..], line);
      assert (lines + [line])[1..] == lines[1..] + [line];
    }
  }

  lemma {:induction false} TextSplits(lines: seq<string>)
    requires forall i :: 0 <= i < |lines| ==> '\n' !in lines[i] && !Hidden(lines[i])
    ensures LinesOf(Text(lines)) == lines
  {
    if lines != [] {
      var l, rest := lines[0], lines[1..];
      TextSplits(rest);
      FirstLine(l, Text(rest));
      assert Text(lines) == l + "\r\n" + Text(rest);
    }
  }

  lemma FirstLine(l: string, rest: string)
    requires '\n' !in l && !Hidden(l)
    ensures LinesOf(l + "\r\n" + rest) == [l] + LinesOf(rest)
  {
    var raw, text := l + "\r", l + "\r\n" + rest;
    PositionOf(raw, rest, '\n');
    assert text == raw + ['\n'] + rest;
    assert text[..|raw|] == raw && text[|raw| + 1..] == rest && CutReturn(raw) == l;
  }

  /** A line ends at its line feed; one that starts with a hash is no line. */
  lemma {:induction false} LineEnds(line: string, rest: string)
    requires '\n' !in line && (line == "" || line[|line| - 1] != '\r')
    ensures LinesOf(line + "\n" + rest) == Unless(line != "" && line[0] == '#', line) + LinesOf(rest)
  {
    RawLine(line, rest);
  }

  /** A carriage return before the line feed is cut. */
  lemma {:induction false} ReturnIsCut(line: string, rest: string)
    requires '\n' !in line
    ensures LinesOf(line + "\r\n" + rest) == Unless(line != "" && line[0] == '#', line) + LinesOf(rest)
  {
    RawLine(line + "\r", rest);
    ReturnParts(line, rest);
  }

  lemma ReturnParts(line: string, rest: string)
    ensures CutReturn(line + "\r") == line && line + "\r" + "\n" + rest == line + "\r\n" + rest
  {
  }

  function Unless(comment: bool, line: string): seq<string> {
    if comment then [] else [line]
  }

  lemma {:induction false} LastLineEnds(line: string)
    requires line != "" && '\n' !in line && line[|line| - 1] != '\r'
    ensures LinesOf(line) == Unless(line[0] == '#', line)
  {
    assert Position(line, '\n') == |line|;
    assert CutReturn(line[..|line|]) == line;
    assert LinesOf("") == [];
  }

  lemma RawLine(raw: string, rest: string)
    requires '\n' !in raw
    ensures LinesOf(raw + "\n" + rest) == Unless(Hidden(CutReturn(raw)), CutReturn(raw)) + LinesOf(rest)
  {
    PositionOf(raw, rest, '\n');
    var text := raw + ['\n'] + rest;
    assert text[..|raw|] == raw && text[|raw| + 1..] == rest;
  }

  lemma {:induction false} LinesAreUnbroken(text: string)
    ensures forall i :: 0 <= i < |LinesOf(text)| ==> '\n' !in LinesOf(text)[i]
    decreases |text|
  {
    if text != "" {
      var i := Position(text, '\n');
      LinesAreUnbroken(if i < |text| then text[i + 1..] else "");
    }
  }

  lemma {:induction false} SkipIsSuffix(line: string)
    requires '\n' !in line
    ensures '\n' !in Skip(line)
  {
    if line != "" && IsBlank(line[0]) {
      SkipIsSuffix(line[1..]);
    }
  }

  /** What is read from lines holds no line feed. */
  lemma {:induction false} ParsedIsUnbroken(lines: seq<string>)
    requires forall i :: 0 <= i < |lines| ==> '\n' !in lines[i]
    ensures var r := Read(Reader([], ""), lines); AllUnbroken(r.es) && '\n' !in r.prefix
  {
    if lines != [] {
      var line := lines[|lines| - 1];
      ParsedIsUnbroken(lines[..|lines| - 1]);
      SkipIsSuffix(line);
      LineKeepsUnbroken(Read(Reader([], ""), lines[..|lines| - 1]), line);
    }
  }

  lemma LineKeepsUnbroken(r: Reader, line: string)
    requires AllUnbroken(r.es) && '\n' !in r.prefix && '\n' !in line && '\n' !in Skip(line)
    ensures AllUnbroken(ReadLine(r, line).es) && '\n' !in ReadLine(r, line).prefix
  {
    var a := Assignment(line);
    if a.Some? {
      assert Unbroken(a.value);
      var prefix := if IsBlank(line[0]) then r.prefix else "";
      var key := if prefix != "" then Clip(prefix + "_" + a.value.key, KEY_MAX) else a.value.key;
      assert '\n' !in key;
    }
  }

  lemma {:induction false} PrintIsLines(es: seq<Entry>)
    requires Sized(es)
    ensures |Print(es)| == |Visible(es)|
    ensures forall i :: 0 <= i < |Print(es)| ==> Print(es)[i] == Line(Visible(es)[i]) && !Hidden(Print(es)[i])
  {
    if es != [] {
      PrintIsLines(es[..|es| - 1]);
    }
  }

  lemma {:induction false} PrintedFileSplits(es: seq<Entry>)
    requires Sized(es) && AllUnbroken(Visible(es))
    ensures LinesOf(PrintFile(es)) == Print(es)
  {
    PrintIsLines(es);
    forall i | 0 <= i < |Print(es)| ensures '\n' !in Print(es)[i] {
      assert Unbroken(Visible(es)[i]);
    }
    TextSplits(Print(es));
  }

  /**
    Reading the written file gives back exactly the visible entries, in order, if and only if none of them has a key
    that starts with a blank, or a line feed in its key or value.
   */
  lemma {:induction false} PrintRoundTrip(es: seq<Entry>)
    requires WellFormed(es)
    ensures ParseFile(PrintFile(es)) == Visible(es) <==> Tidy(Visible(es)) && AllUnbroken(Visible(es))
  {
    LinesAreUnbroken(PrintFile(es));
    ParsedIsUnbroken(LinesOf(PrintFile(es)));
    if AllUnbroken(Visible(es)) {
      PrintedFileSplits(es);
      LinesRoundTrip(es);
    }
  }

  lemma PrintOne(e: Entry)
    requires e.key != "" && !Hidden(e.key)
    ensures Print([e]) == [Line(e)]
  {
    assert [e][..0] == [];
    assert Print([e]) == Print([]) + [Line(e)];
  }

  lemma ParseOne(line: string, e: Entry)
    requires Assignment(line) == Some(e) && ValidKey(e.key) && |e.key| <= KEY_MAX && |e.val| <= VALUE_MAX
    ensures Parse([line]) == [e]
  {
    var r := Reader([], "");
    assert [line][..0] == [];
    assert Read(r, [line]) == ReadLine(Read(r, []), line);
    assert Put([], e.key, e.val) == [] + [e];
  }

  /** An entry whose key starts with a blank comes back under another key. */
  lemma {:induction false} BlankKeyIsLost(key: string, val: string)
    requires ValidKey(key) && !IsBlank(key[0]) && |key| < KEY_MAX && |val| <= VALUE_MAX
    requires Unbroken(Entry(key, val))
    ensures ParseFile(PrintFile([Entry([' '] + key, val)])) == [Entry(key, val)]
  {
    var e, line := Entry([' '] + key, val), [' '] + Line(Entry(key, val));
    assert Line(e) == line;
    PrintOne(e);
    TextSplits([line]);
    assert line[1..] == Line(Entry(key, val));
    LineIsAssignment(Entry(key, val));
    ParseOne(line, Entry(key, val));
  }

  lemma BlankKeyExample()
    ensures ParseFile(PrintFile([Entry(" a", "1")])) == [Entry("a", "1")]
  {
    assert " a" == [' '] + "a";
    BlankKeyIsLost("a", "1");
  }

  /** An entry whose key holds a line feed is cut in two, and what is before the line feed is lost. */
  lemma {:induction false} BrokenKeyIsLost(front: string, key: string, val: string)
    requires front != "" && '\n' !in front && '=' !in front && ':' !in front && !Hidden(front)
    requires CutReturn(front) == front
    requires ValidKey(key) && !IsBlank(key[0]) && !Hidden(key) && Unbroken(Entry(key, val))
    requires |front| + |key| < KEY_MAX && |val| <= VALUE_MAX
    ensures ParseFile(PrintFile([Entry(front + "\n" + key, val)])) == [Entry(key, val)]
  {
    var e, line := Entry(front + "\n" + key, val), Line(Entry(key, val));
    PrintOne(e);
    var rest := line + "\r\n";
    assert Text([Line(e)]) == front + ['\n'] + rest;
    PositionOf(front, rest, '\n');
    var text := front + ['\n'] + rest;
    assert text[..|front|] == front && text[|front| + 1..] == rest;
    TextSplits([line]);
    assert Text([line]) == rest;
    assert LinesOf(text) == [front] + [line];
    LineIsAssignment(Entry(key, val));
    ParseTwo(front, line, Entry(key, val));
  }

  lemma ParseTwo(front: string, line: string, e: Entry)
    requires '=' !in front && ':' !in front
    requires Assignment(line) == Some(e) && ValidKey(e.key) && |e.key| <= KEY_MAX && |e.val| <= VALUE_MAX
    ensures Parse([front] + [line]) == [e]
  {
    var r := Reader([], "");
    SkipKeepsOut(front);
    assert ReadLine(r, front) == r;
    assert [front][..0] == [] && ([front] + [line])[..1] == [front];
    assert Read(r, [front]) == ReadLine(Read(r, []), front) == r;
    assert Read(r, [front] + [line]) == ReadLine(r, line);
    assert Put([], e.key, e.val) == [] + [e];
  }

  lemma {:induction false} SkipKeepsOut(line: string)
    requires '=' !in line
    ensures '=' !in Skip(line)
  {
    if line != "" && IsBlank(line[0]) {
      SkipKeepsOut(line[1..]);
    }
  }

  lemma BrokenKeyExample()
    ensures ParseFile(PrintFile([Entry("a\nb", "1")])) == [Entry("b", "1")]
  {
    assert "a\nb" == "a" + "\n" + "b";
    BrokenKeyIsLost("a", "b", "1");
  }

  // ---- the dirty bit ----

  /** A set in memory, its dirty bit, and its file. */
  datatype State = State(es: seq<Entry>, modified: bool, file: string)

  datatype Op =
    | SetOp(key: string, val: string)
    | RemoveOp(key: string)
    | MergeOp(from: seq<Entry>)
    /** the file may fail to open */
    | WriteOp(opens: bool)
    /** the set is cleared and read from its file, which now holds this text */
    | LoadOp(text: string)

  function Apply(s: State, op: Op): State {
    match op
    case SetOp(k, v) => s.(es := Put(s.es, k, v), modified := s.modified || PutMarks(s.es, k, v))
    case RemoveOp(k) => s.(es := Remove(s.es, k), modified := s.modified || RemoveMarks(s.es, k))
    case MergeOp(from) => s.(es := Merge(s.es, from), modified := s.modified || MergeMarks(s.es, from))
    case WriteOp(opens) => if s.modified && opens then State(s.es, false, PrintFile(s.es)) else s
    case LoadOp(text) => State(ParseFile(text), false, text)
  }

  function Run(s: State, ops: seq<Op>): State {
    if ops == [] then s else Apply(Run(s, ops[..|ops| - 1]), ops[|ops| - 1])
  }

  /** Keys handed in fit, and do not start with a blank. */
  predicate GoodKey(key: string) {
    ValidKey(key) ==> |key| <= KEY_MAX && !IsBlank(key[0])
  }

  /** No indented line sets a prefix. */
  predicate GoodLine(line: string) {
    Fits(line) && (Assignment(line).None? && line != "" && IsBlank(line[0]) ==> Position(line, ':') == |line|)
  }

  /** A line feed is only in entries that are never saved. */
  predicate Savable(es: seq<Entry>) {
    forall i :: 0 <= i < |es| ==> Hidden(es[i].key) || Unbroken(es[i])
  }

  predicate GoodOp(op: Op) {
    match op
    case SetOp(k, v) => GoodKey(k) && Savable([Entry(k, v)])
    case MergeOp(from) => WellFormed(from) && Tidy(from) && Savable(from)
    case LoadOp(text) => forall i :: 0 <= i < |LinesOf(text)| ==> GoodLine(LinesOf(text)[i])
    case _ => true
  }

  /** Unless the dirty bit is set, the file already says what would be written. */
  predicate Saved(s: State) {
    Visible(ParseFile(s.file)) == Visible(s.es)
  }

  predicate Inv(s: State) {
    WellFormed(s.es) && Tidy(s.es) && Savable(s.es) && (!s.modified ==> Saved(s))
  }

  lemma {:induction false} PutKeepsTidy(es: seq<Entry>, key: string, val: string)
    requires WellFormed(es) && Tidy(es) && GoodKey(key)
    ensures WellFormed(Put(es, key, val)) && Tidy(Put(es, key, val))
  {
    if ValidKey(key) {
      PutIsUpdate(es, key, val);
    }
  }

  lemma {:induction false} PutKeepsSavable(es: seq<Entry>, key: string, val: string)
    requires Savable(es) && Savable([Entry(key, val)])
    ensures Savable(Put(es, key, val))
  {
    assert Hidden(key) || Unbroken([Entry(key, val)][0]);
    var e := Entry(Clip(key, KEY_MAX), Clip(val, VALUE_MAX));
    assert Hidden(e.key) || Unbroken(e);
    assert Hidden(key) || Unbroken(Entry(key, Clip(val, VALUE_MAX)));
  }

  lemma {:induction false} MergeKeepsSavable(es: seq<Entry>, from: seq<Entry>)
    requires Savable(es) && Savable(from)
    ensures Savable(Merge(es, from))
  {
    if from != [] {
      var e := from[|from| - 1];
      MergeKeepsSavable(es, from[..|from| - 1]);
      PutKeepsSavable(Merge(es, from[..|from| - 1]), e.key, e.val);
    }
  }

  lemma {:induction false} RemoveKeepsSavable(es: seq<Entry>, key: string)
    requires Savable(es)
    ensures Savable(Remove(es, key))
  {
    WithoutIs(es, key);
    var w := Without(es, key);
    assert forall i :: 0 <= i < |w| ==> w[i] in es;
  }

  lemma {:induction false} LoadIsSavable(text: string)
    ensures Savable(ParseFile(text))
  {
    LinesAreUnbroken(text);
    ParsedIsUnbroken(LinesOf(text));
  }

  lemma {:induction false} ReadIsTidy(lines: seq<string>)
    requires forall i :: 0 <= i < |lines| ==> GoodLine(lines[i])
    ensures var r := Read(Reader([], ""), lines);
      WellFormed(r.es) && Tidy(r.es) && (r.prefix != "" ==> !IsBlank(r.prefix[0]))
  {
    if lines != [] {
      var init, line := lines[..|lines| - 1], lines[|lines| - 1];
      ReadIsTidy(init);
      var r := Read(Reader([], ""), init);
      var a := Assignment(line);
      if a.Some? {
        var prefix := if IsBlank(line[0]) then r.prefix else "";
        var key := if prefix != "" then Clip(prefix + "_" + a.value.key, KEY_MAX) else a.value.key;
        PutKeepsTidy(r.es, key, a.value.val);
      }
    }
  }

  lemma {:induction false} VisibleUpdate(es: seq<Entry>, i: nat, e: Entry)
    requires i < |es| && Hidden(es[i].key) && Hidden(e.key)
    ensures Visible(es[i := e]) == Visible(es)
  {
    var es' := es[i := e];
    var init := es[..|es| - 1];
    if i == |es| - 1 {
      assert es'[..i] == init;
    } else {
      assert es'[..|es| - 1] == init[i := e];
      VisibleUpdate(init, i, e);
    }
  }

  /** A change that does not set the dirty bit changes nothing visible. */
  lemma {:induction false} UnmarkedPut(es: seq<Entry>, key: string, val: string)
    requires Sized(es) && !PutMarks(es, key, val)
    ensures Visible(Put(es, key, val)) == Visible(es)
  {
    var i := Find(es, key);
    if ValidKey(key) && Hidden(key) {
      if i < |es| {
        VisibleUpdate(es, i, Entry(key, Clip(val, VALUE_MAX)));
      } else {
        var e := Entry(Clip(key, KEY_MAX), Clip(val, VALUE_MAX));
        assert (es + [e])[..|es|] == es;
        assert Hidden(e.key);
      }
    } else if ValidKey(key) {
      assert es[i := Entry(key, val)] == es;
    }
  }

  lemma {:induction false} UnmarkedRemove(es: seq<Entry>, key: string)
    requires !RemoveMarks(es, key)
    ensures Visible(Remove(es, key)) == Visible(es)
    decreases |es|
  {
    if ValidKey(key) && es != [] {
      var init, e := es[..|es| - 1], es[|es| - 1];
      assert Has(init, key) ==> Has(es, key);
      UnmarkedRemove(init, key);
      if e.key != key {
        var w := Without(init, key) + [e];
        assert w[..|w| - 1] == Without(init, key);
      } else {
        assert Find(es, key) < |es|;
        assert Without(es, key) == Without(init, key);
      }
    }
  }

  /** With a value that fits, the dirty bit is set exactly when something visible changes. */
  lemma {:induction false} PutMarksExactly(es: seq<Entry>, key: string, val: string)
    requires WellFormed(es) && |val| <= VALUE_MAX
    ensures PutMarks(es, key, val) <==> Visible(Put(es, key, val)) != Visible(es)
  {
    var i := Find(es, key);
    if !PutMarks(es, key, val) {
      UnmarkedPut(es, key, val);
    } else if i < |es| {
      VisibleIs(es);
      VisibleIs(Put(es, key, val));
      assert Put(es, key, val)[i] == Entry(key, val);
      assert Entry(key, val) in Visible(Put(es, key, val));
      assert Entry(key, val) !in es;
    } else {
      var e := Entry(Clip(key, KEY_MAX), val);
      assert (es + [e])[..|es|] == es;
      assert Visible(es + [e]) == Visible(es) + [e];
    }
  }

  /** A value that is too long always sets it. */
  lemma LongValueMarks(es: seq<Entry>, key: string, val: string)
    requires Sized(es) && |val| > VALUE_MAX
    ensures PutMarks(es, key, val) <==> ValidKey(key) && !Hidden(key)
  {
  }

  lemma {:induction false} RemoveMarksExactly(es: seq<Entry>, key: string)
    ensures RemoveMarks(es, key) <==> Visible(Remove(es, key)) != Visible(es)
  {
    if RemoveMarks(es, key) {
      var e := es[Find(es, key)];
      WithoutIs(es, key);
      VisibleIs(es);
      VisibleIs(Without(es, key));
      assert e in Visible(es) && e !in Visible(Without(es, key));
    } else {
      UnmarkedRemove(es, key);
    }
  }

  lemma {:induction false} MergeKeeps(es: seq<Entry>, from: seq<Entry>)
    requires WellFormed(es) && Tidy(es) && WellFormed(from) && Tidy(from)
    ensures WellFormed(Merge(es, from)) && Tidy(Merge(es, from))
    ensures !MergeMarks(es, from) ==> Visible(Merge(es, from)) == Visible(es)
  {
    if from != [] {
      var init, e := from[..|from| - 1], from[|from| - 1];
      MergeKeeps(es, init);
      PutKeepsTidy(Merge(es, init), e.key, e.val);
      if !MergeMarks(es, from) {
        UnmarkedPut(Merge(es, init), e.key, e.val);
      }
    }
  }

  lemma {:induction false} VisibleIsSavable(es: seq<Entry>)
    requires Tidy(es) && Savable(es)
    ensures Tidy(Visible(es)) && AllUnbroken(Visible(es))
  {
    if es != [] {
      VisibleIsSavable(es[..|es| - 1]);
    }
  }

  lemma {:induction false} WriteSaves(es: seq<Entry>)
    requires WellFormed(es) && Tidy(es) && Savable(es)
    ensures Saved(State(es, false, PrintFile(es)))
  {
    VisibleIsSavable(es);
    PrintRoundTrip(es);
    VisibleTwice(es);
  }

  lemma {:induction false} VisibleTwice(es: seq<Entry>)
    ensures Visible(Visible(es)) == Visible(es)
  {
    if es != [] {
      VisibleTwice(es[..|es| - 1]);
      var v := Visible(es[..|es| - 1]);
      assert (v + [es[|es| - 1]])[..|v|] == v;
      assert v + [] == v;
    }
  }

  lemma {:induction false} StepKeepsInv(s: State, op: Op)
    requires Inv(s) && GoodOp(op)
    ensures Inv(Apply(s, op))
  {
    match op
    case SetOp(k, v) =>
      PutKeepsTidy(s.es, k, v);
      PutKeepsSavable(s.es, k, v);
      if !PutMarks(s.es, k, v) {
        UnmarkedPut(s.es, k, v);
      }
    case RemoveOp(k) =>
      RemoveKeepsTidy(s.es, k);
      RemoveKeepsSavable(s.es, k);
      if !RemoveMarks(s.es, k) {
        UnmarkedRemove(s.es, k);
      }
    case MergeOp(from) =>
      MergeKeeps(s.es, from);
      MergeKeepsSavable(s.es, from);
    case WriteOp(_) => WriteSaves(s.es);
    case LoadOp(text) =>
      ReadIsTidy(LinesOf(text));
      LoadIsSavable(text);
  }

  lemma {:induction false} RemoveKeepsTidy(es: seq<Entry>, key: string)
    requires WellFormed(es) && Tidy(es)
    ensures WellFormed(Remove(es, key)) && Tidy(Remove(es, key))
  {
    WithoutIs(es, key);
    var w := Without(es, key);
    assert forall i :: 0 <= i < |w| ==> w[i] in es;
  }

  /**
    After a load and any changes, writes and further loads, the write that a clear dirty bit skips would change
    nothing: after every `configWrite` that can open its file, the file reads back as the visible entries.
   */
  lemma {:induction false} SkippedWriteLosesNothing(s: State, text: string, ops: seq<Op>)
    requires GoodOp(LoadOp(text)) && forall i :: 0 <= i < |ops| ==> GoodOp(ops[i])
    ensures Inv(Run(Apply(s, LoadOp(text)), ops))
    ensures Saved(Apply(Run(Apply(s, LoadOp(text)), ops), WriteOp(true)))
    decreases |ops|
  {
    var start := Apply(s, LoadOp(text));
    if ops == [] {
      ReadIsTidy(LinesOf(text));
      LoadIsSavable(text);
    } else {
      SkippedWriteLosesNothing(s, text, ops[..|ops| - 1]);
      StepKeepsInv(Run(start, ops[..|ops| - 1]), ops[|ops| - 1]);
    }
    StepKeepsInv(Run(start, ops), WriteOp(true));
  }
}
