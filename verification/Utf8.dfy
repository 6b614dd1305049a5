/**
  The table-driven UTF-8 decoder (include/utf8.h), proved against the encoding of
  section 3 and the byte grammar of section 4 of RFC 3629.

  The decoder works on unsigned 32-bit words. They are written here as naturals:
  `x & 0x3f` is `x % 64`, a left shift by six multiplies by 64 and wraps at 2^32, and
  the `|` of two words with no common bit is a sum.
 */
module Utf8Table {

  // Byte classes of 0x00..0xff, then one row of sixteen successors per state 0..8.
  const C00: seq<nat> := [
    0, 0, 0, 0, 0, 0, 0, 0, 0, 0, 0, 0, 0, 0, 0, 0,
    0, 0, 0, 0, 0, 0, 0, 0, 0, 0, 0, 0, 0, 0, 0, 0]
  const C20: seq<nat> := [
    0, 0, 0, 0, 0, 0, 0, 0, 0, 0, 0, 0, 0, 0, 0, 0,
    0, 0, 0, 0, 0, 0, 0, 0, 0, 0, 0, 0, 0, 0, 0, 0]
  const C40: seq<nat> := [
    0, 0, 0, 0, 0, 0, 0, 0, 0, 0, 0, 0, 0, 0, 0, 0,
    0, 0, 0, 0, 0, 0, 0, 0, 0, 0, 0, 0, 0, 0, 0, 0]
  const C60: seq<nat> := [
    0, 0, 0, 0, 0, 0, 0, 0, 0, 0, 0, 0, 0, 0, 0, 0,
    0, 0, 0, 0, 0, 0, 0, 0, 0, 0, 0, 0, 0, 0, 0, 0]
  const C80: seq<nat> := [
    1, 1, 1, 1, 1, 1, 1, 1, 1, 1, 1, 1, 1, 1, 1, 1,
    9, 9, 9, 9, 9, 9, 9, 9, 9, 9, 9, 9, 9, 9, 9, 9]
  const CA0: seq<nat> := [
    7, 7, 7, 7, 7, 7, 7, 7, 7, 7, 7, 7, 7, 7, 7, 7,
    7, 7, 7, 7, 7, 7, 7, 7, 7, 7, 7, 7, 7, 7, 7, 7]
  const CC0: seq<nat> := [
    8, 8, 2, 2, 2, 2, 2, 2, 2, 2, 2, 2, 2, 2, 2, 2,
    2, 2, 2, 2, 2, 2, 2, 2, 2, 2, 2, 2, 2, 2, 2, 2]
  const CE0: seq<nat> := [10, 3, 3, 3, 3, 3, 3, 3, 3, 3, 3, 3, 3, 4, 3, 3]
  const CF0: seq<nat> := [11, 6, 6, 6, 5, 8, 8, 8, 8, 8, 8, 8, 8, 8, 8, 8]
  const S0: seq<nat> := [0, 1, 2, 3, 5, 8, 7, 1, 1, 1, 4, 6, 1, 1, 1, 1]
  const S12: seq<nat> := [
    1, 1, 1, 1, 1, 1, 1, 1, 1, 1, 1, 1, 1, 1, 1, 1,
    1, 0, 1, 1, 1, 1, 1, 0, 1, 0, 1, 1, 1, 1, 1, 1]
  const S34: seq<nat> := [
    1, 2, 1, 1, 1, 1, 1, 2, 1, 2, 1, 1, 1, 1, 1, 1,
    1, 1, 1, 1, 1, 1, 1, 2, 1, 1, 1, 1, 1, 1, 1, 1]
  const S56: seq<nat> := [
    1, 2, 1, 1, 1, 1, 1, 1, 1, 2, 1, 1, 1, 1, 1, 1,
    1, 1, 1, 1, 1, 1, 1, 3, 1, 3, 1, 1, 1, 1, 1, 1]
  const S78: seq<nat> := [
    1, 3, 1, 1, 1, 1, 1, 3, 1, 3, 1, 1, 1, 1, 1, 1,
    1, 3, 1, 1, 1, 1, 1, 1, 1, 1, 1, 1, 1, 1, 1, 1]

  const LOW: seq<nat> := C00 + C20 + C40 + C60
  const MIDDLE: seq<nat> := C80 + CA0
  const HIGH: seq<nat> := CC0 + CE0 + CF0
  const ROWS: seq<nat> := S0 + S12 + S34 + S56 + S78

  /** The whole table: the four parts lie one after the other. */
  function Utf8d(i: nat): nat
    requires i < 400
  {
    Lengths();
    if i < 128 then LOW[i] else if i < 192 then MIDDLE[i - 128] else if i < 256 then HIGH[i - 192] else ROWS[i - 256]
  }

  /** The class of a byte, by range. */
  function ClassOf(b: nat): nat {
    if b < 0x80 then 0
    else if b < 0x90 then 1
    else if b < 0xA0 then 9
    else if b < 0xC0 then 7
    else if b < 0xC2 then 8
    else if b < 0xE0 then 2
    else if b == 0xE0 then 10
    else if b == 0xED then 4
    else if b < 0xF0 then 3
    else if b == 0xF0 then 11
    else if b < 0xF4 then 6
    else if b == 0xF4 then 5
    else 8
  }

  /** The successor of a state on a byte class. */
  function Successor(state: nat, cls: nat): nat {
    match state
    case 0 =>
      (match cls
       case 0 => 0
       case 2 => 2
       case 3 => 3
       case 4 => 5
       case 5 => 8
       case 6 => 7
       case 10 => 4
       case 11 => 6
       case _ => 1)
    case 2 => if cls == 1 || cls == 7 || cls == 9 then 0 else 1
    case 3 => if cls == 1 || cls == 7 || cls == 9 then 2 else 1
    case 4 => if cls == 7 then 2 else 1
    case 5 => if cls == 1 || cls == 9 then 2 else 1
    case 6 => if cls == 7 || cls == 9 then 3 else 1
    case 7 => if cls == 1 || cls == 7 || cls == 9 then 3 else 1
    case 8 => if cls == 1 then 3 else 1
    case _ => 1
  }

  lemma LowEntry(i: nat)
    requires i < 128
    ensures |LOW| == 128 && LOW[i] == ClassOf(i)
  {
  }

  lemma ContinuationRows(i: nat)
    requires i < 32
    ensures C80[i] == ClassOf(0x80 + i) && CA0[i] == ClassOf(0xA0 + i)
  {
  }

  lemma LeadRows(i: nat)
    requires i < 32
    ensures CC0[i] == ClassOf(0xC0 + i)
    ensures i < 16 ==> CE0[i] == ClassOf(0xE0 + i) && CF0[i] == ClassOf(0xF0 + i)
  {
  }

  lemma MiddleEntry(i: nat)
    requires i < 64
    ensures |MIDDLE| == 64 && MIDDLE[i] == ClassOf(128 + i)
  {
    ContinuationRows(i % 32);
  }

  lemma HighEntry(i: nat)
    requires i < 64
    ensures |HIGH| == 64 && HIGH[i] == ClassOf(192 + i)
  {
    LeadRows(if i < 32 then i else i % 16);
  }

  lemma EarlyRows(i: nat)
    requires i < 16
    ensures S0[i] == Successor(0, i)
    ensures S12[i] == Successor(1, i) && S12[16 + i] == Successor(2, i)
    ensures S34[i] == Successor(3, i) && S34[16 + i] == Successor(4, i)
  {
  }

  lemma LateRows(i: nat)
    requires i < 16
    ensures S56[i] == Successor(5, i) && S56[16 + i] == Successor(6, i)
    ensures S78[i] == Successor(7, i) && S78[16 + i] == Successor(8, i)
  {
  }

  lemma RowEntry(state: nat, cls: nat)
    requires state <= 8 && cls < 16
    ensures |ROWS| == 144 && ROWS[state * 16 + cls] == Successor(state, cls)
  {
    EarlyRows(cls);
    LateRows(cls);
    match state
    case 0 =>
    case 1 =>
    case 2 =>
    case 3 =>
    case 4 =>
    case 5 =>
    case 6 =>
    case 7 =>
    case 8 =>
  }

  lemma Lengths()
    ensures |LOW| == 128 && |MIDDLE| == 64 && |HIGH| == 64 && |ROWS| == 144
  {
    LowEntry(0);
    MiddleEntry(0);
    HighEntry(0);
    RowEntry(0, 0);
  }

  /** `utf8d[b]`. */
  method ByteClass(b: nat) returns (cls: nat)
    requires b < 256
    ensures cls == ClassOf(b)
  {
    cls := Utf8d(b);
    if b < 128 { LowEntry(b); } else if b < 192 { MiddleEntry(b - 128); } else { HighEntry(b - 192); }
  }

  /** `utf8d[256 + state * 16 + cls]`. */
  method Transition(state: nat, cls: nat) returns (next: nat)
    requires state <= 8 && cls < 16
    ensures next == Successor(state, cls)
  {
    RowEntry(state, cls);
    var i := state * 16 + cls;
    next := Utf8d(256 + i);
  }
}

/** Sections 3 and 4 of RFC 3629, written without reference to the decoder. */
module Rfc3629 {
  import opened Bytes

  predicate IsScalar(v: int) {
    0 <= v <= 0x10FFFF && !(0xD800 <= v <= 0xDFFF)
  }

  /** Section 3: the octet sequence of one character number. */
  function Encode(v: int): (s: seq<Byte>)
    requires IsScalar(v)
    ensures 1 <= |s| <= 4
  {
    if v < 0x80 then [v]
    else if v < 0x800 then [0xC0 + v / 64, 0x80 + v % 64]
    else if v < 0x1_0000 then [0xE0 + v / 4096, 0x80 + v / 64 % 64, 0x80 + v % 64]
    else [0xF0 + v / 262144, 0x80 + v / 4096 % 64, 0x80 + v / 64 % 64, 0x80 + v % 64]
  }

  predicate Scalars(vs: seq<int>) {
    forall i :: 0 <= i < |vs| ==> IsScalar(vs[i])
  }

  function EncodeAll(vs: seq<int>): seq<Byte>
    requires Scalars(vs)
  {
    if vs == [] then [] else Encode(vs[0]) + EncodeAll(vs[1..])
  }

  predicate Tail(b: Byte) {
    0x80 <= b <= 0xBF
  }

  /** Section 4: the production UTF8-char. */
  predicate IsChar(s: seq<Byte>) {
    || (|s| == 1 && s[0] <= 0x7F)
    || (|s| == 2 && 0xC2 <= s[0] <= 0xDF && Tail(s[1]))
    || (|s| == 3 && Tail(s[2]) && (
          || (s[0] == 0xE0 && 0xA0 <= s[1] <= 0xBF)
          || (0xE1 <= s[0] <= 0xEC && Tail(s[1]))
          || (s[0] == 0xED && 0x80 <= s[1] <= 0x9F)
          || (0xEE <= s[0] <= 0xEF && Tail(s[1]))))
    || (|s| == 4 && Tail(s[2]) && Tail(s[3]) && (
          || (s[0] == 0xF0 && 0x90 <= s[1] <= 0xBF)
          || (0xF1 <= s[0] <= 0xF3 && Tail(s[1]))
          || (s[0] == 0xF4 && 0x80 <= s[1] <= 0x8F)))
  }

  /** Section 4: the production UTF8-octets. */
  ghost predicate WellFormed(s: seq<Byte>)
    decreases |s|
  {
    s == [] || exists n :: 1 <= n <= |s| && IsChar(s[..n]) && WellFormed(s[n..])
  }

  /** The character number a UTF8-char denotes. */
  function Value(s: seq<Byte>): (v: int)
    requires IsChar(s)
  {
    var lead: int := s[0];
    if |s| == 1 then lead
    else if |s| == 2 then (lead - 0xC0) * 64 + Low(s[1])
    else if |s| == 3 then ((lead - 0xE0) * 64 + Low(s[1])) * 64 + Low(s[2])
    else (((lead - 0xF0) * 64 + Low(s[1])) * 64 + Low(s[2])) * 64 + Low(s[3])
  }

  function Low(b: Byte): int {
    var x: int := b;
    x - 0x80
  }

  lemma Digits(a: int, b: int, c: int, d: int)
    requires 0 <= b < 64 && 0 <= c < 64 && 0 <= d < 64
    ensures (a * 64 + b) / 64 == a && (a * 64 + b) % 64 == b
    ensures ((a * 64 + b) * 64 + c) / 4096 == a
    ensures (((a * 64 + b) * 64 + c) * 64 + d) / 262144 == a
    ensures (((a * 64 + b) * 64 + c) * 64 + d) / 4096 == a * 64 + b
  {
  }

  /** The grammar of section 4 derives exactly the sequences that section 3 produces. */
  lemma CharOfValue(s: seq<Byte>)
    requires IsChar(s)
    ensures IsScalar(Value(s)) && Encode(Value(s)) == s
  {
    if |s| == 2 {
      Digits(s[0] - 0xC0, Low(s[1]), 0, 0);
    } else if |s| == 3 {
      Char3OfValue(s);
    } else if |s| == 4 {
      Char4OfValue(s);
    }
  }

  lemma Char3OfValue(s: seq<Byte>)
    requires IsChar(s) && |s| == 3
    ensures IsScalar(Value(s)) && Encode(Value(s)) == s
  {
    Digits(s[0] - 0xE0, Low(s[1]), Low(s[2]), 0);
    Digits((s[0] - 0xE0) * 64 + Low(s[1]), Low(s[2]), 0, 0);
  }

  lemma Char4OfValue(s: seq<Byte>)
    requires IsChar(s) && |s| == 4
    ensures IsScalar(Value(s)) && Encode(Value(s)) == s
  {
    Digits(s[0] - 0xF0, Low(s[1]), Low(s[2]), Low(s[3]));
    Digits((s[0] - 0xF0) * 64 + Low(s[1]), Low(s[2]), Low(s[3]), 0);
    Digits(((s[0] - 0xF0) * 64 + Low(s[1])) * 64 + Low(s[2]), Low(s[3]), 0, 0);
  }

  lemma ValueOfChar(v: int)
    requires IsScalar(v)
    ensures IsChar(Encode(v)) && Value(Encode(v)) == v
  {
    assert v / 64 / 64 == v / 4096 && v / 4096 / 64 == v / 262144;
  }

  lemma {:induction false} EncodedIsWellFormed(vs: seq<int>)
    requires Scalars(vs)
    ensures WellFormed(EncodeAll(vs))
  {
    if vs != [] {
      var c, rest := Encode(vs[0]), EncodeAll(vs[1..]);
      ValueOfChar(vs[0]);
      EncodedIsWellFormed(vs[1..]);
      assert (c + rest)[..|c|] == c && (c + rest)[|c|..] == rest;
    }
  }

  lemma {:induction false} EncodedFront(c: seq<Byte>, rest: seq<int>) returns (vs: seq<int>)
    requires IsChar(c) && Scalars(rest)
    ensures Scalars(vs) && EncodeAll(vs) == c + EncodeAll(rest)
  {
    CharOfValue(c);
    var v := Value(c);
    vs := [v] + rest;
    assert vs[1..] == rest && vs[0] == v;
  }

  lemma {:induction false} WellFormedIsEncoded(s: seq<Byte>) returns (vs: seq<int>)
    requires WellFormed(s)
    ensures Scalars(vs) && EncodeAll(vs) == s
    decreases |s|
  {
    vs := [];
    if s != [] {
      var n :| 1 <= n <= |s| && IsChar(s[..n]) && WellFormed(s[n..]);
      var c, t := s[..n], s[n..];
      assert s == c + t;
      var rest := WellFormedIsEncoded(t);
      vs := EncodedFront(c, rest);
    }
  }
}

module Utf8 {
  import opened Bytes
  import opened Rfc3629
  import Utf8Table

  const ACCEPT: nat := 0
  const REJECT: nat := 1

  datatype Dfa = Dfa(state: nat, codep: nat)

  ghost predicate ValidDfa(d: Dfa) {
    d.state <= 8 && d.codep < 0x1_0000_0000
  }

  /** `(0xff >> cls) & b`. */
  function LeadBits(cls: nat, b: Byte): nat {
    match cls
    case 0 => b
    case 1 => b % 128
    case 2 => b % 64
    case 3 => b % 32
    case 4 => b % 16
    case 5 => b % 8
    case 6 => b % 4
    case 7 => b % 2
    case _ => 0
  }

  /** One call of `utf8Decode`. */
  function Step(d: Dfa, b: Byte): (r: Dfa)
    requires ValidDfa(d)
    ensures ValidDfa(r)
  {
    var cls := Utf8Table.ClassOf(b);
    Dfa(Utf8Table.Successor(d.state, cls),
        if d.state != ACCEPT then b % 64 + d.codep * 64 % 0x1_0000_0000 else LeadBits(cls, b))
  }

  class Decoder {
    var state: nat
    var codep: nat

    ghost predicate Valid()
      reads this
    {
      ValidDfa(Dfa(state, codep))
    }

    constructor ()
      ensures Valid() && state == ACCEPT && codep == 0
    {
      state, codep := ACCEPT, 0;
    }

    method Decode(b: Byte) returns (r: nat)
      requires Valid()
      modifies this
      ensures Valid()
      ensures Dfa(state, codep) == Step(Dfa(old(state), old(codep)), b)
      ensures r == state
    {
      var cls := Utf8Table.ByteClass(b);
      codep := if state != ACCEPT then b % 64 + codep * 64 % 0x1_0000_0000 else LeadBits(cls, b);
      state := Utf8Table.Transition(state, cls);
      r := state;
    }
  }

  /** The decoder after reading `s` from `d`, and the code points completed on the way. */
  datatype Outcome = Outcome(dfa: Dfa, out: seq<nat>)

  function Run(d: Dfa, s: seq<Byte>): (r: Outcome)
    requires ValidDfa(d)
    ensures ValidDfa(r.dfa)
    decreases |s|
  {
    if s == [] then Outcome(d, [])
    else
      var d' := Step(d, s[0]);
      var rest := Run(d', s[1..]);
      Outcome(rest.dfa, Emitted(d') + rest.out)
  }

  function Emitted(d: Dfa): seq<nat> {
    if d.state == ACCEPT then [d.codep] else []
  }

  const START: Dfa := Dfa(ACCEPT, 0)

  lemma {:induction false} RunConcat(d: Dfa, s: seq<Byte>, t: seq<Byte>)
    requires ValidDfa(d)
    ensures Run(d, s + t).dfa == Run(Run(d, s).dfa, t).dfa
    ensures Run(d, s + t).out == Run(d, s).out + Run(Run(d, s).dfa, t).out
    decreases |s|
  {
    if s == [] {
      assert s + t == t;
    } else {
      var u, d' := s + t, Step(d, s[0]);
      assert u[0] == s[0] && u[1..] == s[1..] + t;
      RunConcat(d', s[1..], t);
      var x, y := Run(d', s[1..]), Run(Run(d', s[1..]).dfa, t);
      assert Run(d, u) == Outcome(y.dfa, Emitted(d') + (x.out + y.out));
      assert Emitted(d') + (x.out + y.out) == Emitted(d') + x.out + y.out;
    }
  }

  /** The loop the text renderers run over a string: skip bytes until a code point is complete. */
  method CodePoints(text: seq<Byte>) returns (out: seq<nat>, accepted: bool)
    ensures out == Run(START, text).out
    ensures accepted <==> Run(START, text).dfa.state == ACCEPT
  {
    var d := new Decoder();
    out := [];
    for i := 0 to |text|
      invariant d.Valid()
      invariant Run(START, text[..i]) == Outcome(Dfa(d.state, d.codep), out)
    {
      RunConcat(START, text[..i], [text[i]]);
      assert text[..i] + [text[i]] == text[..i + 1];
      var st := d.Decode(text[i]);
      if st == ACCEPT {
        out := out + [d.codep];
      }
    }
    assert text[..|text|] == text;
    accepted := d.state == ACCEPT;
  }

  // ----- One character -----

  /** The bytes a waiting state takes next. */
  predicate Takes(state: nat, b: Byte) {
    match state
    case 2 => Tail(b)
    case 3 => Tail(b)
    case 4 => 0xA0 <= b <= 0xBF
    case 5 => 0x80 <= b <= 0x9F
    case 6 => 0x90 <= b <= 0xBF
    case 7 => Tail(b)
    case 8 => 0x80 <= b <= 0x8F
    case _ => false
  }

  /** How many more bytes a state waits for. */
  function Need(state: nat): nat {
    if state == 2 then 1 else if 3 <= state <= 5 then 2 else if 6 <= state <= 8 then 3 else 0
  }

  /** A register this small does not wrap before the character is complete. */
  predicate Roomy(d: Dfa) {
    d.codep < (if Need(d.state) == 1 then 0x8000 else if Need(d.state) == 2 then 0x200 else 8)
  }

  predicate Completes(state: nat, s: seq<Byte>) {
    |s| == Need(state) > 0 && Takes(state, s[0]) && forall i :: 1 <= i < |s| ==> Tail(s[i])
  }

  function Shifted(c: nat, s: seq<Byte>): int
    decreases |s|
  {
    if s == [] then c else Shifted(c * 64 + s[0] % 64, s[1..])
  }

  lemma WaitingStep(d: Dfa, b: Byte)
    requires ValidDfa(d) && 2 <= d.state
    ensures Step(d, b).state ==
            if !Takes(d.state, b) then REJECT else if d.state == 2 then ACCEPT else if d.state <= 5 then 2 else 3
    ensures Roomy(d) ==> Step(d, b).codep == d.codep * 64 + b % 64
    ensures Roomy(d) && d.state != 2 && Takes(d.state, b) ==> Roomy(Step(d, b))
  {
  }

  lemma {:induction false} ReadRest(d: Dfa, s: seq<Byte>)
    requires ValidDfa(d) && Roomy(d) && Completes(d.state, s)
    ensures Shifted(d.codep, s) >= 0
    ensures Run(d, s) == Outcome(Dfa(ACCEPT, Shifted(d.codep, s)), [Shifted(d.codep, s)])
    decreases |s|
  {
    var d' := Step(d, s[0]);
    WaitingStep(d, s[0]);
    if |s| == 1 {
      assert s[1..] == [];
    } else {
      ReadRest(d', s[1..]);
    }
  }

  /** REJECT is never left. */
  lemma {:induction false} RejectIsFinal(d: Dfa, s: seq<Byte>)
    requires ValidDfa(d) && d.state == REJECT
    ensures Run(d, s).dfa.state == REJECT && Run(d, s).out == []
    decreases |s|
  {
    if s != [] {
      RejectIsFinal(Step(d, s[0]), s[1..]);
    }
  }

  /** A lead byte is a whole character, or starts one, or is refused. */
  lemma LeadStep(c: nat, b: Byte)
    requires c < 0x1_0000_0000
    ensures var d := Step(Dfa(ACCEPT, c), b);
            && (d.state == ACCEPT <==> IsChar([b]))
            && (d.state == ACCEPT ==> d.codep == b)
            && (2 <= d.state ==> Roomy(d) && Need(d.state) > 0)
  {
  }

  /** After the lead byte, the bytes that complete the state are those that make a UTF8-char. */
  lemma LeadThenRest(c: nat, s: seq<Byte>)
    requires c < 0x1_0000_0000 && 2 <= |s| <= 4
    ensures var d := Step(Dfa(ACCEPT, c), s[0]);
            && (IsChar(s) <==> 2 <= d.state && Completes(d.state, s[1..]))
            && (IsChar(s) ==> Shifted(d.codep, s[1..]) == Value(s))
  {
    var t := s[1..];
    assert forall i :: 0 <= i < |t| ==> t[i] == s[i + 1];
    if IsChar(s) {
      LeadValue(c, s);
    }
  }

  lemma LeadValue(c: nat, s: seq<Byte>)
    requires c < 0x1_0000_0000 && 2 <= |s| && IsChar(s)
    ensures Shifted(Step(Dfa(ACCEPT, c), s[0]).codep, s[1..]) == Value(s)
  {
    var lead: int := s[0];
    assert Step(Dfa(ACCEPT, c), s[0]).codep ==
           if |s| == 2 then lead - 0xC0 else if |s| == 3 then lead - 0xE0 else lead - 0xF0;
    ShiftedUnroll(Step(Dfa(ACCEPT, c), s[0]).codep, s[1..]);
  }

  lemma ShiftedUnroll(c: nat, t: seq<Byte>)
    requires 1 <= |t| <= 3
    decreases |t|
    ensures |t| == 1 ==> Shifted(c, t) == c * 64 + t[0] % 64
    ensures |t| == 2 ==> Shifted(c, t) == (c * 64 + t[0] % 64) * 64 + t[1] % 64
    ensures |t| == 3 ==> Shifted(c, t) == ((c * 64 + t[0] % 64) * 64 + t[1] % 64) * 64 + t[2] % 64
  {
    if |t| == 2 {
      assert Shifted(c * 64 + t[0] % 64, t[1..]) == Shifted((c * 64 + t[0] % 64) * 64 + t[1] % 64, t[1..][1..]);
    } else if |t| == 3 {
      ShiftedUnroll(c * 64 + t[0] % 64, t[1..]);
    }
  }

  /** Reading one UTF8-char from ACCEPT ends in ACCEPT having emitted exactly its value. */
  lemma ReadChar(c: nat, s: seq<Byte>)
    requires c < 0x1_0000_0000 && IsChar(s)
    ensures Run(Dfa(ACCEPT, c), s) == Outcome(Dfa(ACCEPT, Value(s)), [Value(s)])
  {
    var d := Step(Dfa(ACCEPT, c), s[0]);
    LeadStep(c, s[0]);
    if |s| == 1 {
      assert s == [s[0]] && s[1..] == [];
    } else {
      LeadThenRest(c, s);
      ReadRest(d, s[1..]);
    }
  }

  // ----- Any byte string -----

  /** `t` can still be extended to complete a waiting state. */
  predicate Unfinished(state: nat, t: seq<Byte>) {
    |t| < Need(state) && (t != [] ==> Takes(state, t[0])) && forall i :: 1 <= i < |t| ==> Tail(t[i])
  }

  lemma {:induction false} StuckRest(d: Dfa, t: seq<Byte>)
    requires ValidDfa(d) && Roomy(d) && 2 <= d.state
    requires Need(d.state) <= |t| ==> !Completes(d.state, t[..Need(d.state)])
    ensures Run(d, t).out == []
    ensures Run(d, t).dfa.state != ACCEPT
    ensures Run(d, t).dfa.state != REJECT <==> Unfinished(d.state, t)
    decreases |t|
  {
    if t != [] {
      var d', k := Step(d, t[0]), Need(d.state);
      WaitingStep(d, t[0]);
      if !Takes(d.state, t[0]) {
        RejectIsFinal(d', t[1..]);
      } else {
        assert k <= |t| ==> t[..k][1..] == t[1..][..k - 1];
        assert forall i {:trigger t[i]} :: 1 <= i < |t| ==> t[i] == t[1..][i - 1];
        StuckRest(d', t[1..]);
      }
    }
  }

  /** `rest` is non-empty and is the beginning of some UTF8-char. */
  ghost predicate Begins(rest: seq<Byte>) {
    exists t :: IsChar(rest + t)
  }

  ghost predicate NoCharPrefix(s: seq<Byte>) {
    forall n :: 1 <= n <= |s| ==> !IsChar(s[..n])
  }

  lemma BeginsIffUnfinished(c: nat, s: seq<Byte>)
    requires c < 0x1_0000_0000 && s != [] && NoCharPrefix(s)
    ensures var d := Step(Dfa(ACCEPT, c), s[0]);
            Begins(s) <==> 2 <= d.state && Unfinished(d.state, s[1..])
  {
    var d := Step(Dfa(ACCEPT, c), s[0]);
    LeadStep(c, s[0]);
    forall t | IsChar(s + t)
      ensures 2 <= d.state && Unfinished(d.state, s[1..])
    {
      assert s[..|s|] == s && s + [] == s;
      assert s[..1] == [s[0]];
      LeadThenRest(c, s + t);
      assert (s + t)[1..] == s[1..] + t;
      assert forall i :: 0 <= i < |s| - 1 ==> s[1..][i] == (s + t)[1..][i];
    }
    if 2 <= d.state && Unfinished(d.state, s[1..]) {
      var head := if |s| == 1 then [Filler(d.state)] else [];
      var t: seq<Byte> := head + seq(Need(d.state) - (|s| - 1) - |head|, _ => 0x80);
      assert Completes(d.state, (s + t)[1..]);
      LeadThenRest(c, s + t);
    }
  }

  function Filler(state: nat): (b: Byte)
    requires 2 <= state <= 8
    ensures Takes(state, b)
  {
    if state == 4 then 0xA0 else if state == 6 then 0x90 else 0x80
  }

  lemma ReadNoChar(c: nat, s: seq<Byte>)
    requires c < 0x1_0000_0000 && s != [] && NoCharPrefix(s)
    ensures Run(Dfa(ACCEPT, c), s).out == []
    ensures Run(Dfa(ACCEPT, c), s).dfa.state != ACCEPT
    ensures Run(Dfa(ACCEPT, c), s).dfa.state == REJECT <==> !Begins(s)
  {
    var d := Step(Dfa(ACCEPT, c), s[0]);
    LeadStep(c, s[0]);
    assert s[..1] == [s[0]];
    BeginsIffUnfinished(c, s);
    if d.state == REJECT {
      RejectIsFinal(d, s[1..]);
    } else {
      var k := Need(d.state);
      if k <= |s| - 1 {
        LeadThenRest(c, s[..k + 1]);
        assert s[..k + 1][1..] == s[1..][..k];
      }
      StuckRest(d, s[1..]);
    }
  }

  lemma ReadCharThen(c: nat, ch: seq<Byte>, tail: seq<Byte>)
    requires c < 0x1_0000_0000 && IsChar(ch)
    ensures IsScalar(Value(ch)) && Encode(Value(ch)) == ch
    ensures var r := Run(Dfa(ACCEPT, Value(ch)), tail);
            Run(Dfa(ACCEPT, c), ch + tail) == Outcome(r.dfa, [Value(ch)] + r.out)
  {
    CharOfValue(ch);
    ReadChar(c, ch);
    RunConcat(Dfa(ACCEPT, c), ch, tail);
  }

  lemma EncodeAllCons(v: int, vs: seq<int>, rest: seq<Byte>)
    requires IsScalar(v) && Scalars(vs)
    ensures Scalars([v] + vs)
    ensures EncodeAll([v] + vs) + rest == Encode(v) + (EncodeAll(vs) + rest)
  {
    assert ([v] + vs)[1..] == vs;
  }

  /**
    On every byte string the decoder emits the character numbers of the longest prefix that is a sequence
    of characters. It is back in ACCEPT exactly when nothing is left over, and in REJECT exactly when what is
    left over is not the beginning of a character.
   */
  lemma {:induction false} Decodes(c: nat, s: seq<Byte>) returns (rest: seq<Byte>)
    requires c < 0x1_0000_0000
    ensures var r := Run(Dfa(ACCEPT, c), s);
            && Scalars(r.out) && s == EncodeAll(r.out) + rest && NoCharPrefix(rest)
            && (r.dfa.state == ACCEPT <==> rest == [])
            && (r.dfa.state == REJECT <==> !Begins(rest) && rest != [])
    decreases |s|
  {
    if s == [] {
      rest := [];
    } else if n :| 1 <= n <= |s| && IsChar(s[..n]) {
      var ch := s[..n];
      assert s == ch + s[n..];
      ReadCharThen(c, ch, s[n..]);
      rest := Decodes(Value(ch), s[n..]);
      EncodeAllCons(Value(ch), Run(Dfa(ACCEPT, Value(ch)), s[n..]).out, rest);
    } else {
      ReadNoChar(c, s);
      rest := s;
    }
  }

  /** Decoding inverts encoding, for every sequence of character numbers. */
  lemma {:induction false} DecodeInvertsEncode(c: nat, vs: seq<int>)
    requires c < 0x1_0000_0000 && Scalars(vs)
    ensures var r := Run(Dfa(ACCEPT, c), EncodeAll(vs)); r.dfa.state == ACCEPT && r.out == vs
    decreases |vs|
  {
    if vs != [] {
      var ch := Encode(vs[0]);
      ValueOfChar(vs[0]);
      ReadCharThen(c, ch, EncodeAll(vs[1..]));
      DecodeInvertsEncode(vs[0], vs[1..]);
    }
  }

  /** The strings accepted are exactly the well-formed ones of section 4. */
  lemma AcceptsExactlyWellFormed(c: nat, s: seq<Byte>)
    requires c < 0x1_0000_0000
    ensures Run(Dfa(ACCEPT, c), s).dfa.state == ACCEPT <==> WellFormed(s)
  {
    var rest := Decodes(c, s);
    var out := Run(Dfa(ACCEPT, c), s).out;
    EncodedIsWellFormed(out);
    assert EncodeAll(out) + [] == EncodeAll(out);
    if WellFormed(s) {
      var vs := WellFormedIsEncoded(s);
      DecodeInvertsEncode(c, vs);
    }
  }
}
