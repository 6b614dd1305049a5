/** Cheat masks and code lists of src/cheatman.c. */
module Cheats {
  import opened Prelude

  const MAX_CODES: nat := 250
  const MAX_CHEATLIST: nat := 510

  datatype Code = Code(addr: nat, val: nat)

  /** A slot of the table; an empty name ends it. */
  datatype Cheat = Cheat(name: string, enabled: bool, codes: seq<Code>)

  function Lower(c: char): char {
    if 'A' <= c <= 'Z' then c - 'A' + 'a' else c
  }

  /** `strncasecmp` against a prefix in lower case. */
  predicate StartsWith(s: string, prefix: string) {
    |s| >= |prefix| && forall i :: 0 <= i < |prefix| ==> Lower(s[i]) == prefix[i]
  }

  predicate Master(c: Cheat) {
    StartsWith(c.name, "[enable]") || StartsWith(c.name, "mastercode")
  }

  /** The two prefixes as they are usually spelt. */
  lemma MasterNames(rest: string)
    ensures Master(Cheat("[Enable]" + rest, false, [])) && Master(Cheat("Mastercode" + rest, false, []))
  {
    PrefixStarts("[Enable]", "[enable]", rest);
    PrefixStarts("Mastercode", "mastercode", rest);
  }

  lemma PrefixStarts(s: string, prefix: string, rest: string)
    requires StartsWith(s, prefix)
    ensures StartsWith(s + rest, prefix)
  {
  }

  /** Others are no master codes. */
  lemma OrdinaryNames(rest: string)
    ensures !Master(Cheat("[Enable" + " " + rest, false, [])) && !Master(Cheat("Master" + " " + rest, false, []))
    ensures !Master(Cheat("", false, []))
  {
    assert ("[Enable" + " " + rest)[7] == ' ' && ("Master" + " " + rest)[6] == ' ';
    assert "[enable]"[7] == ']' && "mastercode"[6] == 'c';
  }

  function CountFrom(cheats: seq<Cheat>, i: nat): (n: nat)
    requires i <= |cheats|
    ensures i <= n <= |cheats| && (n < |cheats| ==> cheats[n].name == "")
    ensures forall k :: i <= k < n ==> cheats[k].name != ""
    decreases |cheats| - i
  {
    if i == |cheats| || cheats[i].name == "" then i else CountFrom(cheats, i + 1)
  }

  method Count(cheats: seq<Cheat>) returns (n: nat)
    ensures n == CountFrom(cheats, 0)
  {
    n := 0;
    while n < |cheats| && cheats[n].name != ""
      invariant n <= |cheats| && CountFrom(cheats, n) == CountFrom(cheats, 0)
    {
      n := n + 1;
    }
  }

  // ---- the mask ----

  function HexChar(v: nat): char
    requires v < 16
  {
    "0123456789abcdef"[v]
  }

  function HexValue(c: char): (v: Option<nat>)
    ensures v.Some? ==> v.value < 16
  {
    if '0' <= c <= '9' then Some((c - '0') as nat)
    else if 'a' <= c <= 'f' then Some((c - 'a') as nat + 10)
    else if 'A' <= c <= 'F' then Some((c - 'A') as nat + 10)
    else None
  }

  /** A digit counts in either case, and no other character is one. */
  lemma HexValueIs(c: char, v: nat)
    requires v < 16
    ensures HexValue(c) == Some(v) <==>
      c as int == 48 + v < 58 || (v >= 10 && (c as int == 97 + v - 10 || c as int == 65 + v - 10))
  {
  }

  /** Digits are written in lower case. */
  lemma HexCharIs(v: nat)
    requires v < 16
    ensures HexChar(v) as int == if v < 10 then 48 + v else 97 + v - 10
  {
    HexRoundTrip(v);
  }

  lemma HexRoundTrip(v: nat)
    requires v < 16
    ensures HexValue(HexChar(v)) == Some(v)
  {
    var c := HexChar(v);
    assert v < 10 ==> c as int == '0' as int + v;
    assert v >= 10 ==> c as int == 'a' as int + (v - 10);
  }

  function Weight(b: nat): nat {
    if b == 0 then 1 else if b == 1 then 2 else if b == 2 then 4 else 8
  }

  predicate HasBit(v: nat, b: nat) {
    (v / Weight(b)) % 2 == 1
  }

  /** `v |= 1 << b` */
  function WithBit(v: nat, b: nat): nat {
    if HasBit(v, b) then v else v + Weight(b)
  }

  predicate SwitchedOff(cheats: seq<Cheat>, i: nat) {
    i < |cheats| && !cheats[i].enabled && !Master(cheats[i])
  }

  /** The digit of the cheats 4d to 4d+3, of which the first `n` count. */
  function Digit(cheats: seq<Cheat>, n: nat, d: nat): (v: nat)
    ensures v < 16
  {
    Bit(cheats, n, 4 * d) + 2 * Bit(cheats, n, 4 * d + 1)
    + 4 * Bit(cheats, n, 4 * d + 2) + 8 * Bit(cheats, n, 4 * d + 3)
  }

  function Bit(cheats: seq<Cheat>, n: nat, i: nat): (b: nat)
    ensures b <= 1
  {
    if i < n && SwitchedOff(cheats, i) then 1 else 0
  }

  function MaskOf(cheats: seq<Cheat>, n: nat, len: nat): (s: string)
    ensures |s| == len && forall d :: 0 <= d < len ==> s[d] == HexChar(Digit(cheats, n, d))
  {
    seq(len, d requires d >= 0 => HexChar(Digit(cheats, n, d)))
  }

  /** What `save_cheats` leaves in the configuration: a mask, or no entry. `None`: the entry is left alone. */
  function Saved(cheats: seq<Cheat>): Option<Option<string>> {
    var n := CountFrom(cheats, 0);
    if n == 0 then None
    else if exists i :: 0 <= i < n && SwitchedOff(cheats, i) then
      Some(Some(MaskOf(cheats, n, (n + 3) / 4)))
    else Some(None)
  }

  /** Whether `load_cheats_config` enables cheat `i`: reading stops at the first character that is no digit. */
  predicate EnabledBy(mask: Option<string>, i: nat) {
    mask.None? || i / 4 >= |mask.value|
    || (exists d :: 0 <= d <= i / 4 && HexValue(mask.value[d]).None?)
    || !HasBit(HexValue(mask.value[i / 4]).value, i % 4)
  }

  lemma DigitBits(cheats: seq<Cheat>, n: nat, i: nat)
    ensures HasBit(Digit(cheats, n, i / 4), i % 4) <==> Bit(cheats, n, i) == 1
  {
    var d, b := i / 4, i % 4;
    assert i == 4 * d + b;
    assert b == 0 || b == 1 || b == 2 || b == 3;
  }

  /** Saving and loading gives every cheat its switch back, and enables every master code. */
  lemma MaskRoundTrip(cheats: seq<Cheat>, i: nat)
    requires i < CountFrom(cheats, 0)
    ensures Saved(cheats).Some?
    ensures EnabledBy(Saved(cheats).value, i) <==> cheats[i].enabled || Master(cheats[i])
  {
    var n, mask := CountFrom(cheats, 0), Saved(cheats).value;
    assert SwitchedOff(cheats, i) <==> !cheats[i].enabled && !Master(cheats[i]);
    if mask.Some? {
      assert i / 4 < |mask.value|;
      forall d | 0 <= d <= i / 4 ensures HexValue(mask.value[d]) == Some(Digit(cheats, n, d)) {
        HexRoundTrip(Digit(cheats, n, d));
      }
      DigitBits(cheats, n, i);
    }
  }

  /**
    The mask has a digit for every four cheats, of which the lowest bit is the first: the bit of each cheat is set
    exactly when it is switched off and no master code.
   */
  lemma MaskDigitIs(cheats: seq<Cheat>, i: nat)
    requires i < CountFrom(cheats, 0) && Saved(cheats).Some? && Saved(cheats).value.Some?
    ensures var n, mask := CountFrom(cheats, 0), Saved(cheats).value.value;
      && 4 * |mask| - 4 < n <= 4 * |mask|
      && HexValue(mask[i / 4]).Some?
      && ((HexValue(mask[i / 4]).value / [1, 2, 4, 8][i % 4]) % 2 == 1 <==> !cheats[i].enabled && !Master(cheats[i]))
  {
    var n := CountFrom(cheats, 0);
    HexRoundTrip(Digit(cheats, n, i / 4));
    DigitBits(cheats, n, i);
    assert Weight(i % 4) == [1, 2, 4, 8][i % 4];
  }

  /** Slots behind the table's end stay enabled. */
  lemma UnusedStayEnabled(cheats: seq<Cheat>, i: nat)
    requires i >= CountFrom(cheats, 0) > 0
    ensures Saved(cheats).Some? && EnabledBy(Saved(cheats).value, i)
  {
    var n, mask := CountFrom(cheats, 0), Saved(cheats).value;
    if mask.Some? && i / 4 < |mask.value| {
      HexRoundTrip(Digit(cheats, n, i / 4));
      DigitBits(cheats, n, i);
    }
  }

  lemma DigitStep(cheats: seq<Cheat>, n: nat, d: nat)
    ensures Digit(cheats, n + 1, d) ==
      if d == n / 4 && SwitchedOff(cheats, n) then WithBit(Digit(cheats, n, d), n % 4) else Digit(cheats, n, d)
  {
    if d == n / 4 {
      DigitBits(cheats, n, n);
      assert n == 4 * d + n % 4;
    }
  }

  lemma MaskStep(cheats: seq<Cheat>, n: nat, len: nat)
    ensures MaskOf(cheats, n + 1, len) ==
      if n / 4 < len && SwitchedOff(cheats, n)
      then MaskOf(cheats, n, len)[n / 4 := HexChar(Digit(cheats, n + 1, n / 4))] else MaskOf(cheats, n, len)
  {
    forall d | 0 <= d < len && (d != n / 4 || !SwitchedOff(cheats, n))
      ensures Digit(cheats, n + 1, d) == Digit(cheats, n, d) {
      DigitStep(cheats, n, d);
    }
  }

  /** Sets one bit in a digit. */
  method SetBit(hex: array<char>, digit: nat, bit: nat, ghost v: nat, ghost v': nat)
    requires digit < hex.Length && v < 16 && v' < 16 && hex[digit] == HexChar(v) && v' == WithBit(v, bit)
    modifies hex
    ensures hex[..] == old(hex[..])[digit := HexChar(v')]
  {
    HexRoundTrip(v);
    hex[digit] := HexChar(WithBit(HexValue(hex[digit]).value, bit));
  }

  method FillMask(hex: array<char>, cheats: seq<Cheat>, n: nat) returns (any: bool)
    requires n <= |cheats| && hex[..] == MaskOf(cheats, 0, hex.Length)
    modifies hex
    ensures hex[..] == MaskOf(cheats, n, hex.Length)
    ensures any <==> exists k :: 0 <= k < n && SwitchedOff(cheats, k)
  {
    var i, len := 0, hex.Length;
    any := false;
    while i < n
      invariant 0 <= i <= n
      invariant any <==> exists k :: 0 <= k < i && SwitchedOff(cheats, k)
      invariant hex[..] == MaskOf(cheats, i, len)
    {
      MaskStep(cheats, i, len);
      if !cheats[i].enabled && !Master(cheats[i]) {
        any := true;
        var digit := i / 4;
        if digit < len {
          DigitStep(cheats, i, digit);
          assert hex[digit] == HexChar(Digit(cheats, i, digit));
          SetBit(hex, digit, i % 4, Digit(cheats, i, digit), Digit(cheats, i + 1, digit));
        }
      }
      i := i + 1;
    }
  }

  /** `save_cheats` */
  method Save(cheats: seq<Cheat>) returns (r: Option<Option<string>>)
    requires |cheats| == MAX_CODES
    ensures r == Saved(cheats)
  {
    var n := Count(cheats);
    if n == 0 {
      return None;
    }
    var len := if (n + 3) / 4 > 64 then 64 else (n + 3) / 4;
    var hex := new char[len](_ => '0');
    assert hex[..] == MaskOf(cheats, 0, len);
    var any := FillMask(hex, cheats, n);
    if !any {
      return Some(None);
    }
    r := Some(Some(hex[..]));
  }

  /** `load_cheats_config` */
  method Load(enabled: array<bool>, mask: Option<string>)
    requires enabled.Length == MAX_CODES
    modifies enabled
    ensures forall i :: 0 <= i < enabled.Length ==> enabled[i] == EnabledBy(mask, i)
  {
    forall i | 0 <= i < enabled.Length {
      enabled[i] := true;
    }
    if mask.None? {
      return;
    }
    var i := 0;
    while i < enabled.Length && i < |mask.value| * 4
      invariant 0 <= i <= enabled.Length && i <= |mask.value| * 4
      invariant forall k :: 0 <= k < i ==> enabled[k] == EnabledBy(mask, k)
      invariant forall k :: i <= k < enabled.Length ==> enabled[k]
      invariant forall d :: 0 <= d && 4 * d < i ==> HexValue(mask.value[d]).Some?
    {
      var hex := HexValue(mask.value[i / 4]);
      if hex.None? {
        forall k | i <= k < enabled.Length ensures EnabledBy(mask, k) {
          assert 0 <= i / 4 <= k / 4;
        }
        return;
      }
      assert EnabledBy(mask, i) == !HasBit(hex.value, i % 4);
      enabled[i] := !HasBit(hex.value, i % 4);
      i := i + 1;
    }
  }

  // ---- the code list ----

  /** The codes of one cheat: up to the first zero address. */
  function Codes(cs: seq<Code>, n: nat): (r: seq<Code>)
    requires n <= |cs|
    ensures |r| <= n
  {
    if n == 0 then []
    else if |Codes(cs, n - 1)| == n - 1 && cs[n - 1].addr != 0 then Codes(cs, n - 1) + [cs[n - 1]]
    else Codes(cs, n - 1)
  }

  predicate Active(c: Cheat) {
    c.enabled || Master(c)
  }

  /** All active codes of the first `n` cheats, one behind the other. */
  function AllCodes(cheats: seq<Cheat>, n: nat): seq<Code>
    requires n <= |cheats|
  {
    if n == 0 then []
    else AllCodes(cheats, n - 1) + if Active(cheats[n - 1]) then Codes(cheats[n - 1].codes, |cheats[n - 1].codes|)
      else []
  }

  lemma AllCodesStep(cheats: seq<Cheat>, n: nat)
    requires n < |cheats|
    ensures AllCodes(cheats, n + 1) ==
      if Active(cheats[n]) then AllCodes(cheats, n) + Codes(cheats[n].codes, |cheats[n].codes|) else AllCodes(cheats, n)
  {
  }

  /** The codes of a cheat end at its first zero address. */
  lemma {:induction false} CodesAre(cs: seq<Code>, n: nat)
    requires n <= |cs|
    ensures var r := Codes(cs, n);
      r <= cs && (forall j :: 0 <= j < |r| ==> r[j].addr != 0) && (|r| < n ==> cs[|r|].addr == 0)
  {
    if n > 0 {
      CodesAre(cs, n - 1);
    }
  }

  /** The code is one of the cheat's, and the cheat is enabled or a master code. */
  predicate Gives(c: Cheat, j: nat, code: Code) {
    && (c.enabled || Master(c))
    && j < |c.codes| && c.codes[j] == code && forall q :: 0 <= q <= j ==> c.codes[q].addr != 0
  }

  lemma {:induction false} CodesGiven(c: Cheat, code: Code)
    ensures c.enabled || Master(c) ==>
      (code in Codes(c.codes, |c.codes|) <==> exists j: nat :: Gives(c, j, code))
  {
    var r := Codes(c.codes, |c.codes|);
    CodesAre(c.codes, |c.codes|);
    if c.enabled || Master(c) {
      if code in r {
        var j :| 0 <= j < |r| && r[j] == code;
        assert Gives(c, j, code);
      }
      if j: nat :| Gives(c, j, code) {
        assert j < |r|;
        assert r[j] == code;
      }
    }
  }

  /** What is listed are the codes of the enabled cheats and the master codes, each up to its first zero address. */
  lemma {:induction false} ListedExactly(cheats: seq<Cheat>, n: nat, code: Code)
    requires n <= |cheats|
    ensures code in AllCodes(cheats, n) <==> exists i: nat, j: nat :: i < n && Gives(cheats[i], j, code)
  {
    if n > 0 {
      ListedExactly(cheats, n - 1, code);
      CodesGiven(cheats[n - 1], code);
      AllCodesStep(cheats, n - 1);
    }
  }

  /** The codes of an earlier cheat come first. */
  lemma {:induction false} ListedInOrder(cheats: seq<Cheat>, i: nat, n: nat)
    requires i < n <= |cheats| && Active(cheats[i])
    ensures AllCodes(cheats, i) + Codes(cheats[i].codes, |cheats[i].codes|) <= AllCodes(cheats, n)
    decreases n
  {
    if i < n - 1 {
      ListedInOrder(cheats, i, n - 1);
    }
  }

  const ROOM: nat := 254

  function Fitting(codes: seq<Code>): (r: seq<Code>)
    ensures r <= codes && |r| == if |codes| <= 254 then |codes| else 254
  {
    if |codes| > ROOM then codes[..ROOM] else codes
  }

  /** The list as whole pairs of these codes, with zeros behind them. */
  function Words(codes: seq<Code>): (list: seq<nat>)
    ensures |list| == MAX_CHEATLIST
  {
    seq(MAX_CHEATLIST, k requires 0 <= k < MAX_CHEATLIST => Word(codes, k))
  }

  function Word(codes: seq<Code>, k: nat): nat {
    if k / 2 >= |codes| then 0 else if k % 2 == 0 then codes[k / 2].addr else codes[k / 2].val
  }

  lemma WordsStep(codes: seq<Code>, c: Code)
    requires |codes| < ROOM
    ensures Words(codes + [c]) == Words(codes)[2 * |codes| := c.addr][2 * |codes| + 1 := c.val]
  {
    forall k | 0 <= k < MAX_CHEATLIST && k / 2 != |codes| ensures Word(codes + [c], k) == Word(codes, k) {
    }
  }

  lemma WordsAre(codes: seq<Code>)
    requires |codes| <= ROOM
    ensures forall k :: 0 <= k < |codes| ==>
      Words(codes)[2 * k] == codes[k].addr && Words(codes)[2 * k + 1] == codes[k].val
    ensures forall k :: 2 * |codes| <= k < MAX_CHEATLIST ==> Words(codes)[k] == 0
  {
  }

  /** One cheat's codes go behind what is listed, as far as there is room. */
  method Append(list: array<nat>, at: nat, c: Cheat, ghost before: seq<Code>) returns (at': nat)
    requires list.Length == MAX_CHEATLIST == |c.codes|
    requires list[..] == Words(Fitting(before)) && at == 2 * |Fitting(before)|
    modifies list
    ensures var all := before + Codes(c.codes, |c.codes|);
      list[..] == Words(Fitting(all)) && at' == 2 * |Fitting(all)|
  {
    var j := 0;
    at' := at;
    ghost var listed := before;
    assert before + Codes(c.codes, 0) == before;
    while j < MAX_CHEATLIST
      invariant 0 <= j <= MAX_CHEATLIST && |Codes(c.codes, j)| == j && listed == before + Codes(c.codes, j)
      invariant list[..] == Words(Fitting(listed)) && at' == 2 * |Fitting(listed)|
    {
      if c.codes[j].addr == 0 {
        CodesEnd(c.codes, j, |c.codes|);
        return;
      }
      ghost var code: Code := c.codes[j];
      ghost var now: seq<nat> := list[..];
      FittingStep(listed, code);
      if at' < MAX_CHEATLIST - 2 {
        list[at'] := c.codes[j].addr;
        list[at' + 1] := c.codes[j].val;
        assert list[..] == now[at' := code.addr][at' + 1 := code.val];
        at' := at' + 2;
      }
      listed := listed + [code];
      j := j + 1;
    }
  }

  lemma FittingStep(codes: seq<Code>, c: Code)
    ensures if |codes| < ROOM
      then var n := 2 * |Fitting(codes)|;
           && Words(Fitting(codes + [c])) == Words(Fitting(codes))[n := c.addr][n + 1 := c.val]
           && |Fitting(codes + [c])| == |Fitting(codes)| + 1
      else Fitting(codes + [c]) == Fitting(codes) && |Fitting(codes)| == ROOM
  {
    if |codes| < ROOM {
      assert Fitting(codes + [c]) == codes + [c];
      WordsStep(codes, c);
    } else {
      assert (codes + [c])[..ROOM] == codes[..ROOM];
    }
  }

  lemma {:induction false} CodesEnd(cs: seq<Code>, j: nat, n: nat)
    requires j < n <= |cs| && cs[j].addr == 0
    ensures Codes(cs, n) == Codes(cs, j)
  {
    if n > j + 1 {
      CodesEnd(cs, j, n - 1);
    }
  }

  /** `set_cheats_list`: whole pairs, a prefix of all active codes, with a zero pair behind them. */
  method SetList(list: array<nat>, cheats: seq<Cheat>)
    requires list.Length == MAX_CHEATLIST && |cheats| == MAX_CODES
    requires forall i :: 0 <= i < |cheats| ==> |cheats[i].codes| == MAX_CHEATLIST
    modifies list
    ensures list[..] == Words(Fitting(AllCodes(cheats, CountFrom(cheats, 0))))
    ensures var codes := Fitting(AllCodes(cheats, CountFrom(cheats, 0)));
      && 2 * |codes| + 1 < list.Length
      && (forall k :: 0 <= k < |codes| ==> list[2 * k] == codes[k].addr && list[2 * k + 1] == codes[k].val)
      && (forall k :: 2 * |codes| <= k < list.Length ==> list[k] == 0)
  {
    var count := Count(cheats);
    forall k | 0 <= k < list.Length {
      list[k] := 0;
    }
    var at := FillList(list, cheats, count);
    ghost var codes := Fitting(AllCodes(cheats, count));
    WordsAre(codes);
    ghost var done := list[..];
    list[at] := 0;
    if at + 1 < MAX_CHEATLIST {
      list[at + 1] := 0;
    }
    assert list[..] == done;
  }

  /** The codes of the first `count` cheats go into a list of zeros. */
  method FillList(list: array<nat>, cheats: seq<Cheat>, count: nat) returns (at: nat)
    requires list.Length == MAX_CHEATLIST && count <= |cheats| && list[..] == Words([])
    requires forall i :: 0 <= i < |cheats| ==> |cheats[i].codes| == MAX_CHEATLIST
    modifies list
    ensures var codes := Fitting(AllCodes(cheats, count)); list[..] == Words(codes) && at == 2 * |codes|
  {
    var i := 0;
    at := 0;
    ghost var listed: seq<Code> := [];
    while i < count
      invariant 0 <= i <= count && listed == AllCodes(cheats, i)
      invariant list[..] == Words(Fitting(listed)) && at == 2 * |Fitting(listed)|
    {
      AllCodesStep(cheats, i);
      if cheats[i].enabled || Master(cheats[i]) {
        at := Append(list, at, cheats[i], listed);
        listed := listed + Codes(cheats[i].codes, |cheats[i].codes|);
      }
      i := i + 1;
    }
  }
}
