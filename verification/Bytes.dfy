/** Byte buffers, and stretches of bytes written into them. */
module Bytes {

  type Byte = b: int | 0 <= b < 256

  /** `m` with `row` written over the bytes from `at` on. */
  function Splice(m: seq<Byte>, at: nat, row: seq<Byte>): (r: seq<Byte>)
    requires at + |row| <= |m|
    ensures |r| == |m|
  {
    seq(|m|, i requires 0 <= i < |m| => if at <= i < at + |row| then row[i - at] else m[i])
  }

  lemma SpliceAt(m: seq<Byte>, at: nat, row: seq<Byte>)
    requires at + |row| <= |m|
    ensures Splice(m, at, row)[at..at + |row|] == row
  {
  }

  lemma SpliceIndex(m: seq<Byte>, at: nat, row: seq<Byte>)
    requires at + |row| <= |m|
    ensures forall i :: 0 <= i < |m| ==> Splice(m, at, row)[i] == if at <= i < at + |row| then row[i - at] else m[i]
  {
  }

  lemma SpliceElsewhere(m: seq<Byte>, at: nat, row: seq<Byte>, from: nat, len: nat)
    requires at + |row| <= |m| && from + len <= |m|
    requires at + |row| <= from || from + len <= at
    ensures Splice(m, at, row)[from..from + len] == m[from..from + len]
  {
    var s := Splice(m, at, row);
    assert forall k :: from <= k < from + len ==> s[k] == m[k];
  }

  function Zeros(n: nat): (z: seq<Byte>)
    ensures |z| == n && forall i :: 0 <= i < n ==> z[i] == 0
  {
    seq(n, _ => 0)
  }

  /** `memcpy` of `n` bytes of `src`. */
  method Copy(mem: array<Byte>, at: nat, src: seq<Byte>, from: nat, n: nat)
    requires at + n <= mem.Length && from + n <= |src|
    modifies mem
    ensures mem[..] == Splice(old(mem[..]), at, src[from..from + n])
  {
    forall k | 0 <= k < n {
      mem[at + k] := src[from + k];
    }
  }

  /** `memset` to zero. */
  method Clear(mem: array<Byte>, at: nat, n: nat)
    requires at + n <= mem.Length
    modifies mem
    ensures mem[..] == Splice(old(mem[..]), at, Zeros(n))
  {
    forall k | 0 <= k < n {
      mem[at + k] := 0;
    }
  }

  // ---- little-endian numbers ----

  function Word(s: seq<Byte>): nat {
    if s == [] then 0 else s[0] + 256 * Word(s[1..])
  }

  /** Least significant byte first. */
  lemma WordBytes(s: seq<Byte>)
    ensures |s| == 2 ==> Word(s) == s[0] + 0x100 * (s[1] as int)
    ensures |s| == 4 ==> Word(s) == s[0] + 0x100 * (s[1] as int) + 0x1_0000 * (s[2] as int) + 0x100_0000 * (s[3] as int)
    ensures |s| == 8 ==> Word(s) == Word(s[..4]) + 0x1_0000_0000 * Word(s[4..])
  {
    if |s| == 2 {
      assert Word(s[1..]) == s[1] + 256 * Word(s[1..][1..]) && s[1..][1..] == [];
    } else if |s| == 4 {
      WordOfFour(s);
    } else if |s| == 8 {
      WordOfFour(s[..4]);
      var t := s[4..];
      assert s[1..][1..][1..][1..] == t;
      assert Word(s) == s[0] + 256 * Word(s[1..]);
      assert Word(s[1..]) == s[1] + 256 * Word(s[1..][1..]);
      assert Word(s[1..][1..]) == s[2] + 256 * Word(s[1..][1..][1..]);
      assert Word(s[1..][1..][1..]) == s[3] + 256 * Word(t);
    }
  }

  lemma WordOfFour(s: seq<Byte>)
    requires |s| == 4
    ensures Word(s) == s[0] + 0x100 * (s[1] as int) + 0x1_0000 * (s[2] as int) + 0x100_0000 * (s[3] as int)
  {
    assert Word(s) == s[0] + 256 * Word(s[1..]);
    assert Word(s[1..]) == s[1] + 256 * Word(s[1..][1..]);
    assert Word(s[1..][1..]) == s[2] + 256 * Word(s[1..][1..][1..]);
    assert Word(s[1..][1..][1..]) == s[3] + 256 * Word([]) by {
      assert s[1..][1..][1..][1..] == [];
    }
  }

  /** `n` bytes, least significant first. */
  function Little(n: nat, v: nat): (s: seq<Byte>)
    ensures |s| == n
  {
    if n == 0 then [] else [v % 256] + Little(n - 1, v / 256)
  }

  function Pow256(n: nat): nat {
    if n == 0 then 1 else 256 * Pow256(n - 1)
  }

  lemma {:induction false} WordOfLittle(n: nat, v: nat)
    requires v < Pow256(n)
    ensures Word(Little(n, v)) == v
  {
    if n > 0 {
      WordOfLittle(n - 1, v / 256);
      assert Little(n, v)[1..] == Little(n - 1, v / 256);
    }
  }

  lemma {:induction false} WordIsSmall(s: seq<Byte>)
    ensures Word(s) < Pow256(|s|)
  {
    if s != [] {
      WordIsSmall(s[1..]);
    }
  }

  lemma {:induction false} Pow256Values()
    ensures Pow256(2) == 65536 && Pow256(4) == 0x1_0000_0000 && Pow256(8) == 0x1_0000_0000_0000_0000
  {
    assert Pow256(1) == 256;
    assert Pow256(3) == 256 * 65536;
    assert Pow256(6) == 256 * (256 * Pow256(4));
  }
}
