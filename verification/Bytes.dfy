/** Octets, fixed-width unsigned words and their little-endian wire images.

    The firmware writes words byte by byte and the host packs them with a "<" format; both
    are the functions below. */
module Bytes {

  type byte = x: int | 0 <= x < 0x100
  type u16 = x: int | 0 <= x < 0x1_0000
  type u32 = x: int | 0 <= x < 0x1_0000_0000
  type u64 = x: int | 0 <= x < 0x1_0000_0000_0000_0000

  /** A fixed-size digest: what SHA-256 returns. */
  type Hash32 = s: seq<byte> | |s| == 32 witness seq(32, _ => 0)

  /** A 16-byte identifier. */
  type Id16 = s: seq<byte> | |s| == 16 witness seq(16, _ => 0)

  function Le16(v: u16): (s: seq<byte>)
    ensures |s| == 2
  {
    [v % 0x100, v / 0x100]
  }

  function Le32(v: u32): (s: seq<byte>)
    ensures |s| == 4
  {
    [v % 0x100, v / 0x100 % 0x100, v / 0x1_0000 % 0x100, v / 0x100_0000]
  }

  function U16At(s: seq<byte>, i: nat): u16
    requires i + 2 <= |s|
  {
    s[i] as int + 0x100 * s[i + 1] as int
  }

  function U32At(s: seq<byte>, i: nat): u32
    requires i + 4 <= |s|
  {
    s[i] as int + 0x100 * s[i + 1] as int + 0x1_0000 * s[i + 2] as int + 0x100_0000 * s[i + 3] as int
  }

  /** The little-endian number a whole byte string spells. */
  function LeValue(s: seq<byte>): nat {
    if s == [] then 0 else s[0] as int + 0x100 * LeValue(s[1..])
  }

  function Zeros(n: nat): seq<byte> {
    seq(n, _ => 0)
  }

  function Pow2(n: nat): (p: nat)
    ensures p > 0
  {
    if n == 0 then 1 else 2 * Pow2(n - 1)
  }

  /** Bit k of a word, counted from the least significant one. */
  predicate Bit(v: nat, k: nat) {
    v / Pow2(k) % 2 == 1
  }

  /** Reading a word looks at its own bytes only. */
  lemma WordsOfPrefix(s: seq<byte>, t: seq<byte>, i: nat)
    requires t <= s
    ensures i + 2 <= |t| ==> U16At(s, i) == U16At(t, i)
    ensures i + 4 <= |t| ==> U32At(s, i) == U32At(t, i)
  {
  }

  lemma Le16Reads(v: u16, p: seq<byte>, q: seq<byte>)
    ensures U16At(p + Le16(v) + q, |p|) == v
  {
  }

  lemma Le32Reads(v: u32, p: seq<byte>, q: seq<byte>)
    ensures U32At(p + Le32(v) + q, |p|) == v
  {
  }

  /** A word and its four bytes determine each other. */
  lemma Le32Inverse(s: seq<byte>)
    requires |s| == 4
    ensures Le32(U32At(s, 0)) == s
  {
    var v := U32At(s, 0);
    var r1: nat := s[1] as int + 0x100 * s[2] as int + 0x1_0000 * s[3] as int;
    var r2: nat := s[2] as int + 0x100 * s[3] as int;
    assert v == s[0] as int + 0x100 * r1;
    assert r1 == s[1] as int + 0x100 * r2;
    assert v / 0x100 == r1 && v % 0x100 == s[0];
    assert v / 0x1_0000 == r1 / 0x100 == r2;
    assert v / 0x100_0000 == r2 / 0x100 == s[3];
  }

  /** A word read from a string is spelled by the bytes it was read from. */
  lemma SliceWords(s: seq<byte>, i: nat)
    ensures i + 2 <= |s| ==> Le16(U16At(s, i)) == s[i..i + 2]
    ensures i + 4 <= |s| ==> Le32(U32At(s, i)) == s[i..i + 4]
  {
    if i + 4 <= |s| {
      Le32Inverse(s[i..i + 4]);
    }
  }

  lemma LeValueWord(s: seq<byte>)
    requires |s| == 4
    ensures LeValue(s) == U32At(s, 0)
  {
    assert s[1..][1..] == s[2..] && s[2..][1..] == s[3..] && s[3..][1..] == [];
    assert LeValue(s[3..]) == s[3];
    assert LeValue(s[2..]) == s[2] as int + 0x100 * s[3] as int;
    assert LeValue(s[1..]) == s[1] as int + 0x100 * LeValue(s[2..]);
  }
}
