/** The reflected CRC-32 of section 8 of RFC 1952, as the firmware computes it bit by bit
    and as the host obtains it from zlib.

    Words are natural numbers; exclusive-or is defined on their binary digits, so the
    register is a polynomial over GF(2) and the whole check is linear algebra. */
module Crc32 {
  import opened Bytes

  const POLYNOMIAL: nat := 0xEDB8_8320
  const ALL_ONES: nat := 0xFFFF_FFFF
  const WORD: nat := 0x1_0000_0000

  function Xor(a: nat, b: nat): nat {
    if a == 0 && b == 0 then 0
    else (if a % 2 == b % 2 then 0 else 1) + 2 * Xor(a / 2, b / 2)
  }

  /** One turn of the inner loop. */
  function BitStep(c: nat): nat {
    if c % 2 == 1 then Xor(c / 2, POLYNOMIAL) else c / 2
  }

  function BitSteps(c: nat, n: nat): nat
    decreases n
  {
    if n == 0 then c else BitSteps(BitStep(c), n - 1)
  }

  /** The register after a byte string; the firmware's usac_crc32_update. */
  function Update(c: nat, data: seq<byte>): nat
    decreases |data|
  {
    if data == [] then c else Update(BitSteps(Xor(c, data[0]), 8), data[1..])
  }

  lemma XorFacts(a: nat, b: nat)
    ensures Xor(a, b) == Xor(b, a)
    ensures Xor(a, 0) == a
    ensures Xor(a, a) == 0
    ensures Xor(a, b) == 0 <==> a == b
  {
  }

  lemma {:induction false} XorAssociative(a: nat, b: nat, c: nat)
    ensures Xor(Xor(a, b), c) == Xor(a, Xor(b, c))
    decreases a + b + c
  {
    if a != 0 || b != 0 || c != 0 {
      XorAssociative(a / 2, b / 2, c / 2);
    }
  }

  lemma {:induction false} XorBelow(a: nat, b: nat, n: nat)
    requires a < Pow2(n) && b < Pow2(n)
    ensures Xor(a, b) < Pow2(n)
    decreases n
  {
    if n > 0 {
      XorBelow(a / 2, b / 2, n - 1);
    }
  }

  /** The top digit of a polynomial survives adding a shorter one. */
  lemma {:induction false} XorTop(a: nat, b: nat, n: nat)
    requires a < Pow2(n) <= b < Pow2(n + 1)
    ensures Xor(a, b) >= Pow2(n)
    decreases n
  {
    if n > 0 {
      XorTop(a / 2, b / 2, n - 1);
    } else {
      assert a == 0 && b == 1;
    }
  }

  lemma WordPow()
    ensures Pow2(31) == 0x8000_0000
    ensures Pow2(32) == WORD
  {
    assert Pow2(8) == 0x100;
    assert Pow2(16) == 0x1_0000;
    assert Pow2(24) == 0x100_0000;
  }

  lemma XorDigits(a: nat, b: nat)
    ensures Xor(a, b) % 2 == (if a % 2 == b % 2 then 0 else 1) && Xor(a, b) / 2 == Xor(a / 2, b / 2)
  {
  }

  lemma BitStepLinear(a: nat, b: nat)
    ensures BitStep(Xor(a, b)) == Xor(BitStep(a), BitStep(b))
  {
    hide Xor;
    var x, y := a / 2, b / 2;
    XorDigits(a, b);
    XorFacts(POLYNOMIAL, POLYNOMIAL);
    XorFacts(x, POLYNOMIAL);
    XorFacts(Xor(x, y), 0);
    XorAssociative(x, y, POLYNOMIAL);
    XorAssociative(x, POLYNOMIAL, y);
    XorAssociative(x, POLYNOMIAL, Xor(y, POLYNOMIAL));
    XorAssociative(POLYNOMIAL, y, POLYNOMIAL);
    XorFacts(y, POLYNOMIAL);
    XorAssociative(POLYNOMIAL, POLYNOMIAL, y);
    XorFacts(y, 0);
  }

  // ---------------------------------------------------------------- runs of bit steps

  lemma {:induction false} BitStepsLinear(a: nat, b: nat, n: nat)
    ensures BitSteps(Xor(a, b), n) == Xor(BitSteps(a, n), BitSteps(b, n))
    decreases n
  {
    if n > 0 {
      BitStepLinear(a, b);
      BitStepsLinear(BitStep(a), BitStep(b), n - 1);
    }
  }

  lemma {:induction false} BitStepsAdd(c: nat, m: nat, n: nat)
    ensures BitSteps(c, m + n) == BitSteps(BitSteps(c, m), n)
    decreases m
  {
    if m > 0 {
      BitStepsAdd(BitStep(c), m - 1, n);
    }
  }

  /** A polynomial with k zero low digits is merely shifted by the first k steps. */
  lemma {:induction false} BitStepsShift(v: nat, k: nat)
    ensures BitSteps(v * Pow2(k), k) == v
    decreases k
  {
    if k > 0 {
      var w := v * Pow2(k - 1);
      assert v * Pow2(k) == 2 * w by {
        assert Pow2(k) == 2 * Pow2(k - 1);
      }
      assert BitStep(2 * w) == w;
      BitStepsShift(v, k - 1);
    }
  }

  /** Digits that do not overlap add up. */
  lemma {:induction false} XorDisjoint(low: nat, high: nat, k: nat)
    requires low < Pow2(k)
    ensures Xor(low, high * Pow2(k)) == low + high * Pow2(k)
    decreases k
  {
    if k == 0 {
      XorFacts(high, 0);
    } else {
      var w := high * Pow2(k - 1);
      assert high * Pow2(k) == 2 * w by {
        assert Pow2(k) == 2 * Pow2(k - 1);
      }
      XorDisjoint(low / 2, high, k - 1);
      assert Xor(low, 2 * w) == low % 2 + 2 * Xor(low / 2, w);
    }
  }

  /** A nonzero register stays nonzero: the bit step is injective on 32-bit words. */
  lemma {:induction false} BitStepsNonzero(d: nat, n: nat)
    requires 0 < d < WORD
    ensures 0 < BitSteps(d, n) < WORD
    decreases n
  {
    if n > 0 {
      WordPow();
      XorTop(d / 2, POLYNOMIAL, 31);
      XorBelow(d / 2, POLYNOMIAL, 32);
      BitStepsNonzero(BitStep(d), n - 1);
    }
  }

  lemma BitStepsOfZero(n: nat)
    ensures BitSteps(0, n) == 0
    decreases n
  {
    if n > 0 {
      BitStepsOfZero(n - 1);
    }
  }

  lemma BitStepsInjective(a: nat, b: nat, n: nat)
    requires a < WORD && b < WORD
    requires BitSteps(a, n) == BitSteps(b, n)
    ensures a == b
  {
    WordPow();
    XorBelow(a, b, 32);
    XorFacts(a, b);
    BitStepsLinear(a, b, n);
    XorFacts(BitSteps(a, n), BitSteps(b, n));
    if a != b {
      BitStepsNonzero(Xor(a, b), n);
    }
  }

  // ---------------------------------------------------------------- byte strings

  /** A byte string read as a number: the first string holds the low digits. */
  lemma {:induction false} LeValueConcat(a: seq<byte>, b: seq<byte>)
    ensures LeValue(a) < Pow2(8 * |a|)
    ensures LeValue(a + b) == LeValue(a) + LeValue(b) * Pow2(8 * |a|)
  {
    if a == [] {
      assert a + b == b;
    } else {
      LeValueConcat(a[1..], b);
      assert (a + b)[1..] == a[1..] + b;
      PowByte(|a[1..]|);
      ByteCarry(a[0], LeValue(a[1..]), LeValue(b), Pow2(8 * |a[1..]|));
    }
  }

  lemma ByteCarry(b: byte, r: nat, v: nat, p: nat)
    requires r < p
    ensures b as int + 0x100 * r < 0x100 * p
    ensures b as int + 0x100 * (r + v * p) == b as int + 0x100 * r + v * (0x100 * p)
  {
  }

  lemma PowByte(n: nat)
    ensures Pow2(8 * (n + 1)) == 0x100 * Pow2(8 * n)
  {
    var m := 8 * n;
    assert Pow2(m + 2) == 4 * Pow2(m);
    assert Pow2(m + 4) == 4 * Pow2(m + 2);
    assert Pow2(m + 6) == 4 * Pow2(m + 4);
    assert Pow2(m + 8) == 4 * Pow2(m + 6);
  }

  /** Segmented updates are one update of the concatenation. */
  lemma {:induction false} UpdateConcat(c: nat, a: seq<byte>, b: seq<byte>)
    ensures Update(c, a + b) == Update(Update(c, a), b)
    decreases |a|
  {
    if a == [] {
      assert a + b == b;
    } else {
      assert (a + b)[1..] == a[1..] + b;
      UpdateConcat(BitSteps(Xor(c, a[0]), 8), a[1..], b);
    }
  }

  /** Feeding bytes one at a time is feeding their polynomial bit by bit. */
  lemma {:induction false} UpdateIsPolynomial(c: nat, x: seq<byte>)
    ensures Update(c, x) == BitSteps(Xor(c, LeValue(x)), 8 * |x|)
    decreases |x|
  {
    hide Xor, BitSteps;
    if x == [] {
      XorFacts(c, 0);
      NoSteps(c);
    } else {
      var c1 := BitSteps(Xor(c, x[0]), 8);
      var more := LeValue(x[1..]);
      UpdateIsPolynomial(c1, x[1..]);
      FirstByte(c, x[0], more);
      assert LeValue(x) == x[0] as int + 0x100 * more && Update(c, x) == Update(c1, x[1..]);
      BitStepsAdd(Xor(c, LeValue(x)), 8, 8 * |x[1..]|);
      hide LeValue, Update;
    }
  }

  lemma NoSteps(c: nat)
    ensures BitSteps(c, 0) == c
  {
  }

  /** Digits above the first byte may be added before or after that byte is fed. */
  lemma FirstByte(c: nat, b: byte, r: nat)
    ensures Xor(BitSteps(Xor(c, b), 8), r) == BitSteps(Xor(c, b as int + 0x100 * r), 8)
  {
    var high := r * Pow2(8);
    assert Pow2(8) == 0x100;
    BitStepsShift(r, 8);
    BitStepsLinear(Xor(c, b), high, 8);
    XorAssociative(c, b, high);
    XorDisjoint(b, r, 8);
  }

  lemma {:induction false} UpdateBelow(c: nat, x: seq<byte>)
    requires c < WORD
    ensures Update(c, x) < WORD
    decreases |x|
  {
    if x != [] {
      WordPow();
      assert Pow2(8) == 0x100;
      XorBelow(c, x[0], 32);
      StepsBelow(Xor(c, x[0]), 8);
      UpdateBelow(BitSteps(Xor(c, x[0]), 8), x[1..]);
    }
  }

  lemma StepsBelow(c: nat, n: nat)
    requires c < WORD
    ensures BitSteps(c, n) < WORD
  {
    if c > 0 {
      BitStepsNonzero(c, n);
    } else {
      BitStepsOfZero(n);
    }
  }

  /** The checksum both sides attach: initial register and final inversion all ones. */
  function Checksum(data: seq<byte>): u32 {
    UpdateBelow(ALL_ONES, data);
    Finish(Update(ALL_ONES, data))
  }

  function Finish(c: nat): u32
    requires c < WORD
  {
    XorBelowWord(c, ALL_ONES);
    Xor(c, ALL_ONES)
  }

  lemma XorBelowWord(a: nat, b: nat)
    requires a < WORD && b < WORD
    ensures Xor(a, b) < WORD
  {
    WordPow();
    XorBelow(a, b, 32);
  }

  // ---------------------------------------------------------------- the standard's parameters

  /** The generator polynomial of section 8.1.1.6.2 of ITU-T V.42 below its leading term,
      x^26 + x^23 + x^22 + x^16 + x^12 + x^11 + x^10 + x^8 + x^7 + x^5 + x^4 + x^2 + x + 1,
      with the coefficient of x^k in digit 31 - k. */
  lemma PolynomialIsStandard()
    ensures POLYNOMIAL ==
              Pow2(31 - 26) + Pow2(31 - 23) + Pow2(31 - 22) + Pow2(31 - 16) + Pow2(31 - 12) + Pow2(31 - 11) +
              Pow2(31 - 10) + Pow2(31 - 8) + Pow2(31 - 7) + Pow2(31 - 5) + Pow2(31 - 4) + Pow2(31 - 2) + Pow2(31 - 1) +
              Pow2(31 - 0)
  {
    WordPow();
    assert Pow2(5) == 0x20 && Pow2(8) == 0x100 && Pow2(9) == 0x200 && Pow2(15) == 0x8000;
    assert Pow2(19) == 0x8_0000 && Pow2(20) == 0x10_0000 && Pow2(21) == 0x20_0000 && Pow2(23) == 0x80_0000;
    assert Pow2(24) == 0x100_0000 && Pow2(26) == 0x400_0000 && Pow2(27) == 0x800_0000;
    assert Pow2(29) == 0x2000_0000 && Pow2(30) == 0x4000_0000;
  }

  /** The initial register and the final inversion: no data has checksum zero, a byte of ones
      passes through a register of ones without meeting the polynomial, and 0x7F meets it once. */
  lemma ChecksumValues()
    ensures Checksum([]) == 0 && Checksum([0xFF]) == 0xFF00_0000
    ensures Checksum([0x7F]) == Xor(POLYNOMIAL, 0xFF00_0000)
  {
    hide Xor, BitSteps, Update, Pow2;
    PowValues();
    OnesLess(0xFF, 0xFF_FFFF, 8);
    OnesLess(0x7F, 0x1FF_FFFF, 7);
    OnesLess(0xFF_FFFF, 0xFF, 24);
    BitStepsShift(0xFF_FFFF, 8);
    BitStepsShift(0x1FF_FFFF, 7);
    BitStepsAdd(0xFFFF_FF80, 7, 1);
    XorFacts(ALL_ONES, ALL_ONES);
    XorFacts(0xFF_FFFF, POLYNOMIAL);
    XorAssociative(POLYNOMIAL, 0xFF_FFFF, ALL_ONES);
    OneByte(0xFF);
    OneByte(0x7F);
    OneStep();
  }

  lemma PowValues()
    ensures Pow2(7) == 0x80 && Pow2(8) == 0x100 && Pow2(24) == 0x100_0000
  {
    assert Pow2(8) == 0x100;
    assert Pow2(12) == 0x1000;
    assert Pow2(16) == 0x1_0000;
    assert Pow2(20) == 0x10_0000;
  }

  lemma OneByte(b: byte)
    ensures Update(ALL_ONES, []) == ALL_ONES && Update(ALL_ONES, [b]) == BitSteps(Xor(ALL_ONES, b), 8)
  {
    assert [b][1..] == [];
    hide Xor, BitSteps;
  }

  lemma OneStep()
    ensures BitSteps(0x1FF_FFFF, 1) == Xor(0xFF_FFFF, POLYNOMIAL)
  {
    hide Xor;
  }

  /** Taking the low ones from a word leaves the high part. */
  lemma OnesLess(low: nat, high: nat, k: nat)
    requires low < Pow2(k)
    ensures Xor(low + high * Pow2(k), low) == high * Pow2(k) && Xor(low, low + high * Pow2(k)) == high * Pow2(k)
  {
    var h := high * Pow2(k);
    XorDisjoint(low, high, k);
    XorFacts(low + h, low);
    XorAssociative(low, low, h);
    XorFacts(low, low);
    XorFacts(h, 0);
  }

  // ---------------------------------------------------------------- burst detection

  /** A frame tail passes when its last four bytes are the checksum of the rest. */
  predicate TailPasses(tail: seq<byte>) {
    |tail| >= 4 && U32At(tail, |tail| - 4) == Checksum(tail[..|tail| - 4])
  }

  /** A tail passes exactly when running the register over all of it, checksum included,
      leaves one fixed residue. */
  lemma TailPassesIffResidue(tail: seq<byte>)
    requires |tail| >= 4
    ensures TailPasses(tail) <==> Update(ALL_ONES, tail) == BitSteps(ALL_ONES, 32)
  {
    var body, t := tail[..|tail| - 4], tail[|tail| - 4..];
    var u, v := Update(ALL_ONES, body), LeValue(t);
    assert tail == body + t;
    UpdateConcat(ALL_ONES, body, t);
    UpdateBelow(ALL_ONES, body);
    UpdateIsPolynomial(u, t);
    LeValueWord(t);
    assert U32At(tail, |tail| - 4) == v;
    XorBelowWord(u, v);
    XorAssociative(u, u, ALL_ONES);
    XorFacts(u, u);
    XorFacts(ALL_ONES, 0);
    if TailPasses(tail) {
      assert v == Xor(u, ALL_ONES);
    }
    if Update(ALL_ONES, tail) == BitSteps(ALL_ONES, 32) {
      BitStepsInjective(Xor(u, v), ALL_ONES, 32);
      XorAssociative(u, u, v);
      XorFacts(v, 0);
    }
  }

  /** d is a nonzero pattern of at most 32 bits; shifted to bit k it is the difference. */
  ghost predicate IsBurst(x: seq<byte>, y: seq<byte>, d: nat, k: nat) {
    |x| == |y| && 0 < d < WORD && k <= 8 * |x| &&
    Xor(LeValue(x), LeValue(y)) == d * Pow2(k)
  }

  /** No burst of up to 32 bits, anywhere and at any bit alignment, goes unnoticed. */
  lemma BurstDetected(x: seq<byte>, y: seq<byte>, d: nat, k: nat)
    requires |x| >= 4 && IsBurst(x, y, d, k)
    ensures !(TailPasses(x) && TailPasses(y))
  {
    var n := 8 * |x|;
    TailPassesIffResidue(x);
    TailPassesIffResidue(y);
    UpdateDifference(ALL_ONES, x, y);
    BurstSurvives(d, k, n);
    XorFacts(Update(ALL_ONES, x), Update(ALL_ONES, y));
  }

  /** Two runs of the register differ by the difference of their inputs, run alone. */
  lemma UpdateDifference(c: nat, x: seq<byte>, y: seq<byte>)
    requires |x| == |y|
    ensures Xor(Update(c, x), Update(c, y)) == BitSteps(Xor(LeValue(x), LeValue(y)), 8 * |x|)
  {
    var a, b := LeValue(x), LeValue(y);
    UpdateIsPolynomial(c, x);
    UpdateIsPolynomial(c, y);
    XorCancel(c, a, b);
    BitStepsLinear(Xor(c, a), Xor(c, b), 8 * |x|);
  }

  lemma BurstSurvives(d: nat, k: nat, n: nat)
    requires 0 < d < WORD && k <= n
    ensures BitSteps(d * Pow2(k), n) > 0
  {
    BitStepsAdd(d * Pow2(k), k, n - k);
    BitStepsShift(d, k);
    BitStepsNonzero(d, n - k);
  }

  lemma XorCancel(c: nat, a: nat, b: nat)
    ensures Xor(Xor(c, a), Xor(c, b)) == Xor(a, b)
  {
    XorFacts(c, a);
    XorAssociative(a, c, Xor(c, b));
    XorAssociative(c, c, b);
    XorFacts(c, c);
    XorFacts(b, 0);
  }

  lemma {:induction false} XorShift(a: nat, b: nat, k: nat)
    ensures Xor(a * Pow2(k), b * Pow2(k)) == Xor(a, b) * Pow2(k)
    decreases k
  {
    if k > 0 {
      XorShift(2 * a, 2 * b, k - 1);
      DoubleFactor(a, Pow2(k - 1));
      DoubleFactor(b, Pow2(k - 1));
      DoubleFactor(Xor(a, b), Pow2(k - 1));
      assert Xor(2 * a, 2 * b) == 2 * Xor(a, b);
    }
  }

  lemma DoubleFactor(a: nat, h: nat)
    ensures (2 * a) * h == a * (2 * h)
  {
  }

  lemma XorAbove(low: nat, a: nat, b: nat, k: nat)
    requires low < Pow2(k)
    ensures Xor(low + a * Pow2(k), low + b * Pow2(k)) == Xor(a, b) * Pow2(k)
  {
    XorDisjoint(low, a, k);
    XorDisjoint(low, b, k);
    XorCancel(low, a * Pow2(k), b * Pow2(k));
    XorShift(a, b, k);
  }

  /** Two tails that differ only inside four consecutive bytes never both pass. */
  lemma FourByteBurstDetected(x: seq<byte>, y: seq<byte>, i: nat)
    requires |x| == |y| && i + 4 <= |x|
    requires x[..i] == y[..i] && x[i + 4..] == y[i + 4..] && x != y
    ensures !(TailPasses(x) && TailPasses(y))
  {
    var p, w, v, s := x[..i], x[i..i + 4], y[i..i + 4], x[i + 4..];
    assert x == p + (w + s) && y == p + (v + s);
    var d := Xor(LeValue(w), LeValue(v));
    LeValueConcat(p, w + s);
    LeValueConcat(p, v + s);
    XorAbove(LeValue(p), LeValue(w + s), LeValue(v + s), 8 * i);
    WindowDifference(w, v, s);
    assert IsBurst(x, y, d, 8 * i);
    BurstDetected(x, y, d, 8 * i);
  }

  lemma WindowDifference(w: seq<byte>, v: seq<byte>, s: seq<byte>)
    requires |w| == |v| == 4 && w != v
    ensures Xor(LeValue(w + s), LeValue(v + s)) == Xor(LeValue(w), LeValue(v))
    ensures 0 < Xor(LeValue(w), LeValue(v)) < WORD
  {
    hide Xor, Le32, U32At, LeValue, Pow2;
    var a, b, r := LeValue(w), LeValue(v), LeValue(s);
    LeValueConcat(w, s);
    LeValueConcat(v, s);
    LeValueWord(w);
    LeValueWord(v);
    WordPow();
    XorDisjoint(a, r, 32);
    XorDisjoint(b, r, 32);
    XorFacts(a, r * WORD);
    XorFacts(b, r * WORD);
    XorCancel(r * WORD, a, b);
    XorBelowWord(a, b);
    XorFacts(a, b);
    Le32Inverse(w);
    Le32Inverse(v);
  }

  /** Two payloads that differ only within four consecutive bytes have different checksums. */
  lemma ChecksumsDiffer(x: seq<byte>, y: seq<byte>, i: nat)
    requires |x| == |y| && i + 4 <= |x| && x[..i] == y[..i] && x[i + 4..] == y[i + 4..] && x != y
    ensures Checksum(x) != Checksum(y)
  {
    hide Checksum, Le32, U32At;
    var c := Le32(Checksum(x));
    Le32Reads(Checksum(x), x, []);
    Le32Reads(Checksum(x), y, []);
    var p, q := x + c, y + c;
    assert x + c + [] == p && y + c + [] == q;
    assert p[..|p| - 4] == x && q[..|q| - 4] == y;
    if Checksum(x) == Checksum(y) {
      assert TailPasses(p) && TailPasses(q);
      assert p[..i] == x[..i] && q[..i] == y[..i] && p[i + 4..] == x[i + 4..] + c && q[i + 4..] == y[i + 4..] + c;
      FourByteBurstDetected(p, q, i);
      assert false;
    }
  }

  // ---------------------------------------------------------------- the loops

  /** usac_mcu_crc32: the outer loop over bytes and the inner loop over bits. */
  method McuCrc32(data: array<byte>, offset: nat, length: nat) returns (crc: u32)
    requires offset + length <= data.Length
    ensures crc == Checksum(data[offset..offset + length])
  {
    var reg: nat := ALL_ONES;
    ghost var all := data[offset..offset + length];
    for index := 0 to length
      invariant Update(reg, all[index..]) == Update(ALL_ONES, all)
    {
      ghost var before := reg;
      reg := Xor(reg, data[offset + index]);
      ghost var mixed := reg;
      for bit := 0 to 8
        invariant BitSteps(reg, 8 - bit) == BitSteps(mixed, 8)
      {
        if reg % 2 == 1 {
          reg := Xor(reg / 2, POLYNOMIAL);
        } else {
          reg := reg / 2;
        }
      }
      assert all[index..][1..] == all[index + 1..];
      assert all[index..][0] == data[offset + index];
    }
    assert all[length..] == [];
    UpdateBelow(ALL_ONES, all);
    XorBelowWord(reg, ALL_ONES);
    crc := Xor(reg, ALL_ONES);
  }

  /** usac_crc32_update: the same loops on a register carried from one piece to the next. */
  method CrcUpdate(crc: nat, data: seq<byte>) returns (updated: nat)
    ensures updated == Update(crc, data)
  {
    updated := crc;
    for index := 0 to |data|
      invariant Update(updated, data[index..]) == Update(crc, data)
    {
      updated := Xor(updated, data[index]);
      ghost var mixed := updated;
      for bit := 0 to 8
        invariant BitSteps(updated, 8 - bit) == BitSteps(mixed, 8)
      {
        updated := if updated % 2 == 1 then Xor(updated / 2, POLYNOMIAL) else updated / 2;
      }
      assert data[index..][1..] == data[index + 1..] && data[index..][0] == data[index];
    }
    assert data[|data|..] == [];
  }
}
