/** AcquisitionConfigV2 on both sides of the wire: the firmware's fixed ten-register form and
    the host's variable one, bound by one hash and checksum of the canonical bytes. */
module ConfigV2 {
  import opened Bytes
  import opened Delivery
  import opened Packing
  import opened CaptureData
  import opened Profile
  import Crc32

  const SCHEMA: u16 := 2
  const WIRE_LENGTH := 72

  type Sha = seq<byte> -> Hash32

  datatype Config = Config(
    schema: u16, interval: u16, sampleCount: u16, pretrigger: u16, adcBits: byte, auxFlags: byte, vrefMv: u16,
    burst: u16, registers: seq<RegisterPair>, sha: Hash32, crc: u32)

  // ---------------------------------------------------------------- layout

  /** Address and value of each register in turn. */
  function PairBytes(rs: seq<RegisterPair>): seq<byte> {
    seq(2 * |rs|, i requires 0 <= i < 2 * |rs| => if i % 2 == 0 then rs[i / 2].address else rs[i / 2].value)
  }

  /** The bytes that identify a configuration. */
  function Canonical(c: Config): seq<byte>
    requires |c.registers| < 0x100
  {
    Pack16(c.schema) + Pack16(c.interval) + Pack16(c.sampleCount) + Pack16(c.pretrigger) + [c.adcBits] +
    Pack16(c.vrefMv) + [c.auxFlags] + Pack16(c.burst) + [|c.registers|] + PairBytes(c.registers)
  }

  function Prefix(c: Config): seq<byte>
    requires |c.registers| < 0x100
  {
    Pack16(c.schema) + Pack16(c.interval) + Pack16(c.sampleCount) + Pack16(c.pretrigger) + [c.adcBits, c.auxFlags] +
    Pack16(c.vrefMv) + Pack16(c.burst) + [|c.registers|, 0]
  }

  function Wire(c: Config): seq<byte>
    requires |c.registers| < 0x100
  {
    Prefix(c) + PairBytes(c.registers) + c.sha + Pack32(c.crc)
  }

  function PairsAt(w: seq<byte>, offset: nat, n: nat): seq<RegisterPair>
    requires offset + 2 * n <= |w|
  {
    seq(n, i requires 0 <= i < n => RegisterPair(w[offset + 2 * i], w[offset + 2 * i + 1]))
  }

  function ReadWire(w: seq<byte>, n: nat): Config
    requires |w| == 52 + 2 * n
  {
    Config(Unpack16(w[0..2]), Unpack16(w[2..4]), Unpack16(w[4..6]), Unpack16(w[6..8]), w[8], w[9], Unpack16(w[10..12]),
           Unpack16(w[12..14]), PairsAt(w, 16, n), w[16 + 2 * n..48 + 2 * n], Unpack32(w[48 + 2 * n..]))
  }

  lemma PairsInvert(rs: seq<RegisterPair>, before: seq<byte>, after: seq<byte>)
    ensures PairsAt(before + PairBytes(rs) + after, |before|, |rs|) == rs
  {
  }

  lemma PairBytesOf(w: seq<byte>, offset: nat, n: nat)
    requires offset + 2 * n <= |w|
    ensures PairBytes(PairsAt(w, offset, n)) == w[offset..offset + 2 * n]
  {
    var b := PairBytes(PairsAt(w, offset, n));
    forall i | 0 <= i < 2 * n ensures b[i] == w[offset..offset + 2 * n][i] {
      assert i == 2 * (i / 2) + i % 2;
    }
  }

  lemma PrefixSlices(a: seq<byte>, b: seq<byte>, c: seq<byte>, d: seq<byte>, e: seq<byte>, f: seq<byte>, g: seq<byte>,
                     h: seq<byte>, rest: seq<byte>)
    requires |a| == |b| == |c| == |d| == |e| == |f| == |g| == |h| == 2
    ensures var w := a + b + c + d + e + f + g + h + rest;
            w[0..2] == a && w[2..4] == b && w[4..6] == c && w[6..8] == d && w[8] == e[0] && w[9] == e[1] &&
            w[10..12] == f && w[12..14] == g && w[14] == h[0] && w[15] == h[1]
  {
  }

  lemma TailSlices(p: seq<byte>, q: seq<byte>, sha: seq<byte>, crc: seq<byte>)
    requires |p| == 16 && |sha| == 32 && |crc| == 4
    ensures var w := p + q + sha + crc;
            w[16 + |q|..48 + |q|] == sha && w[48 + |q|..] == crc && w == p + q + (sha + crc) == p + (q + sha + crc)
  {
  }

  /** Reading what was written. */
  lemma WireReads(c: Config)
    requires |c.registers| < 0x100
    ensures var w := Wire(c);
            |w| == 52 + 2 * |c.registers| && ReadWire(w, |c.registers|) == c && w[14] == |c.registers| && w[15] == 0
  {
    Words();
    hide Pack16, Pack32, Unpack16, Unpack32, PairBytes, PairsAt;
    assert |PairBytes(c.registers)| == 2 * |c.registers| by { PairLength(c.registers); }
    var tail := PairBytes(c.registers) + c.sha + Pack32(c.crc);
    PrefixSlices(Pack16(c.schema), Pack16(c.interval), Pack16(c.sampleCount), Pack16(c.pretrigger),
                 [c.adcBits, c.auxFlags], Pack16(c.vrefMv), Pack16(c.burst), [|c.registers|, 0], tail);
    TailSlices(Prefix(c), PairBytes(c.registers), c.sha, Pack32(c.crc));
    PairsInvert(c.registers, Prefix(c), c.sha + Pack32(c.crc));
  }

  lemma PairLength(rs: seq<RegisterPair>)
    ensures |PairBytes(rs)| == 2 * |rs|
  {
  }

  lemma WireSplits(w: seq<byte>, n: nat)
    requires |w| == 52 + 2 * n
    ensures w == w[0..2] + w[2..4] + w[4..6] + w[6..8] + [w[8], w[9]] + w[10..12] + w[12..14] + [w[14], w[15]] +
                 w[16..16 + 2 * n] + w[16 + 2 * n..48 + 2 * n] + w[48 + 2 * n..]
  {
  }

  /** Writing what was read. */
  lemma WireWrites(w: seq<byte>, n: nat)
    requires |w| == 52 + 2 * n && n < 0x100 && w[14] == n && w[15] == 0
    ensures Wire(ReadWire(w, n)) == w
  {
    hide Pack16, Pack32, Unpack16, Unpack32, PairBytes, PairsAt;
    Word16(0, w[0..2]);
    Word16(0, w[2..4]);
    Word16(0, w[4..6]);
    Word16(0, w[6..8]);
    Word16(0, w[10..12]);
    Word16(0, w[12..14]);
    Word32(0, w[48 + 2 * n..]);
    PairBytesOf(w, 16, n);
    PairsCount(w, 16, n);
    WireSplits(w, n);
  }

  lemma PairsCount(w: seq<byte>, offset: nat, n: nat)
    requires offset + 2 * n <= |w|
    ensures |PairsAt(w, offset, n)| == n
  {
  }

  // ---------------------------------------------------------------- the firmware

  datatype CError = InvalidLength | InvalidValue | HashMismatch | CrcMismatch | OutputTooSmall
  datatype Result<T> = Ok(value: T) | Err(error: CError)

  /** The firmware's struct: ten registers, and no schema field of its own. */
  predicate IsStruct(c: Config) {
    c.schema == SCHEMA && |c.registers| == REGISTER_COUNT
  }

  predicate FirmwareValid(c: Config)
    requires IsStruct(c)
  {
    c.sampleCount == 2048 && c.pretrigger < c.sampleCount && c.adcBits == 12 && And(c.auxFlags, 0xFC) == 0 &&
    c.vrefMv == 3300 && ValidateProfile(Profile(c.interval, c.burst, c.registers)) == ProfileOk
  }

  function FirmwareEncode(sha: Sha, c: Config, capacity: nat): Result<seq<byte>>
    requires IsStruct(c)
  {
    if capacity < WIRE_LENGTH then Err(OutputTooSmall)
    else if !FirmwareValid(c) then Err(InvalidValue)
    else if sha(Canonical(c)) != c.sha then Err(HashMismatch)
    else if Crc32.Checksum(Canonical(c)) != c.crc then Err(CrcMismatch)
    else Ok(Wire(c))
  }

  function FirmwareDecode(sha: Sha, w: seq<byte>): (r: Result<Config>)
    ensures r.Ok? ==> IsStruct(r.value)
  {
    if |w| != WIRE_LENGTH then Err(InvalidLength)
    else if Unpack16(w[0..2]) != SCHEMA || w[14] != REGISTER_COUNT || w[15] != 0 then Err(InvalidValue)
    else
      var c := ReadWire(w, REGISTER_COUNT);
      if !FirmwareValid(c) then Err(InvalidValue)
      else if sha(Canonical(c)) != c.sha then Err(HashMismatch)
      else if Crc32.Checksum(Canonical(c)) != c.crc then Err(CrcMismatch)
      else Ok(c)
  }

  // ---------------------------------------------------------------- the host

  predicate HostValid(c: Config) {
    c.schema == SCHEMA && 120 <= c.interval <= 960 && 1 <= c.sampleCount <= 2048 && c.pretrigger < c.sampleCount &&
    c.adcBits == 12 && And(c.auxFlags, 0xFC) == 0 && c.vrefMv == 3300 && 24 <= c.burst <= 800 &&
    |c.registers| <= 10 && RegistersOrdered(c.registers)
  }

  predicate Identified(sha: Sha, c: Config)
    requires |c.registers| < 0x100
  {
    c.sha == sha(Canonical(c)) && c.crc == Crc32.Checksum(Canonical(c))
  }

  function HostEncode(sha: Sha, c: Config): Option<seq<byte>> {
    if HostValid(c) && Identified(sha, c) then Some(Wire(c)) else None
  }

  function HostDecode(sha: Sha, w: seq<byte>): Option<Config> {
    if |w| < 52 then None
    else if w[15] != 0 || |w| != 52 + 2 * w[14] as int then None
    else
      var c := ReadWire(w, w[14]);
      if HostValid(c) && Identified(sha, c) then Some(c) else None
  }

  function ValueOf(rs: seq<RegisterPair>, address: byte): byte {
    if rs == [] then 0
    else if rs[|rs| - 1].address == address then rs[|rs| - 1].value
    else ValueOf(rs[..|rs| - 1], address)
  }

  function Keys(rs: seq<RegisterPair>): set<byte> {
    set r | r in rs :: r.address
  }

  function Required(): set<byte> {
    set a | a in ADDRESSES
  }

  /** validate_boostxl_direct_applied_config. */
  predicate HostSafe(c: Config) {
    Keys(c.registers) == Required() &&
    (forall i :: 0 <= i < REGISTER_COUNT ==> And(ValueOf(c.registers, ADDRESSES[i]), 0xFF - MASKS[i]) == 0) &&
    c.sampleCount == 2048 && 120 <= c.interval <= 960 &&
    And(ValueOf(c.registers, 0x1A), 0x3F) != 0 && And(ValueOf(c.registers, 0x1A), 0x40) == 0 &&
    And(ValueOf(c.registers, 0x13), 0x04) == 0 &&
    And(ValueOf(c.registers, 0x16), 0x10) == 0 && And(ValueOf(c.registers, 0x16), 0x0F) == 0 &&
    And(ValueOf(c.registers, 0x16), 0x20) == 0 &&
    And(ValueOf(c.registers, 0x1B), 0xC1) == 0
  }

  // ---------------------------------------------------------------- each side inverts itself

  /** The firmware's two directions undo each other on everything either accepts. */
  lemma FirmwareInverse(sha: Sha, c: Config, w: seq<byte>)
    ensures IsStruct(c) && FirmwareEncode(sha, c, WIRE_LENGTH) == Ok(w) <==> FirmwareDecode(sha, w) == Ok(c)
  {
    hide FirmwareValid, Crc32.Checksum, Canonical, Wire, ReadWire, Unpack16;
    if IsStruct(c) {
      WireReads(c);
      SchemaReads(c);
    }
    if |w| == WIRE_LENGTH && w[14] == REGISTER_COUNT && w[15] == 0 {
      WireWrites(w, REGISTER_COUNT);
      SchemaOf(w, REGISTER_COUNT);
    }
  }

  lemma SchemaReads(c: Config)
    requires |c.registers| < 0x100
    ensures |Wire(c)| >= 2 && Unpack16(Wire(c)[0..2]) == c.schema
  {
    hide Wire, Unpack16;
    WireReads(c);
    SchemaOf(Wire(c), |c.registers|);
  }

  lemma SchemaOf(w: seq<byte>, n: nat)
    requires |w| == 52 + 2 * n
    ensures ReadWire(w, n).schema == Unpack16(w[0..2]) && |ReadWire(w, n).registers| == n
  {
  }

  lemma HostInverse(sha: Sha, c: Config, w: seq<byte>)
    ensures HostEncode(sha, c) == Some(w) <==> HostDecode(sha, w) == Some(c)
  {
    hide Crc32.Checksum, Canonical, Wire, ReadWire, And, RegistersOrdered;
    if |c.registers| <= 10 {
      WireReads(c);
    }
    if |w| >= 52 && w[15] == 0 && |w| == 52 + 2 * w[14] as int {
      WireWrites(w, w[14]);
      SchemaOf(w, w[14]);
    }
  }

  // ---------------------------------------------------------------- across the wire

  predicate Increasing(s: seq<byte>) {
    forall i, j :: 0 <= i < j < |s| ==> s[i] < s[j]
  }

  /** Two increasing sequences with the same elements are the same. */
  lemma {:induction false} IncreasingUnique(s: seq<byte>, t: seq<byte>)
    requires Increasing(s) && Increasing(t) && forall b :: b in s <==> b in t
    ensures s == t
    decreases |s|
  {
    assert (t != [] ==> t[0] in s) && (s != [] ==> s[0] in t);
    if s != [] {
      var x, y := s[|s| - 1], t[|t| - 1];
      assert x in t && y in s;
      var p, q := s[..|s| - 1], t[..|t| - 1];
      assert x == y;
      forall b ensures b in p <==> b in q {
        assert s == p + [x] && t == q + [y];
        assert b in p ==> b in t && b != x;
        assert b in q ==> b in s && b != y;
      }
      IncreasingUnique(p, q);
    }
  }

  function AddressesOf(rs: seq<RegisterPair>): seq<byte> {
    seq(|rs|, i requires 0 <= i < |rs| => rs[i].address)
  }

  lemma LayoutForced(rs: seq<RegisterPair>)
    requires RegistersOrdered(rs) && Keys(rs) == Required()
    ensures AddressesOf(rs) == ADDRESSES
  {
    var s := AddressesOf(rs);
    assert Increasing(s);
    forall b ensures b in s <==> b in ADDRESSES {
      if b in s {
        var i :| 0 <= i < |s| && s[i] == b;
        assert rs[i] in rs && b in Keys(rs);
        assert b in Required();
      }
      if b in ADDRESSES {
        assert b in Required();
        assert b in Keys(rs);
        var r :| r in rs && r.address == b;
        var i :| 0 <= i < |rs| && rs[i] == r;
        assert s[i] == b;
      }
    }
    AddressesIncrease();
    IncreasingUnique(s, ADDRESSES);
  }

  lemma AddressesIncrease()
    ensures Increasing(ADDRESSES) && forall i :: 0 <= i < |ADDRESSES| ==> ADDRESSES[i] <= 0x3F
  {
  }

  lemma LayoutGives(rs: seq<RegisterPair>)
    requires AddressesOf(rs) == ADDRESSES
    ensures RegistersOrdered(rs) && |rs| == REGISTER_COUNT
    ensures Keys(rs) == Required()
    ensures forall i :: 0 <= i < REGISTER_COUNT ==> rs[i].address == ADDRESSES[i]
  {
    AddressesIncrease();
    var s := AddressesOf(rs);
    assert forall i :: 0 <= i < |rs| ==> rs[i].address == s[i];
    forall a | a in ADDRESSES ensures a in Keys(rs) {
      var i :| 0 <= i < |ADDRESSES| && ADDRESSES[i] == a;
      assert rs[i] in rs;
    }
  }

  lemma {:induction false} ValueAt(rs: seq<RegisterPair>, i: nat)
    requires RegistersOrdered(rs) && i < |rs|
    ensures ValueOf(rs, rs[i].address) == rs[i].value
    decreases |rs|
  {
    if i < |rs| - 1 {
      var p := rs[..|rs| - 1];
      assert RegistersOrdered(p) && p[i] == rs[i];
      ValueAt(p, i);
    }
  }

  lemma ValuesInPlace(rs: seq<RegisterPair>)
    requires AddressesOf(rs) == ADDRESSES
    ensures |rs| == REGISTER_COUNT
    ensures forall i :: 0 <= i < REGISTER_COUNT ==> ValueOf(rs, ADDRESSES[i]) == rs[i].value
    ensures ValueOf(rs, 0x13) == rs[3].value && ValueOf(rs, 0x16) == rs[5].value
    ensures ValueOf(rs, 0x1A) == rs[8].value && ValueOf(rs, 0x1B) == rs[9].value
  {
    LayoutGives(rs);
    forall i | 0 <= i < REGISTER_COUNT ensures ValueOf(rs, ADDRESSES[i]) == rs[i].value {
      ValueAt(rs, i);
    }
    assert ADDRESSES[3] == 0x13 && ADDRESSES[5] == 0x16 && ADDRESSES[8] == 0x1A && ADDRESSES[9] == 0x1B;
  }

  lemma FirmwareLayout(c: Config)
    requires IsStruct(c) && FirmwareValid(c)
    ensures AddressesOf(c.registers) == ADDRESSES
  {
    hide And;
    ImageAccepted(c.registers, 0);
  }

  /** The firmware's rules are stricter than the codec's. */
  lemma FirmwareImpliesHost(c: Config)
    requires IsStruct(c) && FirmwareValid(c)
    ensures HostValid(c)
  {
    FirmwareLayout(c);
    LayoutGives(c.registers);
    hide And, CheckImage;
  }

  /** What the firmware encodes the host reads, field for field. */
  lemma FirmwareConfigRead(sha: Sha, c: Config, w: seq<byte>)
    requires IsStruct(c)
    ensures FirmwareEncode(sha, c, WIRE_LENGTH) == Ok(w) ==> HostDecode(sha, w) == Some(c)
  {
    hide FirmwareValid, HostValid, Crc32.Checksum, Canonical, Wire, HostDecode;
    if FirmwareEncode(sha, c, WIRE_LENGTH) == Ok(w) {
      FirmwareImpliesHost(c);
      HostInverse(sha, c, w);
    }
  }

  /** What the host encodes the firmware takes, with the same fields, hash and checksum, exactly
      when it has the ten registers and the firmware's own rules hold. */
  lemma HostConfigTaken(sha: Sha, c: Config, w: seq<byte>)
    requires HostEncode(sha, c) == Some(w)
    ensures FirmwareDecode(sha, w) == Ok(c) <==> IsStruct(c) && FirmwareValid(c)
  {
    hide FirmwareValid, HostValid, Crc32.Checksum, Canonical, Wire, FirmwareDecode;
    FirmwareInverse(sha, c, w);
  }

  /** The host's safety policy is the firmware's rules with VDRV driven. */
  lemma HostSafeExactly(c: Config)
    requires HostValid(c)
    ensures HostSafe(c) <==> IsStruct(c) && FirmwareValid(c) && And(c.registers[5].value, 0x20) == 0
  {
    if HostSafe(c) {
      LayoutForced(c.registers);
      SafeImage(c);
    } else if IsStruct(c) && FirmwareValid(c) {
      FirmwareLayout(c);
      SafeImage(c);
    }
    hide *;
  }

  lemma SafeImage(c: Config)
    requires HostValid(c) && AddressesOf(c.registers) == ADDRESSES
    ensures HostSafe(c) <==> IsStruct(c) && FirmwareValid(c) && And(c.registers[5].value, 0x20) == 0
  {
    LayoutGives(c.registers);
    ValuesInPlace(c.registers);
    ImageAccepted(c.registers, 0);
    MaskParts(c.registers[5].value, c.registers[9].value);
    hide And, ValueOf, CheckImage, RegistersOrdered;
  }

  /** Every configuration the host encodes and finds safe is accepted by the firmware unchanged. */
  lemma SafeConfigAccepted(sha: Sha, c: Config, w: seq<byte>)
    requires HostEncode(sha, c) == Some(w) && HostSafe(c)
    ensures FirmwareDecode(sha, w) == Ok(c)
  {
    hide FirmwareValid, HostSafe, Crc32.Checksum, Canonical, Wire, FirmwareDecode;
    HostSafeExactly(c);
    HostConfigTaken(sha, c, w);
  }
}
