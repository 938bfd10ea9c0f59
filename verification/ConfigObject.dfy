/** The firmware's configuration struct, encoded to and decoded from byte arrays in place. */
module ConfigObject {
  import opened Bytes
  import opened Packing
  import opened CaptureData
  import opened Profile
  import opened ConfigV2
  import Crc32

  /** Both identifiers recomputed from the fields. */
  function Rehashed(sha: Sha, c: Config): Config
    requires IsStruct(c)
  {
    c.(sha := sha(Canonical(c)), crc := Crc32.Checksum(Canonical(c)))
  }

  /** After a rehash the configuration encodes, and decodes to itself on either side. */
  lemma RehashedTravels(sha: Sha, c: Config)
    requires IsStruct(c) && FirmwareValid(c)
    ensures var d := Rehashed(sha, c);
            FirmwareEncode(sha, d, WIRE_LENGTH) == Ok(Wire(d)) && FirmwareDecode(sha, Wire(d)) == Ok(d) &&
            HostDecode(sha, Wire(d)).Some? && HostDecode(sha, Wire(d)).value == d
  {
    var d := Rehashed(sha, c);
    assert Canonical(d) == Canonical(c) by {
      hide Pack16, PairBytes, Crc32.Checksum;
    }
    hide Crc32.Checksum, Canonical, Wire, HostDecode, FirmwareDecode;
    FirmwareInverse(sha, d, Wire(d));
    FirmwareConfigRead(sha, d, Wire(d));
  }

  class UsacConfigV2 {
    const sha: Sha
    var interval: u16
    var burst: u16
    var registers: seq<RegisterPair>
    var sampleCount: u16
    var pretrigger: u16
    var adcBits: byte
    var auxFlags: byte
    var vrefMv: u16
    var profileSha: Hash32
    var crc: u32

    predicate Valid()
      reads this
    {
      |registers| == REGISTER_COUNT
    }

    function State(): (c: Config)
      requires Valid()
      reads this
      ensures IsStruct(c)
    {
      Config(SCHEMA, interval, sampleCount, pretrigger, adcBits, auxFlags, vrefMv, burst, registers, profileSha, crc)
    }

    /** The bench-verified baseline. */
    constructor D10x4(sha: Sha)
      ensures Valid() && this.sha == sha && FirmwareValid(State()) && State() == Rehashed(sha, State())
    {
      this.sha := sha;
      interval, burst, sampleCount, pretrigger, adcBits, auxFlags, vrefMv := 120, 50, 2048, 64, 12, 0, 3300;
      registers := Baseline();
      profileSha, crc := seq(32, _ => 0), 0;
      new;
      BaselineValid(State());
      var _ := Rehash();
    }

    method Rehash() returns (ok: bool)
      requires Valid()
      modifies this`profileSha, this`crc
      ensures Valid() && ok == FirmwareValid(old(State()))
      ensures State() == if ok then Rehashed(sha, old(State())) else old(State())
      ensures ok ==> FirmwareValid(State()) && State() == Rehashed(sha, State())
    {
      hide FirmwareValid, Crc32.Checksum;
      ghost var before := State();
      var accepted := Check();
      if !accepted {
        return false;
      }
      var canonical := Canonical(State());
      profileSha := sha(canonical);
      crc := Crc32.Checksum(canonical);
      SameFields(before, State());
      return true;
    }

    method Check() returns (ok: bool)
      requires Valid()
      ensures ok == FirmwareValid(State())
    {
      hide And, ValidateProfile;
      if sampleCount != 2048 || pretrigger >= sampleCount || adcBits != 12 || And(auxFlags, 0xFC) != 0 || vrefMv != 3300 {
        return false;
      }
      var result := Validate(Profile(interval, burst, registers));
      return result == ProfileOk;
    }

    /** The identifiers are recomputed and compared; a stale one is never sent. */
    method Encode(output: array<byte>) returns (result: Result<nat>)
      requires Valid()
      modifies output
      ensures match FirmwareEncode(sha, old(State()), output.Length)
              case Ok(w) => result == Ok(|w|) && |w| == WIRE_LENGTH <= output.Length && output[..|w|] == w
              case Err(e) => result == Err(e) && output[..] == old(output[..])
    {
      hide FirmwareValid, Crc32.Checksum, Canonical, Wire;
      if output.Length < WIRE_LENGTH {
        return Err(OutputTooSmall);
      }
      var ok := Check();
      if !ok {
        return Err(InvalidValue);
      }
      var canonical := Canonical(State());
      var digest := sha(canonical);
      for index := 0 to 32
        invariant digest[..index] == profileSha[..index]
      {
        if digest[index] != profileSha[index] {
          return Err(HashMismatch);
        }
      }
      assert digest[..32] == digest && profileSha[..32] == profileSha;
      if Crc32.Checksum(canonical) != crc {
        return Err(CrcMismatch);
      }
      var wire := Wire(State());
      WireReads(State());
      for index := 0 to WIRE_LENGTH
        invariant output[..index] == wire[..index]
      {
        output[index] := wire[index];
      }
      assert wire[..WIRE_LENGTH] == wire;
      return Ok(WIRE_LENGTH);
    }

    /** The fields are overwritten as they are read, so a refused wire leaves a part of itself. */
    method Decode(wire: seq<byte>) returns (error: Result<nat>)
      requires Valid()
      modifies this
      ensures Valid()
      ensures match FirmwareDecode(sha, wire)
              case Ok(c) => error.Ok? && State() == c
              case Err(e) => error == Err(e)
      ensures State() == AfterDecode(sha, wire, old(State()))
    {
      hide FirmwareValid, Crc32.Checksum, Canonical, Unpack16, Unpack32, Agreeing;
      if |wire| != WIRE_LENGTH {
        return Err(InvalidLength);
      }
      if Unpack16(wire[0..2]) != SCHEMA || wire[14] != REGISTER_COUNT || wire[15] != 0 {
        return Err(InvalidValue);
      }
      ghost var before := State();
      TakeFields(wire);
      ghost var c := ReadWire(wire, REGISTER_COUNT);
      SameFields(c, State());
      var ok := Check();
      if !ok {
        return Err(InvalidValue);
      }
      var canonical := Canonical(State());
      var digest := sha(canonical);
      assert c.sha == wire[36..68];
      for index := 0 to 32
        invariant Valid() && State() == c.(sha := profileSha, crc := before.crc)
        invariant |profileSha| == 32 && profileSha == c.sha[..index] + before.sha[index..]
        invariant digest[..index] == c.sha[..index]
      {
        profileSha := profileSha[index := wire[36 + index]];
        assert c.sha[..index] + [c.sha[index]] == c.sha[..index + 1];
        assert profileSha == c.sha[..index + 1] + before.sha[index + 1..];
        if digest[index] != wire[36 + index] {
          AgreeingIs(digest, c.sha, index);
          return Err(HashMismatch);
        }
      }
      assert digest[..32] == digest && c.sha[..32] == c.sha;
      AgreeingAll(digest);
      crc := Unpack32(wire[68..]);
      assert State() == c;
      if Crc32.Checksum(canonical) != crc {
        return Err(CrcMismatch);
      }
      return Ok(0);
    }

    /** The assignments before the first identifier. */
    method TakeFields(wire: seq<byte>)
      requires Valid() && |wire| == WIRE_LENGTH && Unpack16(wire[0..2]) == SCHEMA
      modifies this
      ensures Valid()
      ensures State() == ReadWire(wire, REGISTER_COUNT).(sha := old(profileSha), crc := old(crc))
    {
      hide Unpack16, Unpack32;
      interval, sampleCount, pretrigger := Unpack16(wire[2..4]), Unpack16(wire[4..6]), Unpack16(wire[6..8]);
      adcBits, auxFlags, vrefMv, burst := wire[8], wire[9], Unpack16(wire[10..12]), Unpack16(wire[12..14]);
      var pairs: seq<RegisterPair> := [];
      for index := 0 to REGISTER_COUNT
        invariant |pairs| == index
        invariant forall i :: 0 <= i < index ==> pairs[i] == RegisterPair(wire[16 + 2 * i], wire[17 + 2 * i])
      {
        pairs := pairs + [RegisterPair(wire[16 + 2 * index], wire[17 + 2 * index])];
      }
      registers := pairs;
      assert registers == PairsAt(wire, 16, REGISTER_COUNT);
    }
  }

  /** How many leading bytes agree. */
  function Agreeing(a: seq<byte>, b: seq<byte>): (n: nat)
    requires |a| == |b|
    ensures n <= |a|
  {
    if a == [] || a[0] != b[0] then 0 else 1 + Agreeing(a[1..], b[1..])
  }

  lemma {:induction false} AgreeingIs(a: seq<byte>, b: seq<byte>, n: nat)
    requires |a| == |b| && n < |a| && a[..n] == b[..n] && a[n] != b[n]
    ensures Agreeing(a, b) == n
  {
    if n > 0 {
      assert a[0] == a[..n][0] == b[..n][0] == b[0];
      assert a[1..][..n - 1] == a[..n][1..] && b[1..][..n - 1] == b[..n][1..];
      AgreeingIs(a[1..], b[1..], n - 1);
    }
  }

  lemma {:induction false} AgreeingAll(a: seq<byte>)
    ensures Agreeing(a, a) == |a|
  {
    if a != [] {
      AgreeingAll(a[1..]);
    }
  }

  /** What a decode leaves in the struct: nothing new, the fields alone, the digest up to and
      including the first byte that differs, or everything. */
  function AfterDecode(sha: Sha, w: seq<byte>, before: Config): Config
    requires IsStruct(before)
  {
    if |w| != WIRE_LENGTH || Unpack16(w[0..2]) != SCHEMA || w[14] != REGISTER_COUNT || w[15] != 0 then before
    else
      var c := ReadWire(w, REGISTER_COUNT);
      var n := Agreeing(sha(Canonical(c)), c.sha);
      if !FirmwareValid(c) then c.(sha := before.sha, crc := before.crc)
      else if n < 32 then c.(sha := c.sha[..n + 1] + before.sha[n + 1..], crc := before.crc)
      else c
  }

  /** A refused wire never leaves a struct that could be sent on as if it had been accepted: either
      nothing was read, or encoding what was left is refused as well. */
  lemma RefusedIsNotEncoded(sha: Sha, w: seq<byte>, before: Config, capacity: nat)
    requires IsStruct(before) && FirmwareDecode(sha, w).Err?
    ensures AfterDecode(sha, w, before) == before || FirmwareEncode(sha, AfterDecode(sha, w, before), capacity).Err?
  {
    hide FirmwareValid, Crc32.Checksum, Canonical, Unpack16, Unpack32, Wire, Agreeing;
    var left := AfterDecode(sha, w, before);
    if |w| == WIRE_LENGTH && Unpack16(w[0..2]) == SCHEMA && w[14] == REGISTER_COUNT && w[15] == 0 {
      var c := ReadWire(w, REGISTER_COUNT);
      SameFields(c, left);
      var digest := sha(Canonical(c));
      var n := Agreeing(digest, c.sha);
      if FirmwareValid(c) && n < 32 {
        AgreeingStops(digest, c.sha);
        assert left.sha[n] == c.sha[n];
      } else if FirmwareValid(c) {
        AgreeingStops(digest, c.sha);
        assert digest[..32] == digest && c.sha[..32] == c.sha;
      }
    }
  }

  lemma {:induction false} AgreeingStops(a: seq<byte>, b: seq<byte>)
    requires |a| == |b|
    ensures var n := Agreeing(a, b); a[..n] == b[..n] && (n < |a| ==> a[n] != b[n])
  {
    if a != [] && a[0] == b[0] {
      AgreeingStops(a[1..], b[1..]);
      var n := Agreeing(a[1..], b[1..]);
      assert a[..n + 1] == [a[0]] + a[1..][..n] && b[..n + 1] == [b[0]] + b[1..][..n];
    }
  }

  lemma SameFields(c: Config, d: Config)
    requires IsStruct(c) && d == c.(sha := d.sha, crc := d.crc)
    ensures IsStruct(d) && Canonical(d) == Canonical(c) && (FirmwareValid(d) <==> FirmwareValid(c))
  {
    hide And, ValidateProfile, Pack16, PairBytes;
  }

  function Baseline(): (rs: seq<RegisterPair>)
    ensures |rs| == REGISTER_COUNT
  {
    seq(REGISTER_COUNT, i requires 0 <= i < REGISTER_COUNT => RegisterPair(ADDRESSES[i], D10X4[i]))
  }

  lemma BaselineValid(c: Config)
    requires IsStruct(c) && c.registers == Baseline() && c.interval == 120 && c.burst == 50
    requires c.sampleCount == 2048 && c.pretrigger == 64 && c.adcBits == 12 && c.auxFlags == 0 && c.vrefMv == 3300
    ensures FirmwareValid(c)
  {
    var rs := c.registers;
    assert forall i :: 0 <= i < REGISTER_COUNT ==> rs[i] == RegisterPair(ADDRESSES[i], D10X4[i]);
    BaselineBits();
    ImageAccepted(rs, 0);
    hide And, CheckImage;
  }

  lemma BaselineBits()
    ensures forall i :: 0 <= i < REGISTER_COUNT ==> And(D10X4[i], 0xFF - MASKS[i]) == 0
    ensures And(1, 0x3F) != 0 && And(1, 0x40) == 0 && And(0x00, 0x04) == 0 && And(0x40, 0x1F) == 0
    ensures And(0x02, 0xC1) == 0 && And(0, 0xFC) == 0
  {
    assert And(0x2E, 0x00) == 0 && And(0x00, 0xC0) == 0 && And(0x00, 0x38) == 0 && And(0x03, 0xE0) == 0;
    assert And(0x40, 0x80) == 0 && And(0x07, 0xE0) == 0 && And(0x14, 0x00) == 0 && And(0x01, 0x00) == 0;
    assert And(0x02, 0x3C) == 0;
  }
}
