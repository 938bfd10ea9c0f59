/** TUSS4470 register profiles: which images the firmware may apply. */
module Profile {
  import opened Bytes
  import opened CaptureData

  const REGISTER_COUNT := 10
  const ADDRESSES: seq<byte> := [0x10, 0x11, 0x12, 0x13, 0x14, 0x16, 0x17, 0x18, 0x1A, 0x1B]
  const MASKS: seq<byte> := [0xFF, 0x3F, 0xFF, 0xC7, 0x1F, 0x7F, 0x1F, 0xFF, 0xFF, 0xC3]
  const D10X4: seq<byte> := [0x2E, 0x00, 0x00, 0x00, 0x03, 0x40, 0x07, 0x14, 0x01, 0x02]

  /** The bitwise and of two words. */
  function And(a: nat, b: nat): nat {
    if a == 0 || b == 0 then 0 else (if a % 2 == 1 && b % 2 == 1 then 1 else 0) + 2 * And(a / 2, b / 2)
  }

  /** Testing two disjoint masks at once is testing each. */
  lemma {:induction false} AndSplits(v: nat, a: nat, b: nat)
    requires And(a, b) == 0
    ensures And(v, a + b) == And(v, a) + And(v, b)
    decreases v
  {
    if v != 0 && a != 0 && b != 0 {
      AndSplits(v / 2, a / 2, b / 2);
      assert (a + b) / 2 == a / 2 + b / 2;
    }
  }

  datatype ProfileResult =
    | ProfileOk | RegisterLayout | ReservedBit | InvalidTiming | ContinuousBurst | WrongDriver
    | VoutRange | VdrvRange | StatefulBit

  datatype Profile = Profile(interval: u16, burst: u16, registers: seq<RegisterPair>)

  predicate TimingValid(interval: u16, burst: u16) {
    120 <= interval <= 960 && 24 <= burst <= 800
  }

  /** The first register of the image that is out of place or sets a reserved bit. */
  function CheckImage(registers: seq<RegisterPair>, i: nat): ProfileResult
    requires |registers| == REGISTER_COUNT && i <= REGISTER_COUNT
    decreases REGISTER_COUNT - i
  {
    if i == REGISTER_COUNT then ProfileOk
    else if registers[i].address != ADDRESSES[i] then RegisterLayout
    else if And(registers[i].value, 0xFF - MASKS[i]) != 0 then ReservedBit
    else CheckImage(registers, i + 1)
  }

  function ValidateProfile(p: Profile): ProfileResult
    requires |p.registers| == REGISTER_COUNT
  {
    if !TimingValid(p.interval, p.burst) then InvalidTiming
    else if CheckImage(p.registers, 0) != ProfileOk then CheckImage(p.registers, 0)
    else if And(p.registers[8].value, 0x3F) == 0 then ContinuousBurst
    else if And(p.registers[8].value, 0x40) != 0 then WrongDriver
    else if And(p.registers[3].value, 0x04) != 0 then VoutRange
    else if And(p.registers[5].value, 0x1F) != 0 then VdrvRange
    else if And(p.registers[9].value, 0xC1) != 0 then StatefulBit
    else ProfileOk
  }

  predicate ImageInPlace(registers: seq<RegisterPair>) {
    |registers| == REGISTER_COUNT &&
    forall i :: 0 <= i < REGISTER_COUNT ==>
      registers[i].address == ADDRESSES[i] && And(registers[i].value, 0xFF - MASKS[i]) == 0
  }

  lemma {:induction false} ImageAccepted(registers: seq<RegisterPair>, i: nat)
    requires |registers| == REGISTER_COUNT && i <= REGISTER_COUNT
    ensures CheckImage(registers, i) == ProfileOk <==>
              forall k :: i <= k < REGISTER_COUNT ==>
                registers[k].address == ADDRESSES[k] && And(registers[k].value, 0xFF - MASKS[k]) == 0
    decreases REGISTER_COUNT - i
  {
    hide And;
    if i < REGISTER_COUNT {
      ImageAccepted(registers, i + 1);
    }
  }

  /** tuss4470_profile_validate. */
  method Validate(p: Profile) returns (result: ProfileResult)
    requires |p.registers| == REGISTER_COUNT
    ensures result == ValidateProfile(p)
  {
    hide And;
    if p.interval < 120 || p.interval > 960 || p.burst < 24 || p.burst > 800 {
      return InvalidTiming;
    }
    for index := 0 to REGISTER_COUNT
      invariant CheckImage(p.registers, 0) == CheckImage(p.registers, index)
    {
      if p.registers[index].address != ADDRESSES[index] {
        return RegisterLayout;
      }
      if And(p.registers[index].value, 0xFF - MASKS[index]) != 0 {
        return ReservedBit;
      }
    }
    var value := p.registers[8].value;
    if And(value, 0x3F) == 0 {
      return ContinuousBurst;
    }
    if And(value, 0x40) != 0 {
      return WrongDriver;
    }
    if And(p.registers[3].value, 0x04) != 0 {
      return VoutRange;
    }
    value := p.registers[5].value;
    if And(value, 0x1F) != 0 {
      return VdrvRange;
    }
    value := p.registers[9].value;
    if And(value, 0xC1) != 0 {
      return StatefulBit;
    }
    return ProfileOk;
  }

  /** What an accepted profile can never do, bit by bit: no continuous burst, no pre-driver, no
      5 V output, no VDRV above 5 V or at 20 mA, no trigger, standby or sleep. */
  lemma AcceptedIsSafe(p: Profile)
    requires |p.registers| == REGISTER_COUNT && ValidateProfile(p) == ProfileOk
    ensures ImageInPlace(p.registers) && TimingValid(p.interval, p.burst)
    ensures And(p.registers[8].value, 0x3F) != 0 && And(p.registers[8].value, 0x40) == 0
    ensures And(p.registers[3].value, 0x04) == 0
    ensures And(p.registers[5].value, 0x10) == 0 && And(p.registers[5].value, 0x0F) == 0
    ensures And(p.registers[9].value, 0x01) == 0 && And(p.registers[9].value, 0x40) == 0
    ensures And(p.registers[9].value, 0x80) == 0
  {
    ImageAccepted(p.registers, 0);
    MaskParts(p.registers[5].value, p.registers[9].value);
    hide And;
  }

  lemma MaskParts(vdrv: byte, tof: byte)
    ensures And(vdrv, 0x1F) == 0 <==> And(vdrv, 0x10) == 0 && And(vdrv, 0x0F) == 0
    ensures And(tof, 0xC1) == 0 <==> And(tof, 0x01) == 0 && And(tof, 0x40) == 0 && And(tof, 0x80) == 0
  {
    Disjoint();
    AndSplits(vdrv, 0x10, 0x0F);
    AndSplits(tof, 0x01, 0x40);
    AndSplits(tof, 0x41, 0x80);
    hide And;
  }

  lemma Disjoint()
    ensures And(0x10, 0x0F) == 0 && And(0x01, 0x40) == 0 && And(0x41, 0x80) == 0
  {
  }
}
