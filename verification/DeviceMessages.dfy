/** The host's codecs for command and response payloads. None stands for the ValueError of a
    refused field. */
module DeviceMessages {
  import opened Bytes
  import opened Packing
  import opened Delivery
  import C = ConfigV2

  // ---------------------------------------------------------------- requests

  function EncodeHello(nonce: Id16, minimum: byte, maximum: byte): Option<seq<byte>> {
    if minimum <= maximum then Some(nonce + [minimum, maximum, 0, 0]) else None
  }

  function EncodeSetConfig(sha: C.Sha, requestId: Id16, expected: Hash32, config: C.Config): Option<seq<byte>> {
    match C.HostEncode(sha, config)
    case Some(w) => Some(requestId + expected + w)
    case None => None
  }

  datatype CaptureOnce = CaptureOnce(requestId: Id16, sha: Hash32, crc: u32, trigger: byte, timeout: u32)

  function EncodeCaptureOnce(m: CaptureOnce): Option<seq<byte>> {
    if m.trigger > 2 || (if m.trigger == 1 then !(1 <= m.timeout <= 60_000) else m.timeout != 0) then None
    else Some(m.requestId + m.sha + Pack32(m.crc) + [m.trigger, 0, 0, 0] + Pack32(m.timeout))
  }

  datatype StartPeriodic = StartPeriodic(
    requestId: Id16, scheduleId: Id16, sha: Hash32, crc: u32, period: u32, count: u32, timeout: u32)

  function EncodeStartPeriodic(m: StartPeriodic): Option<seq<byte>> {
    if m.scheduleId == Zeros(16) || m.period == 0 || !(1_000 <= m.timeout <= 10_000) then None
    else
      Some(m.requestId + m.scheduleId + m.sha + Pack32(m.crc) + Pack32(m.period) + Pack32(m.count) + Pack32(m.timeout))
  }

  /** The last field is the timeout in a request and the remaining time in a response. */
  datatype Lease = Lease(bootId: Id16, scheduleId: Id16, sequence: u32, time: u32)

  function EncodeLease(m: Lease): Option<seq<byte>> {
    if m.bootId == Zeros(16) || m.scheduleId == Zeros(16) || m.sequence == 0 || m.time > 10_000 then None
    else Some(m.bootId + m.scheduleId + Pack32(m.sequence) + Pack32(m.time))
  }

  function DecodeLease(w: seq<byte>): Option<Lease> {
    if |w| != 40 then None
    else
      var m := Lease(w[..16], w[16..32], Unpack32(w[32..36]), Unpack32(w[36..40]));
      if EncodeLease(m).Some? then Some(m) else None
  }

  function EncodeStop(requestId: Id16, scheduleId: Id16): seq<byte> {
    requestId + scheduleId
  }

  function EncodeLoopback(requestId: Id16, sha: Hash32, crc: u32, edges: byte): Option<seq<byte>> {
    if edges == 8 then Some(requestId + sha + Pack32(crc) + [edges, 0, 0, 0]) else None
  }

  // ---------------------------------------------------------------- responses

  datatype Hello = Hello(
    nonce: Id16, bootId: Id16, deviceId: Id16, version: byte, resetReason: byte,
    major: u16, minor: u16, patch: u16, build: u32, state: byte)

  function DecodeHello(w: seq<byte>): Option<Hello> {
    if |w| != 64 then None
    else if w[61..64] != Zeros(3) then None
    else
      Some(Hello(w[..16], w[16..32], w[32..48], w[48], w[49], Unpack16(w[50..52]), Unpack16(w[52..54]),
                 Unpack16(w[54..56]), Unpack32(w[56..60]), w[60]))
  }

  datatype Capabilities = Capabilities(
    flags: u32, maxPayload: u16, maxSamples: u16, minInterval: u16, maxInterval: u16, minBurst: u16, maxBurst: u16,
    maxRegisters: byte, maxOut3Events: byte, maxOut4Events: byte, adcBits: byte, ioModes: byte)

  function DecodeCapabilities(w: seq<byte>): Option<Capabilities> {
    if |w| != 24 then None
    else if w[21..24] != Zeros(3) then None
    else
      var m := Capabilities(Unpack32(w[..4]), Unpack16(w[4..6]), Unpack16(w[6..8]), Unpack16(w[8..10]),
                            Unpack16(w[10..12]), Unpack16(w[12..14]), Unpack16(w[14..16]),
                            w[16], w[17], w[18], w[19], w[20]);
      if m.flags > 0x1FF || m.minInterval > m.maxInterval || m.minBurst > m.maxBurst || m.ioModes > 0x0F then None
      else Some(m)
  }

  datatype Status = Status(
    bootId: Id16, state: byte, lastError: u16, sha: Hash32, crc: u32, captureSequence: u32, missed: u32, quality: u32,
    devStat: byte, vdrvReady: byte, out3Enabled: byte, out4Enabled: byte, clockFaults: u16,
    scheduleId: Id16, leaseSequence: u32, leaseRemaining: u32)

  predicate StatusValid(m: Status) {
    m.vdrvReady <= 1 && m.out3Enabled <= 1 && m.out4Enabled <= 1 && m.clockFaults <= 0x0F &&
    (m.scheduleId == Zeros(16) ==> m.leaseSequence == 0 && m.leaseRemaining == 0)
  }

  function ReadStatus(w: seq<byte>): Status
    requires |w| == 100
  {
    Status(w[..16], w[16], Unpack16(w[18..20]), w[20..52], Unpack32(w[52..56]), Unpack32(w[56..60]),
           Unpack32(w[60..64]), Unpack32(w[64..68]), w[68], w[69], w[70], w[71], Unpack16(w[72..74]),
           w[76..92], Unpack32(w[92..96]), Unpack32(w[96..100]))
  }

  function DecodeStatus(w: seq<byte>): Option<Status> {
    if |w| != 100 then None
    else if w[17] != 0 || w[74..76] != Zeros(2) then None
    else if !StatusValid(ReadStatus(w)) then None
    else Some(ReadStatus(w))
  }

  datatype Loopback = Loopback(requestId: Id16, sha: Hash32, crc: u32, burst: u16, evidence: Hash32)

  /** The evidence stays bytes: its flags are its second byte, and its last one is reserved. */
  function DecodeLoopback(w: seq<byte>): Option<Loopback> {
    if |w| != 86 then None
    else if w[85] != 0 || w[55] > 0x3F then None
    else Some(Loopback(w[..16], w[16..48], Unpack32(w[48..52]), Unpack16(w[52..54]), w[54..86]))
  }

  datatype Acknowledged = Acknowledged(requestId: Id16, ackedType: byte, state: byte, crc: u32)

  function DecodeAck(w: seq<byte>): Option<Acknowledged> {
    if |w| != 24 then None
    else if Unpack16(w[18..20]) != 0 then None
    else Some(Acknowledged(w[..16], w[16], w[17], Unpack32(w[20..24])))
  }

  datatype DeviceError = DeviceError(
    requestId: Id16, failedType: byte, state: byte, code: u16, detail0: u32, detail1: u32, text: seq<byte>)

  /** The text stays bytes: whether they are valid UTF-8 is not looked at. */
  function DecodeError(w: seq<byte>): Option<DeviceError> {
    if !(29 <= |w| <= 92) then None
    else if |w| != 29 + w[28] as int then None
    else
      Some(DeviceError(w[..16], w[16], w[17], Unpack16(w[18..20]), Unpack32(w[20..24]), Unpack32(w[24..28]), w[29..]))
  }
}
