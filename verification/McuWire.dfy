/** The firmware's parser and encoder on their arrays. */
module McuWire {
  import opened Bytes
  import opened Delivery
  import opened Frame
  import opened McuParser
  import Crc32

  class UsacMcuParser {
    const buffer: array<byte>
    var count: nat
    var expectedTotal: nat

    ghost predicate Valid()
      reads this, buffer
    {
      buffer.Length == RING_SIZE && count < 212 && Sound(Held())
    }

    function Held(): Parser
      requires count <= buffer.Length
      reads this, buffer
    {
      Parser(buffer[..count], expectedTotal)
    }

    constructor ()
      ensures Valid() && fresh(buffer) && Held() == HUNTING
    {
      buffer := new byte[RING_SIZE];
      count, expectedTotal := 0, 0;
    }

    method Expire()
      requires Valid()
      modifies this
      ensures Valid() && Held() == HUNTING
    {
      count, expectedTotal := 0, 0;
    }

    /** One byte. The storage never fills up, so the full-ring branch is not reached. */
    method FeedByte(b: byte) returns (result: Result)
      requires Valid()
      modifies this, buffer
      ensures Valid() && (Held(), result) == Feed(old(Held()), b)
    {
      ghost var p := Held();
      FeedSound(p, b);
      if count < 4 {
        if b != MAGIC[count] {
          count := if b == MAGIC[0] then 1 else 0;
          if count == 1 {
            buffer[0] := b;
          }
          assert buffer[..1] == [buffer[0]];
          return Incomplete;
        }
      }
      if count >= RING_SIZE {
        assert false;
      }
      buffer[count] := b;
      count := count + 1;
      var s := buffer[..count];
      assert s == p.bytes + [b];
      hide U16At, U32At, Judge;
      if count == HEADER_SIZE {
        var checked := CheckHeader(s);
        if checked != Incomplete {
          count, expectedTotal := 0, 0;
          return checked;
        }
        expectedTotal := Total(s);
      }
      HeaderStays(p.bytes, s);
      if expectedTotal == 0 || count < expectedTotal {
        return Incomplete;
      }
      result := JudgeStored();
      count, expectedTotal := 0, 0;
    }

    /** The stored candidate is complete: checksum, then payload, then its fields. */
    method JudgeStored() returns (result: Result)
      requires HEADER_SIZE <= count <= buffer.Length
      requires var s := buffer[..count]; count == Total(s) && LengthRule(s[5], U32At(s, 12))
      ensures result == Judge(buffer[..count])
    {
      hide U16At, U32At, PayloadRule;
      var s := buffer[..count];
      var length := U32At(s, 12);
      var expected := U32At(s, HEADER_SIZE + length);
      var actual := Crc32.McuCrc32(buffer, 4, 12 + length);
      assert buffer[..][..count] == s && buffer[..][4..16 + length] == buffer[4..16 + length];
      SliceOfPrefix(buffer[..], count, 4, 16 + length);
      if expected != actual {
        return BadCrc;
      }
      var payload := s[HEADER_SIZE..HEADER_SIZE + length];
      if !PayloadRule(s[5], payload) {
        return InvalidPayload;
      }
      return Received(Frame(s[5], U32At(s, 8), payload, U16At(s, 6)));
    }
  }

  /** The length written, or None when the frame is refused; the rest of the output is kept. */
  method EncodeInto(
    messageType: byte, flags: u16, sequence: u32, payload: seq<byte>, output: array<byte>)
    returns (written: Option<nat>)
    modifies output
    ensures written.Some? <==>
              |payload| <= MAX_PAYLOAD && flags < 8 && HEADER_SIZE + |payload| + CRC_SIZE <= output.Length
    ensures written.None? ==> output[..] == old(output[..])
    ensures written.Some? ==>
              var n := written.value;
              n == HEADER_SIZE + |payload| + CRC_SIZE &&
              output[..n] == EncodeFrame(Frame(messageType, sequence, payload, flags)) &&
              output[n..] == old(output[n..])
  {
    var total := HEADER_SIZE + |payload| + CRC_SIZE;
    if |payload| > MAX_PAYLOAD || output.Length < total || flags >= 8 {
      return None;
    }
    ghost var o := output[..];
    var head := Header(messageType, flags, sequence, |payload|);
    hide Header, Le32;
    Put(output, [], head, o);
    Put(output, head, payload, o[HEADER_SIZE..]);
    assert output[..] == head + payload + o[HEADER_SIZE + |payload|..];
    var crc := Crc32.McuCrc32(output, 4, 12 + |payload|);
    Covered(output[..], head, payload, o[HEADER_SIZE + |payload|..]);
    Put(output, head + payload, Le32(crc), o[HEADER_SIZE + |payload|..]);
    return Some(total);
  }

  lemma SliceOfPrefix(all: seq<byte>, n: nat, i: nat, j: nat)
    requires i <= j <= n <= |all|
    ensures all[..n][i..j] == all[i..j]
  {
  }

  lemma Covered(all: seq<byte>, head: seq<byte>, payload: seq<byte>, rest: seq<byte>)
    requires |head| == HEADER_SIZE && all == head + payload + rest
    ensures all[4..16 + |payload|] == head[4..] + payload
  {
  }

  /** Write data over the bytes that follow before. */
  method Put(output: array<byte>, before: seq<byte>, data: seq<byte>, ghost after: seq<byte>)
    requires |data| <= |after| && output[..] == before + after
    modifies output
    ensures output[..] == before + data + after[|data|..]
  {
    var offset := |before|;
    for i := 0 to |data|
      invariant output[..] == before + data[..i] + after[i..]
    {
      output[offset + i] := data[i];
    }
  }
}
