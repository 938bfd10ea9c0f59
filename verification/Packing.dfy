/** Byte strings made of fixed-width fields: joining fields, and cutting them out again. */
module Packing {
  import opened Bytes

  type i32 = x: int | -0x8000_0000 <= x < 0x8000_0000

  function Sum(widths: seq<nat>): nat {
    if widths == [] then 0 else widths[0] + Sum(widths[1..])
  }

  function Join(fields: seq<seq<byte>>): seq<byte> {
    if fields == [] then [] else fields[0] + Join(fields[1..])
  }

  function Widths(fields: seq<seq<byte>>): seq<nat> {
    seq(|fields|, i requires 0 <= i < |fields| => |fields[i]|)
  }

  /** Take the fields one after another. */
  function Cut(s: seq<byte>, widths: seq<nat>): seq<seq<byte>>
    requires Sum(widths) <= |s|
  {
    if widths == [] then [] else [s[..widths[0]]] + Cut(s[widths[0]..], widths[1..])
  }

  lemma {:induction false} CutWidths(s: seq<byte>, widths: seq<nat>)
    requires Sum(widths) <= |s|
    ensures |Cut(s, widths)| == |widths|
    ensures forall i :: 0 <= i < |widths| ==> |Cut(s, widths)[i]| == widths[i]
  {
    if widths != [] {
      CutWidths(s[widths[0]..], widths[1..]);
    }
  }

  lemma WidthsFirst(fields: seq<seq<byte>>)
    requires fields != []
    ensures Widths(fields) == [|fields[0]|] + Widths(fields[1..])
  {
  }

  lemma {:induction false} CutJoin(fields: seq<seq<byte>>, rest: seq<byte>)
    ensures Sum(Widths(fields)) == |Join(fields)|
    ensures Cut(Join(fields) + rest, Widths(fields)) == fields
  {
    if fields != [] {
      WidthsFirst(fields);
      CutJoin(fields[1..], rest);
      var w := Widths(fields);
      assert w[0] == |fields[0]| && w[1..] == Widths(fields[1..]);
      var s := Join(fields) + rest;
      assert s == fields[0] + (Join(fields[1..]) + rest);
      assert s[..w[0]] == fields[0] && s[w[0]..] == Join(fields[1..]) + rest;
    }
  }

  lemma {:induction false} JoinCut(s: seq<byte>, widths: seq<nat>)
    requires Sum(widths) <= |s|
    ensures Join(Cut(s, widths)) == s[..Sum(widths)]
  {
    if widths != [] {
      var t := s[widths[0]..];
      JoinCut(t, widths[1..]);
      var cut := Cut(s, widths);
      assert cut[0] == s[..widths[0]] && cut[1..] == Cut(t, widths[1..]);
      assert s[..widths[0]] + t[..Sum(widths[1..])] == s[..Sum(widths)];
    }
  }

  lemma {:induction false} JoinConcat(a: seq<seq<byte>>, b: seq<seq<byte>>)
    ensures Join(a + b) == Join(a) + Join(b)
  {
    if a == [] {
      assert a + b == b;
    } else {
      JoinConcat(a[1..], b);
      assert (a + b)[0] == a[0] && (a + b)[1..] == a[1..] + b;
      assert Join(a + b) == a[0] + Join(a[1..] + b);
      assert a[0] + (Join(a[1..]) + Join(b)) == a[0] + Join(a[1..]) + Join(b);
    }
  }

  lemma {:induction false} SumConcat(a: seq<nat>, b: seq<nat>)
    ensures Sum(a + b) == Sum(a) + Sum(b)
  {
    if a == [] {
      assert a + b == b;
    } else {
      SumConcat(a[1..], b);
      assert (a + b)[1..] == a[1..] + b;
    }
  }

  function Repeat(width: nat, n: nat): seq<nat> {
    seq(n, _ => width)
  }

  lemma {:induction false} SumRepeat(width: nat, n: nat)
    ensures Sum(Repeat(width, n)) == n * width
  {
    if n > 0 {
      SumRepeat(width, n - 1);
      assert Repeat(width, n)[1..] == Repeat(width, n - 1);
    }
  }

  /** The cursor of a decoder: fields are taken from an advancing offset. */
  method TakeFields(data: seq<byte>, start: nat, widths: seq<nat>) returns (fields: seq<seq<byte>>, offset: nat)
    requires start + Sum(widths) <= |data|
    ensures fields == Cut(data[start..], widths) && offset == start + Sum(widths)
  {
    fields, offset := [], start;
    for i := 0 to |widths|
      invariant offset + Sum(widths[i..]) == start + Sum(widths)
      invariant start <= offset
      invariant fields + Cut(data[offset..], widths[i..]) == Cut(data[start..], widths)
    {
      var field := data[offset..offset + widths[i]];
      assert widths[i..][1..] == widths[i + 1..];
      assert data[offset..][widths[i]..] == data[offset + widths[i]..];
      assert data[offset..][..widths[i]] == field;
      fields := fields + [field];
      offset := offset + widths[i];
    }
    assert widths[|widths|..] == [];
  }

  // ---------------------------------------------------------------- words as fields

  function Pack16(v: u16): (s: seq<byte>)
    ensures |s| == 2
  {
    Le16(v)
  }

  function Pack32(v: u32): (s: seq<byte>)
    ensures |s| == 4
  {
    Le32(v)
  }

  function Pack64(v: u64): (s: seq<byte>)
    ensures |s| == 8
  {
    Pack32(v % 0x1_0000_0000) + Pack32(v / 0x1_0000_0000)
  }

  /** Two's complement. */
  function PackI32(v: i32): (s: seq<byte>)
    ensures |s| == 4
  {
    Pack32(if v < 0 then v + 0x1_0000_0000 else v)
  }

  function Unpack16(s: seq<byte>): u16
    requires |s| == 2
  {
    U16At(s, 0)
  }

  function Unpack32(s: seq<byte>): u32
    requires |s| == 4
  {
    U32At(s, 0)
  }

  function Unpack64(s: seq<byte>): u64
    requires |s| == 8
  {
    Unpack32(s[..4]) + 0x1_0000_0000 * Unpack32(s[4..])
  }

  function UnpackI32(s: seq<byte>): i32
    requires |s| == 4
  {
    var u := Unpack32(s);
    if u >= 0x8000_0000 then u - 0x1_0000_0000 else u
  }

  lemma Word16(v: u16, s: seq<byte>)
    ensures Unpack16(Pack16(v)) == v
    ensures |s| == 2 ==> Pack16(Unpack16(s)) == s
  {
  }

  lemma Word32(v: u32, s: seq<byte>)
    ensures Unpack32(Pack32(v)) == v
    ensures |s| == 4 ==> Pack32(Unpack32(s)) == s
  {
    Le32Reads(v, [], []);
    assert [] + Le32(v) + [] == Le32(v);
    if |s| == 4 {
      Le32Inverse(s);
    }
  }

  lemma Word64(v: u64, s: seq<byte>)
    ensures Unpack64(Pack64(v)) == v
    ensures |s| == 8 ==> Pack64(Unpack64(s)) == s
  {
    hide Pack32, Unpack32;
    var lo, hi := v % 0x1_0000_0000, v / 0x1_0000_0000;
    Word32(lo, []);
    Word32(hi, []);
    assert Pack64(v)[..4] == Pack32(lo) && Pack64(v)[4..] == Pack32(hi);
    if |s| == 8 {
      Word32(0, s[..4]);
      Word32(0, s[4..]);
      var u := Unpack64(s);
      assert u % 0x1_0000_0000 == Unpack32(s[..4]) && u / 0x1_0000_0000 == Unpack32(s[4..]);
      assert s[..4] + s[4..] == s;
    }
  }

  lemma WordI32(v: i32, s: seq<byte>)
    ensures UnpackI32(PackI32(v)) == v
    ensures |s| == 4 ==> PackI32(UnpackI32(s)) == s
  {
    Word32(if v < 0 then v + 0x1_0000_0000 else v, s);
  }

  /** Packing and unpacking undo each other, for every word and every field. */
  lemma Words()
    ensures forall v: u16 :: Unpack16(Pack16(v)) == v
    ensures forall v: u32 :: Unpack32(Pack32(v)) == v
    ensures forall v: u64 :: Unpack64(Pack64(v)) == v
    ensures forall v: i32 :: UnpackI32(PackI32(v)) == v
    ensures forall s: seq<byte> :: |s| == 2 ==> Pack16(Unpack16(s)) == s
    ensures forall s: seq<byte> :: |s| == 4 ==> Pack32(Unpack32(s)) == s
    ensures forall s: seq<byte> :: |s| == 8 ==> Pack64(Unpack64(s)) == s
    ensures forall s: seq<byte> :: |s| == 4 ==> PackI32(UnpackI32(s)) == s
  {
    forall v: u16 ensures Unpack16(Pack16(v)) == v { Word16(v, []); }
    forall v: u32 ensures Unpack32(Pack32(v)) == v { Word32(v, []); }
    forall v: u64 ensures Unpack64(Pack64(v)) == v { Word64(v, []); }
    forall v: i32 ensures UnpackI32(PackI32(v)) == v { WordI32(v, []); }
    forall s: seq<byte> | |s| == 2 ensures Pack16(Unpack16(s)) == s { Word16(0, s); }
    forall s: seq<byte> | |s| == 4 ensures Pack32(Unpack32(s)) == s { Word32(0, s); }
    forall s: seq<byte> | |s| == 8 ensures Pack64(Unpack64(s)) == s { Word64(0, s); }
    forall s: seq<byte> | |s| == 4 ensures PackI32(UnpackI32(s)) == s { WordI32(0, s); }
  }
}
