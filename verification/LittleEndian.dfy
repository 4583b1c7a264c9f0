/** Little-endian fields: the `append_*` and `read_*` helpers that the command codec and
    the telemetry codec share, and packets as lists of fields. */
module LittleEndian {
  import opened Words

  /** 256 to the power `n`: the number of values a field of `n` bytes holds. */
  function Span(n: nat): (s: nat)
    ensures s >= 1
  {
    if n == 0 then 1 else 256 * Span(n - 1)
  }

  function Encode(value: nat, n: nat): (bytes: seq<u8>)
    ensures |bytes| == n
    decreases n, value
  {
    if n == 0 then [] else [value % 256] + Encode(value / 256, n - 1)
  }

  function Value(bytes: seq<u8>): nat {
    if bytes == [] then 0 else bytes[0] + 256 * Value(bytes[1..])
  }

  lemma {:induction false} ValueOfEncode(value: nat, n: nat)
    requires value < Span(n)
    ensures Value(Encode(value, n)) == value
    decreases n
  {
    if n == 0 {
    } else {
      ValueOfEncode(value / 256, n - 1);
      assert Encode(value, n)[1..] == Encode(value / 256, n - 1);
    }
  }

  lemma {:induction false} LowestByte(low: u8, rest: nat)
    ensures (low + 256 * rest) % 256 == low && (low + 256 * rest) / 256 == rest
  {
  }

  lemma {:induction false} EncodeOfValue(bytes: seq<u8>)
    ensures Value(bytes) < Span(|bytes|)
    ensures Encode(Value(bytes), |bytes|) == bytes
  {
    if bytes == [] {
    } else {
      EncodeOfValue(bytes[1..]);
      LowestByte(bytes[0], Value(bytes[1..]));
      assert bytes == [bytes[0]] + bytes[1..];
    }
  }

  lemma {:induction false} TwoBytes(value: nat)
    ensures Encode(value, 2) == [value % 256, value / 256 % 256]
  {
    assert Encode(value / 256, 1) == [value / 256 % 256] + Encode(value / 256 / 256, 0);
  }

  lemma {:induction false} FourBytes(value: nat)
    ensures Encode(value, 4) == [value % 256, value / 256 % 256, value / 0x1_0000 % 256, value / 0x100_0000 % 256]
  {
    TwoBytes(value);
    TwoBytes(value / 256 / 256);
    assert Encode(value, 4) == [value % 256] + Encode(value / 256, 3);
    assert Encode(value / 256, 3) == [value / 256 % 256] + Encode(value / 256 / 256, 2);
  }

  // ---- The helpers, as the sources write them ----

  method AppendU8(bytes: seq<u8>, value: u8) returns (out: seq<u8>)
    ensures out == bytes + Encode(value, 1)
  {
    out := bytes + [value];
    assert Encode(value, 1) == [value % 256] + Encode(value / 256, 0);
  }

  method AppendU16(bytes: seq<u8>, value: u16) returns (out: seq<u8>)
    ensures out == bytes + Encode(value, 2)
  {
    var v: int := value;
    out := bytes + [v % 256] + [v / 256 % 256];
    assert Encode(v, 2) == [v % 256] + Encode(v / 256, 1);
  }

  method AppendU32(bytes: seq<u8>, value: u32) returns (out: seq<u8>)
    ensures out == bytes + Encode(value, 4)
  {
    var v: int := value;
    out := bytes + [v % 256] + [v / 256 % 256] + [v / 0x1_0000 % 256] + [v / 0x100_0000 % 256];
    assert Encode(v, 4) == [v % 256] + Encode(v / 256, 3);
    assert Encode(v / 256, 3) == [v / 256 % 256] + Encode(v / 256 / 256, 2);
    assert v / 256 / 256 == v / 0x1_0000 && v / 0x1_0000 / 256 == v / 0x100_0000;
    assert Encode(v / 0x1_0000, 2) == [v / 0x1_0000 % 256] + Encode(v / 0x100_0000, 1);
  }

  method AppendU64(bytes: seq<u8>, value: u64) returns (out: seq<u8>)
    ensures out == bytes + Encode(value, 8)
  {
    out := AppendShifted(bytes, value, 8);
  }

  /** The loop of `append_u64`: one byte for every eight places of shift. */
  method AppendShifted(bytes: seq<u8>, value: nat, n: nat) returns (out: seq<u8>)
    ensures out == bytes + Encode(value, n)
  {
    out := bytes;
    for i := 0 to n
      invariant out + Encode(Shifted(value, i), n - i) == bytes + Encode(value, n)
    {
      NextByte(value, i, n - i);
      out := out + [Shifted(value, i) % 256];
    }
  }

  /** `value >> (8 * i)`, eight places at a time. */
  function Shifted(value: nat, i: nat): nat
    decreases i
  {
    if i == 0 then value else Shifted(value, i - 1) / 256
  }

  lemma {:induction false} NextByte(value: nat, i: nat, n: nat)
    requires n > 0
    ensures Encode(Shifted(value, i), n) == [Shifted(value, i) % 256] + Encode(Shifted(value, i + 1), n - 1)
  {
  }

  method ReadU8(bytes: seq<u8>, offset: nat) returns (value: u8, next: nat)
    requires offset + 1 <= |bytes|
    ensures next == offset + 1 && value == Value(bytes[offset..next])
  {
    value, next := bytes[offset], offset + 1;
    assert Value(bytes[offset..next]) == value + 256 * Value(bytes[offset..next][1..]);
  }

  method ReadU16(bytes: seq<u8>, offset: nat) returns (value: u16, next: nat)
    requires offset + 2 <= |bytes|
    ensures next == offset + 2 && value == Value(bytes[offset..next])
  {
    next := offset + 2;
    var b0: int, b1: int := bytes[offset], bytes[offset + 1];
    value := b0 + 256 * b1;
    ValueOfTwo(bytes[offset..next]);
  }

  lemma {:induction false} ValueOfTwo(b: seq<u8>)
    requires |b| == 2
    ensures Value(b) == b[0] as int + 256 * b[1] as int
  {
    assert Value(b[1..]) == b[1] as int + 256 * Value(b[1..][1..]);
  }

  method ReadU32(bytes: seq<u8>, offset: nat) returns (value: u32, next: nat)
    requires offset + 4 <= |bytes|
    ensures next == offset + 4 && value == Value(bytes[offset..next])
  {
    next := offset + 4;
    var b0: int, b1: int, b2: int, b3: int :=
      bytes[offset], bytes[offset + 1], bytes[offset + 2], bytes[offset + 3];
    value := b0 + 0x100 * b1 + 0x1_0000 * b2 + 0x100_0000 * b3;
    var b := bytes[offset..next];
    ValueOfTwo(b[2..]);
    assert Value(b) == b0 + 256 * Value(b[1..]);
    assert Value(b[1..]) == b1 + 256 * Value(b[1..][1..]);
    assert b[1..][1..] == b[2..];
  }

  method ReadU64(bytes: seq<u8>, offset: nat) returns (value: u64, next: nat)
    requires offset + 8 <= |bytes|
    ensures next == offset + 8 && value == Value(bytes[offset..next])
  {
    var v: int := 0;
    next := offset;
    for i := 0 to 8
      invariant next == offset + i && v == Value(bytes[offset..next])
    {
      var b: int := bytes[next];
      v := v + Span(i) * b;
      ValueOfAppend(bytes[offset..next], bytes[next]);
      assert bytes[offset..next + 1] == bytes[offset..next] + [bytes[next]];
      next := next + 1;
    }
    EncodeOfValue(bytes[offset..next]);
    assert Span(4) == 0x1_0000_0000;
    value := v;
  }

  lemma {:induction false} ValueOfAppend(b: seq<u8>, x: u8)
    ensures Value(b + [x]) == Value(b) + Span(|b|) * x as int
  {
    if b == [] {
      assert b + [x] == [x] && [x][1..] == [];
    } else {
      ValueOfAppend(b[1..], x);
      assert (b + [x])[1..] == b[1..] + [x];
    }
  }

  // ---- Packets as lists of fields ----

  function Width(widths: seq<nat>): nat {
    if widths == [] then 0 else widths[0] + Width(widths[1..])
  }

  function Pack(values: seq<nat>, widths: seq<nat>): (bytes: seq<u8>)
    requires |values| == |widths|
    ensures |bytes| == Width(widths)
  {
    if widths == [] then [] else Encode(values[0], widths[0]) + Pack(values[1..], widths[1..])
  }

  function Unpack(bytes: seq<u8>, widths: seq<nat>): (values: seq<nat>)
    requires |bytes| == Width(widths)
    ensures |values| == |widths|
    decreases |widths|, |bytes|
  {
    if widths == [] then [] else [Value(bytes[..widths[0]])] + Unpack(bytes[widths[0]..], widths[1..])
  }

  ghost predicate Fits(values: seq<nat>, widths: seq<nat>)
    requires |values| == |widths|
  {
    forall i :: 0 <= i < |values| ==> values[i] < Span(widths[i])
  }

  lemma {:induction false} UnpackOfPack(values: seq<nat>, widths: seq<nat>)
    requires |values| == |widths| && Fits(values, widths)
    ensures Unpack(Pack(values, widths), widths) == values
    decreases |widths|
  {
    if widths == [] {
    } else {
      var head, tail := Encode(values[0], widths[0]), Pack(values[1..], widths[1..]);
      assert (head + tail)[..widths[0]] == head && (head + tail)[widths[0]..] == tail;
      ValueOfEncode(values[0], widths[0]);
      UnpackOfPack(values[1..], widths[1..]);
    }
  }

  lemma {:induction false} PackOfUnpack(bytes: seq<u8>, widths: seq<nat>)
    requires |bytes| == Width(widths)
    ensures Pack(Unpack(bytes, widths), widths) == bytes
    ensures Fits(Unpack(bytes, widths), widths)
    decreases |widths|
  {
    if widths == [] {
    } else {
      var w, head, tail := widths[0], bytes[..widths[0]], bytes[widths[0]..];
      EncodeOfValue(head);
      PackOfUnpack(tail, widths[1..]);
      var values, rest := Unpack(bytes, widths), Unpack(tail, widths[1..]);
      assert values == [Value(head)] + rest && values[1..] == rest;
      assert bytes == head + tail;
      forall i | 0 <= i < |values|
        ensures values[i] < Span(widths[i])
      {
        assert i > 0 ==> values[i] == rest[i - 1] && widths[i] == widths[1..][i - 1];
      }
    }
  }

  /** Field `i` is the value of its own slice. */
  lemma {:induction false} UnpackAt(bytes: seq<u8>, widths: seq<nat>, i: nat, at: nat)
    requires |bytes| == Width(widths) && i < |widths| && at == Width(widths[..i])
    ensures at + widths[i] <= |bytes|
    ensures Unpack(bytes, widths)[i] == Value(bytes[at..at + widths[i]])
    decreases |widths|
  {
    if i == 0 {
    } else {
      var w, rest := widths[0], widths[1..];
      assert widths[..i][1..] == rest[..i - 1];
      assert at == w + Width(rest[..i - 1]);
      UnpackAt(bytes[w..], rest, i - 1, at - w);
      assert Unpack(bytes, widths)[i] == Unpack(bytes[w..], rest)[i - 1];
      SliceOfSlice(bytes, w, at, at + widths[i]);
    }
  }

  /** Reading a packet in order: field `i` starts where the fields before it end. */
  lemma {:induction false} FieldNext(bytes: seq<u8>, widths: seq<nat>, i: nat, at: nat)
    requires Width(widths) <= |bytes| && i < |widths| && at == Width(widths[..i])
    ensures at + widths[i] <= |bytes| && at + widths[i] == Width(widths[..i + 1])
    ensures Unpack(bytes[..Width(widths)], widths)[i] == Value(bytes[at..at + widths[i]])
  {
    UnpackAt(bytes[..Width(widths)], widths, i, at);
    SliceOfPrefix(bytes, Width(widths), at, at + widths[i]);
    WidthNext(widths, i);
  }

  lemma {:induction false} WidthNext(widths: seq<nat>, i: nat)
    requires i < |widths|
    ensures Width(widths[..i + 1]) == Width(widths[..i]) + widths[i]
    decreases i
  {
    if i == 0 {
    } else {
      WidthNext(widths[1..], i - 1);
      assert widths[..i + 1][1..] == widths[1..][..i] && widths[..i][1..] == widths[1..][..i - 1];
    }
  }

  /** Writing a packet in order: each field goes behind those before it. */
  lemma {:induction false} PackNext(values: seq<nat>, widths: seq<nat>, i: nat)
    requires |values| == |widths| && i < |widths|
    ensures Pack(values[..i + 1], widths[..i + 1]) == Pack(values[..i], widths[..i]) + Encode(values[i], widths[i])
    decreases i
  {
    if i > 0 {
      PackNext(values[1..], widths[1..], i - 1);
      assert widths[..i + 1][1..] == widths[1..][..i] && widths[..i][1..] == widths[1..][..i - 1];
      assert values[..i + 1][1..] == values[1..][..i] && values[..i][1..] == values[1..][..i - 1];
    } else {
      assert values[..1][1..] == [] && widths[..1][1..] == [];
    }
  }

  lemma {:induction false} SliceOfPrefix(bytes: seq<u8>, length: nat, from: nat, to: nat)
    requires from <= to <= length <= |bytes|
    ensures bytes[..length][from..to] == bytes[from..to]
  {
  }

  lemma {:induction false} SliceOfSlice(bytes: seq<u8>, w: nat, from: nat, to: nat)
    requires w <= from <= to <= |bytes|
    ensures bytes[w..][from - w..to - w] == bytes[from..to]
  {
  }
}
