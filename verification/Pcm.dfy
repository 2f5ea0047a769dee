/** Audio samples on their way from native code to the event listener: big-endian byte pairs. */
module Pcm {
  type Sample = x: int | -0x8000 <= x < 0x8000
  type Byte = x: int | 0 <= x < 0x100

  function HighByte(v: Sample): Byte { (v / 0x100) % 0x100 }

  function LowByte(v: Sample): Byte { v % 0x100 }

  function Packed(samples: seq<Sample>): seq<Byte> {
    if samples == [] then []
    else [HighByte(samples[0]), LowByte(samples[0])] + Packed(samples[1..])
  }

  /** A big-endian 16-bit read. */
  function Join(high: Byte, low: Byte): Sample {
    var v := high * 0x100 + low;
    if v < 0x8000 then v else v - 0x10000
  }

  /** The short view of a byte buffer; an odd last byte is out of reach. */
  function Unpacked(bytes: seq<Byte>): seq<Sample> {
    if |bytes| < 2 then [] else [Join(bytes[0], bytes[1])] + Unpacked(bytes[2..])
  }

  lemma {:induction false} PackedAt(samples: seq<Sample>, i: nat)
    ensures |Packed(samples)| == 2 * |samples|
    ensures i < |samples| ==>
      Packed(samples)[2 * i] == HighByte(samples[i]) && Packed(samples)[2 * i + 1] == LowByte(samples[i])
  {
    if samples != [] {
      var rest := Packed(samples[1..]);
      PackedAt(samples[1..], if i > 0 then i - 1 else 0);
      if 0 < i < |samples| {
        assert Packed(samples)[2 * i] == rest[2 * (i - 1)] && Packed(samples)[2 * i + 1] == rest[2 * (i - 1) + 1];
        assert samples[1..][i - 1] == samples[i];
      }
    }
  }

  lemma {:induction false} UnpackedAt(bytes: seq<Byte>, i: nat)
    ensures |Unpacked(bytes)| == |bytes| / 2
    ensures i < |bytes| / 2 ==> Unpacked(bytes)[i] == Join(bytes[2 * i], bytes[2 * i + 1])
  {
    if |bytes| >= 2 {
      UnpackedAt(bytes[2..], if i > 0 then i - 1 else 0);
    }
  }

  /** The two's complement of a sample, high byte first. */
  lemma {:induction false} PackedIsBigEndian(samples: seq<Sample>, i: nat)
    requires i < |samples|
    ensures |Packed(samples)| == 2 * |samples|
    ensures
      var high: int, low: int, v: int := Packed(samples)[2 * i], Packed(samples)[2 * i + 1], samples[i];
      0x100 * high + low == if v >= 0 then v else v + 0x10000
  {
    PackedAt(samples, i);
    BytesOf(samples[i]);
  }

  lemma {:induction false} BytesOf(v: int)
    requires -0x8000 <= v < 0x8000
    ensures 0x100 * ((v / 0x100) % 0x100) + v % 0x100 == if v >= 0 then v else v + 0x10000
  {
    assert v == 0x100 * (v / 0x100) + v % 0x100;
    assert (v / 0x100) % 0x100 == if v >= 0 then v / 0x100 else v / 0x100 + 0x100;
  }

  lemma {:induction false} UnpackedIsBigEndian(bytes: seq<Byte>, i: nat)
    requires i < |bytes| / 2
    ensures |Unpacked(bytes)| == |bytes| / 2
    ensures
      var high: int, low: int, v: int := bytes[2 * i], bytes[2 * i + 1], Unpacked(bytes)[i];
      v == 0x100 * high + low - (if high >= 0x80 then 0x10000 else 0)
  {
    UnpackedAt(bytes, i);
  }

  /** Every sample survives the trip, for any number of samples. */
  lemma {:induction false} SamplesSurvive(samples: seq<Sample>)
    ensures Unpacked(Packed(samples)) == samples
  {
    if samples != [] {
      SamplesSurvive(samples[1..]);
      assert Packed(samples)[2..] == Packed(samples[1..]);
      assert [samples[0]] + samples[1..] == samples;
    }
  }

  lemma {:induction false} PackedCons(first: Sample, rest: seq<Sample>)
    ensures Packed([first] + rest) == [HighByte(first), LowByte(first)] + Packed(rest)
  {
    assert ([first] + rest)[1..] == rest;
  }

  lemma {:induction false} JoinSurvives(high: Byte, low: Byte)
    ensures HighByte(Join(high, low)) == high && LowByte(Join(high, low)) == low
  {
    if high < 0x80 {
      SplitPair(high, low);
      assert Join(high, low) == 0x100 * high + low;
    } else {
      SplitPair(high - 0x100, low);
      assert Join(high, low) == 0x100 * (high - 0x100) + low;
    }
  }

  lemma {:induction false} SplitPair(high: int, low: Byte)
    ensures (0x100 * high + low) / 0x100 == high && (0x100 * high + low) % 0x100 == low
  {
  }

  /** Conversely, no two buffers of even length mean the same samples. */
  lemma {:induction false} BytesSurvive(bytes: seq<Byte>)
    requires |bytes| % 2 == 0
    ensures Packed(Unpacked(bytes)) == bytes
  {
    if bytes != [] {
      var first, rest := Join(bytes[0], bytes[1]), bytes[2..];
      BytesSurvive(rest);
      PackedCons(first, Unpacked(rest));
      JoinSurvives(bytes[0], bytes[1]);
      assert [bytes[0], bytes[1]] + rest == bytes;
    }
  }

  /** Writes one sample at the output position and returns the position after it. */
  method PutSample(bytes: array<Byte>, output: nat, value: Sample) returns (next: nat)
    requires output + 2 <= bytes.Length
    modifies bytes
    ensures next == output + 2
    ensures bytes[output] == HighByte(value) && bytes[output + 1] == LowByte(value)
    ensures forall k :: 0 <= k < bytes.Length && k != output && k != output + 1 ==> bytes[k] == old(bytes[k])
  {
    bytes[output] := (value / 0x100) % 0x100;
    bytes[output + 1] := value % 0x100;
    next := output + 2;
  }

  /** Packs a range of samples into a buffer of exactly their size. */
  method ToBytes(samples: seq<Sample>) returns (bytes: array<Byte>)
    ensures fresh(bytes) && bytes[..] == Packed(samples)
  {
    bytes := new Byte[2 * |samples|];
    var output, i := 0, 0;
    PackedAt(samples, 0);
    while i < |samples|
      invariant 0 <= i <= |samples| && output == 2 * i
      invariant forall k :: 0 <= k < output ==> bytes[k] == Packed(samples)[k]
    {
      PackedAt(samples, i);
      output := PutSample(bytes, output, samples[i]);
      i := i + 1;
    }
  }

  /** Reads the whole buffer as shorts. */
  method ToShortArray(bytes: seq<Byte>) returns (shorts: array<Sample>)
    ensures fresh(shorts) && shorts[..] == Unpacked(bytes)
  {
    shorts := new Sample[|bytes| / 2];
    UnpackedAt(bytes, 0);
    var i := 0;
    while i < shorts.Length
      invariant 0 <= i <= shorts.Length
      invariant forall k :: 0 <= k < i ==> shorts[k] == Unpacked(bytes)[k]
    {
      UnpackedAt(bytes, i);
      shorts[i] := Join(bytes[2 * i], bytes[2 * i + 1]);
      i := i + 1;
    }
  }
}
