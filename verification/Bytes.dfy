/** Byte memories, and 32-bit floats and 8-bit integers stored in them. */
module Bytes {

  type Byte = x: nat | x < 256

  /** The bit pattern of a float; what arithmetic does to it is left to Arith. */
  type Float = x: nat | x < 0x1_0000_0000

  function FloatBytes(f: Float): (s: seq<Byte>)
    ensures |s| == 4
  {
    var r: nat := f / 256;
    var q: nat := r / 256;
    [f % 256, r % 256, q % 256, q / 256]
  }

  function FloatAt(mem: seq<Byte>, off: nat): Float
    requires off + 4 <= |mem|
  {
    var low: nat, middle: nat, high: nat, top: nat := mem[off], mem[off + 1], mem[off + 2], mem[off + 3];
    low + 256 * (middle + 256 * (high + 256 * top))
  }

  lemma FloatRoundTrip(f: Float)
    ensures FloatAt(FloatBytes(f), 0) == f
  {}

  /** The float 1.0 in memory, lowest byte first. */
  lemma OneInMemory()
    ensures FloatBytes(0x3f80_0000) == [0, 0, 0x80, 0x3f]
  {}

  /** An array of floats as the bytes it occupies. */
  function EncodeFloats(s: seq<Float>): (b: seq<Byte>)
    ensures |b| == 4 * |s|
  {
    if s == [] then [] else EncodeFloats(s[..|s| - 1]) + FloatBytes(s[|s| - 1])
  }

  lemma {:induction false} FloatsAt(s: seq<Float>, k: nat)
    requires k < |s|
    ensures FloatAt(EncodeFloats(s), 4 * k) == s[k]
  {
    var front := EncodeFloats(s[..|s| - 1]);
    if k < |s| - 1 {
      FloatsAt(s[..|s| - 1], k);
      assert forall i :: 0 <= i < |front| ==> EncodeFloats(s)[i] == front[i];
    } else {
      FloatRoundTrip(s[k]);
      assert forall i :: 0 <= i < 4 ==> EncodeFloats(s)[|front| + i] == FloatBytes(s[k])[i];
    }
  }

  lemma EncodeSnoc(s: seq<Float>, f: Float)
    ensures EncodeFloats(s + [f]) == EncodeFloats(s) + FloatBytes(f)
  {
    assert (s + [f])[..|s|] == s;
  }

  function Signed(b: Byte): (v: int)
    ensures -128 <= v < 128 && (v - b) % 256 == 0
  {
    if b < 128 then b else b - 256
  }

  function Unsigned(v: int): (b: Byte)
    requires -128 <= v < 128
    ensures (v - b) % 256 == 0
  {
    if v >= 0 then v else v + 256
  }

  lemma SignedRoundTrip(v: int)
    requires -128 <= v < 128
    ensures Signed(Unsigned(v)) == v
  {}

  /** memcpy into a memory. */
  function Splice(mem: seq<Byte>, off: nat, data: seq<Byte>): (m: seq<Byte>)
    requires off + |data| <= |mem|
    ensures |m| == |mem|
  {
    mem[..off] + data + mem[off + |data|..]
  }

  lemma SpliceSnoc(mem: seq<Byte>, off: nat, data: seq<Byte>, i: nat)
    requires off + |data| <= |mem| && i < |data|
    ensures Splice(mem, off, data[..i + 1]) == Splice(mem, off, data[..i])[off + i := data[i]]
  {}

  method Copy(mem: array<Byte>, off: nat, data: seq<Byte>)
    requires off + |data| <= mem.Length
    modifies mem
    ensures mem[..] == Splice(old(mem[..]), off, data)
  {
    assert Splice(mem[..], off, data[..0]) == mem[..];
    hide Splice;
    for i := 0 to |data|
      invariant mem[..] == Splice(old(mem[..]), off, data[..i])
    {
      mem[off + i] := data[i];
      SpliceSnoc(old(mem[..]), off, data, i);
    }
    assert data[..|data|] == data;
  }

  lemma SpliceAt(mem: seq<Byte>, off: nat, data: seq<Byte>, i: nat)
    requires off + |data| <= |mem| && i < |mem|
    ensures Splice(mem, off, data)[i] == (if off <= i < off + |data| then data[i - off] else mem[i])
  {}
}
