/** Python's `int.from_bytes(b, order)` and `int.to_bytes(n, order)` on the
    naturals. */
module Bytes {
  import opened Odx
  import opened Bits

  datatype Endianness = Big | Little

  /** `int.from_bytes(b, 'big')` */
  function FromBytesBE(b: seq<byte>): nat
  {
    if b == [] then 0 else FromBytesBE(b[..|b| - 1]) * 256 + b[|b| - 1]
  }

  function Reverse(b: seq<byte>): (r: seq<byte>)
    ensures |r| == |b|
    ensures forall i :: 0 <= i < |b| ==> r[i] == b[|b| - 1 - i]
  {
    if b == [] then [] else Reverse(b[1..]) + [b[0]]
  }

  function FromBytes(b: seq<byte>, order: Endianness): nat
  {
    if order == Big then FromBytesBE(b) else FromBytesBE(Reverse(b))
  }

  /** The `n` low-order bytes of `x`, most significant first. */
  function EncodeBE(x: nat, n: nat): (r: seq<byte>)
    ensures |r| == n
  {
    if n == 0 then [] else EncodeBE(x / 256, n - 1) + [x % 256]
  }

  /** Largest value `n` bytes hold, plus one. */
  function Capacity(n: nat): (c: nat)
  {
    Pow2(8 * n)
  }

  /** `x.to_bytes(n, order)`: OverflowError when x needs more than n bytes. */
  function ToBytes(x: nat, n: nat, order: Endianness): (r: Outcome<seq<byte>>)
    ensures r.Ok? <==> x < Capacity(n)
    ensures r.Ok? ==> |r.value| == n && FromBytes(r.value, order) == x && r.warnings == []
  {
    if x < Capacity(n) then
      EncodeDecode(x, n);
      ReverseReverse(EncodeBE(x, n));
      Ok(if order == Big then EncodeBE(x, n) else Reverse(EncodeBE(x, n)), [])
    else
      Err(OverflowError("int too big to convert"))
  }

  /** Little-endian bytes are the big-endian ones reversed. */
  lemma ToBytesOrder(x: nat, n: nat)
    requires x < Capacity(n)
    ensures ToBytes(x, n, Little).value == Reverse(ToBytes(x, n, Big).value)
  {
  }

  lemma CapacityStep(n: nat)
    requires n > 0
    ensures Capacity(n) == 256 * Capacity(n - 1)
  {
    Pow2Add(8 * (n - 1), 8);
    assert Pow2(8) == 256;
  }

  /** A byte string of length n reads back below 2^(8n). */
  lemma {:induction false} FromBytesBelow(b: seq<byte>)
    ensures FromBytesBE(b) < Capacity(|b|)
  {
    if b != [] {
      FromBytesBelow(b[..|b| - 1]);
      CapacityStep(|b|);
    }
  }

  /** Encoding then reading back is the identity on values that fit. */
  lemma {:induction false} EncodeDecode(x: nat, n: nat)
    requires x < Capacity(n)
    ensures FromBytesBE(EncodeBE(x, n)) == x
  {
    if n > 0 {
      CapacityStep(n);
      EncodeDecode(x / 256, n - 1);
      var e := EncodeBE(x, n);
      assert e[..|e| - 1] == EncodeBE(x / 256, n - 1);
    }
  }

  /** Reading then encoding at the same length is the identity on bytes. */
  lemma {:induction false} DecodeEncode(b: seq<byte>)
    ensures EncodeBE(FromBytesBE(b), |b|) == b
  {
    if b != [] {
      var init := b[..|b| - 1];
      DecodeEncode(init);
      var x := FromBytesBE(b);
      assert x / 256 == FromBytesBE(init) && x % 256 == b[|b| - 1];
      assert b == init + [b[|b| - 1]];
    }
  }

  lemma ReverseReverse(b: seq<byte>)
    ensures Reverse(Reverse(b)) == b
  {
  }

  /** `to_bytes` and `from_bytes` are inverse: the byte length survives. */
  lemma BytesRoundTrip(b: seq<byte>, order: Endianness)
    ensures ToBytes(FromBytes(b, order), |b|, order) == Ok(b, [])
  {
    var x := FromBytes(b, order);
    if order == Big {
      FromBytesBelow(b);
      DecodeEncode(b);
    } else {
      var rb := Reverse(b);
      FromBytesBelow(rb);
      DecodeEncode(rb);
      ReverseReverse(b);
    }
  }
}
