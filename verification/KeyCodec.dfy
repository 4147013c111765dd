/**
 The 128-byte encoding of a server private key: four scalars, each as 32 bytes, most
 significant byte first (sections 2.3.7 and 2.3.8 of SEC 1).
 */
module KeyCodec {
  import opened PrimeField
  import opened Arc

  const SCALAR_BYTES := 32
  const KEY_BYTES := 128

  datatype DecodeError = InvalidLength | InvalidScalar(position: nat)
  datatype DecodeResult = Decoded(key: PrivateKey) | Rejected(error: DecodeError)

  function Pow256(k: nat): (p: int)
    ensures p > 0
  {
    if k == 0 then 1 else 256 * Pow256(k - 1)
  }

  /** The `k` bytes of x, most significant first. */
  function ToBytes(x: int, k: nat): (bytes: seq<Byte>)
    requires 0 <= x < Pow256(k)
    ensures |bytes| == k
  {
    if k == 0 then [] else ToBytes(x / 256, k - 1) + [(x % 256) as Byte]
  }

  function FromBytes(bytes: seq<Byte>): (x: int)
    ensures 0 <= x < Pow256(|bytes|)
  {
    if bytes == [] then 0
    else 256 * FromBytes(bytes[..|bytes| - 1]) + bytes[|bytes| - 1] as int
  }

  lemma {:induction false} BytesDecode(x: int, k: nat)
    requires 0 <= x < Pow256(k)
    ensures FromBytes(ToBytes(x, k)) == x
  {
    if k > 0 {
      BytesDecode(x / 256, k - 1);
      assert ToBytes(x, k)[..k - 1] == ToBytes(x / 256, k - 1);
    }
  }

  lemma {:induction false} BytesEncode(bytes: seq<Byte>)
    ensures ToBytes(FromBytes(bytes), |bytes|) == bytes
  {
    if bytes != [] {
      BytesEncode(bytes[..|bytes| - 1]);
      assert bytes[..|bytes| - 1] + [bytes[|bytes| - 1]] == bytes;
    }
  }

  /** Earlier bytes weigh more: the first of two parts counts in units of the second one's range. */
  lemma {:induction false} EarlierBytesWeighMore(a: seq<Byte>, b: seq<Byte>)
    ensures FromBytes(a + b) == FromBytes(a) * Pow256(|b|) + FromBytes(b)
    ensures |a| == 1 ==> FromBytes(a) == a[0] as int
  {
    if |a| == 1 {
      assert a[..0] == [];
    }
    if b == [] {
      assert a + b == a;
    } else {
      var front, last := b[..|b| - 1], b[|b| - 1] as int;
      EarlierBytesWeighMore(a, front);
      assert (a + b)[..|a + b| - 1] == a + front;
      assert FromBytes(a + b) == 256 * FromBytes(a + front) + last;
      assert FromBytes(b) == 256 * FromBytes(front) + last;
      assert Pow256(|b|) == 256 * Pow256(|front|);
      hide FromBytes, Pow256;
      ShiftsByOneByte(FromBytes(a), Pow256(|front|));
    }
  }

  lemma ShiftsByOneByte(x: int, p: int)
    ensures x * (256 * p) == 256 * (x * p)
  {
  }

  predicate ValidOrder(n: int) {
    1 < n <= Pow256(SCALAR_BYTES)
  }

  predicate IsKey(n: int, sk: PrivateKey) {
    IsScalar(n, sk.x0) && IsScalar(n, sk.x1) && IsScalar(n, sk.x2) && IsScalar(n, sk.x0Blinding)
  }

  method EncodeKey(n: int, sk: PrivateKey) returns (bytes: seq<Byte>)
    requires ValidOrder(n) && IsKey(n, sk)
    ensures bytes == KeyBytes(sk) && DecodeKey(n, bytes) == Decoded(sk)
    ensures |bytes| == 128
    ensures FromBytes(bytes[0..32]) == sk.x0 && FromBytes(bytes[32..64]) == sk.x1
    ensures FromBytes(bytes[64..96]) == sk.x2 && FromBytes(bytes[96..128]) == sk.x0Blinding
  {
    hide Pow256, ToBytes, FromBytes;
    bytes := [];
    bytes := bytes + ToBytes(sk.x0, SCALAR_BYTES);
    bytes := bytes + ToBytes(sk.x1, SCALAR_BYTES);
    bytes := bytes + ToBytes(sk.x2, SCALAR_BYTES);
    bytes := bytes + ToBytes(sk.x0Blinding, SCALAR_BYTES);
    EncodingDecodes(n, sk, bytes);
  }

  function DecodeKey(n: int, bytes: seq<Byte>): DecodeResult {
    if |bytes| != KEY_BYTES then Rejected(InvalidLength)
    else if FromBytes(bytes[0..32]) >= n then Rejected(InvalidScalar(0))
    else if FromBytes(bytes[32..64]) >= n then Rejected(InvalidScalar(1))
    else if FromBytes(bytes[64..96]) >= n then Rejected(InvalidScalar(2))
    else if FromBytes(bytes[96..128]) >= n then Rejected(InvalidScalar(3))
    else Decoded(PrivateKey(FromBytes(bytes[0..32]), FromBytes(bytes[32..64]),
                            FromBytes(bytes[64..96]), FromBytes(bytes[96..128])))
  }

  /** Decoding reports a wrong length, or else the first of the four scalars that is not below the order. */
  lemma DecodingFailsIff(n: int, bytes: seq<Byte>)
    ensures DecodeKey(n, bytes) == Rejected(InvalidLength) <==> |bytes| != 128
    ensures |bytes| == 128 ==>
              forall i: nat :: DecodeKey(n, bytes) == Rejected(InvalidScalar(i)) <==>
                && i < 4 && FromBytes(bytes[32 * i..32 * i + 32]) >= n
                && forall j: nat :: j < i ==> FromBytes(bytes[32 * j..32 * j + 32]) < n
  {
    hide FromBytes;
    if |bytes| == 128 {
      assert bytes[32 * 0..32 * 0 + 32] == bytes[0..32] && bytes[32 * 1..32 * 1 + 32] == bytes[32..64];
      assert bytes[32 * 2..32 * 2 + 32] == bytes[64..96] && bytes[32 * 3..32 * 3 + 32] == bytes[96..128];
    }
  }

  /** The bytes that `EncodeKey` writes for a key. */
  function KeyBytes(sk: PrivateKey): (bytes: seq<Byte>)
    requires IsKey(Pow256(SCALAR_BYTES), sk)
    ensures |bytes| == KEY_BYTES
  {
    ToBytes(sk.x0, SCALAR_BYTES) + ToBytes(sk.x1, SCALAR_BYTES)
    + ToBytes(sk.x2, SCALAR_BYTES) + ToBytes(sk.x0Blinding, SCALAR_BYTES)
  }

  /** Every key is recovered from its encoding. */
  lemma EncodingDecodes(n: int, sk: PrivateKey, bytes: seq<Byte>)
    requires ValidOrder(n) && IsKey(n, sk)
    requires bytes == KeyBytes(sk)
    ensures DecodeKey(n, bytes) == Decoded(sk)
  {
    hide Pow256, ToBytes, FromBytes;
    BytesDecode(sk.x0, SCALAR_BYTES);
    BytesDecode(sk.x1, SCALAR_BYTES);
    BytesDecode(sk.x2, SCALAR_BYTES);
    BytesDecode(sk.x0Blinding, SCALAR_BYTES);
    QuartersOf(ToBytes(sk.x0, SCALAR_BYTES), ToBytes(sk.x1, SCALAR_BYTES),
               ToBytes(sk.x2, SCALAR_BYTES), ToBytes(sk.x0Blinding, SCALAR_BYTES));
  }

  lemma QuartersOf(a: seq<Byte>, b: seq<Byte>, c: seq<Byte>, d: seq<Byte>)
    requires |a| == |b| == |c| == |d| == SCALAR_BYTES
    ensures var s := a + b + c + d;
            s[0..32] == a && s[32..64] == b && s[64..96] == c && s[96..128] == d
  {
  }

  /** Every accepted string is the encoding of the key it decodes to, so decoding is injective. */
  lemma AcceptedBytesReencode(n: int, bytes: seq<Byte>)
    requires ValidOrder(n) && DecodeKey(n, bytes).Decoded?
    ensures IsKey(n, DecodeKey(n, bytes).key)
    ensures KeyBytes(DecodeKey(n, bytes).key) == bytes
  {
    hide Pow256, ToBytes, FromBytes;
    BytesEncode(bytes[0..32]);
    BytesEncode(bytes[32..64]);
    BytesEncode(bytes[64..96]);
    BytesEncode(bytes[96..128]);
    assert bytes[0..32] + bytes[32..64] + bytes[64..96] + bytes[96..128] == bytes;
  }
}
