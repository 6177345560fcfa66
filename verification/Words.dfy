/** Zone numbers as four-byte words inside a block, as rd_indir and wr_indir see them. */
module Words {

  type byte = b: int | 0 <= b < 256

  const WORD_LIMIT := 0x1_0000_0000

  function LittleEndian(b: seq<byte>): nat {
    if b == [] then 0 else b[0] + 256 * LittleEndian(b[1..])
  }

  function Encode(z: nat, n: nat): (b: seq<byte>)
    ensures |b| == n
  {
    if n == 0 then [] else [z % 256] + Encode(z / 256, n - 1)
  }

  function Power256(n: nat): nat {
    if n == 0 then 1 else 256 * Power256(n - 1)
  }

  lemma {:induction false} DecodeEncode(z: nat, n: nat)
    requires z < Power256(n)
    ensures LittleEndian(Encode(z, n)) == z
  {
    if n > 0 {
      DecodeEncode(z / 256, n - 1);
      assert Encode(z, n)[1..] == Encode(z / 256, n - 1);
    }
  }

  function Zeros(n: nat): (b: seq<byte>)
    ensures |b| == n && forall k :: 0 <= k < n ==> b[k] == 0
  {
    seq(n, _ => 0)
  }

  lemma {:induction false} ZerosDecode(b: seq<byte>)
    requires forall k :: 0 <= k < |b| ==> b[k] == 0
    ensures LittleEndian(b) == 0
  {
    if b != [] {
      ZerosDecode(b[1..]);
    }
  }

  /** Entry `i` of a block read as an array of zone numbers. */
  function Word(b: seq<byte>, i: nat): nat
    requires 4 * i + 4 <= |b|
  {
    LittleEndian(b[4 * i..4 * i + 4])
  }

  function SetWord(b: seq<byte>, i: nat, z: nat): (r: seq<byte>)
    requires 4 * i + 4 <= |b|
    ensures |r| == |b|
  {
    b[..4 * i] + Encode(z, 4) + b[4 * i + 4..]
  }

  /** Writing one entry changes that entry and no other. */
  lemma WordOfSetWord(b: seq<byte>, i: nat, z: nat, k: nat)
    requires 4 * i + 4 <= |b| && 4 * k + 4 <= |b| && z < WORD_LIMIT
    ensures Word(SetWord(b, i, z), k) == if k == i then z else Word(b, k)
  {
    var r := SetWord(b, i, z);
    if k == i {
      assert r[4 * i..4 * i + 4] == Encode(z, 4);
      assert Power256(4) == WORD_LIMIT;
      DecodeEncode(z, 4);
    } else {
      assert r[4 * k..4 * k + 4] == b[4 * k..4 * k + 4];
    }
  }

  lemma WordOfZeros(b: seq<byte>, k: nat)
    requires 4 * k + 4 <= |b| && forall i :: 0 <= i < |b| ==> b[i] == 0
    ensures Word(b, k) == 0
  {
    ZerosDecode(b[4 * k..4 * k + 4]);
  }
}
