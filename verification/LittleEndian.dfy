/** Bytes and little-endian integers. */
module LittleEndian {
  import opened Arith

  newtype byte = x: int | 0 <= x < 256

  type Bytes = seq<byte>

  function ToLittleEndian(n: nat, width: nat): (b: seq<byte>)
    ensures |b| == width
  {
    if width == 0 then [] else [(n % 256) as byte] + ToLittleEndian(n / 256, width - 1)
  }

  function FromLittleEndian(b: seq<byte>): (n: nat) {
    if b == [] then 0 else b[0] as nat + 256 * FromLittleEndian(b[1..])
  }

  lemma {:induction false} LittleEndianRoundTrip(n: nat, width: nat)
    requires n < Pow(256, width)
    ensures FromLittleEndian(ToLittleEndian(n, width)) == n
  {
    if width > 0 {
      assert n / 256 < Pow(256, width - 1);
      LittleEndianRoundTrip(n / 256, width - 1);
      assert ToLittleEndian(n, width)[1..] == ToLittleEndian(n / 256, width - 1);
    }
  }

  lemma {:induction false} LittleEndianInverse(b: seq<byte>)
    ensures ToLittleEndian(FromLittleEndian(b), |b|) == b && FromLittleEndian(b) < Pow(256, |b|)
  {
    if b != [] {
      LittleEndianInverse(b[1..]);
      var n := FromLittleEndian(b[1..]);
      DivModOf(FromLittleEndian(b), 256, n, b[0] as int);
      assert b == [b[0]] + b[1..];
    }
  }
}
