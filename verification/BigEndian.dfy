/** Big-endian encoding of unsigned integers in a fixed number of bytes. */
module BigEndian {

  type Byte = x: nat | x < 256

  function ByteOf(x: nat): Byte {
    x % 256
  }

  function Pow256(n: nat): (p: nat)
    ensures p > 0
  {
    if n == 0 then 1 else 256 * Pow256(n - 1)
  }

  function Encode(v: nat, width: nat): (bytes: seq<Byte>)
    ensures |bytes| == width
  {
    if width == 0 then [] else Encode(v / 256, width - 1) + [ByteOf(v)]
  }

  function Decode(bytes: seq<Byte>): nat {
    if bytes == [] then 0 else Decode(bytes[..|bytes| - 1]) * 256 + (bytes[|bytes| - 1] as nat)
  }

  lemma {:induction false} RoundTrip(v: nat, width: nat)
    requires v < Pow256(width)
    ensures Decode(Encode(v, width)) == v
  {
    if width > 0 {
      assert v / 256 < Pow256(width - 1);
      RoundTrip(v / 256, width - 1);
      var rest := Encode(v / 256, width - 1);
      assert (rest + [ByteOf(v)])[..width - 1] == rest;
    }
  }

  /** Right shift by whole bytes. */
  function Shr(v: nat, bytes: nat): nat {
    if bytes == 0 then v else Shr(v / 256, bytes - 1)
  }

  /** The k-th byte of an encoding, as the setters write it. */
  lemma {:induction false} EncodeAt(v: nat, width: nat, k: nat)
    requires k < width
    ensures Encode(v, width)[k] == ByteOf(Shr(v, width - 1 - k))
  {
    if k < width - 1 {
      EncodeAt(v / 256, width - 1, k);
    }
  }

  // ---- the widths in use, as the getters read them

  lemma Decode2(b: seq<Byte>)
    requires |b| == 2
    ensures Decode(b) == (b[1] as nat) + (b[0] as nat) * 0x100
  {
    assert b[..1][..0] == [];
    assert Decode(b[..1]) == b[0] as nat;
  }

  lemma DecodeTwoMore(b: seq<Byte>)
    requires |b| >= 2
    ensures var n := |b|; Decode(b) == Decode(b[..n - 2]) * 0x1_0000 + (b[n - 2] as nat) * 0x100 + (b[n - 1] as nat)
  {
    var n := |b|;
    assert b[..n - 1][..n - 2] == b[..n - 2];
    assert Decode(b[..n - 1]) == Decode(b[..n - 2]) * 256 + b[n - 2] as nat;
  }

  lemma Decode4(b: seq<Byte>)
    requires |b| == 4
    ensures Decode(b) == (b[3] as nat) + (b[2] as nat) * 0x100 + (b[1] as nat) * 0x1_0000 + (b[0] as nat) * 0x100_0000
  {
    DecodeTwoMore(b);
    Decode2(b[..2]);
  }

  lemma Decode6(b: seq<Byte>)
    requires |b| == 6
    ensures Decode(b) == (b[5] as nat) + (b[4] as nat) * 0x100 + (b[3] as nat) * 0x1_0000 +
      (b[2] as nat) * 0x100_0000 + (b[1] as nat) * 0x1_0000_0000 + (b[0] as nat) * 0x100_0000_0000
  {
    DecodeTwoMore(b);
    Decode4(b[..4]);
  }

  lemma Decode8(b: seq<Byte>)
    requires |b| == 8
    ensures Decode(b) == (b[7] as nat) + (b[6] as nat) * 0x100 + (b[5] as nat) * 0x1_0000 +
      (b[4] as nat) * 0x100_0000 + (b[3] as nat) * 0x1_0000_0000 + (b[2] as nat) * 0x100_0000_0000 +
      (b[1] as nat) * 0x1_0000_0000_0000 + (b[0] as nat) * 0x100_0000_0000_0000
  {
    DecodeTwoMore(b);
    Decode6(b[..6]);
  }
}
