/** Fixed-width little-endian numbers. */
module LittleEndian {
  import opened Basics

  function Pow256(width: nat): (p: nat)
    ensures p > 0
  {
    if width == 0 then 1 else 0x100 * Pow256(width - 1)
  }

  /** `n` in `width` bytes, keeping only what fits, as an integer cast does. */
  function Encode(n: nat, width: nat): (s: Bytes)
    ensures |s| == width
  {
    if width == 0 then [] else [n % 0x100] + Encode(n / 0x100, width - 1)
  }

  function Decode(s: Bytes): nat {
    if s == [] then 0 else s[0] + 0x100 * Decode(s[1..])
  }

  lemma {:induction false} DecodeEncode(n: nat, width: nat)
    requires n < Pow256(width)
    ensures Decode(Encode(n, width)) == n
  {
    if width > 0 {
      DecodeEncode(n / 0x100, width - 1);
      assert Encode(n, width)[1..] == Encode(n / 0x100, width - 1);
    }
  }

  lemma {:induction false} EncodeDecode(s: Bytes)
    ensures Decode(s) < Pow256(|s|)
    ensures Encode(Decode(s), |s|) == s
  {
    if s != [] {
      EncodeDecode(s[1..]);
      assert s == [s[0]] + s[1..];
    }
  }

  /** The number eight bytes spell, lowest byte first. */
  function Spelled(s: Bytes): nat
    requires |s| == 8
  {
    var b := (i: nat) requires i < 8 => s[i] as int;
    b(0) + 0x100 * b(1) + 0x1_0000 * b(2) + 0x100_0000 * b(3) + 0x1_0000_0000 * b(4)
    + 0x100_0000_0000 * b(5) + 0x1_0000_0000_0000 * b(6) + 0x100_0000_0000_0000 * b(7)
  }

  lemma EightBytes(s: Bytes)
    requires |s| == 8
    ensures Decode(s) == Spelled(s)
  {
    FourBytes(s[4..]);
    assert Decode(s[3..]) == s[3] + 0x100 * Decode(s[4..]) by { assert s[3..][1..] == s[4..]; }
    assert Decode(s[2..]) == s[2] + 0x100 * Decode(s[3..]) by { assert s[2..][1..] == s[3..]; }
    assert Decode(s[1..]) == s[1] + 0x100 * Decode(s[2..]) by { assert s[1..][1..] == s[2..]; }
  }

  lemma FourBytes(s: Bytes)
    requires |s| == 4
    ensures var b := (i: nat) requires i < 4 => s[i] as int;
            Decode(s) == b(0) + 0x100 * b(1) + 0x1_0000 * b(2) + 0x100_0000 * b(3)
  {
    assert Decode(s[3..]) == s[3] by { assert s[3..][1..] == []; }
    assert Decode(s[2..]) == s[2] + 0x100 * Decode(s[3..]) by { assert s[2..][1..] == s[3..]; }
    assert Decode(s[1..]) == s[1] + 0x100 * Decode(s[2..]) by { assert s[1..][1..] == s[2..]; }
  }

  lemma OneByte(n: nat)
    requires n < 0x100
    ensures Encode(n, 8) == [n, 0, 0, 0, 0, 0, 0, 0]
  {
    assert Encode(0, 1) == [0];
    assert Encode(0, 3) == [0, 0, 0];
    assert Encode(0, 5) == [0, 0] + Encode(0, 3);
    assert Encode(0, 7) == [0, 0] + Encode(0, 5);
  }

  const U32_LIMIT: nat := 0x1_0000_0000
  const U64_LIMIT: nat := 0x1_0000_0000_0000_0000

  lemma Widths()
    ensures Pow256(4) == U32_LIMIT
    ensures Pow256(8) == U64_LIMIT
  {
    assert Pow256(2) == 0x1_0000;
    assert Pow256(4) == 0x1_0000 * Pow256(2);
    assert Pow256(6) == 0x1_0000 * Pow256(4);
    assert Pow256(8) == 0x1_0000 * Pow256(6);
  }
}
