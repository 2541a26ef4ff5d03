// Fixed width unsigned integers as bytes, most significant first.
module BigEndian {
  type Byte = n: int | 0 <= n < 0x100
  type U16 = n: int | 0 <= n < 0x1_0000
  type U32 = n: int | 0 <= n < 0x1_0000_0000
  type U64 = n: int | 0 <= n < 0x1_0000_0000_0000_0000

  function Pow256(k: nat): (p: nat)
    ensures p >= 1
  {
    if k == 0 then 1 else 256 * Pow256(k - 1)
  }

  function Bytes(n: nat, k: nat): (bs: seq<Byte>)
    ensures |bs| == k
  {
    if k == 0 then [] else Bytes(n / 256, k - 1) + [n % 256]
  }

  function Value(bs: seq<Byte>): nat {
    if bs == [] then 0 else 256 * Value(bs[..|bs| - 1]) + bs[|bs| - 1]
  }

  lemma {:induction false} ValueOfBytes(n: nat, k: nat)
    requires n < Pow256(k)
    ensures Value(Bytes(n, k)) == n
  {
    if k > 0 {
      ValueOfBytes(n / 256, k - 1);
      assert Bytes(n, k)[..k - 1] == Bytes(n / 256, k - 1);
    }
  }

  lemma {:induction false} BytesOfValue(bs: seq<Byte>)
    ensures Value(bs) < Pow256(|bs|)
    ensures Bytes(Value(bs), |bs|) == bs
  {
    if bs != [] {
      var n := |bs| - 1;
      BytesOfValue(bs[..n]);
      assert Value(bs) / 256 == Value(bs[..n]) && Value(bs) % 256 == bs[n];
      assert bs == bs[..n] + [bs[n]];
    }
  }

  lemma Widths()
    ensures Pow256(1) == 0x100
    ensures Pow256(2) == 0x1_0000
    ensures Pow256(4) == 0x1_0000_0000
    ensures Pow256(8) == 0x1_0000_0000_0000_0000
  {
    assert Pow256(1) == 0x100 * Pow256(0);
    assert Pow256(2) == 0x100 * Pow256(1);
    assert Pow256(3) == 0x100 * Pow256(2);
    assert Pow256(4) == 0x100 * Pow256(3);
    assert Pow256(5) == 0x100 * Pow256(4);
    assert Pow256(6) == 0x100 * Pow256(5);
    assert Pow256(7) == 0x100 * Pow256(6);
    assert Pow256(8) == 0x100 * Pow256(7);
  }

  function Word16(bs: seq<Byte>): U16
    requires |bs| == 2
  {
    BytesOfValue(bs);
    Widths();
    Value(bs)
  }

  function Word32(bs: seq<Byte>): U32
    requires |bs| == 4
  {
    BytesOfValue(bs);
    Widths();
    Value(bs)
  }

  function Word64(bs: seq<Byte>): U64
    requires |bs| == 8
  {
    BytesOfValue(bs);
    Widths();
    Value(bs)
  }

  lemma WordsRoundTrip(a: U16, b: U32, c: U64)
    ensures Word16(Bytes(a, 2)) == a && Word32(Bytes(b, 4)) == b && Word64(Bytes(c, 8)) == c
  {
    Widths();
    ValueOfBytes(a, 2);
    ValueOfBytes(b, 4);
    ValueOfBytes(c, 8);
  }

  // The first byte is the most significant one: 256^(k - 1) times its value.
  lemma {:induction false} FirstIsMostSignificant(bs: seq<Byte>)
    requires bs != []
    ensures Value(bs) == bs[0] * Pow256(|bs| - 1) + Value(bs[1..])
  {
    var n := |bs| - 1;
    if n == 0 {
      assert bs[..0] == [] && bs[1..] == [];
    } else {
      FirstIsMostSignificant(bs[..n]);
      assert bs[..n][1..] == bs[1..][..n - 1];
      assert bs[..n][0] == bs[0] && bs[1..][n - 1] == bs[n];
      Regroup(bs[0], Pow256(n - 1), Value(bs[1..][..n - 1]), bs[n]);
    }
  }

  lemma Regroup(first: nat, weight: nat, middle: nat, last: nat)
    ensures 256 * (first * weight + middle) + last == first * (256 * weight) + (256 * middle + last)
  {
    assert first * (256 * weight) == 256 * (first * weight);
  }

  lemma FourBytes(a: Byte, b: Byte, c: Byte, d: Byte)
    ensures Value([a, b, c, d]) == 0x1_000000 * a + 0x1_0000 * b + 0x100 * c + d
  {
    assert [a, b, c, d][..3] == [a, b, c] && [a, b, c][..2] == [a, b] && [a, b][..1] == [a] && [a][..0] == [];
    assert Value([a]) == a && Value([a, b]) == 0x100 * a + b;
  }
}
