/** Bytes and the little-endian layout of integers that memcpy produces on the supported machines. */
module Bytes {
  import opened Common

  type Byte = x: nat | x < 256

  type Buffer = seq<Byte>

  /** 256 to the power `k`. */
  function Range(k: nat): (r: nat)
    ensures r > 0
  {
    if k == 0 then 1 else 256 * Range(k - 1)
  }

  /** The `k` low bytes of `n`, least significant first. */
  function Little(n: nat, k: nat): (b: Buffer)
    ensures |b| == k
    decreases k
  {
    if k == 0 then [] else [n % 256] + Little(n / 256, k - 1)
  }

  function Number(b: Buffer): nat {
    if b == [] then 0 else b[0] + 256 * Number(b[1..])
  }

  /** Reading back an integer that fits its width. */
  lemma {:induction false} NumberOfLittle(n: nat, k: nat)
    requires n < Range(k)
    ensures Number(Little(n, k)) == n
    decreases k
  {
    if k > 0 {
      assert n / 256 < Range(k - 1);
      NumberOfLittle(n / 256, k - 1);
      assert Little(n, k)[1..] == Little(n / 256, k - 1);
    }
  }

  lemma Ranges()
    ensures Range(4) == 0x1_0000_0000 && Range(8) == 0x1_0000_0000_0000_0000
  {
    assert Range(2) == 0x1_0000;
    assert Range(4) == 0x1_0000_0000;
    assert Range(6) == 0x1_0000_0000_0000;
  }

  const U64: nat := 0x1_0000_0000_0000_0000

  type Word32 = x: nat | x < U32
  type Word64 = x: nat | x < U64

  function Put32(n: Word32): (b: Buffer)
    ensures |b| == 4
  {
    Little(n, 4)
  }

  function Put64(n: Word64): (b: Buffer)
    ensures |b| == 8
  {
    Little(n, 8)
  }

  lemma Get32(n: Word32)
    ensures |Put32(n)| == 4 && Number(Put32(n)) == n
  {
    Ranges();
    NumberOfLittle(n, 4);
  }

  lemma Get64(n: Word64)
    ensures |Put64(n)| == 8 && Number(Put64(n)) == n
  {
    Ranges();
    NumberOfLittle(n, 8);
  }

  /** What four or eight bytes can hold. */
  lemma {:induction false} NumberFits(b: Buffer)
    ensures Number(b) < Range(|b|)
    decreases |b|
  {
    if b != [] {
      NumberFits(b[1..]);
    }
  }

  /** And back: bytes are the layout of the number they stand for. */
  lemma {:induction false} LittleOfNumber(b: Buffer)
    ensures Little(Number(b), |b|) == b
    decreases |b|
  {
    if b != [] {
      LittleOfNumber(b[1..]);
      var n := Number(b);
      assert n % 256 == b[0] && n / 256 == Number(b[1..]);
      assert b == [b[0]] + b[1..];
    }
  }

  lemma Word32Of(b: Buffer)
    requires |b| == 4
    ensures Number(b) < U32 && Put32(Number(b)) == b
  {
    Ranges();
    NumberFits(b);
    LittleOfNumber(b);
  }

  lemma Word64Of(b: Buffer)
    requires |b| == 8
    ensures Number(b) < U64 && Put64(Number(b)) == b
  {
    Ranges();
    NumberFits(b);
    LittleOfNumber(b);
  }
}
