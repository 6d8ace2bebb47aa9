/** Fixed-width integers, byte strings and the big-endian reading of a
    32-byte word that the access-list projection relies on. */
module Primitives {

  datatype Option<+T> = None | Some(value: T)

  datatype Result<+T, +E> = Ok(value: T) | Err(error: E)

  const TWO_16: nat := 0x1_0000
  const TWO_64: nat := 0x1_0000_0000_0000_0000
  const TWO_128: nat := 0x1_0000_0000_0000_0000_0000_0000_0000_0000
  const TWO_256: nat := 0x1_0000_0000_0000_0000_0000_0000_0000_0000_0000_0000_0000_0000_0000_0000_0000_0000

  type Byte = n: nat | n < 256
  type U16 = n: nat | n < TWO_16
  type U64 = n: nat | n < TWO_64
  type U128 = n: nat | n < TWO_128
  type U256 = n: nat | n < TWO_256

  /** A 32-byte word (B256: hashes, randao seeds, storage keys as bytes). */
  type B256 = s: seq<Byte> | |s| == 32 witness seq(32, i => 0)

  /** A 20-byte account address. */
  type Address = s: seq<Byte> | |s| == 20 witness seq(20, i => 0)

  const ZERO_ADDRESS: Address := [0, 0, 0, 0, 0, 0, 0, 0, 0, 0, 0, 0, 0, 0, 0, 0, 0, 0, 0, 0]

  /** 256 to the power k: one more than the largest k-byte big-endian value. */
  function Pow256(k: nat): (p: nat)
    ensures p >= 1
  {
    if k == 0 then 1 else 256 * Pow256(k - 1)
  }

  /** Big-endian reading of a byte string (U256::from_be_bytes for 32 bytes). */
  function FromBeBytes(s: seq<Byte>): nat
  {
    if s == [] then 0 else FromBeBytes(s[..|s| - 1]) * 256 + s[|s| - 1]
  }

  /** Big-endian writing of n into exactly len bytes (the inverse of FromBeBytes). */
  function ToBeBytes(n: nat, len: nat): (s: seq<Byte>)
    ensures |s| == len
  {
    if len == 0 then [] else ToBeBytes(n / 256, len - 1) + [n % 256]
  }

  lemma {:induction false} FromBeBytesBound(s: seq<Byte>)
    ensures FromBeBytes(s) < Pow256(|s|)
  {
    if s != [] {
      FromBeBytesBound(s[..|s| - 1]);
    }
  }

  lemma {:induction false} ToBeBytesFromBeBytes(s: seq<Byte>)
    ensures ToBeBytes(FromBeBytes(s), |s|) == s
  {
    if s != [] {
      var init, last := s[..|s| - 1], s[|s| - 1];
      ToBeBytesFromBeBytes(init);
      var n := FromBeBytes(s);
      assert n == FromBeBytes(init) * 256 + last;
      assert n / 256 == FromBeBytes(init);
      assert n % 256 == last;
      assert s == init + [last];
    }
  }

  lemma {:induction false} FromBeBytesToBeBytes(n: nat, len: nat)
    requires n < Pow256(len)
    ensures FromBeBytes(ToBeBytes(n, len)) == n
  {
    if len > 0 {
      FromBeBytesToBeBytes(n / 256, len - 1);
      var s := ToBeBytes(n, len);
      assert s[..|s| - 1] == ToBeBytes(n / 256, len - 1);
    }
  }

  lemma {:induction false} Pow256Add(a: nat, b: nat)
    ensures Pow256(a + b) == Pow256(a) * Pow256(b)
  {
    if a > 0 {
      Pow256Add(a - 1, b);
    }
  }

  lemma Pow256Of32()
    ensures Pow256(32) == TWO_256
  {
    assert Pow256(2) == 0x1_0000;
    Pow256Add(2, 2);
    Pow256Add(4, 4);
    Pow256Add(8, 8);
    Pow256Add(16, 16);
  }

  /** U256::from_be_bytes: the 256-bit number whose big-endian bytes are b. */
  function U256FromBeBytes(b: B256): (n: U256)
    ensures ToBeBytes(n, 32) == b
  {
    FromBeBytesBound(b);
    Pow256Of32();
    ToBeBytesFromBeBytes(b);
    FromBeBytes(b)
  }

  /** U256::to_be_bytes: the 32 big-endian bytes of n. */
  function U256ToBeBytes(n: U256): (b: B256)
    ensures U256FromBeBytes(b) == n
  {
    Pow256Of32();
    FromBeBytesToBeBytes(n, 32);
    ToBeBytes(n, 32)
  }

  /** Reading 32 bytes as a big-endian number is injective: distinct storage
      keys stay distinct after the projection. */
  lemma U256FromBeBytesInjective(a: B256, b: B256)
    requires U256FromBeBytes(a) == U256FromBeBytes(b)
    ensures a == b
  {
  }
}
