/** Little-endian integers, as account data and instruction payloads carry them. */
module LittleEndian {
  import opened Types

  function PutLE(x: nat, n: nat): (bs: Bytes)
    ensures |bs| == n
  {
    if n == 0 then [] else [(x % 256) as byte] + PutLE(x / 256, n - 1)
  }

  function GetLE(bs: Bytes): nat {
    if bs == [] then 0 else bs[0] as int + 256 * GetLE(bs[1..])
  }

  /** `x` has at most `n` base-256 digits. */
  predicate Fits(x: nat, n: nat) {
    if n == 0 then x == 0 else Fits(x / 256, n - 1)
  }

  lemma {:induction false} LittleEndianRoundTrip(x: nat, n: nat)
    requires Fits(x, n)
    ensures GetLE(PutLE(x, n)) == x
  {
    if n > 0 {
      LittleEndianRoundTrip(x / 256, n - 1);
      assert PutLE(x, n)[1..] == PutLE(x / 256, n - 1);
    }
  }

  lemma U32Fits(x: u32)
    ensures Fits(x, 4)
  {
    var a := x / 256;
    var b := a / 256;
    var c := b / 256;
    assert c < 0x100 && c / 256 == 0;
    assert Fits(c / 256, 0);
    assert Fits(c, 1);
    assert Fits(b, 2);
    assert Fits(a, 3);
  }

  lemma U64Fits(x: u64)
    ensures Fits(x, 8)
  {
    var a := x / 256;
    var b := a / 256;
    var c := b / 256;
    var d := c / 256;
    assert a < 0x100_0000_0000_0000 && b < 0x1_0000_0000_0000 && c < 0x100_0000_0000 && d < 0x1_0000_0000;
    U32Fits(d);
    assert Fits(c, 5);
    assert Fits(b, 6);
    assert Fits(a, 7);
  }

  function ToU64(x: nat): u64 {
    x % TWO_64
  }

  function GetU64(bs: Bytes): u64 {
    ToU64(GetLE(bs))
  }

  lemma U64RoundTrip(x: u64)
    ensures GetU64(PutLE(x, 8)) == x
  {
    U64Fits(x);
    LittleEndianRoundTrip(x, 8);
  }

  /** Two's complement. */
  function PutI64(x: i64): (bs: Bytes)
    ensures |bs| == 8
  {
    PutLE(if x < 0 then x + TWO_64 else x, 8)
  }

  function GetI64(bs: Bytes): i64 {
    var x := GetU64(bs);
    if x >= 0x8000_0000_0000_0000 then x - TWO_64 else x
  }

  lemma I64RoundTrip(x: i64)
    ensures GetI64(PutI64(x)) == x
  {
    U64RoundTrip(if x < 0 then x + TWO_64 else x);
  }
}
