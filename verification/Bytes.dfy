/** Bytes, and little-endian integers in memory. */
module Bytes {

  newtype byte = x: int | 0 <= x < 256

  newtype int32 = x: int | -0x8000_0000 <= x < 0x8000_0000

  function Le2(x: nat): (s: seq<byte>)
    requires x < 0x1_0000
    ensures |s| == 2 && FromLe2(s) == x
  {
    [(x % 256) as byte, (x / 256) as byte]
  }

  function FromLe2(s: seq<byte>): (x: nat)
    requires |s| >= 2
    ensures x < 0x1_0000
  {
    s[0] as nat + 256 * s[1] as nat
  }

  function Le4(x: nat): (s: seq<byte>)
    requires x < 0x1_0000_0000
    ensures |s| == 4 && FromLe4(s) == x
  {
    Le2(x % 0x1_0000) + Le2(x / 0x1_0000)
  }

  function FromLe4(s: seq<byte>): (x: nat)
    requires |s| >= 4
    ensures x < 0x1_0000_0000
  {
    FromLe2(s) + 0x1_0000 * FromLe2(s[2..])
  }

  /** The bytes of an int, two's complement. */
  function Unsigned(v: int32): nat
  {
    if v < 0 then (v as int + 0x1_0000_0000) as nat else v as nat
  }

  function Signed(x: nat): (v: int32)
    requires x < 0x1_0000_0000
    ensures Unsigned(v) == x
  {
    if x < 0x8000_0000 then x as int32 else (x as int - 0x1_0000_0000) as int32
  }

  lemma FromLePrefix(a: seq<byte>, rest: seq<byte>)
    ensures |a| == 2 ==> FromLe2(a + rest) == FromLe2(a) && (a + rest)[2..] == rest
    ensures |a| == 4 ==> FromLe4(a + rest) == FromLe4(a) && (a + rest)[4..] == rest
  {
  }

  lemma SignedUnsigned(v: int32)
    ensures Unsigned(v) < 0x1_0000_0000 && Signed(Unsigned(v)) == v
  {
  }

  predicate Int32(v: int)
  {
    -0x8000_0000 <= v < 0x8000_0000
  }

  /** The int at address o. */
  function GetInt(mem: seq<byte>, o: nat): (v: int)
    requires o + 4 <= |mem|
    ensures Int32(v)
  {
    Signed(FromLe4(mem[o..o + 4])) as int
  }

  function PutInt(mem: seq<byte>, o: nat, v: int): (r: seq<byte>)
    requires o + 4 <= |mem| && Int32(v)
    ensures |r| == |mem| && GetInt(r, o) == v
    ensures forall i :: 0 <= i < |mem| && !(o <= i < o + 4) ==> r[i] == mem[i]
  {
    var bytes := Le4(Unsigned(v as int32));
    SignedUnsigned(v as int32);
    var r := mem[..o] + bytes + mem[o + 4..];
    assert r[o..o + 4] == bytes;
    r
  }

  lemma GetIntFrame(mem: seq<byte>, mem': seq<byte>, o: nat)
    requires o + 4 <= |mem| == |mem'| && forall i :: o <= i < o + 4 ==> mem'[i] == mem[i]
    ensures GetInt(mem', o) == GetInt(mem, o)
  {
    assert mem'[o..o + 4] == mem[o..o + 4];
  }
}
