/** 32-bit numbers as four bytes, the low byte first. */
module LittleEndian {
  import opened NumCodec

  function Le32(x: int): seq<byte> {
    LowBytes(x % TWO_32, 4)
  }

  /** The low bytes of u, least first. */
  function LowBytes(u: nat, n: nat): seq<byte> {
    if n == 0 then [] else [(u % 256) as byte] + LowBytes(u / 256, n - 1)
  }

  function FromLe32(s: seq<byte>): int
    requires |s| >= 4
  {
    Wrap(FromLow(s[..4]))
  }

  function FromLow(s: seq<byte>): nat {
    if s == [] then 0 else s[0] as nat + 256 * FromLow(s[1..])
  }

  function Power256(n: nat): nat {
    if n == 0 then 1 else 256 * Power256(n - 1)
  }

  lemma {:induction false} LowBytesBack(u: nat, n: nat)
    requires u < Power256(n)
    ensures |LowBytes(u, n)| == n && FromLow(LowBytes(u, n)) == u
  {
    if n > 0 {
      LowBytesBack(u / 256, n - 1);
      assert LowBytes(u, n)[1..] == LowBytes(u / 256, n - 1);
    }
  }

  lemma {:induction false} Le32Back(x: int)
    requires IsInt32(x)
    ensures |Le32(x)| == 4 && FromLe32(Le32(x)) == x
  {
    hide LowBytes, FromLow;
    assert Power256(4) == 256 * (256 * (256 * (256 * Power256(0))));
    LowBytesBack(x % TWO_32, 4);
    assert Le32(x)[..4] == Le32(x);
  }

  /** The four bytes, written out. */
  lemma {:induction false} Le32Is(x: int)
    ensures var u := x % TWO_32;
      Le32(x) == [(u % 256) as byte, (u / 256 % 256) as byte, (u / 65536 % 256) as byte, (u / 16777216) as byte]
  {
    var u := x % TWO_32;
    assert u / 256 / 256 == u / 65536 && u / 256 / 256 / 256 == u / 16777216 < 256;
    assert LowBytes(u, 4) == [(u % 256) as byte] + LowBytes(u / 256, 3);
    assert LowBytes(u / 256, 3) == [(u / 256 % 256) as byte] + LowBytes(u / 65536, 2);
    assert LowBytes(u / 65536, 2) == [(u / 65536 % 256) as byte] + LowBytes(u / 16777216, 1);
    assert LowBytes(u / 16777216, 1) == [(u / 16777216) as byte] + LowBytes(u / 16777216 / 256, 0);
  }

  lemma {:induction false} LowBytesLength(u: nat, n: nat)
    ensures |LowBytes(u, n)| == n
  {
    if n > 0 { LowBytesLength(u / 256, n - 1); }
  }

  lemma {:induction false} Le32Read(s: seq<byte>, q: nat, x: int)
    requires IsInt32(x) && |Le32(x)| == 4 && q + 4 <= |s| && s[q..q + 4] == Le32(x)
    ensures FromLe32(s[q..]) == x
  {
    hide Le32, FromLow;
    Le32Back(x);
    assert s[q..][..4] == s[q..q + 4] && Le32(x)[..4] == Le32(x);
  }
}
