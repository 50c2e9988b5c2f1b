/** Writing bytes through a pointer that moves on. */
module Writing {
  import opened NumCodec
  import opened LittleEndian

  /** The buffer `was` with `done` written from `at` on. */
  ghost predicate Filled(dst: seq<byte>, was: seq<byte>, at: nat, done: seq<byte>, p: nat) {
    WrittenAt(dst, was, at, done) && p == at + |done|
  }

  lemma {:induction false} FilledNothing(was: seq<byte>)
    ensures Filled(was, was, 0, [], 0)
  {
  }

  lemma {:induction false} Regroup(x: seq<byte>, y: seq<byte>, z: seq<byte>)
    ensures x + y + z == x + (y + z)
  {
  }

  /** cpy_and_inc. */
  method CpyAndInc(dst: array<byte>, p: nat, src: seq<byte>, ghost was: seq<byte>, ghost at: nat, ghost done: seq<byte>)
    returns (end: nat)
    requires Filled(dst[..], was, at, done, p) && p + |src| <= dst.Length
    modifies dst
    ensures Filled(dst[..], was, at, done + src, end)
  {
    hide WrittenAt;
    end := p;
    var i := 0;
    ghost var all := done;
    while i < |src|
      invariant 0 <= i <= |src| && end == p + i && all == done + src[..i]
      invariant WrittenAt(dst[..], was, at, all)
    {
      PutByte(dst, end, src[i], was, at, all);
      assert src[..i + 1] == src[..i] + [src[i]];
      all := all + [src[i]];
      i, end := i + 1, end + 1;
    }
    assert src[..i] == src;
  }

  lemma {:induction false} LowBytesStep(all: seq<byte>, u: nat, n: nat)
    requires n > 0
    ensures all + LowBytes(u, n) == all + [(u % 256) as byte] + LowBytes(u / 256, n - 1)
  {
  }

  /** ser_le32_and_inc. */
  method SerLe32AndInc(dst: array<byte>, p: nat, x: int, ghost was: seq<byte>, ghost at: nat, ghost done: seq<byte>)
    returns (end: nat)
    requires Filled(dst[..], was, at, done, p) && p + 4 <= dst.Length
    modifies dst
    ensures Filled(dst[..], was, at, done + Le32(x), end)
  {
    hide WrittenAt, LowBytes;
    var u: nat := x % TWO_32;
    end := p;
    ghost var all := done;
    for i := 0 to 4
      invariant end == p + i == at + |all| && all + LowBytes(u, 4 - i) == done + Le32(x)
      invariant WrittenAt(dst[..], was, at, all)
    {
      LowBytesStep(all, u, 4 - i);
      PutByte(dst, end, (u % 256) as byte, was, at, all);
      all := all + [(u % 256) as byte];
      u, end := u / 256, end + 1;
    }
    NoLowBytes(u);
    assert all + [] == all;
  }

  lemma {:induction false} NoLowBytes(u: nat)
    ensures LowBytes(u, 0) == []
  {
  }

  /** m4_num_encode. */
  method NumEncode(dst: array<byte>, p: nat, num: int, ghost was: seq<byte>, ghost at: nat, ghost done: seq<byte>)
    returns (end: nat)
    requires IsInt32(num) && Filled(dst[..], was, at, done, p) && p + |Number(num)| <= dst.Length
    modifies dst
    ensures Filled(dst[..], was, at, done + Number(num), end)
  {
    hide Number, EncodedSize;
    NumberLength(num);
    ghost var before := dst[..];
    var k := Encode(num, dst, p);
    end := p + k;
    PatchedFurther(before, was, at, done, p, Number(num));
  }

  lemma {:induction false} PatchedFurther(before: seq<byte>, was: seq<byte>, at: nat, done: seq<byte>, p: nat,
      more: seq<byte>)
    requires Filled(before, was, at, done, p) && p + |more| <= |before|
    ensures WrittenAt(Patched(before, p, more), was, at, done + more)
  {
  }
}
