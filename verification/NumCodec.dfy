/** The signed variable-length number code of mcp_forth.c.  A number is folded to a natural
    (a negative one is complemented), cut into groups of seven bits from the low end, and the
    last byte carries six bits of magnitude and, in bit 6, the sign.  Bit 7 says that another
    byte follows.  Unsigned 32-bit arithmetic is written out: `u & ~0x3f` is `u >= 64`,
    `u & 0x7f` is `u % 128`, `u >>= 7` is `u / 128` and `u <<= 7` is taken modulo 2^32. */
module NumCodec {
  import opened Common

  newtype byte = b: int | 0 <= b < 256

  const TWO_32 := 0x1_0000_0000
  const INT_MIN := -0x8000_0000
  const INT_MAX := 0x7fff_ffff

  /** The largest number whose code is one byte. */
  const MAX_ONE_BYTE := 63

  predicate IsInt32(n: int) {
    INT_MIN <= n <= INT_MAX
  }

  /** The int that has the same 32 bits as n modulo 2^32. */
  function Wrap(n: int): int {
    var u := n % TWO_32;
    if u <= INT_MAX then u else u - TWO_32
  }

  // ----- specification of the encoder -----

  function Folded(num: int): nat {
    if num < 0 then -num - 1 else num
  }

  function Groups(u: nat): nat {
    if u < 64 then 1 else 1 + Groups(u / 128)
  }

  function EncodedSize(num: int): nat {
    Groups(Folded(num))
  }

  function Pack(u: nat, negative: bool, size: int): seq<byte>
    decreases u, if size > 0 then size else 0
  {
    if u >= 64 then [(u % 128 + 128) as byte] + Pack(u / 128, negative, size - 1)
    else if size > 1 then [(u + 128) as byte] + Pack(0, negative, size - 1)
    else [(if negative then u + 64 else u) as byte]
  }

  function Encoded(num: int, size: int): seq<byte> {
    Pack(Folded(num), num < 0, size)
  }

  /** The encoding of n without padding. */
  function Number(n: int): seq<byte> {
    Encoded(n, EncodedSize(n))
  }

  // ----- specification of the decoder -----

  /** Number of bytes up to and including the first one whose bit 7 is clear; None when
      every byte asks for another one. */
  function Span(s: seq<byte>): Option<nat> {
    if s == [] then None
    else if s[0] < 128 then Some(1)
    else match Span(s[1..])
      case None => None
      case Some(k) => Some(k + 1)
  }

  /** The magnitude bits, low group first, before truncation to 32 bits. */
  function Magnitude(s: seq<byte>): nat {
    if s == [] then 0
    else if s[0] < 128 then s[0] as int % 64
    else s[0] as int % 128 + 128 * Magnitude(s[1..])
  }

  predicate Negative(s: seq<byte>) {
    s != [] && if s[0] < 128 then s[0] >= 64 else Negative(s[1..])
  }

  /** What an unsigned 32-bit variable keeps of n. */
  function Low32(n: nat): nat {
    n % TWO_32
  }

  function Meaning(s: seq<byte>): int {
    var u := Low32(Magnitude(s));
    Wrap(if Negative(s) then TWO_32 - 1 - u else u)
  }

  /** What a decoder positioned at the start of s returns: the number and the bytes used. */
  function Decode(s: seq<byte>): Option<(int, nat)> {
    match Span(s)
    case None => None
    case Some(k) => Some((Meaning(s), k))
  }

  // ----- properties -----

  lemma {:induction false} PackLength(u: nat, negative: bool, size: int)
    ensures |Pack(u, negative, size)| == if size > Groups(u) then size else Groups(u)
    decreases u, if size > 0 then size else 0
  {
    if u >= 64 {
      PackLength(u / 128, negative, size - 1);
    } else if size > 1 {
      PackLength(0, negative, size - 1);
    }
  }

  /** Writing n in a field of the given size fills exactly that field when n fits it. */
  lemma {:induction false} EncodedLength(num: int, size: int)
    ensures |Encoded(num, size)| == if size > EncodedSize(num) then size else EncodedSize(num)
  {
    PackLength(Folded(num), num < 0, size);
  }

  /** u without its lowest i groups of seven bits. */
  function ShiftedBy(u: nat, i: nat): nat {
    if i == 0 then u else ShiftedBy(u / 128, i - 1)
  }

  lemma {:induction false} PackAt(u: nat, negative: bool, size: int, i: nat)
    requires i < |Pack(u, negative, size)|
    ensures var s := Pack(u, negative, size);
      s[i] as int
      == if i + 1 < |s| then 128 + ShiftedBy(u, i) % 128 else ShiftedBy(u, i) + if negative then 64 else 0
    decreases u, if size > 0 then size else 0
  {
    if u >= 64 {
      if i > 0 { PackAt(u / 128, negative, size - 1, i - 1); } else { PackLength(u / 128, negative, size - 1); }
    } else if size > 1 {
      if i > 0 { PackAt(0, negative, size - 1, i - 1); } else { PackLength(0, negative, size - 1); }
    }
  }

  /** The bytes of a code, written out: the number, complemented when it is negative, low group first;
      every byte but the last has bit 7 set; the last has the sign in bit 6. */
  lemma {:induction false} EncodedAt(num: int, size: int, i: nat)
    requires i < |Encoded(num, size)|
    ensures var s, u := Encoded(num, size), if num < 0 then -1 - num else num;
      s[i] as int == if i + 1 < |s| then 128 + ShiftedBy(u, i) % 128 else ShiftedBy(u, i) + if num < 0 then 64 else 0
  {
    hide Pack, ShiftedBy;
    PackAt(Folded(num), num < 0, size, i);
  }

  lemma {:induction false} NumberLength(n: int)
    ensures |Number(n)| == EncodedSize(n)
  {
    EncodedLength(n, EncodedSize(n));
  }

  /** A byte with bit 7 set, in front of an encoding. */
  lemma {:induction false} MoreByte(b: byte, t: seq<byte>, k: nat)
    requires b >= 128 && Span(t) == Some(k)
    ensures Span([b] + t) == Some(k + 1) && Negative([b] + t) == Negative(t)
    ensures Magnitude([b] + t) == b as int - 128 + 128 * Magnitude(t)
  {
    assert ([b] + t)[1..] == t;
  }

  lemma {:induction false} EndByte(b: byte, t: seq<byte>)
    requires b < 128
    ensures Span([b] + t) == Some(1) && Negative([b] + t) == (b >= 64) && Magnitude([b] + t) == b as int % 64
  {
  }

  lemma {:induction false} PackUnpacks(u: nat, negative: bool, size: int, rest: seq<byte>)
    ensures var s := Pack(u, negative, size) + rest;
      Span(s) == Some(|Pack(u, negative, size)|) && Magnitude(s) == u && Negative(s) == negative
    decreases u, if size > 0 then size else 0
  {
    hide Span, Magnitude, Negative;
    if u >= 64 {
      var b, q := (u % 128 + 128) as byte, Pack(u / 128, negative, size - 1);
      PackUnpacks(u / 128, negative, size - 1, rest);
      MoreByte(b, q + rest, |q|);
      assert [b] + q + rest == [b] + (q + rest);
    } else if size > 1 {
      var b, q := (u + 128) as byte, Pack(0, negative, size - 1);
      PackUnpacks(0, negative, size - 1, rest);
      MoreByte(b, q + rest, |q|);
      assert [b] + q + rest == [b] + (q + rest);
    } else {
      EndByte((if negative then u + 64 else u) as byte, rest);
    }
  }

  lemma {:induction false} MeaningIs(num: int, s: seq<byte>)
    requires IsInt32(num) && Magnitude(s) == Folded(num) && Negative(s) == (num < 0)
    ensures Meaning(s) == num
  {
    hide Magnitude, Negative;
    RemainderIs(Folded(num), 0, Folded(num));
  }

  /** Decoding the encoding of any 32-bit n, padded to any size and followed by anything,
      gives n back and consumes exactly the bytes written. */
  lemma {:induction false} RoundTrip(num: int, size: int, rest: seq<byte>)
    requires IsInt32(num)
    ensures Decode(Encoded(num, size) + rest) == Some((num, |Encoded(num, size)|))
  {
    hide Span, Magnitude, Negative, Pack, Meaning;
    PackUnpacks(Folded(num), num < 0, size, rest);
    MeaningIs(num, Encoded(num, size) + rest);
  }

  /** And exactly the 32-bit numbers come back. */
  lemma {:induction false} ComesBackExactly(num: int, size: int, rest: seq<byte>)
    ensures Decode(Encoded(num, size) + rest) == Some((num, |Encoded(num, size)|)) <==> IsInt32(num)
  {
    hide Span, Magnitude, Negative, Encoded, Low32;
    if IsInt32(num) { RoundTrip(num, size, rest); }
  }

  predicate NumberComesBack(n: int) {
    Decode(Number(n) + []) == Some((n, |Number(n)|))
  }

  lemma {:induction false} NumberComesBackExactly(n: int)
    ensures NumberComesBack(n) <==> IsInt32(n)
  {
    hide Decode, Encoded, EncodedSize;
    ComesBackExactly(n, EncodedSize(n), []);
  }

  /** 64 * 128^(s-1), that is 2^(7s-1). */
  function HalfRange(s: nat): nat
    requires s >= 1
  {
    if s == 1 then 64 else 128 * HalfRange(s - 1)
  }

  lemma {:induction false} GroupsExact(u: nat, s: nat)
    requires s >= 1
    ensures Groups(u) <= s <==> u < HalfRange(s)
  {
    if s > 1 {
      GroupsExact(u / 128, s - 1);
      if u < 64 {
        HalfRangePositive(s - 1);
      }
    }
  }

  lemma {:induction false} HalfRangePositive(s: nat)
    requires s >= 1
    ensures HalfRange(s) >= 64
  {
    if s > 1 { HalfRangePositive(s - 1); }
  }

  /** A number needs at most s bytes exactly when it lies in [-2^(7s-1), 2^(7s-1)). */
  lemma {:induction false} EncodedSizeExact(num: int, s: nat)
    requires s >= 1
    ensures EncodedSize(num) <= s <==> 0 - HalfRange(s) <= num < HalfRange(s)
  {
    GroupsExact(Folded(num), s);
  }

  /** Five bytes hold every 32-bit number; six bits hold what fits one byte. */
  lemma {:induction false} Int32FitsFive(num: int)
    requires IsInt32(num)
    ensures 1 <= EncodedSize(num) <= 5
  {
    EncodedSizeExact(num, 5);
    assert HalfRange(5) == 128 * (128 * (128 * (128 * 64)));
  }

  /** The size never shrinks when a number moves away from zero on one side. */
  lemma {:induction false} SizeMonotone(a: int, b: int)
    requires 0 <= a <= b || b <= a <= 0
    ensures EncodedSize(a) <= EncodedSize(b)
  {
    var s := EncodedSize(b);
    EncodedSizeExact(b, s);
    EncodedSizeExact(a, s);
    HalfRangePositive(s);
  }

  // ----- the code -----

  /** The buffer with `bytes` written at position `at` and nothing else changed. */
  function Patched(buffer: seq<byte>, at: nat, bytes: seq<byte>): (r: seq<byte>)
    requires at + |bytes| <= |buffer|
    ensures |r| == |buffer|
  {
    buffer[..at] + bytes + buffer[at + |bytes|..]
  }

  lemma {:induction false} PatchedTwice(buffer: seq<byte>, at: nat, x: seq<byte>, y: seq<byte>)
    requires at + |x| + |y| <= |buffer|
    ensures |x + y| == |x| + |y| && at + |x + y| <= |buffer|
    ensures Patched(Patched(buffer, at, x), at + |x|, y) == Patched(buffer, at, x + y)
  {
  }

  lemma {:induction false} PatchedNothing(buffer: seq<byte>, at: nat)
    requires at <= |buffer|
    ensures Patched(buffer, at, []) == buffer
  {
  }

  method EncodedSizeFromInt(num: int) returns (size: nat)
    requires IsInt32(num)
    ensures size == EncodedSize(num)
  {
    var u := Folded(num);
    size := 0;
    while u >= 64
      invariant size + Groups(u) == EncodedSize(num)
    {
      u := u / 128;
      size := size + 1;
    }
    size := size + 1;
  }

  lemma {:induction false} PackStep(done: seq<byte>, u: nat, negative: bool, left: int)
    requires u >= 64
    ensures u / 128 < u
    ensures done + Pack(u, negative, left) == (done + [(u % 128 + 128) as byte]) + Pack(u / 128, negative, left - 1)
  {
  }

  lemma {:induction false} PadStep(done: seq<byte>, u: nat, negative: bool, left: int)
    requires u < 64 && left > 1
    ensures done + Pack(u, negative, left) == (done + [(u + 128) as byte]) + Pack(0, negative, left - 1)
  {
  }

  ghost predicate WrittenAt(now: seq<byte>, was: seq<byte>, at: nat, done: seq<byte>) {
    && |now| == |was|
    && at + |done| <= |was|
    && forall i :: 0 <= i < |was| ==> now[i] == if at <= i < at + |done| then done[i - at] else was[i]
  }

  lemma {:induction false} WrittenIsPatched(now: seq<byte>, was: seq<byte>, at: nat, done: seq<byte>)
    requires WrittenAt(now, was, at, done)
    ensures now == Patched(was, at, done)
  {
  }

  lemma {:induction false} WriteNext(now: seq<byte>, was: seq<byte>, at: nat, done: seq<byte>, b: byte)
    requires WrittenAt(now, was, at, done) && at + |done| < |was|
    ensures WrittenAt(now[at + |done| := b], was, at, done + [b])
  {
  }

  /** Writes one byte through the moving pointer. */
  method PutByte(dst: array<byte>, p: nat, b: byte, ghost was: seq<byte>, ghost at: nat, ghost done: seq<byte>)
    requires WrittenAt(dst[..], was, at, done) && p == at + |done| < dst.Length
    modifies dst
    ensures WrittenAt(dst[..], was, at, done + [b])
  {
    WriteNext(dst[..], was, at, done, b);
    dst[p] := b;
    assert dst[..] == old(dst[..])[p := b];
  }

  lemma {:induction false} NothingWritten(was: seq<byte>, at: nat)
    requires at <= |was|
    ensures WrittenAt(was, was, at, [])
  {
  }

  lemma {:induction false} RoomLeft(done: seq<byte>, u: nat, negative: bool, left: int, all: seq<byte>)
    requires done + Pack(u, negative, left) == all
    ensures |done| < |all|
  {
  }

  lemma {:induction false} LastStep(done: seq<byte>, u: nat, negative: bool, left: int)
    requires u < 64 && left <= 1
    ensures done + Pack(u, negative, left) == done + [(if negative then u + 64 else u) as byte]
  {
  }

  lemma {:induction false} FirstStep(num: int, size: int)
    ensures [] + Pack(Folded(num), num < 0, size) == Encoded(num, size)
  {
  }

  /** Writes at dst[at..]; nothing outside the encoding changes. */
  method EncodeWithSize(num: int, dst: array<byte>, at: nat, size: int)
    requires IsInt32(num) && 1 <= size <= 5
    requires at + |Encoded(num, size)| <= dst.Length
    modifies dst
    ensures dst[..] == Patched(old(dst[..]), at, Encoded(num, size))
  {
    hide Pack, WrittenAt, Encoded, Patched;
    var negative := num < 0;
    var u, left, p := Folded(num), size, at;
    ghost var was: seq<byte>, done: seq<byte> := dst[..], [];
    ghost var all := Encoded(num, size);
    FirstStep(num, size);
    NothingWritten(was, at);
    while u >= 64
      invariant p == at + |done| && done + Pack(u, negative, left) == all
      invariant WrittenAt(dst[..], was, at, done)
      decreases u
    {
      RoomLeft(done, u, negative, left, all);
      PackStep(done, u, negative, left);
      var b := (u % 128 + 128) as byte;
      PutByte(dst, p, b, was, at, done);
      done := done + [b];
      u, left, p := u / 128, left - 1, p + 1;
    }
    while left > 1
      invariant u < 64 && p == at + |done| && done + Pack(u, negative, left) == all
      invariant WrittenAt(dst[..], was, at, done)
    {
      RoomLeft(done, u, negative, left, all);
      PadStep(done, u, negative, left);
      var b := (u + 128) as byte;
      PutByte(dst, p, b, was, at, done);
      done := done + [b];
      u, left, p := 0, left - 1, p + 1;
    }
    RoomLeft(done, u, negative, left, all);
    LastStep(done, u, negative, left);
    var last := (if negative then u + 64 else u) as byte;
    PutByte(dst, p, last, was, at, done);
    WrittenIsPatched(dst[..], was, at, all);
  }

  method Encode(num: int, dst: array<byte>, at: nat) returns (size: nat)
    requires IsInt32(num)
    requires at + EncodedSize(num) <= dst.Length
    modifies dst
    ensures size == EncodedSize(num) == |Number(num)|
    ensures dst[..] == Patched(old(dst[..]), at, Number(num))
  {
    size := EncodedSizeFromInt(num);
    Int32FitsFive(num);
    EncodedLength(num, size);
    EncodeWithSize(num, dst, at, size);
  }

  method EncodedSizeFromEncoded(src: seq<byte>) returns (len: nat)
    requires Span(src).Some?
    ensures len == Span(src).value
  {
    len := 0;
    assert src[0..] == src;
    while src[len] >= 128
      invariant len < |src| && Span(src[len..]).Some?
      invariant Span(src).value == len + Span(src[len..]).value
      decreases |src| - len
    {
      assert src[len..][1..] == src[len + 1..];
      len := len + 1;
    }
    len := len + 1;
  }

  lemma {:induction false} SpanShape(s: seq<byte>)
    requires Span(s).Some?
    ensures 1 <= Span(s).value <= |s| && s[Span(s).value - 1] < 128
    ensures forall i :: 0 <= i < Span(s).value - 1 ==> s[i] >= 128
  {
    if s[0] >= 128 {
      SpanShape(s[1..]);
    }
  }

  lemma {:induction false} SignAtEnd(s: seq<byte>, i: nat)
    requires Span(s).Some? && i < Span(s).value <= |s|
    requires forall j :: 0 <= j < Span(s).value - 1 ==> s[j] >= 128
    ensures Negative(s) == Negative(s[i..])
  {
    if i > 0 {
      SignAtEnd(s, i - 1);
      assert s[i - 1..][1..] == s[i..];
    } else {
      assert s[0..] == s;
    }
  }

  lemma {:induction false} LastByte(src: seq<byte>, used: nat)
    requires Span(src) == Some(used) && 1 <= used <= |src| && src[used - 1] < 128
    requires forall i :: 0 <= i < used - 1 ==> src[i] >= 128
    ensures src[used - 1] as int % 64 == Low32(Magnitude(src[used - 1..]))
    ensures Negative(src) == (src[used - 1] >= 64)
  {
    SignAtEnd(src, used - 1);
  }

  /** The accumulator after one more byte, in 32 bits. */
  function Shifted(u: nat, b: byte): nat {
    Low32(u * 128) + b as int % 128
  }

  /** One more byte on the low side. */
  lemma {:induction false} AccumulatorStep(src: seq<byte>, i: nat, u: nat)
    requires i < |src| && src[i] >= 128 && u == Low32(Magnitude(src[i + 1..]))
    ensures Shifted(u, src[i]) == Low32(Magnitude(src[i..]))
  {
    assert src[i..][1..] == src[i + 1..];
    ShiftIn(Magnitude(src[i + 1..]), src[i] as int % 128);
  }

  /** The number that the last accumulator and the sign stand for. */
  function Signed(u: nat, negative: bool): int {
    Wrap(if negative then TWO_32 - 1 - u else u)
  }

  lemma {:induction false} DecodedIs(src: seq<byte>, used: nat, u: nat, negative: bool)
    requires Span(src) == Some(used) && negative == Negative(src) && u == Low32(Magnitude(src[0..]))
    ensures Decode(src) == Some((Signed(u, negative), used))
  {
    hide Span, Negative, Magnitude, Low32, Wrap;
    assert src[0..] == src;
  }

  /** The backward loop over the bytes, shifting a 32-bit accumulator. */
  method DecodeAt(src: seq<byte>) returns (num: int, used: nat)
    requires Span(src).Some?
    ensures Decode(src) == Some((num, used))
  {
    hide Magnitude, Negative, Span, Low32, Decode, Shifted, Signed;
    used := EncodedSizeFromEncoded(src);
    SpanShape(src);
    LastByte(src, used);
    var b := src[used - 1];
    var negative := b >= 64;
    var u: nat := b as int % 64;
    var i := used - 2;
    while i >= 0
      invariant -1 <= i <= used - 2
      invariant u == Low32(Magnitude(src[i + 1..]))
    {
      AccumulatorStep(src, i, u);
      u := Shifted(u, src[i]);
      i := i - 1;
    }
    DecodedIs(src, used, u, negative);
    num := Signed(u, negative);
  }

  lemma {:induction false} RemainderIs(x: int, q: int, r: int)
    requires x == q * TWO_32 + r && 0 <= r < TWO_32
    ensures x % TWO_32 == r
  {
  }

  /** A shift of the accumulator modulo 2^32 is a shift of the number modulo 2^32. */
  lemma {:induction false} ShiftIn(m: nat, d: nat)
    requires d < 128
    ensures (m % TWO_32 * 128) % TWO_32 + d == (d + 128 * m) % TWO_32
  {
    var q, r := m / TWO_32, m % TWO_32;
    var q1, r1 := r * 128 / TWO_32, r * 128 % TWO_32;
    assert m == q * TWO_32 + r && r * 128 == q1 * TWO_32 + r1;
    assert r1 == 128 * (r - q1 * 0x200_0000);
    assert r1 + d < TWO_32;
    RemainderIs(d + 128 * m, 128 * q + q1, r1 + d);
  }
}
