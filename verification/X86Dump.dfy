/** The x86 emitter in its own form: bytes written through a pointer that moves on
    (x86-32_backend.c:315-349, 351-600). */
module X86Dump {
  import opened Fragments
  import opened NumCodec
  import opened LittleEndian
  import opened Writing
  import opened Chores
  import opened X86Backend

  /** ser_i8_and_inc. */
  method SerI8AndInc(dst: array<byte>, p: nat, x: int, ghost was: seq<byte>, ghost at: nat, ghost done: seq<byte>)
    returns (end: nat)
    requires Filled(dst[..], was, at, done, p) && p + 1 <= dst.Length
    modifies dst
    ensures Filled(dst[..], was, at, done + I8(x), end)
  {
    hide WrittenAt;
    PutByte(dst, p, (x % 256) as byte, was, at, done);
    end := p + 1;
  }

  /** Some bytes of an instruction and its one-byte or four-byte operand. */
  method CopyThenNumber(dst: array<byte>, p: nat, src: seq<byte>, small: bool, x: int, ghost was: seq<byte>,
      ghost at: nat, ghost done: seq<byte>)
    returns (end: nat)
    requires Filled(dst[..], was, at, done, p) && p + |src| + (if small then 1 else 4) <= dst.Length
    modifies dst
    ensures Filled(dst[..], was, at, done + (src + if small then I8(x) else Le32(x)), end)
  {
    hide WrittenAt, Le32, I8;
    end := CpyAndInc(dst, p, src, was, at, done);
    Regroup(done, src, if small then I8(x) else Le32(x));
    if small {
      end := SerI8AndInc(dst, end, x, was, at, done + src);
    } else {
      end := SerLe32AndInc(dst, end, x, was, at, done + src);
    }
  }

  /** The cases whose operand is a displacement. */
  method DisplacedDump(t: Tables, f: Fragment, relaxation: nat, offset: int, dst: array<byte>, p: nat,
                       ghost was: seq<byte>, ghost at: nat, ghost done: seq<byte>)
    returns (end: nat)
    requires HasDisplacement(f.op)
    requires Filled(dst[..], was, at, done, p) && p + BodySize(t, f, false, relaxation) <= dst.Length
    modifies dst
    ensures Filled(dst[..], was, at, done + Body(t, f, false, relaxation, offset), end)
  {
    hide WrittenAt, Le32, I8;
    var short := relaxation == 0;
    match f.op
    case DefinedWord =>
      end := CopyThenNumber(dst, p, [0xe8], false, offset, was, at, done);
    case Branch =>
      end := CopyThenNumber(dst, p, if short then [0xeb] else [0xe9], short, offset, was, at, done);
    case BranchIfZero =>
      var code := [0x83, 0xeb, 0x04, 0x85, 0xc0, 0x8b, 0x43, 0x04];
      end := CopyThenNumber(dst, p, code + (if short then [0x74] else [0x0f, 0x84]), short, offset, was, at, done);
    case Loop =>
      var code := [0x59, 0x41, 0x3b, 0x0c, 0x24, 0x51] + (if short then [0x7c] else [0x0f, 0x8c]);
      LengthOfNumbers(offset);
      ghost var first := code + if short then I8(offset) else Le32(offset);
      end := CopyThenNumber(dst, p, code, short, offset, was, at, done);
      end := CpyAndInc(dst, end, [0x83, 0xc4, 0x08], was, at, done + first);
      Regroup(done, first, [0x83, 0xc4, 0x08]);
    case PushOffsetAddress =>
      var code := [0xe8, 0x00, 0x00, 0x00, 0x00, 0x58];
      if relaxation == 0 {
        end := CpyAndInc(dst, p, code, was, at, done);
        assert code + [] == code;
      } else if relaxation == 1 {
        end := CopyThenNumber(dst, p, code + [0x83, 0xc0], true, offset, was, at, done);
        Regroup(code, [0x83, 0xc0], I8(offset));
      } else {
        end := CopyThenNumber(dst, p, code + [0x05], false, offset, was, at, done);
        Regroup(code, [0x05], Le32(offset));
      }
  }

  /** The cases with an index or a literal, and those that are fixed bytes. */
  method OtherDump(t: Tables, f: Fragment, framed: bool, dst: array<byte>, p: nat,
                   ghost was: seq<byte>, ghost at: nat, ghost done: seq<byte>)
    returns (end: nat)
    requires !HasDisplacement(f.op)
    requires Filled(dst[..], was, at, done, p) && p + BodySize(t, f, framed, 0) <= dst.Length
    modifies dst
    ensures Filled(dst[..], was, at, done + Body(t, f, framed, 0, 0), end)
  {
    hide WrittenAt, Le32, I8, AsmNumIsSmall, Displacement;
    if f.op == RuntimeWord {
      var n := (f.param + 1) * 4;
      var small := AsmNumIsSmall(n);
      LengthOfNumbers(n);
      var code, call := [0x8b, if small then 0x4f else 0x8f], [0xff, 0x56, 0x24];
      end := CopyThenNumber(dst, p, code, small, n, was, at, done);
      end := CpyAndInc(dst, end, call, was, at, done + (code + I8OrLe32(n)));
      Regroup(done, code + I8OrLe32(n), call);
    } else if f.op == DeclareVariable {
      var n := -f.param * 4;
      var small := AsmNumIsSmall(n);
      LengthOfNumbers(n);
      var code, next := [0x83, 0xc2, 0x03, 0x83, 0xe2, 0xfc] + [0x89, if small then 0x57 else 0x97], [0x83, 0xc2, 0x04];
      end := CopyThenNumber(dst, p, code, small, n, was, at, done);
      end := CpyAndInc(dst, end, next, was, at, done + (code + I8OrLe32(n)));
      Regroup(done, code + I8OrLe32(n), next);
    } else if f.op == PushLiteral && f.param != 0 {
      end := CopyThenNumber(dst, p, [0xb8], false, f.param, was, at, done);
    } else if f.op == PushDataAddress && f.param != 0 {
      var small := AsmNumIsSmall(f.param);
      var load, add := [0x8b, 0x46, 0x10], if small then [0x83, 0xc0] else [0x05];
      end := CopyThenNumber(dst, p, load + add, small, f.param, was, at, done);
      Regroup(load, add, I8OrLe32(f.param));
    } else if f.op == UseVariableOrConstant || f.op == DeclareConstant {
      var n := -f.param * 4;
      var small := AsmNumIsSmall(n);
      var code := [if f.op == DeclareConstant then 0x89 else 0x8b, if small then 0x47 else 0x87];
      end := CopyThenNumber(dst, p, code, small, n, was, at, done);
    } else if f.op == PushCallback {
      var n := f.param * 4;
      var small := AsmNumIsSmall(n);
      end := CopyThenNumber(dst, p, [0x8b, 0x46, 0x28, 0x8b, if small then 0x40 else 0x80], small, n, was, at, done);
    } else {
      FixedLength(t, f, framed);
      end := CpyAndInc(dst, p, Fixed(t, f, framed), was, at, done);
    }
  }

  /** The fragments whose bytes do not depend on a number. */
  function Fixed(t: Tables, f: Fragment, framed: bool): seq<byte> {
    match f.op
    case BuiltinWord => t.code(f.param)
    case PushLiteral => [0x31, 0xc0]
    case ExitWord => if framed then [0xc9, 0xc3] else [0xc3]
    case DefinedWordLocation => if framed then [0x55, 0x89, 0xe5] else []
    case PushDataAddress => [0x8b, 0x46, 0x10]
    case Halt => [0xc3]
    case Do => [0xff, 0x33, 0x50, 0x8b, 0x43, 0xfc, 0x83, 0xeb, 0x08]
    case Execute => [0x89, 0xc1, 0x8b, 0x03, 0x83, 0xeb, 0x04, 0xff, 0xd1]
    case ThreadCreate => [0x8b, 0x4e, 44, 0xff, 0x56, 0x24]
    case ThreadJoin => [0x8b, 0x4e, 44, 0x83, 0xc1, 0x08, 0xff, 0x56, 0x24]
    case _ => []
  }

  lemma {:induction false} FixedLength(t: Tables, f: Fragment, framed: bool)
    requires !HasDisplacement(f.op)
        && f.op !in {RuntimeWord, DeclareVariable, UseVariableOrConstant, DeclareConstant, PushCallback}
    requires f.op in {PushLiteral, PushDataAddress} ==> f.param == 0
    ensures Fixed(t, f, framed) == Body(t, f, framed, 0, 0) && |Fixed(t, f, framed)| == BodySize(t, f, framed, 0)
  {
    hide Le32, I8, AsmNumIsSmall, Displacement, I8OrLe32;
  }

  lemma {:induction false} OffsetDoesNotMatter(t: Tables, f: Fragment, framed: bool, relaxation: nat, offset: int)
    requires !HasDisplacement(f.op)
    ensures Body(t, f, framed, relaxation, offset) == Body(t, f, framed, 0, 0)
    ensures BodySize(t, f, framed, relaxation) == BodySize(t, f, framed, 0)
  {
    hide Le32, I8, AsmNumIsSmall, Displacement, I8OrLe32;
  }

  lemma {:induction false} FrameDoesNotMatter(t: Tables, f: Fragment, framed: bool, relaxation: nat, offset: int)
    requires HasDisplacement(f.op)
    ensures Body(t, f, framed, relaxation, offset) == Body(t, f, false, relaxation, offset)
    ensures BodySize(t, f, framed, relaxation) == BodySize(t, f, false, relaxation)
  {
    hide Le32, I8, AsmNumIsSmall, Displacement, I8OrLe32;
  }

  method ChoreDump(dst: array<byte>, p: nat, needed: bool, chore: seq<byte>, ghost was: seq<byte>, ghost at: nat,
      ghost done: seq<byte>)
    returns (end: nat)
    requires Filled(dst[..], was, at, done, p) && p + (if needed then |chore| else 0) <= dst.Length
    modifies dst
    ensures Filled(dst[..], was, at, done + (if needed then chore else []), end)
  {
    hide WrittenAt;
    end := p;
    if needed {
      end := CpyAndInc(dst, p, chore, was, at, done);
    } else {
      assert done + [] == done;
    }
  }

  method BodyDump(t: Tables, f: Fragment, framed: bool, relaxation: nat, offset: int, dst: array<byte>, p: nat,
                  ghost was: seq<byte>, ghost at: nat, ghost done: seq<byte>)
    returns (end: nat)
    requires Filled(dst[..], was, at, done, p) && p + BodySize(t, f, framed, relaxation) <= dst.Length
    modifies dst
    ensures Filled(dst[..], was, at, done + Body(t, f, framed, relaxation, offset), end)
  {
    hide Filled, Body, BodySize;
    if HasDisplacement(f.op) {
      FrameDoesNotMatter(t, f, framed, relaxation, offset);
      end := DisplacedDump(t, f, relaxation, offset, dst, p, was, at, done);
    } else {
      OffsetDoesNotMatter(t, f, framed, relaxation, offset);
      end := OtherDump(t, f, framed, dst, p, was, at, done);
    }
  }

  method ChoresDump(dst: array<byte>, p: nat, first: bool, x: seq<byte>, second: bool, y: seq<byte>,
                    ghost was: seq<byte>, ghost at: nat, ghost done: seq<byte>)
    returns (end: nat)
    requires Filled(dst[..], was, at, done, p)
    requires p + (if first then |x| else 0) + (if second then |y| else 0) <= dst.Length
    modifies dst
    ensures Filled(dst[..], was, at, done + ((if first then x else []) + (if second then y else [])), end)
  {
    hide WrittenAt;
    ghost var xs, ys := if first then x else [], if second then y else [];
    end := ChoreDump(dst, p, first, x, was, at, done);
    end := ChoreDump(dst, end, second, y, was, at, done + xs);
    Regroup(done, xs, ys);
  }

  /** fragment_bin_dump: the chores that are needed, the body, the chores that are needed. */
  method FragmentBinDump(t: Tables, frags: seq<Fragment>, f: Fragment, needs: Flags, relaxation: nat, distance: int,
      dst: array<byte>, at: nat)
    returns (end: nat)
    requires at + Size(t, frags, f, needs, relaxation) <= dst.Length
    modifies dst
    ensures |Emitted(t, frags, f, needs, relaxation, distance)| == Size(t, frags, f, needs, relaxation)
    ensures end == at + Size(t, frags, f, needs, relaxation)
    ensures dst[..] == Patched(old(dst[..]), at, Emitted(t, frags, f, needs, relaxation, distance))
  {
    hide WrittenAt, Body, BodySize, Anchor, IsFramed, Patched;
    var framed, offset := IsFramed(frags, f), OffsetAt(t, frags, f, needs, relaxation, distance);
    EmittedLength(t, frags, f, needs, relaxation, distance);
    BodyLength(t, f, framed, relaxation, offset);
    ghost var was := dst[..];
    NothingWritten(was, at);
    ghost var pro, body := Prologue(t, needs), Body(t, f, framed, relaxation, offset);
    assert [] + pro == pro;
    end := ChoresDump(dst, at, needs.a, t.choreA, needs.b, t.choreB, was, at, []);
    end := BodyDump(t, f, framed, relaxation, offset, dst, end, was, at, pro);
    end := ChoresDump(dst, end, needs.y, t.choreY, needs.z, t.choreZ, was, at, pro + body);
    WrittenIsPatched(dst[..], was, at, Emitted(t, frags, f, needs, relaxation, distance));
  }
}
