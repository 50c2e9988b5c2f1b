/** What the code of the fragments that steer does on the processor: branches and loops, calls, exits
    and the frame pointer (x86-32_backend.c:1-113, 358-600). */
module X86Control {
  import opened Common
  import opened Fragments
  import opened NumCodec
  import opened LittleEndian
  import opened X86Backend
  import opened X86Machine
  import opened X86Meaning

  /** The fragments without chores are their bodies. */
  predicate Steers(op: Opcode) {
    op !in {BuiltinWord, PushLiteral, PushDataAddress, UseVariableOrConstant, PushOffsetAddress, PushCallback,
            DeclareConstant}
  }

  lemma {:induction false} NoChoresAround(t: Tables, f: Fragment, framed: bool, relaxation: nat, offset: int)
    requires Steers(f.op)
    ensures FullCode(t, f, framed, relaxation, offset) == Body(t, f, framed, relaxation, offset)
  {
    hide Body;
    var s := Body(t, f, framed, relaxation, offset);
    assert [] + s + [] == s;
  }

  /** A target outside the code of the fragment, as all targets are. */
  predicate Outside(a: int, at: int, s: seq<byte>) {
    a <= at || a >= at + |s|
  }

  /** The top is taken off. */
  function Popped(c: Core): Core {
    c.(eax := Read(c, c.ebx), ebx := c.ebx - 4)
  }

  /** Control goes to a, or past the end, in a core that differs from this one in its flags at most. */
  predicate GoesTo(x: Flow, a: int, c: Core) {
    x.Goes? && x.a == a && x.c.(flags := None) == c.(flags := None)
  }

  lemma {:induction false} JumpBytes(t: Tables, f: Fragment, framed: bool, relaxation: nat, offset: int)
    requires f.op == BranchIfZero
    ensures Body(t, f, framed, relaxation, offset)
         == [0x83, 0xeb, 0x04] + ([0x85, 0xc0] + ([0x8b, 0x43, 0x04]
            + (if relaxation == 0 then [0x74] + I8(offset) else [0x0f, 0x84] + Le32(offset))))
  {
    hide I8, Le32;
  }

  lemma {:induction false} JumpsIfZero(relaxation: nat, offset: int, at: int, c: Core)
    requires IsInt32(offset) && (relaxation == 0 ==> AsmNumIsSmall(offset)) && c.flags.Some?
    ensures var s := if relaxation == 0 then [0x74] + I8(offset) else [0x0f, 0x84] + Le32(offset);
      Outside(at + |s| + offset, at, s) ==>
        Through(s, at, c) == if c.flags.value.zero then Goes(at + |s| + offset, c) else On(c)
  {
    hide Through, Encodes, I8, Le32, AsmNumIsSmall;
    if relaxation == 0 { SmallForms(offset); } else { WideJumpForms(offset); }
    var s := if relaxation == 0 then [0x74] + I8(offset) else [0x0f, 0x84] + Le32(offset);
    assert s + [] == s;
    if c.flags.value.zero {
      if Outside(at + |s| + offset, at, s) { GoesAway(s, [], at, c, JumpZero(offset), at + |s| + offset, c); }
    } else {
      OnlyOne(s, at, c, JumpZero(offset), c);
    }
  }

  /** `if`, `until`, `while`: the top is taken off, and control goes to the target exactly when it was
      zero. */
  lemma {:induction false} BranchIfZeroFragment(t: Tables, f: Fragment, framed: bool, relaxation: nat, offset: int,
      at: int, c: Core)
    requires f.op == BranchIfZero && IsInt32(offset) && IsRepresentable(f, relaxation, offset)
    ensures var s := FullCode(t, f, framed, relaxation, offset);
      Outside(at + |s| + offset, at, s) ==>
        if c.eax == 0 then GoesTo(Through(s, at, c), at + |s| + offset, Popped(c))
        else Same(Through(s, at, c), Popped(c))
  {
    hide Through, Encodes, I8, Le32, AsmNumIsSmall, Body, Read, FullCode;
    NoChoresAround(t, f, framed, relaxation, offset);
    JumpBytes(t, f, framed, relaxation, offset);
    ImmediateForms();
    RegisterForms();
    SmallMemoryForms();
    var sub, test, load := [0x83, 0xeb, 0x04], [0x85, 0xc0], [0x8b, 0x43, 0x04];
    var jump := if relaxation == 0 then [0x74] + I8(offset) else [0x0f, 0x84] + Le32(offset);
    var c1 := c.(ebx := c.ebx - 4, flags := None);
    var c2 := c1.(flags := Some(Flagged(c.eax == 0, c.eax < 0)));
    GoesOn(sub, test + (load + jump), at, c, SubImm(EBX, 4), c1);
    GoesOn(test, load + jump, at + 3, c1, TestSelf(EAX), c2);
    SameMemory(c, c2, c.ebx);
    GoesOn(load, jump, at + 5, c2, Load(EAX, EBX, 4), c2.(eax := Read(c, c.ebx)));
    JumpsIfZero(relaxation, offset, at + 8, c2.(eax := Read(c, c.ebx)));
  }

  lemma {:induction false} SameMemory(c: Core, c1: Core, a: int)
    requires c1.mem == c.mem
    ensures Read(c1, a) == Read(c, a)
  {
  }

  lemma {:induction false} BranchFragment(t: Tables, f: Fragment, framed: bool, relaxation: nat, offset: int, at: int,
      c: Core)
    requires f.op == Branch && IsInt32(offset) && IsRepresentable(f, relaxation, offset)
    ensures var s := FullCode(t, f, framed, relaxation, offset);
      Outside(at + |s| + offset, at, s) ==> Through(s, at, c) == Goes(at + |s| + offset, c)
  {
    hide Through, Encodes, I8, Le32, AsmNumIsSmall, FullCode;
    NoChoresAround(t, f, framed, relaxation, offset);
    if relaxation == 0 { SmallForms(offset); } else { NumberForms(offset); }
    var s := if relaxation == 0 then [0xeb] + I8(offset) else [0xe9] + Le32(offset);
    assert Body(t, f, framed, relaxation, offset) == s == s + [];
    if Outside(at + |s| + offset, at, s) { GoesAway(s, [], at, c, JumpBy(offset), at + |s| + offset, c); }
  }

  // ----- do-loops -----

  /** `do`: the limit and then the start go to the return stack. */
  lemma {:induction false} DoFragment(t: Tables, f: Fragment, framed: bool, relaxation: nat, offset: int, at: int,
      c: Core)
    requires f.op == Do
    ensures var c1 := PushOn(PushOn(c, Read(c, c.ebx)), c.eax);
      Same(Through(FullCode(t, f, framed, relaxation, offset), at, c),
          c1.(eax := Read(c1, c.ebx - 4), ebx := c.ebx - 8))
  {
    hide Through, Encodes, Body, Read, FullCode, PushOn;
    NoChoresAround(t, f, framed, relaxation, offset);
    DoBytes(t, f, framed, relaxation, offset);
    PlainMemoryForms();
    ShortForms();
    SmallMemoryForms();
    ImmediateForms();
    var limit, start, load, sub := [0xff, 0x33], [0x50], [0x8b, 0x43, 0xfc], [0x83, 0xeb, 0x08];
    var c1 := PushOn(c, Read(c, c.ebx));
    PushKeeps(c, Read(c, c.ebx));
    var c2 := PushOn(c1, c1.eax);
    PushKeeps(c1, c1.eax);
    var c3 := c2.(eax := Read(c2, c2.ebx - 4));
    GoesOn(limit, start + (load + sub), at, c, PushMem(EBX, 0), c1);
    GoesOn(start, load + sub, at + 2, c1, PushReg(EAX), c2);
    GoesOn(load, sub, at + 3, c2, Load(EAX, EBX, -4), c3);
    OnlyOne(sub, at + 6, c3, SubImm(EBX, 8), c3.(ebx := c.ebx - 8, flags := None));
  }

  lemma {:induction false} DoBytes(t: Tables, f: Fragment, framed: bool, relaxation: nat, offset: int)
    requires f.op == Do
    ensures Body(t, f, framed, relaxation, offset)
         == [0xff, 0x33] + ([0x50] + ([0x8b, 0x43, 0xfc] + [0x83, 0xeb, 0x08]))
  {
  }

  /** Only memory and esp change. */
  lemma {:induction false} PushKeeps(c: Core, x: int)
    ensures PushOn(c, x).(mem := c.mem, esp := c.esp) == c && PushOn(c, x).esp == c.esp - 4
    ensures Read(PushOn(c, x), c.esp - 4) == x && forall a :: a != c.esp - 4 ==> Read(PushOn(c, x), a) == Read(c, a)
  {
  }

  lemma {:induction false} LoopBytes(t: Tables, f: Fragment, framed: bool, relaxation: nat, offset: int)
    requires f.op == Loop
    ensures Body(t, f, framed, relaxation, offset)
         == [0x59] + ([0x41] + ([0x3b, 0x0c, 0x24] + ([0x51]
            + ((if relaxation == 0 then [0x7c] + I8(offset) else [0x0f, 0x8c] + Le32(offset)) + [0x83, 0xc4, 0x08]))))
  {
    hide I8, Le32;
  }

  /** The index after one more round, in its cell and in ecx. */
  function Counted(c: Core): Core {
    var index := Wrap(Read(c, c.esp) + 1);
    Write(c, c.esp, index).(ecx := index)
  }

  /** pop ecx; inc ecx; cmp ecx, [esp]; push ecx */
  lemma {:induction false} Counts(tail: seq<byte>, at: int, c: Core)
    ensures Through([0x59] + ([0x41] + ([0x3b, 0x0c, 0x24] + ([0x51] + tail))), at, c)
         == Through(tail, at + 6, Counted(c).(flags := Some(Flagged(
                Wrap(Read(c, c.esp) + 1) == Read(c, c.esp + 4), Wrap(Read(c, c.esp) + 1) < Read(c, c.esp + 4)))))
  {
    hide Through, Encodes, Read, Wrap;
    ShortForms();
    PlainMemoryForms();
    var index, limit := Wrap(Read(c, c.esp) + 1), Read(c, c.esp + 4);
    var c1 := c.(esp := c.esp + 4, ecx := Read(c, c.esp));
    var c2 := c1.(ecx := index, flags := None);
    var c3 := c2.(flags := Some(Flagged(index == limit, index < limit)));
    GoesOn([0x59], [0x41] + ([0x3b, 0x0c, 0x24] + ([0x51] + tail)), at, c, PopReg(ECX), c1);
    GoesOn([0x41], [0x3b, 0x0c, 0x24] + ([0x51] + tail), at + 1, c1, Increment(ECX), c2);
    SameMemory(c, c2, c.esp + 4);
    GoesOn([0x3b, 0x0c, 0x24], [0x51] + tail, at + 2, c2, CompareTop(ECX), c3);
    GoesOn([0x51], tail, at + 5, c3, PushReg(ECX), PushOn(c3, index));
  }

  /** jl and add esp, 8 */
  lemma {:induction false} JumpsIfLess(relaxation: nat, offset: int, at: int, c: Core)
    requires IsInt32(offset) && (relaxation == 0 ==> AsmNumIsSmall(offset)) && c.flags.Some?
    ensures var jump := if relaxation == 0 then [0x7c] + I8(offset) else [0x0f, 0x8c] + Le32(offset);
      var s := jump + [0x83, 0xc4, 0x08];
      Outside(at + |jump| + offset, at, s) ==>
        Through(s, at, c) ==
          if c.flags.value.less then Goes(at + |jump| + offset, c) else On(c.(esp := c.esp + 8, flags := None))
  {
    hide Through, Encodes, I8, Le32, AsmNumIsSmall;
    ImmediateForms();
    if relaxation == 0 { SmallForms(offset); } else { WideJumpForms(offset); }
    var jump, add := if relaxation == 0 then [0x7c] + I8(offset) else [0x0f, 0x8c] + Le32(offset), [0x83, 0xc4, 0x08];
    if c.flags.value.less {
      if Outside(at + |jump| + offset, at, jump + add) {
        GoesAway(jump, add, at, c, JumpLess(offset), at + |jump| + offset, c);
      }
    } else {
      GoesOn(jump, add, at, c, JumpLess(offset), c);
      OnlyOne(add, at + |jump|, c, AddImm(ESP, 8), c.(esp := c.esp + 8, flags := None));
    }
  }

  /** `loop`: the index goes up by one, with wrap-around; below the limit control goes back, and
      otherwise the two cells of the loop are taken off the return stack. */
  lemma {:induction false} LoopFragment(t: Tables, f: Fragment, framed: bool, relaxation: nat, offset: int, at: int,
      c: Core)
    requires f.op == Loop && IsInt32(offset) && IsRepresentable(f, relaxation, offset)
    ensures var s := FullCode(t, f, framed, relaxation, offset);
      var index, limit := Wrap(Read(c, c.esp) + 1), Read(c, c.esp + 4);
      Outside(at + |s| - 3 + offset, at, s) ==>
        if index < limit then GoesTo(Through(s, at, c), at + |s| - 3 + offset, Counted(c))
        else Same(Through(s, at, c), Counted(c).(esp := c.esp + 8))
  {
    hide Through, Encodes, I8, Le32, AsmNumIsSmall, Body, Read, FullCode, Wrap, Counted;
    NoChoresAround(t, f, framed, relaxation, offset);
    LoopBytes(t, f, framed, relaxation, offset);
    LengthOfNumbers(offset);
    CountedKeeps(c);
    var jump := if relaxation == 0 then [0x7c] + I8(offset) else [0x0f, 0x8c] + Le32(offset);
    Counts(jump + [0x83, 0xc4, 0x08], at, c);
    var index, limit := Wrap(Read(c, c.esp) + 1), Read(c, c.esp + 4);
    JumpsIfLess(relaxation, offset, at + 6, Counted(c).(flags := Some(Flagged(index == limit, index < limit))));
  }

  lemma {:induction false} CountedKeeps(c: Core)
    ensures Counted(c).esp == c.esp && Read(Counted(c), c.esp) == Wrap(Read(c, c.esp) + 1)
    ensures forall a :: a != c.esp ==> Read(Counted(c), a) == Read(c, a)
  {
    hide Wrap;
  }

  // ----- words -----

  /** Fragments of one instruction, or none. */
  lemma {:induction false} ExitBytes(t: Tables, f: Fragment, framed: bool, relaxation: nat, offset: int)
    ensures f.op == ExitWord ==> Body(t, f, framed, relaxation, offset) == if framed then [0xc9] + [0xc3] else [0xc3]
    ensures f.op == Halt ==> Body(t, f, framed, relaxation, offset) == [0xc3]
    ensures f.op == DefinedWordLocation ==>
      Body(t, f, framed, relaxation, offset) == if framed then [0x55] + [0x89, 0xe5] else []
    ensures f.op == BranchLocation || f.op == Entry ==> Body(t, f, framed, relaxation, offset) == []
  {
    hide I8, Le32;
  }

  /** Locations and ENTRY do nothing; the start of a word with a frame saves the frame pointer. */
  lemma {:induction false} LocationFragment(t: Tables, f: Fragment, framed: bool, relaxation: nat, offset: int, at: int,
      c: Core)
    requires f.op == DefinedWordLocation || f.op == BranchLocation || f.op == Entry
    ensures Through(FullCode(t, f, framed, relaxation, offset), at, c)
         == On(if f.op == DefinedWordLocation && framed then PushOn(c, c.ebp).(ebp := c.esp - 4) else c)
  {
    hide Through, Encodes, Body, FullCode;
    NoChoresAround(t, f, framed, relaxation, offset);
    ExitBytes(t, f, framed, relaxation, offset);
    AtEnd(at, c);
    if f.op == DefinedWordLocation && framed {
      ShortForms();
      RegisterForms();
      GoesOn([0x55], [0x89, 0xe5], at, c, PushReg(EBP), PushOn(c, c.ebp));
      OnlyOne([0x89, 0xe5], at + 1, PushOn(c, c.ebp), Move(EBP, ESP), PushOn(c, c.ebp).(ebp := c.esp - 4));
    }
  }

  lemma {:induction false} Returns(at: int, c: Core)
    ensures Through([0xc3], at, c) == Goes(Read(c, c.esp), c.(esp := c.esp + 4))
  {
    hide Through, Encodes;
    ShortForms();
    assert [0xc3] + [] == [0xc3];
    GoesAway([0xc3], [], at, c, Return, Read(c, c.esp), c.(esp := c.esp + 4));
  }

  /** HALT, and an exit without a frame: back to the address on the return stack.  An exit with one
      first takes off everything above the saved frame pointer, and gives that back. */
  lemma {:induction false} ExitFragment(t: Tables, f: Fragment, framed: bool, relaxation: nat, offset: int, at: int,
      c: Core)
    requires f.op == ExitWord || f.op == Halt
    ensures var c1 := if f.op == ExitWord && framed then c.(esp := c.ebp + 4, ebp := Read(c, c.ebp)) else c;
      Through(FullCode(t, f, framed, relaxation, offset), at, c) == Goes(Read(c1, c1.esp), c1.(esp := c1.esp + 4))
  {
    hide Through, Encodes, Body, FullCode, Read;
    NoChoresAround(t, f, framed, relaxation, offset);
    ExitBytes(t, f, framed, relaxation, offset);
    ShortForms();
    if f.op == ExitWord && framed {
      var c1 := c.(esp := c.ebp + 4, ebp := Read(c, c.ebp));
      GoesOn([0xc9], [0xc3], at, c, LeaveFrame, c1);
      Returns(at + 1, c1);
    } else {
      Returns(at, c);
    }
  }

  /** A word with a frame comes back to where it was called from, with the return stack and the frame
      pointer of its caller, however many cells it has left on the return stack, as long as the two
      cells of the frame are as they were. */
  lemma {:induction false} FrameComesBack(t: Tables, start: Fragment, exit: Fragment, at: int, to: int, entered: Core,
      leaving: Core)
    requires start.op == DefinedWordLocation && exit.op == ExitWord
    requires leaving.ebp == entered.esp - 4
    requires Read(leaving, entered.esp - 4) == entered.ebp && Read(leaving, entered.esp) == Read(entered, entered.esp)
    ensures var c := Through(FullCode(t, start, true, 0, 0), at, entered);
      c.On? && c.c.ebp == entered.esp - 4 && Read(c.c, entered.esp - 4) == entered.ebp
      && Read(c.c, entered.esp) == Read(entered, entered.esp)
    ensures Through(FullCode(t, exit, true, 0, 0), to, leaving)
         == Goes(Read(entered, entered.esp), leaving.(esp := entered.esp + 4, ebp := entered.ebp))
  {
    hide Through, FullCode, Read, PushOn;
    LocationFragment(t, start, true, 0, 0, at, entered);
    PushKeeps(entered, entered.ebp);
    var c := PushOn(entered, entered.ebp);
    SameMemory(c, c.(ebp := entered.esp - 4), entered.esp - 4);
    SameMemory(c, c.(ebp := entered.esp - 4), entered.esp);
    ExitFragment(t, exit, true, 0, 0, to, leaving);
    SameMemory(leaving, leaving.(esp := leaving.ebp + 4, ebp := Read(leaving, leaving.ebp)), entered.esp);
  }

  /** A call leaves the address of the next fragment on the return stack. */
  lemma {:induction false} CallFragment(t: Tables, f: Fragment, framed: bool, relaxation: nat, offset: int, at: int,
      c: Core)
    requires f.op == DefinedWord && IsInt32(offset)
    ensures var s := FullCode(t, f, framed, relaxation, offset);
      Outside(at + |s| + offset, at, s) ==> Through(s, at, c) == Goes(at + |s| + offset, PushOn(c, at + |s|))
  {
    hide Through, Encodes, Le32, FullCode, PushOn;
    NoChoresAround(t, f, framed, relaxation, offset);
    NumberForms(offset);
    var s := [0xe8] + Le32(offset);
    assert Body(t, f, framed, relaxation, offset) == s == s + [];
    if Outside(at + |s| + offset, at, s) {
      GoesAway(s, [], at, c, CallBy(offset), at + |s| + offset, PushOn(c, at + |s|));
    }
  }

  lemma {:induction false} ExecuteBytes(t: Tables, f: Fragment, framed: bool, relaxation: nat, offset: int)
    requires f.op == Execute
    ensures Body(t, f, framed, relaxation, offset)
         == [0x89, 0xc1] + ([0x8b, 0x03] + ([0x83, 0xeb, 0x04] + [0xff, 0xd1]))
  {
  }

  /** `execute` takes the token off and calls it. */
  lemma {:induction false} ExecuteFragment(t: Tables, f: Fragment, framed: bool, relaxation: nat, offset: int, at: int,
      c: Core)
    requires f.op == Execute
    ensures var s := FullCode(t, f, framed, relaxation, offset);
      Outside(c.eax, at, s) ==>
        GoesTo(Through(s, at, c), c.eax, PushOn(Popped(c), at + |s|).(ecx := c.eax))
  {
    hide Through, Encodes, Body, FullCode, PushOn, Read;
    NoChoresAround(t, f, framed, relaxation, offset);
    ExecuteBytes(t, f, framed, relaxation, offset);
    RegisterForms();
    PlainMemoryForms();
    ImmediateForms();
    var move, load, sub, call := [0x89, 0xc1], [0x8b, 0x03], [0x83, 0xeb, 0x04], [0xff, 0xd1];
    var c1 := c.(ecx := c.eax);
    SameMemory(c, c1, c.ebx);
    var c2 := c1.(eax := Read(c, c.ebx));
    var c3 := c2.(ebx := c.ebx - 4, flags := None);
    GoesOn(move, load + (sub + call), at, c, Move(ECX, EAX), c1);
    GoesOn(load, sub + call, at + 2, c1, Load(EAX, EBX, 0), c2);
    GoesOn(sub, call, at + 4, c2, SubImm(EBX, 4), c3);
    assert call + [] == call;
    if c.eax <= at || c.eax >= at + 9 {
      GoesAway(call, [], at + 7, c3, CallReg(ECX), c.eax, PushOn(c3, at + 9));
    }
    PushSame(c3, Popped(c).(ecx := c.eax), at + 9);
    PushSame(Popped(c), Popped(c).(ecx := c.eax), at + 9);
  }

  lemma {:induction false} PushSame(c: Core, c1: Core, x: int)
    requires c1.mem == c.mem && c1.esp == c.esp
    ensures PushOn(c1, x).mem == PushOn(c, x).mem && PushOn(c1, x).esp == PushOn(c, x).esp
    ensures PushOn(c1, x).(mem := c1.mem, esp := c1.esp) == c1
    ensures PushOn(c, x).(mem := c.mem, esp := c.esp) == c
  {
  }

  // ----- calls into C -----

  function CallBytes(): seq<byte> {
    [0xff, 0x56, 0x24]
  }

  lemma {:induction false} CallsC(at: int, c: Core)
    ensures Outside(Read(c, c.esi + 36), at, CallBytes()) ==>
      Through(CallBytes(), at, c) == Goes(Read(c, c.esi + 36), PushOn(c, at + 3))
  {
    hide Through, Encodes, Read, PushOn;
    SmallMemoryForms();
    assert CallBytes() + [] == [0xff, 0x56, 0x24];
    if Outside(Read(c, c.esi + 36), at, CallBytes()) {
      GoesAway(CallBytes(), [], at, c, CallMem(ESI, 36), Read(c, c.esi + 36), PushOn(c, at + 3));
    }
  }

  /** A runtime word: the entry of its table goes to ecx, and the runtime function is called. */
  lemma {:induction false} RuntimeFragment(t: Tables, f: Fragment, framed: bool, relaxation: nat, offset: int, at: int,
      c: Core)
    requires f.op == RuntimeWord && IsInt32((f.param + 1) * 4)
    ensures var s := FullCode(t, f, framed, relaxation, offset);
      Outside(Read(c, c.esi + 36), at, s) ==>
        Through(s, at, c) == Goes(Read(c, c.esi + 36),
            PushOn(c.(ecx := Read(c, c.edi + (f.param + 1) * 4)), at + |s|))
  {
    hide Through, Encodes, I8OrLe32, FullCode, PushOn, Read;
    NoChoresAround(t, f, framed, relaxation, offset);
    var x := (f.param + 1) * 4;
    var modrm: byte := if AsmNumIsSmall(x) then 0x4f else 0x8f;
    var load := [0x8b, modrm] + I8OrLe32(x);
    LoadForm(modrm, ECX, EDI, x);
    assert Body(t, f, framed, relaxation, offset) == load + CallBytes();
    var c1 := c.(ecx := Read(c, c.edi + x));
    SameMemory(c, c1, c.esi + 36);
    GoesOn(load, CallBytes(), at, c, Load(ECX, EDI, x), c1);
    CallsC(at + |load|, c1);
  }

  /** Thread words: their table entry goes to ecx, and the runtime function is called. */
  lemma {:induction false} ThreadFragment(t: Tables, f: Fragment, framed: bool, relaxation: nat, offset: int, at: int,
      c: Core)
    requires f.op == ThreadCreate || f.op == ThreadJoin
    ensures var s := FullCode(t, f, framed, relaxation, offset);
      var entry := Read(c, c.esi + 44);
      Outside(Read(c, c.esi + 36), at, s) ==>
        GoesTo(Through(s, at, c), Read(c, c.esi + 36),
            PushOn(c.(ecx := if f.op == ThreadJoin then entry + 8 else entry), at + |s|))
  {
    hide Through, Encodes, FullCode, PushOn, Read, Wrap;
    NoChoresAround(t, f, framed, relaxation, offset);
    SmallMemoryForms();
    ImmediateForms();
    ThreadBytes(t, f, framed, relaxation, offset);
    var load, add := [0x8b, 0x4e, 44], [0x83, 0xc1, 0x08];
    var c1 := c.(ecx := Read(c, c.esi + 44));
    SameMemory(c, c1, c.esi + 36);
    if f.op == ThreadCreate {
      GoesOn(load, CallBytes(), at, c, Load(ECX, ESI, 44), c1);
      CallsC(at + 3, c1);
    } else {
      var c2 := c1.(ecx := c1.ecx + 8, flags := None);
      SameMemory(c, c2, c.esi + 36);
      GoesOn(load, add + CallBytes(), at, c, Load(ECX, ESI, 44), c1);
      GoesOn(add, CallBytes(), at + 3, c1, AddImm(ECX, 8), c2);
      CallsC(at + 6, c2);
      PushSame(c2, c1.(ecx := c2.ecx), at + 9);
    }
  }

  lemma {:induction false} ThreadBytes(t: Tables, f: Fragment, framed: bool, relaxation: nat, offset: int)
    ensures f.op == ThreadCreate ==> Body(t, f, framed, relaxation, offset) == [0x8b, 0x4e, 44] + CallBytes()
    ensures f.op == ThreadJoin ==>
      Body(t, f, framed, relaxation, offset) == [0x8b, 0x4e, 44] + ([0x83, 0xc1, 0x08] + CallBytes())
  {
  }
}
