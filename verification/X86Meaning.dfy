/** What the code of each fragment does on the processor, with all its chores: it is what the fragment
    means for a data stack whose top is in eax, whose other cells end at ebx, and for a return stack
    on esp (x86-32_backend.c:1-113, x86_32_backend_generator.py:5-31). */
module X86Meaning {
  import opened Common
  import opened Fragments
  import opened NumCodec
  import opened LittleEndian
  import opened Chores
  import opened X86Backend
  import opened X86Machine

  /** The chores as they are assembled: add ebx, 4; mov [ebx], eax; mov eax, [ebx]; sub ebx, 4. */
  predicate ChoresAre(t: Tables) {
    && t.choreA == [0x83, 0xc3, 0x04] && t.choreB == [0x89, 0x03]
    && t.choreY == [0x8b, 0x03] && t.choreZ == [0x83, 0xeb, 0x04]
  }

  /** The code of a fragment with the chores that its flags call for. */
  function FullCode(t: Tables, f: Fragment, framed: bool, relaxation: nat, offset: int): seq<byte> {
    Prologue(t, GetFlags(t, f)) + Body(t, f, framed, relaxation, offset) + Epilogue(t, GetFlags(t, f))
  }

  // ----- pushing -----

  /** Room below the top, the old top in it, and x as the new top. */
  function Pushed(c: Core, x: int): Core {
    Write(c, c.ebx + 4, c.eax).(ebx := c.ebx + 4, eax := x)
  }

  /** The same but for the flags of the processor. */
  predicate Same(x: Flow, c: Core) {
    x.On? && x.c.(flags := None) == c.(flags := None)
  }

  /** The chores in front of a fragment that pushes. */
  lemma {:induction false} MakesRoom(t: Tables, tail: seq<byte>, at: int, c: Core)
    requires ChoresAre(t)
    ensures Prologue(t, PUSHES) == [0x83, 0xc3, 0x04, 0x89, 0x03]
    ensures Through(Prologue(t, PUSHES) + tail, at, c) == Through(tail, at + 5, Pushed(c, c.eax).(flags := None))
  {
    hide Through, Encodes;
    var a, b := [0x83, 0xc3, 0x04], [0x89, 0x03];
    ImmediateForms();
    PlainMemoryForms();
    assert Prologue(t, PUSHES) + tail == a + (b + tail);
    var c1 := c.(ebx := c.ebx + 4, flags := None);
    GoesOn(a, b + tail, at, c, AddImm(EBX, 4), c1);
    GoesOn(b, tail, at + 3, c1, Store(EBX, 0, EAX), Write(c1, c1.ebx, c1.eax));
  }

  /** The chores behind a fragment that pops: the cell below becomes the top. */
  lemma {:induction false} GivesBack(t: Tables, at: int, c: Core)
    requires ChoresAre(t)
    ensures Epilogue(t, POPS) == [0x8b, 0x03, 0x83, 0xeb, 0x04]
    ensures Through(Epilogue(t, POPS), at, c) == On(c.(eax := Read(c, c.ebx), ebx := c.ebx - 4, flags := None))
  {
    hide Through, Encodes;
    var y, z := [0x8b, 0x03], [0x83, 0xeb, 0x04];
    ImmediateForms();
    PlainMemoryForms();
    assert Epilogue(t, POPS) == y + (z + []);
    var c1 := c.(eax := Read(c, c.ebx));
    GoesOn(y, z + [], at, c, Load(EAX, EBX, 0), c1);
    GoesOn(z, [], at + 2, c1, SubImm(EBX, 4), c1.(ebx := c1.ebx - 4, flags := None));
    AtEnd(at + 5, c1.(ebx := c1.ebx - 4, flags := None));
  }

  /** What a fragment pushes; `at` is the address of its body. */
  function Value(f: Fragment, offset: int, at: int, c: Core): int {
    match f.op
    case PushLiteral => f.param
    case PushDataAddress =>
      Read(c, c.esi + 16) + f.param
    case UseVariableOrConstant => Read(c, c.edi - 4 * f.param)
    case PushCallback => Read(c, Read(c, c.esi + 40) + 4 * f.param)
    case _ => at + 5 + offset
  }

  predicate IsPush(op: Opcode) {
    op in {PushLiteral, PushDataAddress, UseVariableOrConstant, PushCallback, PushOffsetAddress}
  }

  /** One instruction. */
  lemma {:induction false} OnlyOne(ins: seq<byte>, at: int, c: Core, i: Ins, c1: Core)
    requires Encodes(ins, i) && Performed(i, at + |ins|, c) == On(c1)
    ensures Through(ins, at, c) == On(c1)
  {
    hide Through, Encodes, Performed;
    assert ins + [] == ins;
    GoesOn(ins, [], at, c, i, c1);
    AtEnd(at + |ins|, c1);
  }

  lemma {:induction false} LiteralBody(x: int, at: int, c: Core)
    requires IsInt32(x)
    ensures Same(Through(if x != 0 then [0xb8] + Le32(x) else [0x31, 0xc0], at, c), c.(eax := x))
  {
    hide Through, Encodes, Le32;
    RegisterForms();
    NumberForms(x);
    if x == 0 {
      OnlyOne([0x31, 0xc0], at, c, Clear(EAX), c.(eax := 0, flags := None));
    } else {
      OnlyOne([0xb8] + Le32(x), at, c, SetImm(EAX, x), c.(eax := x));
    }
  }

  lemma {:induction false} AddNumber(x: int, at: int, c: Core)
    requires IsInt32(x)
    ensures var s := (if AsmNumIsSmall(x) then [0x83, 0xc0] else [0x05]) + I8OrLe32(x);
      Through(s, at, c) == On(c.(eax := c.eax + x, flags := None))
  {
    hide Through, Encodes, Le32, I8;
    NumberForms(x);
    if AsmNumIsSmall(x) { SmallForms(x); }
    var s := (if AsmNumIsSmall(x) then [0x83, 0xc0] else [0x05]) + I8OrLe32(x);
    OnlyOne(s, at, c, AddImm(EAX, x), c.(eax := c.eax + x, flags := None));
  }

  lemma {:induction false} DataAddressBody(x: int, at: int, c: Core)
    requires IsInt32(x)
    ensures var s := [0x8b, 0x46, 0x10]
        + if x == 0 then [] else (if AsmNumIsSmall(x) then [0x83, 0xc0] else [0x05]) + I8OrLe32(x);
      Same(Through(s, at, c),
          c.(eax := Read(c, c.esi + 16) + x))
  {
    hide Through, Encodes, I8OrLe32, AsmNumIsSmall;
    SmallMemoryForms();
    var load, add := [0x8b, 0x46, 0x10], (if AsmNumIsSmall(x) then [0x83, 0xc0] else [0x05]) + I8OrLe32(x);
    var c1 := c.(eax := Read(c, c.esi + 16));
    GoesOn(load, if x == 0 then [] else add, at, c, Load(EAX, ESI, 16), c1);
    if x == 0 { AtEnd(at + 3, c1); } else { AddNumber(x, at + 3, c1); }
  }

  lemma {:induction false} VariableBody(x: int, at: int, c: Core)
    requires IsInt32(x)
    ensures Through([0x8b, if AsmNumIsSmall(x) then 0x47 else 0x87] + I8OrLe32(x), at, c)
         == On(c.(eax := Read(c, c.edi + x)))
    ensures Through([0x89, if AsmNumIsSmall(x) then 0x47 else 0x87] + I8OrLe32(x), at, c)
         == On(Write(c, c.edi + x, c.eax))
  {
    hide Through, Encodes, I8OrLe32;
    var modrm: byte := if AsmNumIsSmall(x) then 0x47 else 0x87;
    LoadForm(modrm, EAX, EDI, x);
    OnlyOne([0x8b, modrm] + I8OrLe32(x), at, c, Load(EAX, EDI, x), c.(eax := Read(c, c.edi + x)));
    OnlyOne([0x89, modrm] + I8OrLe32(x), at, c, Store(EDI, x, EAX), Write(c, c.edi + x, c.eax));
  }

  lemma {:induction false} CallbackBody(x: int, at: int, c: Core)
    requires IsInt32(x)
    ensures Through([0x8b, 0x46, 0x28, 0x8b, if AsmNumIsSmall(x) then 0x40 else 0x80] + I8OrLe32(x), at, c)
         == On(c.(eax := Read(c, Read(c, c.esi + 40) + x)))
  {
    hide Through, Encodes, I8OrLe32;
    SmallMemoryForms();
    var modrm: byte := if AsmNumIsSmall(x) then 0x40 else 0x80;
    LoadForm(modrm, EAX, EAX, x);
    var first, second := [0x8b, 0x46, 0x28], [0x8b, modrm] + I8OrLe32(x);
    assert [0x8b, 0x46, 0x28, 0x8b, modrm] + I8OrLe32(x) == first + second;
    var c1 := c.(eax := Read(c, c.esi + 40));
    GoesOn(first, second, at, c, Load(EAX, ESI, 40), c1);
    OnlyOne(second, at + 3, c1, Load(EAX, EAX, x), c1.(eax := Read(c1, c1.eax + x)));
  }

  /** `call .L0; .L0: pop eax; add eax, n` leaves the cells of the return stack as they were, but for
      the one below them. */
  function UsedBelow(c: Core, x: int): Core {
    Write(c, c.esp - 4, x)
  }

  lemma {:induction false} AddressBody(tail: seq<byte>, at: int, c: Core)
    ensures Through([0xe8, 0x00, 0x00, 0x00, 0x00, 0x58] + tail, at, c)
         == Through(tail, at + 6, UsedBelow(c, at + 5).(eax := at + 5))
  {
    hide Through, Encodes;
    ShortForms();
    NumberForms(0);
    ZeroBytes();
    var call, pop := [0xe8, 0x00, 0x00, 0x00, 0x00], [0x58];
    assert [0xe8] + [0x00, 0x00, 0x00, 0x00] == call;
    assert [0xe8, 0x00, 0x00, 0x00, 0x00, 0x58] + tail == call + (pop + tail);
    var c1 := PushOn(c, at + 5);
    GoesToNext(call, pop + tail, at, c, CallBy(0), c1);
    GoesOn(pop, tail, at + 5, c1, PopReg(EAX), UsedBelow(c, at + 5).(eax := at + 5));
  }

  lemma {:induction false} ZeroBytes()
    ensures Le32(0) == [0, 0, 0, 0]
  {
    assert LowBytes(0, 0) == [] && LowBytes(0, 1) == [0] && LowBytes(0, 2) == [0, 0] && LowBytes(0, 3) == [0, 0, 0];
  }

  /** A fragment with a number that the emitter can write. */
  predicate Writable(f: Fragment, relaxation: nat, offset: int) {
    && (f.op == PushLiteral || f.op == PushDataAddress ==> IsInt32(f.param))
    && (f.op == UseVariableOrConstant ==> IsInt32(-4 * f.param)) && (f.op == PushCallback ==> IsInt32(4 * f.param))
    && (f.op == PushOffsetAddress ==> IsInt32(offset) && IsRepresentable(f, relaxation, offset) && relaxation > 0)
  }

  lemma {:induction false} PushBody(t: Tables, f: Fragment, framed: bool, relaxation: nat, offset: int, at: int,
      c: Core)
    requires IsPush(f.op) && Writable(f, relaxation, offset)
    ensures var s := Through(Body(t, f, framed, relaxation, offset), at, c);
      Same(s, (if f.op == PushOffsetAddress then UsedBelow(c, at + 5) else c).(eax := Value(f, offset, at, c)))
  {
    hide Through, I8OrLe32, Le32, I8, AsmNumIsSmall, UsedBelow, Read;
    match f.op
    case PushLiteral => LiteralBody(f.param, at, c);
    case PushDataAddress => DataAddressBody(f.param, at, c);
    case UseVariableOrConstant => VariableBody(-f.param * 4, at, c);
    case PushCallback => CallbackBody(f.param * 4, at, c);
    case PushOffsetAddress => WordAddressBody(t, f, framed, relaxation, offset, at, c);
  }

  lemma {:induction false} WordAddressBody(t: Tables, f: Fragment, framed: bool, relaxation: nat, offset: int, at: int,
      c: Core)
    requires f.op == PushOffsetAddress && Writable(f, relaxation, offset)
    ensures Through(Body(t, f, framed, relaxation, offset), at, c)
         == On(UsedBelow(c, at + 5).(eax := at + 5 + offset, flags := None))
  {
    hide Through, Le32, I8, AsmNumIsSmall, UsedBelow;
    var add := if relaxation == 1 then [0x83, 0xc0] + I8(offset) else [0x05] + Le32(offset);
    AddressBody(add, at, c);
    AddForms(relaxation, offset, at + 6, UsedBelow(c, at + 5).(eax := at + 5));
  }

  lemma {:induction false} AddForms(relaxation: nat, x: int, at: int, c: Core)
    requires IsInt32(x) && (relaxation == 1 ==> AsmNumIsSmall(x))
    ensures var add := if relaxation == 1 then [0x83, 0xc0] + I8(x) else [0x05] + Le32(x);
      Through(add, at, c) == On(c.(eax := c.eax + x, flags := None))
  {
    hide Through, Encodes, Le32, I8, AsmNumIsSmall;
    NumberForms(x);
    if relaxation == 1 { SmallForms(x); }
    var add := if relaxation == 1 then [0x83, 0xc0] + I8(x) else [0x05] + Le32(x);
    OnlyOne(add, at, c, AddImm(EAX, x), c.(eax := c.eax + x, flags := None));
  }

  /** A literal, a data address, a variable or constant, a callback and a word address: with its
      chores, the code makes room for the old top and puts the value on top. */
  lemma {:induction false} PushFragment(t: Tables, f: Fragment, framed: bool, relaxation: nat, offset: int, at: int,
      c: Core)
    requires ChoresAre(t) && IsPush(f.op) && Writable(f, relaxation, offset)
    ensures var room := Pushed(c, c.eax);
      Same(Through(FullCode(t, f, framed, relaxation, offset), at, c),
          (if f.op == PushOffsetAddress then UsedBelow(room, at + 10) else room).(
            eax := Value(f, offset, at + 5, room)))
  {
    hide Through, Body, Prologue, Write, Read, Writable;
    var body := Body(t, f, framed, relaxation, offset);
    PushFlags(t, f);
    assert FullCode(t, f, framed, relaxation, offset) == Prologue(t, PUSHES) + body;
    MakesRoom(t, body, at, c);
    var room := Pushed(c, c.eax);
    PushBody(t, f, framed, relaxation, offset, at + 5, room.(flags := None));
    SameValue(f, offset, at + 5, room);
    SameValue(f, offset, at + 10, room);
  }

  lemma {:induction false} PushFlags(t: Tables, f: Fragment)
    requires IsPush(f.op)
    ensures GetFlags(t, f) == PUSHES && Epilogue(t, GetFlags(t, f)) == []
  {
  }

  lemma {:induction false} SameValue(f: Fragment, offset: int, at: int, c: Core)
    ensures Value(f, offset, at, c.(flags := None)) == Value(f, offset, at, c)
    ensures UsedBelow(c.(flags := None), at) == UsedBelow(c, at).(flags := None)
  {
  }

  // ----- declarations -----

  /** A constant: the top goes into its slot and the cell below becomes the top. */
  lemma {:induction false} ConstantFragment(t: Tables, f: Fragment, framed: bool, relaxation: nat, offset: int, at: int,
      c: Core)
    requires ChoresAre(t) && f.op == DeclareConstant && IsInt32(-4 * f.param)
    ensures var c1 := Write(c, c.edi - 4 * f.param, c.eax);
      Same(Through(FullCode(t, f, framed, relaxation, offset), at, c),
          c1.(eax := Read(c1, c.ebx), ebx := c.ebx - 4))
  {
    hide Through, Encodes, I8OrLe32, Epilogue, Write, Read, ChoresAre;
    var x := -f.param * 4;
    var modrm: byte := if AsmNumIsSmall(x) then 0x47 else 0x87;
    var body := [0x89, modrm] + I8OrLe32(x);
    ConstantCode(t, f, framed, relaxation, offset);
    LoadForm(modrm, EAX, EDI, x);
    var c1 := Write(c, c.edi + x, c.eax);
    GoesOn(body, Epilogue(t, POPS), at, c, Store(EDI, x, EAX), c1);
    GivesBack(t, at + |body|, c1);
    WriteKeeps(c, c.edi + x, c.eax);
  }

  lemma {:induction false} ConstantCode(t: Tables, f: Fragment, framed: bool, relaxation: nat, offset: int)
    requires f.op == DeclareConstant
    ensures var x := -f.param * 4;
      FullCode(t, f, framed, relaxation, offset)
      == ([0x89, if AsmNumIsSmall(x) then 0x47 else 0x87] + I8OrLe32(x)) + Epilogue(t, POPS)
  {
    hide I8OrLe32, AsmNumIsSmall, Epilogue;
  }

  lemma {:induction false} WriteKeeps(c: Core, a: int, x: int)
    ensures Write(c, a, x).(mem := c.mem) == c
  {
  }

  /** A variable: the next multiple of four of the data space goes into its slot. */
  lemma {:induction false} VariableFragment(t: Tables, f: Fragment, framed: bool, relaxation: nat, offset: int, at: int,
      c: Core)
    requires f.op == DeclareVariable && IsInt32(-4 * f.param)
    ensures var a := (c.edx + 3) / 4 * 4;
      Same(Through(FullCode(t, f, framed, relaxation, offset), at, c),
          Write(c, c.edi - 4 * f.param, a).(edx := a + 4))
  {
    hide Through, Encodes, I8OrLe32, Write, Read;
    var x := -f.param * 4;
    var modrm: byte := if AsmNumIsSmall(x) then 0x57 else 0x97;
    var store := [0x89, modrm] + I8OrLe32(x);
    var body := [0x83, 0xc2, 0x03] + ([0x83, 0xe2, 0xfc] + (store + [0x83, 0xc2, 0x04]));
    VariableCode(t, f, framed, relaxation, offset);
    var a := (c.edx + 3) / 4 * 4;
    AlignsData(store + [0x83, 0xc2, 0x04], at, c);
    StoresData(x, at + 6, c.(edx := a, flags := None));
    WriteMoves(c, c.(edx := a, flags := None), c.edi + x, a);
  }

  lemma {:induction false} VariableCode(t: Tables, f: Fragment, framed: bool, relaxation: nat, offset: int)
    requires f.op == DeclareVariable
    ensures var x := -f.param * 4;
      FullCode(t, f, framed, relaxation, offset)
      == [0x83, 0xc2, 0x03] + ([0x83, 0xe2, 0xfc]
         + (([0x89, if AsmNumIsSmall(x) then 0x57 else 0x97] + I8OrLe32(x)) + [0x83, 0xc2, 0x04]))
  {
    hide I8OrLe32, AsmNumIsSmall;
  }

  lemma {:induction false} AlignsData(tail: seq<byte>, at: int, c: Core)
    ensures Through([0x83, 0xc2, 0x03] + ([0x83, 0xe2, 0xfc] + tail), at, c)
         == Through(tail, at + 6, c.(edx := (c.edx + 3) / 4 * 4, flags := None))
  {
    hide Through, Encodes;
    ImmediateForms();
    var c1 := c.(edx := c.edx + 3, flags := None);
    GoesOn([0x83, 0xc2, 0x03], [0x83, 0xe2, 0xfc] + tail, at, c, AddImm(EDX, 3), c1);
    GoesOn([0x83, 0xe2, 0xfc], tail, at + 3, c1, AlignDown(EDX), c1.(edx := (c.edx + 3) / 4 * 4));
  }

  lemma {:induction false} StoresData(x: int, at: int, c: Core)
    requires IsInt32(x)
    ensures var store := [0x89, if AsmNumIsSmall(x) then 0x57 else 0x97] + I8OrLe32(x);
      Through(store + [0x83, 0xc2, 0x04], at, c)
      == On(Write(c, c.edi + x, c.edx).(edx := c.edx + 4, flags := None))
  {
    hide Through, Encodes, I8OrLe32, Write;
    ImmediateForms();
    var modrm: byte := if AsmNumIsSmall(x) then 0x57 else 0x97;
    LoadForm(modrm, EDX, EDI, x);
    var store, c1 := [0x89, modrm] + I8OrLe32(x), Write(c, c.edi + x, c.edx);
    WriteKeeps(c, c.edi + x, c.edx);
    GoesOn(store, [0x83, 0xc2, 0x04], at, c, Store(EDI, x, EDX), c1);
    OnlyOne([0x83, 0xc2, 0x04], at + |store|, c1, AddImm(EDX, 4), c1.(edx := c.edx + 4, flags := None));
  }

  lemma {:induction false} WriteMoves(c: Core, c1: Core, a: int, x: int)
    requires c1.mem == c.mem
    ensures Write(c1, a, x).mem == Write(c, a, x).mem
    ensures Write(c1, a, x).(mem := c1.mem) == c1 && Write(c, a, x).(mem := c.mem) == c
  {
  }
}
