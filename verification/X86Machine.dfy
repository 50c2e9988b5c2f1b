/** The part of the processor that the emitted code uses, from the Intel 64 and IA-32 Architectures
    Software Developer's Manual, volume 2: instructions are decoded from their bytes and performed on
    registers and memory.  Memory is one 32-bit number per address.  `inc` counts numbers and wraps;
    what is added to or subtracted from a register as an immediate is part of an address, and addresses
    are integers that do not wrap. */
module X86Machine {
  import opened Common
  import opened NumCodec
  import opened LittleEndian
  import opened X86Backend

  /** The registers, memory, and what the last comparison has found, if nothing has changed it. */
  datatype Core = Core(
    eax: int, ecx: int, edx: int, ebx: int, esp: int, ebp: int, esi: int, edi: int,
    mem: map<int, int>, flags: Option<Flagged>)

  datatype Flagged = Flagged(zero: bool, less: bool)

  const EAX := 0
  const ECX := 1
  const EDX := 2
  const EBX := 3
  const ESP := 4
  const EBP := 5
  const ESI := 6
  const EDI := 7

  function Get(c: Core, n: int): int {
    match n
    case 0 => c.eax
    case 1 => c.ecx
    case 2 => c.edx
    case 3 => c.ebx
    case 4 => c.esp
    case 5 => c.ebp
    case 6 => c.esi
    case _ => c.edi
  }

  function Set(c: Core, n: int, x: int): Core {
    match n
    case 0 => c.(eax := x)
    case 1 => c.(ecx := x)
    case 2 => c.(edx := x)
    case 3 => c.(ebx := x)
    case 4 => c.(esp := x)
    case 5 => c.(ebp := x)
    case 6 => c.(esi := x)
    case _ => c.(edi := x)
  }

  function Read(c: Core, a: int): int {
    ReadFrom(c.mem, a)
  }

  function ReadFrom(mem: map<int, int>, a: int): int {
    if a in mem then mem[a] else 0
  }

  /** Memory that was never written reads as 0, so writing what is there changes nothing. */
  function Written(mem: map<int, int>, a: int, x: int): map<int, int> {
    if ReadFrom(mem, a) == x then mem else mem[a := x]
  }

  function Write(c: Core, a: int, x: int): Core {
    c.(mem := Written(c.mem, a, x))
  }

  // ----- instructions -----

  datatype Ins =
    | Load(reg: int, base: int, disp: int)
    | Store(base: int, disp: int, reg: int)
    | Move(dst: int, src: int)
    | SetImm(reg: int, x: int)
    | AddImm(reg: int, x: int)
    | SubImm(reg: int, x: int)
    | AlignDown(reg: int)
    | Clear(reg: int)
    | Increment(reg: int)
    | TestSelf(reg: int)
    | CompareTop(reg: int)
    | PushReg(reg: int)
    | PushMem(base: int, disp: int)
    | PopReg(reg: int)
    | LeaveFrame
    | JumpBy(d: int)
    | JumpZero(d: int)
    | JumpLess(d: int)
    | CallBy(d: int)
    | CallReg(reg: int)
    | CallMem(base: int, disp: int)
    | Return

  datatype Operand = Register(n: int) | Memory(base: int, disp: int)

  /** The ModR/M byte at 1 and the displacement behind it: the operand, the other register field, and
      the length with the opcode. */
  function ModRm(s: seq<byte>): Option<(Operand, int, nat)> {
    if |s| < 2 then None
    else
      var m := s[1] as int;
      var (mode, reg, rm) := (m / 64, m / 8 % 8, m % 8);
      if mode == 3 then Some((Register(rm), reg, 2))
      else if rm == ESP || (mode == 0 && rm == EBP) then None
      else if mode == 0 then Some((Memory(rm, 0), reg, 2))
      else if mode == 1 then if |s| < 3 then None else Some((Memory(rm, FromI8(s[2])), reg, 3))
      else if |s| < 6 then None else Some((Memory(rm, FromLe32(s[2..])), reg, 6))
  }

  function LoadOrMove(s: seq<byte>): Option<(Ins, nat)> {
    match ModRm(s)
    case Some((Memory(base, disp), reg, len)) => Some((Load(reg, base, disp), len))
    case Some((Register(n), reg, len)) => Some((Move(reg, n), len))
    case None => None
  }

  function StoreOrMove(s: seq<byte>): Option<(Ins, nat)> {
    match ModRm(s)
    case Some((Memory(base, disp), reg, len)) => Some((Store(base, disp, reg), len))
    case Some((Register(n), reg, len)) => Some((Move(n, reg), len))
    case None => None
  }

  /** `and` is only known with the mask that clears the two low bits. */
  function Immediate(s: seq<byte>): Option<(Ins, nat)> {
    match ModRm(s)
    case Some((Register(n), op, len)) =>
      if |s| < 3 then None
      else if op == 0 then Some((AddImm(n, FromI8(s[2])), 3))
      else if op == 5 then Some((SubImm(n, FromI8(s[2])), 3))
      else if op == 4 && s[2] == 0xfc then Some((AlignDown(n), 3))
      else None
    case _ => None
  }

  function SameRegister(s: seq<byte>, test: bool): Option<(Ins, nat)> {
    match ModRm(s)
    case Some((Register(n), reg, _)) =>
      if n != reg then None else Some((if test then TestSelf(n) else Clear(n), 2))
    case _ => None
  }

  function CallOrPush(s: seq<byte>): Option<(Ins, nat)> {
    match ModRm(s)
    case Some((Memory(base, disp), op, len)) =>
      if op == 2 then Some((CallMem(base, disp), len)) else if op == 6 then Some((PushMem(base, disp), len)) else None
    case Some((Register(n), op, len)) => if op == 2 then Some((CallReg(n), len)) else None
    case None => None
  }

  /** The instruction that s begins with, and its length. */
  function Decode(s: seq<byte>): Option<(Ins, nat)> {
    if s == [] then None
    else
      var b := s[0] as int;
      if b == 0x8b then LoadOrMove(s)
      else if b == 0x89 then StoreOrMove(s)
      else if b == 0x83 then Immediate(s)
      else if b == 0x31 then SameRegister(s, false)
      else if b == 0x85 then SameRegister(s, true)
      else if b == 0xff then CallOrPush(s)
      else if 0x40 <= b < 0x48 then Some((Increment(b - 0x40), 1))
      else if 0x50 <= b < 0x58 then Some((PushReg(b - 0x50), 1))
      else if 0x58 <= b < 0x60 then Some((PopReg(b - 0x58), 1))
      else if b == 0xc9 then Some((LeaveFrame, 1))
      else if b == 0xc3 then Some((Return, 1))
      else if b == 0x3b then
        if |s| >= 3 && s[1] as int / 64 == 0 && s[1] as int % 8 == ESP && s[2] == 0x24
        then Some((CompareTop(s[1] as int / 8 % 8), 3)) else None
      else if b in {0xeb, 0x74, 0x7c} then
        if |s| < 2 then None
        else Some((JumpIns(b, FromI8(s[1])), 2))
      else if b == 0x0f then
        if |s| < 6 || s[1] !in {0x84, 0x8c} then None
        else Some((if s[1] == 0x84 then JumpZero(FromLe32(s[2..])) else JumpLess(FromLe32(s[2..])), 6))
      else if b in {0x05, 0xe8, 0xe9} || 0xb8 <= b < 0xc0 then
        if |s| < 5 then None
        else Some((WithNumber(b, FromLe32(s[1..])), 5))
      else None
  }

  function JumpIns(b: int, d: int): Ins {
    if b == 0x74 then JumpZero(d) else if b == 0x7c then JumpLess(d) else JumpBy(d)
  }

  function WithNumber(b: int, x: int): Ins {
    if b == 0x05 then AddImm(EAX, x) else if b == 0xe8 then CallBy(x) else if b == 0xe9 then JumpBy(x)
    else SetImm(b - 0xb8, x)
  }

  // ----- performing -----

  /** What comes after an instruction: the next one, or one elsewhere. */
  datatype Flow = On(c: Core) | Goes(a: int, c: Core) | Unknown

  function PushOn(c: Core, x: int): Core {
    Write(c.(esp := c.esp - 4), c.esp - 4, x)
  }

  function Branched(c: Core, taken: bool, target: int): Flow {
    if taken then Goes(target, c) else On(c)
  }

  /** One instruction; `next` is the address behind it. */
  function Performed(i: Ins, next: int, c: Core): Flow {
    match i
    case Load(reg, base, disp) => On(Set(c, reg, Read(c, Get(c, base) + disp)))
    case Store(base, disp, reg) => On(Write(c, Get(c, base) + disp, Get(c, reg)))
    case Move(dst, src) => On(Set(c, dst, Get(c, src)))
    case SetImm(reg, x) => On(Set(c, reg, x))
    case AddImm(reg, x) => On(Set(c, reg, Get(c, reg) + x).(flags := None))
    case SubImm(reg, x) => On(Set(c, reg, Get(c, reg) - x).(flags := None))
    case AlignDown(reg) => On(Set(c, reg, Get(c, reg) - Get(c, reg) % 4).(flags := None))
    case Clear(reg) => On(Set(c, reg, 0).(flags := None))
    case Increment(reg) => On(Set(c, reg, Wrap(Get(c, reg) + 1)).(flags := None))
    case TestSelf(reg) => On(c.(flags := Some(Flagged(Get(c, reg) == 0, Get(c, reg) < 0))))
    case CompareTop(reg) =>
      On(c.(flags := Some(Flagged(Get(c, reg) == Read(c, c.esp), Get(c, reg) < Read(c, c.esp)))))
    case PushReg(reg) => On(PushOn(c, Get(c, reg)))
    case PushMem(base, disp) => On(PushOn(c, Read(c, Get(c, base) + disp)))
    case PopReg(reg) => On(Set(c.(esp := c.esp + 4), reg, Read(c, c.esp)))
    case LeaveFrame => On(c.(esp := c.ebp + 4, ebp := Read(c, c.ebp)))
    case JumpBy(d) => Goes(next + d, c)
    case JumpZero(d) => if c.flags.None? then Unknown else Branched(c, c.flags.value.zero, next + d)
    case JumpLess(d) => if c.flags.None? then Unknown else Branched(c, c.flags.value.less, next + d)
    case CallBy(d) => Goes(next + d, PushOn(c, next))
    case CallReg(reg) => Goes(Get(c, reg), PushOn(c, next))
    case CallMem(base, disp) => Goes(Read(c, Get(c, base) + disp), PushOn(c, next))
    case Return => Goes(Read(c, c.esp), c.(esp := c.esp + 4))
  }

  /** Runs the code s, which stands at address `at`, until control leaves it: past its end, or to an
      address that is not further on in it. */
  function Through(s: seq<byte>, at: int, c: Core): Flow
    decreases |s|
  {
    if s == [] then On(c)
    else
      match Decode(s)
      case None => Unknown
      case Some((i, len)) =>
        if !(0 < len <= |s|) then Unknown
        else
          match Performed(i, at + len, c)
          case On(c1) => Through(s[len..], at + len, c1)
          case Goes(a, c1) => if at < a < at + |s| then Through(s[a - at..], a, c1) else Goes(a, c1)
          case Unknown => Unknown
  }

  // ----- reading a listing -----

  /** The bytes of one instruction, whatever follows them. */
  ghost predicate Encodes(ins: seq<byte>, i: Ins) {
    ins != [] && forall tail: seq<byte> :: Decode(ins + tail) == Some((i, |ins|))
  }

  lemma {:induction false} GoesOn(ins: seq<byte>, tail: seq<byte>, at: int, c: Core, i: Ins, c1: Core)
    requires Encodes(ins, i) && Performed(i, at + |ins|, c) == On(c1)
    ensures Through(ins + tail, at, c) == Through(tail, at + |ins|, c1)
  {
    hide Decode, Performed;
    assert Decode(ins + tail) == Some((i, |ins|)) && (ins + tail)[|ins|..] == tail;
  }

  lemma {:induction false} GoesAway(ins: seq<byte>, tail: seq<byte>, at: int, c: Core, i: Ins, a: int, c1: Core)
    requires Encodes(ins, i) && Performed(i, at + |ins|, c) == Goes(a, c1)
    requires a <= at || a >= at + |ins| + |tail|
    ensures Through(ins + tail, at, c) == Goes(a, c1)
  {
    hide Decode, Performed;
    assert Decode(ins + tail) == Some((i, |ins|));
  }

  lemma {:induction false} GoesToNext(ins: seq<byte>, tail: seq<byte>, at: int, c: Core, i: Ins, c1: Core)
    requires Encodes(ins, i) && Performed(i, at + |ins|, c) == Goes(at + |ins|, c1) && tail != []
    ensures Through(ins + tail, at, c) == Through(tail, at + |ins|, c1)
  {
    hide Decode, Performed;
    assert Decode(ins + tail) == Some((i, |ins|)) && (ins + tail)[|ins|..] == tail;
  }

  lemma {:induction false} AtEnd(at: int, c: Core)
    ensures Through([], at, c) == On(c)
  {
  }

  // ----- the instructions of the backend -----

  /** One byte, or two with a register operand. */
  lemma {:induction false} ShortForms()
    ensures Encodes([0xc3], Return) && Encodes([0xc9], LeaveFrame)
    ensures Encodes([0x50], PushReg(EAX)) && Encodes([0x51], PushReg(ECX)) && Encodes([0x55], PushReg(EBP))
    ensures Encodes([0x58], PopReg(EAX)) && Encodes([0x59], PopReg(ECX)) && Encodes([0x41], Increment(ECX))
  {
  }

  lemma {:induction false} RegisterForms()
    ensures Encodes([0x31, 0xc0], Clear(EAX)) && Encodes([0x85, 0xc0], TestSelf(EAX))
    ensures Encodes([0x89, 0xe5], Move(EBP, ESP)) && Encodes([0x89, 0xc1], Move(ECX, EAX))
    ensures Encodes([0xff, 0xd1], CallReg(ECX))
  {
    hide FromI8, FromLe32;
  }

  lemma {:induction false} PlainMemoryForms()
    ensures Encodes([0x8b, 0x03], Load(EAX, EBX, 0)) && Encodes([0x89, 0x03], Store(EBX, 0, EAX))
    ensures Encodes([0xff, 0x33], PushMem(EBX, 0)) && Encodes([0x3b, 0x0c, 0x24], CompareTop(ECX))
  {
    hide FromI8, FromLe32;
  }

  lemma {:induction false} SmallMemoryForms()
    ensures Encodes([0x8b, 0x43, 0x04], Load(EAX, EBX, 4)) && Encodes([0x8b, 0x43, 0xfc], Load(EAX, EBX, -4))
    ensures Encodes([0x8b, 0x46, 0x10], Load(EAX, ESI, 16)) && Encodes([0x8b, 0x46, 0x28], Load(EAX, ESI, 40))
    ensures Encodes([0x8b, 0x4e, 44], Load(ECX, ESI, 44)) && Encodes([0xff, 0x56, 0x24], CallMem(ESI, 36))
  {
    hide FromLe32;
  }

  lemma {:induction false} ImmediateForms()
    ensures Encodes([0x83, 0xc2, 0x03], AddImm(EDX, 3)) && Encodes([0x83, 0xe2, 0xfc], AlignDown(EDX))
    ensures Encodes([0x83, 0xc2, 0x04], AddImm(EDX, 4)) && Encodes([0x83, 0xc3, 0x04], AddImm(EBX, 4))
    ensures Encodes([0x83, 0xeb, 0x04], SubImm(EBX, 4)) && Encodes([0x83, 0xeb, 0x08], SubImm(EBX, 8))
    ensures Encodes([0x83, 0xc4, 0x08], AddImm(ESP, 8)) && Encodes([0x83, 0xc1, 0x08], AddImm(ECX, 8))
  {
    hide FromLe32;
  }

  /** A number of one byte or of four, behind some bytes and in front of others. */
  lemma {:induction false} NumberBehind(front: seq<byte>, x: int, tail: seq<byte>)
    requires IsInt32(x)
    ensures |Le32(x)| == 4 && |front + Le32(x) + tail| >= |front| + 4
    ensures FromLe32((front + Le32(x) + tail)[|front|..]) == x
    ensures |I8(x)| == 1 && |front + I8(x) + tail| > |front|
    ensures AsmNumIsSmall(x) ==> FromI8((front + I8(x) + tail)[|front|]) == x
  {
    hide Le32, FromLe32, I8, FromI8;
    LengthOfNumbers(x);
    var s := front + Le32(x) + tail;
    assert s[|front|..|front| + 4] == Le32(x);
    Le32Read(s, |front|, x);
    assert (front + I8(x) + tail)[|front|] == I8(x)[0];
    if AsmNumIsSmall(x) { I8Back(x); }
  }

  lemma {:induction false} MemoryForm(op: byte, modrm: byte, x: int, tail: seq<byte>)
    requires IsInt32(x) && modrm % 8 != 4 && modrm / 64 == if AsmNumIsSmall(x) then 1 else 2
    ensures var ins := [op, modrm] + I8OrLe32(x);
      ModRm(ins + tail) == Some((Memory((modrm % 8) as int, x), (modrm / 8 % 8) as int, |ins|))
  {
    hide Le32, FromLe32, I8, FromI8, AsmNumIsSmall;
    LengthOfNumbers(x);
    NumberBehind([op, modrm], x, tail);
    var s := [op, modrm] + I8OrLe32(x) + tail;
    assert s[0] == op && s[1] == modrm;
  }

  /** `mov` between a register and memory, with the shorter displacement where it fits. */
  lemma {:induction false} LoadForm(modrm: byte, reg: int, base: int, x: int)
    requires IsInt32(x) && modrm % 8 != 4 && modrm / 64 == if AsmNumIsSmall(x) then 1 else 2
    requires reg == (modrm / 8 % 8) as int && base == (modrm % 8) as int
    ensures Encodes([0x8b, modrm] + I8OrLe32(x), Load(reg, base, x))
    ensures Encodes([0x89, modrm] + I8OrLe32(x), Store(base, x, reg))
  {
    hide I8OrLe32, AsmNumIsSmall, ModRm;
    forall tail: seq<byte>
      ensures Decode([0x8b, modrm] + I8OrLe32(x) + tail) == Some((Load(reg, base, x), |[0x8b, modrm] + I8OrLe32(x)|))
      ensures Decode([0x89, modrm] + I8OrLe32(x) + tail) == Some((Store(base, x, reg), |[0x89, modrm] + I8OrLe32(x)|))
    {
      MemoryForm(0x8b, modrm, x, tail);
      MemoryForm(0x89, modrm, x, tail);
    }
  }

  /** An opcode byte and four bytes of number. */
  lemma {:induction false} NumberForms(x: int)
    requires IsInt32(x)
    ensures Encodes([0xb8] + Le32(x), SetImm(EAX, x)) && Encodes([0x05] + Le32(x), AddImm(EAX, x))
    ensures Encodes([0xe8] + Le32(x), CallBy(x)) && Encodes([0xe9] + Le32(x), JumpBy(x))
  {
    hide Le32, FromLe32, ModRm;
    LengthOfNumbers(x);
    forall tail: seq<byte>, op: byte | op in {0xb8, 0x05, 0xe8, 0xe9}
      ensures Decode([op] + Le32(x) + tail) == Some((WithNumber(op as int, x), |[op] + Le32(x)|))
    {
      NumberBehind([op], x, tail);
      assert ([op] + Le32(x) + tail)[0] == op;
    }
  }

  lemma {:induction false} SmallForms(x: int)
    requires AsmNumIsSmall(x)
    ensures Encodes([0x83, 0xc0] + I8(x), AddImm(EAX, x))
    ensures Encodes([0x74] + I8(x), JumpZero(x)) && Encodes([0x7c] + I8(x), JumpLess(x))
    ensures Encodes([0xeb] + I8(x), JumpBy(x))
  {
    hide I8, FromI8, FromLe32;
    forall tail: seq<byte>
      ensures Decode([0x83, 0xc0] + I8(x) + tail) == Some((AddImm(EAX, x), |[0x83, 0xc0] + I8(x)|))
    {
      NumberBehind([0x83, 0xc0], x, tail);
    }
    forall tail: seq<byte>, op: byte | op in {0x74, 0x7c, 0xeb}
      ensures Decode([op] + I8(x) + tail) == Some((JumpIns(op as int, x), |[op] + I8(x)|))
    {
      NumberBehind([op], x, tail);
      assert ([op] + I8(x) + tail)[0] == op;
    }
  }

  lemma {:induction false} WideJumpForms(x: int)
    requires IsInt32(x)
    ensures Encodes([0x0f, 0x84] + Le32(x), JumpZero(x)) && Encodes([0x0f, 0x8c] + Le32(x), JumpLess(x))
  {
    hide Le32, FromLe32, ModRm;
    LengthOfNumbers(x);
    forall tail: seq<byte>, op: byte | op in {0x84, 0x8c}
      ensures Decode([0x0f, op] + Le32(x) + tail)
           == Some((if op == 0x84 then JumpZero(x) else JumpLess(x), |[0x0f, op] + Le32(x)|))
    {
      NumberBehind([0x0f, op], x, tail);
      assert ([0x0f, op] + Le32(x) + tail)[0] == 0x0f && ([0x0f, op] + Le32(x) + tail)[1] == op;
    }
  }
}
