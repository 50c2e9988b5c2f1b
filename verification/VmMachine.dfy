/** The byte code machine of vm_engine.c on values: one instruction decoded and performed.  Both
    stacks are flat; a suspended word leaves the length of the return stack at its own entry and
    the address to go on at. */
module VmMachine {
  import opened Common
  import opened Fragments
  import opened NumCodec
  import opened Semantics
  import opened VmBackend

  /** The code section and the address of its first byte. */
  datatype Image = Image(org: int, code: seq<byte>)

  datatype Vm = Vm(env: Env, image: Image)

  datatype VmState = VmState(pc: int, ds: seq<int>, rs: seq<int>, base: int, w: World)

  /** Finished: run_inner returns 0.  Refusal: it returns an error code.  Wild: the program
      leaves what the model describes (an unknown instruction, cells outside the stacks). */
  datatype VmConfig = Going(s: VmState) | Finished(s: VmState) | Refusal(code: int, w: World) | Wild

  /** pc_step: a number at an address. */
  function Fetch(image: Image, pc: int): Option<(int, nat)> {
    if image.org <= pc < image.org + |image.code| then Decode(image.code[pc - image.org..]) else None
  }

  datatype Instruction = Instruction(op: Opcode, param: int, next: int)

  /** The opcodes that the engine's switch knows. */
  function OpcodeOf(n: int): Option<Opcode> {
    match n
    case 0 => Some(BuiltinWord)
    case 1 => Some(DefinedWord)
    case 2 => Some(RuntimeWord)
    case 3 => Some(PushLiteral)
    case 4 => Some(ExitWord)
    case 6 => Some(PushDataAddress)
    case 7 => Some(DeclareVariable)
    case 8 => Some(UseVariableOrConstant)
    case 9 => Some(Halt)
    case 11 => Some(BranchIfZero)
    case 12 => Some(Branch)
    case 13 => Some(Do)
    case 14 => Some(Loop)
    case 15 => Some(PushOffsetAddress)
    case 16 => Some(PushCallback)
    case 17 => Some(DeclareConstant)
    case 18 => Some(Execute)
    case 19 => Some(ThreadCreate)
    case 20 => Some(ThreadJoin)
    case _ => None
  }

  predicate HasOperand(op: Opcode) {
    ShapeOf(op).WithParam? || ShapeOf(op).WithTarget?
  }

  /** The instruction at an address: a number from 22 to 63 is a builtin by itself. */
  function Decoded(image: Image, pc: int): Option<Instruction> {
    match Fetch(image, pc)
    case None => None
    case Some((n, used)) =>
      if OPCODE_LAST <= n <= MAX_ONE_BYTE then Some(Instruction(BuiltinWord, n - OPCODE_LAST, pc + used))
      else
        match OpcodeOf(n)
        case None => None
        case Some(op) => WithOperand(image, op, pc + used)
  }

  function WithOperand(image: Image, op: Opcode, at: int): Option<Instruction> {
    if !HasOperand(op) then Some(Instruction(op, 0, at))
    else
      match Fetch(image, at)
      case None => None
      case Some((x, used)) => Some(Instruction(op, x, at + used))
  }

  // ----- performing -----

  /** The stacks as the stack operations see them: nothing lies below the flat return stack. */
  function Whole(s: VmState): Local {
    Local(s.ds, s.rs, s.w)
  }

  function Proceed(pc: int, base: int, r: Res): VmConfig {
    match r
    case Fine(l) => Going(VmState(pc, l.ds, l.cells, base, l.w))
    case Fault(code, w) => Refusal(code, w)
    case Astray => Wild
  }

  /** RETURN_PUSH of the frame base and of the address to come back to. */
  function PushFrame(base: int, back: int, l: Local): Res {
    match ReturnPush(0, l, base)
    case Fine(l1) => ReturnPush(0, l1, back)
    case r => r
  }

  function EnterWord(s: VmState, back: int, target: int): VmConfig {
    match PushFrame(s.base, back, Whole(s))
    case Fine(l) => Going(VmState(target, l.ds, l.cells, |l.cells|, l.w))
    case r => Proceed(target, 0, r)
  }

  function ExecuteWord(s: VmState, back: int): VmConfig {
    match PushFrame(s.base, back, Whole(s))
    case Fine(l) => Proceed(TopOf(s.ds), |l.cells|, Drop(l))
    case r => Proceed(back, 0, r)
  }

  /** EXIT_WORD: the return stack is cut to the frame base whatever the word left above it. */
  function LeaveWord(s: VmState): VmConfig {
    if !(0 <= s.base <= |s.rs|) then Wild
    else
      var l := Whole(s.(rs := s.rs[..s.base]));
      match ReturnDrop(0, l)
      case Fine(l1) =>
        (match ReturnDrop(0, l1)
         case Fine(l2) =>
           var s1 := VmState(TopOf(l.cells), l2.ds, l2.cells, TopOf(l1.cells), l2.w);
           if s1.pc == 0 then Finished(s1) else Going(s1)
         case r => Proceed(0, 0, r))
      case r => Proceed(0, 0, r)
  }

  function Perform(env: Env, s: VmState, i: Instruction): VmConfig {
    match i.op
    case Halt => Finished(s.(pc := i.next))
    case Branch => Going(s.(pc := s.pc + i.param))
    case BranchIfZero => Proceed(if TopOf(s.ds) == 0 then s.pc + i.param else i.next, s.base, Drop(Whole(s)))
    case Do => Proceed(i.next, s.base, TwoToReturn(0, Whole(s)))
    case Loop =>
      var (r, again) := TestLoop(0, Whole(s));
      Proceed(if again then s.pc + i.param else i.next, s.base, r)
    case DefinedWord => EnterWord(s, i.next, s.pc + i.param)
    case Execute => ExecuteWord(s, i.next)
    case ExitWord => LeaveWord(s)
    case PushOffsetAddress => Proceed(i.next, s.base, Push(Whole(s), s.pc + i.param))
    case _ => Proceed(i.next, s.base, Exec(env, i.op, i.param, 0, Whole(s)))
  }

  function ByteStep(vm: Vm, c: VmConfig): VmConfig {
    if !c.Going? then c
    else
      match Decoded(vm.image, c.s.pc)
      case None => Wild
      case Some(i) => Perform(vm.env, c.s, i)
  }

  function ByteRun(vm: Vm, n: nat, c: VmConfig): VmConfig {
    if n == 0 then c else ByteRun(vm, n - 1, ByteStep(vm, c))
  }

  lemma {:induction false} ByteRunAdd(vm: Vm, a: nat, b: nat, c: VmConfig)
    ensures ByteRun(vm, a + b, c) == ByteRun(vm, b, ByteRun(vm, a, c))
  {
    hide ByteStep;
    if a > 0 { ByteRunAdd(vm, a - 1, b, ByteStep(vm, c)); }
  }

  lemma {:induction false} ByteRunStops(vm: Vm, n: nat, c: VmConfig)
    requires !c.Going?
    ensures ByteRun(vm, n, c) == c
  {
    if n > 0 { ByteRunStops(vm, n - 1, c); }
  }
}
