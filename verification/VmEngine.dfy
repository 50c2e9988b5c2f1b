/** The byte code engine in its own form (vm_engine.c): a context whose stacks are buffers and
    whose fields run_inner updates in place.  Every method is proved against VmMachine. */
module VmEngine {
  import opened Common
  import opened Fragments
  import opened NumCodec
  import opened Semantics
  import opened VmBackend
  import opened VmMachine
  import Frames

  /** m4_stack_t. */
  class CellStack {
    const cells: array<int>
    var len: nat

    ghost predicate Valid()
      reads this
    {
      len <= cells.Length
    }

    function Contents(): seq<int>
      requires Valid()
      reads this, cells
    {
      cells[..len]
    }

    constructor (max: nat)
      ensures Valid() && Contents() == [] && cells.Length == max && fresh(cells)
    {
      cells := new int[max];
      len := 0;
    }

    method Pop() returns (ok: bool, x: int)
      requires Valid()
      modifies this
      ensures Valid() && ok == (old(Contents()) != [])
      ensures ok ==> old(Contents()) == Contents() + [x]
      ensures !ok ==> Contents() == old(Contents())
    {
      if len <= 0 { return false, 0; }
      len := len - 1;
      ok, x := true, cells[len];
    }

    method Push(x: int) returns (ok: bool)
      requires Valid()
      modifies this, cells
      ensures Valid() && ok == (|old(Contents())| < cells.Length)
      ensures Contents() == if ok then old(Contents()) + [x] else old(Contents())
    {
      if len >= cells.Length { return false; }
      cells[len] := x;
      len := len + 1;
      ok := true;
    }

    /** What a word from outside leaves on the stack. */
    method Adopt(s: seq<int>)
      requires Valid() && |s| <= cells.Length
      modifies this, cells
      ensures Valid() && Contents() == s
    {
      forall i | 0 <= i < |s| { cells[i] := s[i]; }
      len := |s|;
    }
  }

  /** What run_inner is told after an instruction. */
  datatype Signal = Continue | Return | Error(code: int) | Undescribed

  /** The words from outside keep the data stack within its buffer. */
  ghost predicate Roomy(env: Env) {
    && (forall n, ds, w :: IsReturnWord(n) || RoomyEffect(ds, env.builtin(n, ds, w)))
    && (forall n, ds, w :: RoomyEffect(ds, env.runtime(n, ds, w)))
    && (forall ds, w :: RoomyEffect(ds, env.threadCreate(ds, w)))
    && (forall ds, w :: RoomyEffect(ds, env.threadJoin(ds, w)))
  }

  predicate RoomyEffect(ds: seq<int>, e: Effect) {
    |ds| <= STACK_CELLS && e.Done? ==> |e.ds| <= STACK_CELLS
  }

  /** No word takes the data stack beyond its hundred cells. */
  ghost predicate KeepsWithin(env: Env) {
    forall op, param, depth, ds, cells, w :: |ds| <= 100 ==> Within(Exec(env, op, param, depth, Local(ds, cells, w)))
  }

  predicate Within(r: Res) {
    r.Fine? ==> |r.l.ds| <= 100
  }

  /** Asked of the words from outside is just what makes this true of every word. */
  lemma {:induction false} RoomyExactly(env: Env)
    ensures Roomy(env) <==> KeepsWithin(env)
  {
    hide Exec, RoomyEffect, Within;
    if Roomy(env) {
      forall op, param, depth: nat, ds, cells, w | |ds| <= 100
        ensures Within(Exec(env, op, param, depth, Local(ds, cells, w)))
      {
        RoomyKeepsWithin(env, op, param, depth, Local(ds, cells, w));
      }
    }
    if KeepsWithin(env) {
      forall n, ds, w ensures IsReturnWord(n) || RoomyEffect(ds, env.builtin(n, ds, w)) {
        if !IsReturnWord(n) { OutsideWithin(env, BuiltinWord, n, ds, w); }
      }
      forall n, ds, w ensures RoomyEffect(ds, env.runtime(n, ds, w)) { OutsideWithin(env, RuntimeWord, n, ds, w); }
      forall ds, w ensures RoomyEffect(ds, env.threadCreate(ds, w)) { OutsideWithin(env, ThreadCreate, 0, ds, w); }
      forall ds, w ensures RoomyEffect(ds, env.threadJoin(ds, w)) { OutsideWithin(env, ThreadJoin, 0, ds, w); }
    }
  }

  lemma {:induction false} RoomyKeepsWithin(env: Env, op: Opcode, param: int, depth: nat, l: Local)
    requires Roomy(env) && |l.ds| <= 100
    ensures Within(Exec(env, op, param, depth, l))
  {
    hide Align, SlotValue, TopOf;
    if op == RuntimeWord { assert RoomyEffect(l.ds, env.runtime(param, l.ds, l.w)); }
    if op == ThreadCreate { assert RoomyEffect(l.ds, env.threadCreate(l.ds, l.w)); }
    if op == ThreadJoin { assert RoomyEffect(l.ds, env.threadJoin(l.ds, l.w)); }
    if op == BuiltinWord && !IsReturnWord(param) { assert RoomyEffect(l.ds, env.builtin(param, l.ds, l.w)); }
  }

  function EffectOf(env: Env, op: Opcode, n: int, ds: seq<int>, w: World): Effect {
    if op == BuiltinWord then env.builtin(n, ds, w)
    else if op == RuntimeWord then env.runtime(n, ds, w)
    else if op == ThreadCreate then env.threadCreate(ds, w)
    else env.threadJoin(ds, w)
  }

  lemma {:induction false} OutsideWithin(env: Env, op: Opcode, n: int, ds: seq<int>, w: World)
    requires op in {BuiltinWord, RuntimeWord, ThreadCreate, ThreadJoin} && (op == BuiltinWord ==> !IsReturnWord(n))
    requires |ds| <= 100 ==> Within(Exec(env, op, n, 0, Local(ds, [], w)))
    ensures RoomyEffect(ds, EffectOf(env, op, n, ds, w))
  {
    hide IsReturnWord;
  }

  /** The signal and the state that a stack operation leaves. */
  ghost predicate Agrees(signal: Signal, now: VmState, was: VmState, r: Res) {
    match r
    case Fine(l) => signal == Continue && now == was.(ds := l.ds, rs := l.cells, w := l.w)
    case Fault(code, w) => signal == Error(code) && now.w == w
    case Astray => signal == Undescribed
  }

  ghost predicate Reports(signal: Signal, now: VmState, c: VmConfig) {
    match c
    case Going(s) => signal == Continue && now == s
    case Finished(s) => signal == Return && now == s
    case Refusal(code, w) => signal == Error(code) && now.w == w
    case Wild => signal == Undescribed
  }

  /** How a callback ends when the nested run has come to c.  A run that returns gives pc back to
      the interrupted word and takes the result off the stack, where the code asserts that there is
      one; a run that is refused or goes on is what the caller sees. */
  ghost predicate CameBack(signal: Signal, ret: int, now: VmState, pc: int, hasReturnValue: bool, c: VmConfig) {
    match c
    case Finished(s) =>
      if hasReturnValue && s.ds == [] then signal == Undescribed && now == s.(pc := pc)
      else
        && signal == Return && now == s.(pc := pc, ds := now.ds)
        && s.ds == now.ds + if hasReturnValue then [ret] else []
    case Refusal(code, w) => signal == Error(code) && now.w == w
    case Going(s) => signal == Continue && now == s
    case Wild => signal == Undescribed
  }

  /** LOOP from a state whose pc is already past the instruction. */
  function AfterLoop(s: VmState, target: int): VmConfig {
    var (r, again) := TestLoop(0, Whole(s));
    Proceed(if again then target else s.pc, s.base, r)
  }

  /** ctx_t. */
  class Engine {
    const stack: CellStack
    const returnStack: CellStack
    const env: Env
    const image: Image
    var returnStackLenBase: int
    var pc: int
    var world: World

    ghost predicate Valid()
      reads this, stack, returnStack
    {
      && stack != returnStack && stack.cells != returnStack.cells
      && stack.Valid() && returnStack.Valid()
      && stack.cells.Length == STACK_CELLS && returnStack.cells.Length == RETURN_CELLS
      && Roomy(env)
    }

    ghost function View(): VmState
      requires Valid()
      reads this, stack, returnStack, stack.cells, returnStack.cells
    {
      VmState(pc, stack.Contents(), returnStack.Contents(), returnStackLenBase, world)
    }

    constructor (env: Env, image: Image, world: World)
      requires Roomy(env)
      ensures Valid() && View() == VmState(image.org, [], [], 0, world)
      ensures this.env == env && this.image == image
      ensures fresh(stack) && fresh(returnStack) && fresh(stack.cells) && fresh(returnStack.cells)
    {
      var s := new CellStack(STACK_CELLS);
      var r := new CellStack(RETURN_CELLS);
      stack, returnStack := s, r;
      this.env, this.image, this.world := env, image, world;
      returnStackLenBase, pc := 0, image.org;
    }

    // ----- the stack macros -----

    method DataPop() returns (signal: Signal, x: int)
      requires Valid()
      modifies stack
      ensures Valid() && Agrees(signal, View(), old(View()), Drop(Whole(old(View()))))
      ensures signal == Continue ==> x == TopOf(old(View()).ds)
    {
      var ok;
      ok, x := stack.Pop();
      signal := if ok then Continue else Error(STACK_UNDERFLOW);
    }

    method DataPush(x: int) returns (signal: Signal)
      requires Valid()
      modifies stack, stack.cells
      ensures Valid() && Agrees(signal, View(), old(View()), Push(Whole(old(View())), x))
    {
      var ok := stack.Push(x);
      signal := if ok then Continue else Error(STACK_OVERFLOW);
    }

    method ReturnPopCell() returns (signal: Signal, x: int)
      requires Valid()
      modifies returnStack
      ensures Valid() && Agrees(signal, View(), old(View()), ReturnDrop(0, Whole(old(View()))))
      ensures signal == Continue ==> x == TopOf(old(View()).rs)
    {
      var ok;
      ok, x := returnStack.Pop();
      signal := if ok then Continue else Error(STACK_UNDERFLOW);
    }

    method ReturnPushCell(x: int) returns (signal: Signal)
      requires Valid()
      modifies returnStack, returnStack.cells
      ensures Valid() && Agrees(signal, View(), old(View()), ReturnPush(0, Whole(old(View())), x))
    {
      var ok := returnStack.Push(x);
      signal := if ok then Continue else Error(STACK_OVERFLOW);
    }

    // ----- words on the return stack -----

    /** DO, and the builtin `2>r`. */
    method DoWord() returns (signal: Signal)
      requires Valid()
      modifies stack, returnStack, returnStack.cells
      ensures Valid() && Agrees(signal, View(), old(View()), TwoToReturn(0, Whole(old(View()))))
    {
      hide TopOf, ReturnPush, Drop;
      var start, end;
      signal, start := DataPop();
      if signal != Continue { return; }
      signal, end := DataPop();
      if signal != Continue { return; }
      signal := ReturnPushCell(end);
      if signal != Continue { return; }
      signal := ReturnPushCell(start);
    }

    /** LOOP: two cells off, one more, and on again while below the limit. */
    method LoopWord() returns (signal: Signal, again: bool)
      requires Valid()
      modifies returnStack, returnStack.cells
      ensures Valid() && Agrees(signal, View(), old(View()), TestLoop(0, Whole(old(View()))).0)
      ensures signal == Continue ==> again == TestLoop(0, Whole(old(View()))).1
    {
      hide TopOf, Wrap;
      again := false;
      var i, end;
      signal, i := ReturnPopCell();
      if signal != Continue { return; }
      signal, end := ReturnPopCell();
      if signal != Continue { return; }
      i := Wrap(i + 1);
      if i < end {
        again := true;
        signal := ReturnPushCell(end);
        if signal != Continue { return; }
        signal := ReturnPushCell(i);
      }
    }

    method ToR() returns (signal: Signal)
      requires Valid()
      modifies stack, returnStack, returnStack.cells
      ensures Valid() && Agrees(signal, View(), old(View()), PopToReturn(0, Whole(old(View()))))
    {
      hide TopOf, ReturnPush, Drop;
      var x;
      signal, x := DataPop();
      if signal != Continue { return; }
      signal := ReturnPushCell(x);
    }

    method RFrom() returns (signal: Signal)
      requires Valid()
      modifies stack, stack.cells, returnStack
      ensures Valid() && Agrees(signal, View(), old(View()), PopFromReturn(0, Whole(old(View()))))
    {
      hide TopOf, ReturnDrop, Push;
      var x;
      signal, x := ReturnPopCell();
      if signal != Continue { return; }
      signal := DataPush(x);
    }

    method TwoRFrom() returns (signal: Signal)
      requires Valid()
      modifies stack, stack.cells, returnStack
      ensures Valid() && Agrees(signal, View(), old(View()), TwoFromReturn(0, Whole(old(View()))))
    {
      hide TopOf, ReturnDrop, Push;
      var r, l;
      signal, r := ReturnPopCell();
      if signal != Continue { return; }
      signal, l := ReturnPopCell();
      if signal != Continue { return; }
      signal := DataPush(l);
      if signal != Continue { return; }
      signal := DataPush(r);
    }

    /** `r@`: a cell off, the same cell back, and a copy on the data stack. */
    method RFetch() returns (signal: Signal)
      requires Valid()
      modifies stack, stack.cells, returnStack, returnStack.cells
      ensures Valid() && Agrees(signal, View(), old(View()), ReturnWord(R_FETCH, 0, Whole(old(View()))))
    {
      var a;
      signal, a := ReturnPopCell();
      if signal != Continue { return; }
      signal := ReturnPushCell(a);
      if signal != Continue { return; }
      signal := DataPush(a);
    }

    /** `i` and `j`: a cell below the top, read in place. */
    method LoopIndex(below: nat) returns (signal: Signal)
      requires Valid() && (below == 1 || below == 3)
      modifies stack, stack.cells
      ensures Valid()
      ensures Agrees(signal, View(), old(View()),
          ReturnWord(if below == 1 then I_WORD else J_WORD, 0, Whole(old(View()))))
    {
      if returnStack.len < below { return Undescribed; }
      signal := DataPush(returnStack.cells[returnStack.len - below]);
    }

    // ----- words from outside and declarations -----

    method Outside(e: Effect) returns (signal: Signal)
      requires Valid() && RoomyEffect(View().ds, e)
      modifies this`world, stack, stack.cells
      ensures Valid() && Agrees(signal, View(), old(View()), Lift(e, old(View()).rs))
    {
      match e
      case Done(ds, w) =>
        stack.Adopt(ds);
        world := w;
        signal := Continue;
      case Refused(code, w) =>
        world := w;
        signal := Error(code);
    }

    method BuiltinCase(n: int) returns (signal: Signal)
      requires Valid()
      modifies this`world, stack, stack.cells, returnStack, returnStack.cells
      ensures Valid() && Agrees(signal, View(), old(View()), Exec(env, BuiltinWord, n, 0, Whole(old(View()))))
    {
      hide TopOf, ReturnDrop, ReturnPush, Push, Drop, PopToReturn, PopFromReturn, TwoToReturn, TwoFromReturn;
      if n == I_WORD { signal := LoopIndex(1); }
      else if n == J_WORD { signal := LoopIndex(3); }
      else if n == TO_R { signal := ToR(); }
      else if n == R_FROM { signal := RFrom(); }
      else if n == TWO_TO_R { signal := DoWord(); }
      else if n == TWO_R_FROM { signal := TwoRFrom(); }
      else if n == R_FETCH { signal := RFetch(); }
      else { signal := Outside(env.builtin(n, stack.Contents(), world)); }
    }

    /** DECLARE_VARIABLE: an aligned cell of the data space, whose address goes in the table. */
    method DeclareVariableCase(slot: int) returns (signal: Signal)
      requires Valid()
      modifies this`world
      ensures Valid() && Agrees(signal, View(), old(View()), Declare(env, slot, Whole(old(View()))))
    {
      world := world.(here := Align(world.here));
      world := world.(slots := world.slots[slot := world.here]);
      world := world.(here := world.here + 4);
      signal := if env.memoryLen - (world.here - env.memoryBase) < 0 then Error(OUT_OF_MEMORY) else Continue;
    }

    method DeclareConstantCase(slot: int) returns (signal: Signal)
      requires Valid()
      modifies this`world, stack
      ensures Valid() && Agrees(signal, View(), old(View()), Define(slot, Whole(old(View()))))
    {
      var x;
      signal, x := DataPop();
      if signal != Continue { return; }
      world := world.(slots := world.slots[slot := x]);
    }

    /** The cases that only touch the stacks and the world. */
    method PlainCase(op: Opcode, n: int) returns (signal: Signal)
      requires Valid() && (ShapeOf(op).WithParam? || op == ThreadCreate || op == ThreadJoin)
      modifies this`world, stack, stack.cells, returnStack, returnStack.cells
      ensures Valid() && Agrees(signal, View(), old(View()), Exec(env, op, n, 0, Whole(old(View()))))
    {
      hide Push, Declare, Define, ReturnWord, Agrees, RoomyEffect;
      match op
      case BuiltinWord => signal := BuiltinCase(n);
      case RuntimeWord => signal := Outside(env.runtime(n, stack.Contents(), world));
      case PushLiteral => signal := DataPush(n);
      case PushDataAddress => signal := DataPush(env.dataStart + n);
      case DeclareVariable => signal := DeclareVariableCase(n);
      case UseVariableOrConstant => signal := DataPush(SlotValue(env, n, world));
      case PushCallback => signal := DataPush(env.callbackTarget(n));
      case DeclareConstant => signal := DeclareConstantCase(n);
      case ThreadCreate => signal := Outside(env.threadCreate(stack.Contents(), world));
      case ThreadJoin => signal := Outside(env.threadJoin(stack.Contents(), world));
    }

    // ----- words and control flow -----

    method EnterWordCase(target: int) returns (signal: Signal)
      requires Valid()
      modifies this`pc, this`returnStackLenBase, returnStack, returnStack.cells
      ensures Valid() && Reports(signal, View(), EnterWord(old(View()), old(pc), target))
    {
      hide ReturnPush;
      signal := ReturnPushCell(returnStackLenBase);
      if signal != Continue { return; }
      signal := ReturnPushCell(pc);
      if signal != Continue { return; }
      returnStackLenBase := returnStack.len;
      pc := target;
    }

    method ExecuteCase() returns (signal: Signal)
      requires Valid()
      modifies this`pc, this`returnStackLenBase, stack, returnStack, returnStack.cells
      ensures Valid() && Reports(signal, View(), ExecuteWord(old(View()), old(pc)))
    {
      hide ReturnPush, TopOf;
      signal := ReturnPushCell(returnStackLenBase);
      if signal != Continue { return; }
      signal := ReturnPushCell(pc);
      if signal != Continue { return; }
      returnStackLenBase := returnStack.len;
      var fn;
      signal, fn := DataPop();
      if signal != Continue { return; }
      pc := fn;
    }

    /** EXIT_WORD: cut to the frame base, then the address and the caller's base come off. */
    method ExitWordCase() returns (signal: Signal)
      requires Valid()
      modifies this`pc, this`returnStackLenBase, returnStack
      ensures Valid() && Reports(signal, View(), LeaveWord(old(View())))
    {
      hide TopOf;
      if !(0 <= returnStackLenBase <= returnStack.len) { return Undescribed; }
      ghost var was := View();
      returnStack.len := returnStackLenBase;
      assert returnStack.Contents() == was.rs[..was.base];
      var back, base;
      signal, back := ReturnPopCell();
      if signal != Continue { return; }
      signal, base := ReturnPopCell();
      if signal != Continue { return; }
      pc, returnStackLenBase := back, base;
      if pc == 0 { signal := Return; }
    }

    method BranchIfZeroCase(target: int) returns (signal: Signal)
      requires Valid()
      modifies this`pc, stack
      ensures Valid()
      ensures Reports(signal, View(),
          Proceed(if TopOf(old(View()).ds) == 0 then target else old(pc), returnStackLenBase,
          Drop(Whole(old(View())))))
    {
      hide TopOf;
      var cond;
      signal, cond := DataPop();
      if signal != Continue { return; }
      if cond == 0 { pc := target; }
    }

    method LoopCase(target: int) returns (signal: Signal)
      requires Valid()
      modifies this`pc, returnStack, returnStack.cells
      ensures Valid()
      ensures Reports(signal, View(), AfterLoop(old(View()), target))
    {
      hide TestLoop, Agrees, Reports, Proceed;
      ghost var was := View();
      var again;
      signal, again := LoopWord();
      ghost var now := View();
      Jumps(signal, now, was, TestLoop(0, Whole(was)).0, if TestLoop(0, Whole(was)).1 then target else was.pc);
      if signal == Continue && again {
        pc := target;
        assert View() == now.(pc := target);
      }
    }

    /** The cases that touch the flow of control; pc is already past the instruction. */
    method ControlCase(op: Opcode, n: int, pcInitial: int) returns (signal: Signal)
      requires Valid() && op in {Halt, Branch, BranchIfZero, Do, Loop, DefinedWord, Execute, ExitWord,
          PushOffsetAddress}
      modifies this, stack, stack.cells, returnStack, returnStack.cells
      ensures Valid() && Reports(signal, View(),
          Perform(env, old(View()).(pc := pcInitial), Instruction(op, n, old(pc))))
    {
      hide EnterWord, ExecuteWord, LeaveWord, TestLoop, TwoToReturn, Push, Drop, Exec, TopOf, Roomy;
      SameFrames(View(), pcInitial, pc, pcInitial + n);
      match op
      case Halt => signal := Return;
      case Branch =>
        pc := pcInitial + n;
        signal := Continue;
      case BranchIfZero => signal := BranchIfZeroCase(pcInitial + n);
      case Do => signal := DoWord();
      case Loop => signal := LoopCase(pcInitial + n);
      case DefinedWord => signal := EnterWordCase(pcInitial + n);
      case Execute => signal := ExecuteCase();
      case ExitWord => signal := ExitWordCase();
      case PushOffsetAddress => signal := DataPush(pcInitial + n);
    }

    /** An instruction that has been decoded at pcInitial. */
    method PerformCase(op: Opcode, n: int, pcInitial: int) returns (signal: Signal)
      requires Valid() && !ShapeOf(op).Silent?
      modifies this, stack, stack.cells, returnStack, returnStack.cells
      ensures Valid() && Reports(signal, View(),
          Perform(env, old(View()).(pc := pcInitial), Instruction(op, n, old(pc))))
    {
      hide Exec, Roomy, Reports, Agrees, Perform, Proceed;
      if ShapeOf(op).WithParam? || op == ThreadCreate || op == ThreadJoin {
        ghost var was := View();
        signal := PlainCase(op, n);
        PlainReported(signal, View(), was, pcInitial, env, Instruction(op, n, was.pc));
      } else {
        signal := ControlCase(op, n, pcInitial);
      }
    }

    // ----- the loop -----

    /** Reads one number and moves pc past it. */
    method PcStep() returns (ok: bool, num: int)
      modifies this`pc
      ensures Fetch(image, old(pc)) == if ok then Some((num, pc - old(pc))) else None
      ensures ok ==> pc >= old(pc)
    {
      ok, num := false, 0;
      if !(image.org <= pc < image.org + |image.code|) { return; }
      var src := image.code[pc - image.org..];
      if Span(src).None? { return; }
      var used;
      num, used := DecodeAt(src);
      ok, pc := true, pc + used;
    }

    method DecodeNext() returns (ok: bool, op: Opcode, n: int)
      modifies this`pc
      ensures Decoded(image, old(pc)) == if ok then Some(Instruction(op, n, pc)) else None
      ensures ok ==> !ShapeOf(op).Silent?
    {
      hide Fetch;
      op, n := Halt, 0;
      var number;
      ok, number := PcStep();
      if !ok { return; }
      var builtin := -1;
      if OPCODE_LAST <= number <= MAX_ONE_BYTE {
        builtin, number := number - OPCODE_LAST, 0;
      }
      var known := OpcodeOf(number);
      if known.None? { return false, op, n; }
      op := known.value;
      if builtin != -1 {
        n := builtin;
      } else if HasOperand(op) {
        ok, n := PcStep();
      }
    }

    /** One turn of run_inner. */
    method StepOnce() returns (signal: Signal)
      requires Valid()
      modifies this, stack, stack.cells, returnStack, returnStack.cells
      ensures Valid() && Reports(signal, View(), ByteStep(Vm(env, image), Going(old(View()))))
    {
      hide Decoded, Perform, Reports, Roomy;
      var pcInitial := pc;
      ghost var was := View();
      var ok, op, n := DecodeNext();
      if !ok {
        WildReported(View());
        return Undescribed;
      }
      assert View().(pc := pcInitial) == was;
      signal := PerformCase(op, n, pcInitial);
    }

    /** The engine's loop, for as many instructions as `limit` allows. */
    method RunInner(limit: nat) returns (signal: Signal)
      requires Valid()
      modifies this, stack, stack.cells, returnStack, returnStack.cells
      ensures Valid() && Reports(signal, View(), ByteRun(Vm(env, image), limit, Going(old(View()))))
    {
      hide ByteStep, Roomy, ByteRun;
      ghost var vm, c := Vm(env, image), Going(View());
      signal := Continue;
      var left: nat := limit;
      RunStarts(vm, limit, c);
      while left > 0 && signal == Continue
        invariant Valid() && Reports(signal, View(), c) && left <= limit
        invariant ByteRun(vm, left, c) == ByteRun(vm, limit, Going(old(View())))
        decreases left
      {
        RunNext(vm, left, c);
        c := ByteStep(vm, c);
        signal := StepOnce();
        left := left - 1;
      }
      RunEnds(vm, left, c, signal);
    }

    method PushArguments(args: seq<int>)
      requires Valid() && |View().ds| + |args| <= STACK_CELLS
      modifies stack, stack.cells
      ensures Valid() && View() == old(View()).(ds := old(View()).ds + args)
    {
      hide Roomy;
      ghost var was := View();
      var i := 0;
      assert was.ds + args[..0] == was.ds;
      while i < |args|
        invariant 0 <= i <= |args| && Valid() && View() == was.(ds := was.ds + args[..i])
      {
        var done := stack.Push(args[i]);
        assert was.ds + args[..i + 1] == was.ds + args[..i] + [args[i]];
        i := i + 1;
      }
      assert args[..i] == args;
    }

    /** The sentinel frame: the frame base, and no address to come back to. */
    method PushSentinel(target: int)
      requires Valid() && |View().rs| + 2 <= RETURN_CELLS
      modifies this`pc, this`returnStackLenBase, returnStack, returnStack.cells
      ensures Valid() && View() == Frames.CallbackStart(old(View()), target, old(View()).ds)
    {
      hide Roomy;
      ghost var was := View();
      var ok := returnStack.Push(returnStackLenBase);
      ok := returnStack.Push(0);
      assert was.rs + [was.base] + [0] == was.rs + [was.base, 0];
      returnStackLenBase := returnStack.len;
      pc := target;
    }

    /** A callback from C into a word: the arguments, a sentinel frame with a null address, a
        nested run, and pc as it was. */
    method CallbackHandle(target: int, args: seq<int>, hasReturnValue: bool, limit: nat)
      returns (signal: Signal, ret: int)
      requires Valid() && |View().ds| + |args| <= STACK_CELLS && |View().rs| + 2 <= RETURN_CELLS
      modifies this, stack, stack.cells, returnStack, returnStack.cells
      ensures Valid()
      ensures CameBack(signal, ret, View(), old(pc), hasReturnValue, ByteRun(Vm(env, image), limit,
          Going(Frames.CallbackStart(old(View()), target, old(View()).ds + args))))
    {
      hide ByteRun, Roomy;
      ghost var was := View();
      var pcSave := pc;
      PushArguments(args);
      PushSentinel(target);
      assert View() == Frames.CallbackStart(was, target, was.ds + args);
      ret := 0;
      signal := RunInner(limit);
      if signal != Return { return; }
      pc := pcSave;
      if hasReturnValue {
        var ok;
        ok, ret := stack.Pop();
        if !ok { signal := Undescribed; }
      }
    }
  }

  /** Words are entered and left the same way wherever the instruction stands. */
  lemma {:induction false} SameFrames(s: VmState, pc: int, back: int, target: int)
    ensures EnterWord(s.(pc := pc), back, target) == EnterWord(s, back, target)
    ensures ExecuteWord(s.(pc := pc), back) == ExecuteWord(s, back)
    ensures LeaveWord(s.(pc := pc)) == LeaveWord(s)
  {
    hide ReturnPush, ReturnDrop, Drop, TopOf;
  }

  lemma {:induction false} PlainReported(signal: Signal, now: VmState, was: VmState, pcInitial: int, env: Env,
      i: Instruction)
    requires Agrees(signal, now, was, Exec(env, i.op, i.param, 0, Whole(was))) && was.pc == i.next
    requires ShapeOf(i.op).WithParam? || i.op == ThreadCreate || i.op == ThreadJoin
    ensures Reports(signal, now, Perform(env, was.(pc := pcInitial), i))
  {
    hide Exec;
  }

  lemma {:induction false} Jumps(signal: Signal, now: VmState, was: VmState, r: Res, pc: int)
    requires Agrees(signal, now, was, r)
    ensures Reports(signal, if signal == Continue then now.(pc := pc) else now, Proceed(pc, was.base, r))
    ensures signal == Continue ==> now.pc == was.pc
  {
  }

  lemma {:induction false} WildReported(now: VmState)
    ensures Reports(Undescribed, now, Wild)
  {
  }

  lemma {:induction false} RunStarts(vm: Vm, n: nat, c: VmConfig)
    requires c.Going?
    ensures Reports(Continue, c.s, c)
  {
  }

  lemma {:induction false} RunNext(vm: Vm, n: nat, c: VmConfig)
    requires n > 0
    ensures ByteRun(vm, n, c) == ByteRun(vm, n - 1, ByteStep(vm, c))
  {
    hide ByteStep;
  }

  lemma {:induction false} RunEnds(vm: Vm, n: nat, c: VmConfig, signal: Signal)
    requires (n > 0 ==> signal != Continue) && (signal == Continue) == c.Going?
    ensures ByteRun(vm, n, c) == c
  {
    hide ByteStep;
    if n > 0 { ByteRunStops(vm, n, c); }
  }
}
