/** Byte code simulates fragments: the engine, started at a fragment's address, does what the
    fragment machine does at that place, instruction by instruction, and the two stop together. */
module ByteSimulation {
  import opened Common
  import opened Fragments
  import opened NumCodec
  import opened Relaxation
  import opened Grammar
  import opened Semantics
  import opened FragmentMachine
  import opened VmBackend
  import opened VmMachine
  import opened Frames
  import opened ByteDecoding

  function Back(lay: Layout, ret: Option<nat>): int {
    match ret
    case None => 0
    case Some(k) => Address(lay, k)
  }

  function SavedOf(lay: Layout, callers: seq<Frame>): seq<Saved> {
    if callers == [] then []
    else
      var f := callers[|callers| - 1];
      SavedOf(lay, callers[..|callers| - 1]) + [Saved(Back(lay, f.ret), f.cells)]
  }

  /** The return stack below the cells of the running word. */
  function Below(lay: Layout, callers: seq<Frame>): seq<int> {
    Flat(SavedOf(lay, callers))
  }

  function StateOf(lay: Layout, pc: nat, l: Local, callers: seq<Frame>): VmState {
    VmState(Address(lay, pc), l.ds, Below(lay, callers) + l.cells, |Below(lay, callers)|, l.w)
  }

  /** The byte machine shows what the fragment machine shows. */
  ghost predicate Matches(lay: Layout, b: Config, c: VmConfig) {
    match b
    case Running(pc, l, callers) => c == Going(StateOf(lay, pc, l, callers))
    case Halted(l) => c.Finished? && c.s.ds == l.ds && c.s.w == l.w
    case Returned(l, callers) => c == Finished(StateOf(lay, 0, l, callers).(pc := 0))
    case Failure(code, w) => c == Refusal(code, w)
    case Stray => true
  }

  lemma {:induction false} DepthIsBelow(lay: Layout, callers: seq<Frame>)
    ensures Depth(callers) == |Below(lay, callers)|
  {
    if callers != [] {
      var low := callers[..|callers| - 1];
      DepthIsBelow(lay, low);
      SavedLast(lay, callers);
    }
  }

  lemma {:induction false} SavedLast(lay: Layout, callers: seq<Frame>)
    requires callers != []
    ensures var low, f := callers[..|callers| - 1], callers[|callers| - 1];
      var fs := SavedOf(lay, callers);
      |fs| > 0 && fs[..|fs| - 1] == SavedOf(lay, low) && fs[|fs| - 1] == Saved(Back(lay, f.ret), f.cells)
      && Below(lay, callers) == Below(lay, low) + f.cells + [|Below(lay, low)|, Back(lay, f.ret)]
  {
    hide Back;
  }

  lemma {:induction false} SavedAdded(lay: Layout, callers: seq<Frame>, f: Frame)
    ensures Below(lay, callers + [f]) == Below(lay, callers) + f.cells + [|Below(lay, callers)|, Back(lay, f.ret)]
  {
    hide Back, SavedOf, Flat;
    SavedLast(lay, callers + [f]);
    assert (callers + [f])[..|callers|] == callers;
  }

  // ----- the stack operations above a frame base -----

  function Under(below: seq<int>, l: Local): Local {
    l.(cells := below + l.cells)
  }

  /** What the operation does with the cells of its own word, it does on the flat stack. */
  ghost predicate Lifts(below: seq<int>, b: Res, c: Res) {
    match b
    case Fine(l) => c == Fine(Under(below, l))
    case Fault(code, w) => c == Fault(code, w)
    case Astray => true
  }

  lemma {:induction false} PushLifts(below: seq<int>, l: Local, x: int)
    ensures Lifts(below, Push(l, x), Push(Under(below, l), x))
  {
  }

  lemma {:induction false} DropLifts(below: seq<int>, l: Local)
    ensures Lifts(below, Drop(l), Drop(Under(below, l)))
  {
  }

  lemma {:induction false} ReturnPushLifts(below: seq<int>, l: Local, x: int)
    ensures Lifts(below, ReturnPush(|below|, l, x), ReturnPush(0, Under(below, l), x))
  {
    assert below + l.cells + [x] == below + (l.cells + [x]);
  }

  lemma {:induction false} ReturnDropLifts(below: seq<int>, l: Local)
    ensures Lifts(below, ReturnDrop(|below|, l), ReturnDrop(0, Under(below, l)))
    ensures ReturnDrop(|below|, l).Fine? ==> TopOf(below + l.cells) == TopOf(l.cells)
  {
    if l.cells != [] {
      assert (below + l.cells)[..|below + l.cells| - 1] == below + l.cells[..|l.cells| - 1];
    } else {
      assert below + [] == below;
    }
  }

  lemma {:induction false} PopToReturnLifts(below: seq<int>, l: Local)
    ensures Lifts(below, PopToReturn(|below|, l), PopToReturn(0, Under(below, l)))
  {
    hide ReturnPush;
    if Drop(l).Fine? { ReturnPushLifts(below, Drop(l).l, TopOf(l.ds)); }
  }

  lemma {:induction false} PopFromReturnLifts(below: seq<int>, l: Local)
    ensures Lifts(below, PopFromReturn(|below|, l), PopFromReturn(0, Under(below, l)))
  {
    hide ReturnDrop, TopOf;
    ReturnDropLifts(below, l);
  }

  lemma {:induction false} TwoToReturnLifts(below: seq<int>, l: Local)
    ensures Lifts(below, TwoToReturn(|below|, l), TwoToReturn(0, Under(below, l)))
  {
    hide ReturnPush, TopOf, Drop;
    DropLifts(below, l);
    if Drop(l).Fine? {
      var l1 := Drop(l).l;
      DropLifts(below, l1);
      if Drop(l1).Fine? { TwoPushedLift(below, Drop(l1).l, TopOf(l1.ds), TopOf(l.ds)); }
    }
  }

  function TwoPushed(depth: nat, l: Local, x: int, y: int): Res {
    match ReturnPush(depth, l, x)
    case Fine(l1) => ReturnPush(depth, l1, y)
    case r => r
  }

  lemma {:induction false} TwoPushedLift(below: seq<int>, l: Local, x: int, y: int)
    ensures Lifts(below, TwoPushed(|below|, l, x, y), TwoPushed(0, Under(below, l), x, y))
  {
    hide ReturnPush;
    ReturnPushLifts(below, l, x);
    if ReturnPush(|below|, l, x).Fine? { ReturnPushLifts(below, ReturnPush(|below|, l, x).l, y); }
  }

  lemma {:induction false} TwoFromReturnLifts(below: seq<int>, l: Local)
    ensures Lifts(below, TwoFromReturn(|below|, l), TwoFromReturn(0, Under(below, l)))
  {
    hide ReturnDrop, TopOf;
    ReturnDropLifts(below, l);
    if ReturnDrop(|below|, l).Fine? { ReturnDropLifts(below, ReturnDrop(|below|, l).l); }
  }

  lemma {:induction false} FetchCellLifts(below: seq<int>, l: Local)
    ensures Lifts(below, ReturnWord(R_FETCH, |below|, l), ReturnWord(R_FETCH, 0, Under(below, l)))
  {
    hide ReturnDrop, TopOf;
    ReturnDropLifts(below, l);
  }

  lemma {:induction false} ReturnWordLifts(n: int, below: seq<int>, l: Local)
    ensures Lifts(below, ReturnWord(n, |below|, l), ReturnWord(n, 0, Under(below, l)))
  {
    hide PopToReturn, PopFromReturn, TwoToReturn, TwoFromReturn, ReturnDrop;
    if n == TO_R { PopToReturnLifts(below, l); }
    else if n == R_FROM { PopFromReturnLifts(below, l); }
    else if n == TWO_TO_R { TwoToReturnLifts(below, l); }
    else if n == TWO_R_FROM { TwoFromReturnLifts(below, l); }
    else if n != I_WORD && n != J_WORD { FetchCellLifts(below, l); }
  }

  lemma {:induction false} TestLoopLifts(below: seq<int>, l: Local)
    ensures Lifts(below, TestLoop(|below|, l).0, TestLoop(0, Under(below, l)).0)
    ensures TestLoop(|below|, l).0.Fine? ==> TestLoop(|below|, l).1 == TestLoop(0, Under(below, l)).1
  {
    hide ReturnDrop, TopOf, Wrap;
    ReturnDropLifts(below, l);
    if ReturnDrop(|below|, l).Fine? {
      var l1 := ReturnDrop(|below|, l).l;
      ReturnDropLifts(below, l1);
      if ReturnDrop(|below|, l1).Fine? {
        var l2, limit, index := ReturnDrop(|below|, l1).l, TopOf(l1.cells), Wrap(TopOf(l.cells) + 1);
        assert below + l2.cells + [limit, index] == below + (l2.cells + [limit, index]);
      }
    }
  }

  lemma {:induction false} ExecLifts(env: Env, op: Opcode, param: int, below: seq<int>, l: Local)
    ensures Lifts(below, Exec(env, op, param, |below|, l), Exec(env, op, param, 0, Under(below, l)))
  {
    hide ReturnWord;
    if op == BuiltinWord { ReturnWordLifts(param, below, l); }
  }

  // ----- one instruction -----

  /** The engine's configuration for each way a fragment can continue. */
  lemma {:induction false} ContinueMatches(lay: Layout, pc: nat, callers: seq<Frame>, b: Res, c: Res)
    requires Lifts(Below(lay, callers), b, c)
    ensures Matches(lay, Continue(pc, callers, b), Proceed(Address(lay, pc), |Below(lay, callers)|, c))
  {
    hide Address, Below;
  }

  lemma {:induction false} EnterMatches(lay: Layout, m: Machine, pc: nat, l: Local, callers: seq<Frame>, target: int)
    requires m.code == lay.code
    ensures Matches(lay,
      if RoomForFrame(l, callers) then Enter(m, pc, l, callers, target) else Failure(STACK_OVERFLOW, l.w),
      EnterWord(StateOf(lay, pc, l, callers), Address(lay, pc + 1), Address(lay, IndexOf(lay.code.order, target))))
  {
    hide Address, Below, Depth, IndexOf;
    DepthIsBelow(lay, callers);
    var f := Frame(Some(pc + 1), l.cells);
    SavedAdded(lay, callers, f);
    var below := Below(lay, callers);
    assert below + l.cells + [|below|] + [Address(lay, pc + 1)] == below + l.cells + [|below|, Address(lay, pc + 1)];
    assert Below(lay, callers + [f]) + [] == Below(lay, callers + [f]);
  }

  lemma {:induction false} ExitMatches(lay: Layout, pc: nat, l: Local, callers: seq<Frame>)
    requires lay.org > 0
    requires callers != [] && callers[|callers| - 1].ret.Some? ==> Address(lay, callers[|callers| - 1].ret.value) > 0
    ensures Matches(lay, ExitFragment(l, callers), LeaveWord(StateOf(lay, pc, l, callers)))
  {
    hide Address, Flat, LeaveWord;
    var s, fs := StateOf(lay, pc, l, callers), SavedOf(lay, callers);
    assert (Below(lay, callers) + l.cells)[..|Below(lay, callers)|] == Below(lay, callers);
    LeavesFramed(s, fs);
    if callers != [] { SavedLast(lay, callers); }
  }

  lemma {:induction false} PositiveAddress(image: Image, lay: Layout, k: nat)
    requires Carries(image, lay)
    ensures Address(lay, k) > 0
  {
    hide Solved, Sound, CodeBytes;
    if k <= |lay.r| { assert Position(BackendOf(lay.code.frags, lay.code.order), lay.r, k) >= 0; }
  }

  // ----- a fragment and the instruction it became -----

  /** The machines run the same program in the same environment. */
  ghost predicate SameProgram(vm: Vm, m: Machine, lay: Layout) {
    && m.env == vm.env && m.code == lay.code && Carries(vm.image, lay)
    && |m.addresses| == |lay.code.frags|
    && (forall id :: 0 <= id < |lay.code.frags| ==> m.addresses[id] == Address(lay, IndexOf(lay.code.order, id)))
    && (forall k :: 0 <= k < |lay.code.words| ==> lay.code.words[k] < |lay.code.frags|)
  }

  lemma {:induction false} ExecuteMatches(vm: Vm, m: Machine, lay: Layout, pc: nat, l: Local, callers: seq<Frame>)
    requires SameProgram(vm, m, lay)
    ensures Matches(lay, ExecuteFragment(m, pc, l, callers),
        ExecuteWord(StateOf(lay, pc, l, callers), Address(lay, pc + 1)))
  {
    hide Address, Below, Depth, IndexOf, Carries, FindToken;
    DepthIsBelow(lay, callers);
    var f := Frame(Some(pc + 1), l.cells);
    SavedAdded(lay, callers, f);
    var below := Below(lay, callers);
    assert below + l.cells + [|below|] + [Address(lay, pc + 1)] == below + l.cells + [|below|, Address(lay, pc + 1)];
    assert Below(lay, callers + [f]) + [] == Below(lay, callers + [f]);
    TokenFound(Tokens(m), TopOf(l.ds));
  }

  lemma {:induction false} TargetAddress(lay: Layout, k: nat)
    requires Fetches(lay.code, k) && ShapeOf(FragmentAt(lay.code, k).op).WithTarget?
    ensures Address(lay, k) + Operand(lay, k) == Address(lay, IndexOf(lay.code.order, FragmentAt(lay.code, k).param))
  {
    hide Offset, IndexOf;
  }

  lemma {:induction false} PlainMatches(vm: Vm, m: Machine, lay: Layout, f: Fragment, pc: nat, l: Local,
      callers: seq<Frame>, i: Instruction)
    requires SameProgram(vm, m, lay) && i == Instruction(f.op, i.param, Address(lay, pc + 1))
    requires ShapeOf(f.op).WithParam? || f.op == ThreadCreate || f.op == ThreadJoin
    requires ShapeOf(f.op).WithParam? ==> i.param == f.param
    ensures Matches(lay, StepFragment(m, f, pc, l, callers), Perform(vm.env, StateOf(lay, pc, l, callers), i))
  {
    hide Address, Below, Depth, IndexOf, Carries, ReturnWord, Matches, Continue, Proceed;
    DepthIsBelow(lay, callers);
    var below := Below(lay, callers);
    ExecLifts(vm.env, f.op, i.param, below, l);
    ContinueMatches(lay, pc + 1, callers, Exec(vm.env, f.op, i.param, |below|, l),
        Exec(vm.env, f.op, i.param, 0, Under(below, l)));
  }

  lemma {:induction false} ControlMatches(vm: Vm, m: Machine, lay: Layout, f: Fragment, pc: nat, l: Local,
      callers: seq<Frame>, i: Instruction)
    requires SameProgram(vm, m, lay) && i == Instruction(f.op, i.param, Address(lay, pc + 1))
    requires f.op in {BranchIfZero, Branch, Loop, Do, Halt}
    requires f.op in {BranchIfZero, Branch, Loop} ==>
        Address(lay, pc) + i.param == Address(lay, IndexOf(lay.code.order, f.param))
    ensures Matches(lay, StepFragment(m, f, pc, l, callers), Perform(vm.env, StateOf(lay, pc, l, callers), i))
  {
    hide Address, Below, Depth, IndexOf, Carries, TestLoop, TwoToReturn, Continue, Proceed;
    DepthIsBelow(lay, callers);
    var below, to := Below(lay, callers), IndexOf(lay.code.order, f.param);
    match f.op
    case BranchIfZero =>
      DropLifts(below, l);
      ContinueMatches(lay, if TopOf(l.ds) == 0 then to else pc + 1, callers, Drop(l), Drop(Under(below, l)));
    case Loop =>
      TestLoopLifts(below, l);
      var (b, again) := TestLoop(|below|, l);
      ContinueMatches(lay, if again then to else pc + 1, callers, b, TestLoop(0, Under(below, l)).0);
      LoopEnds(lay, callers, b, again, TestLoop(0, Under(below, l)).0, TestLoop(0, Under(below, l)).1, to, pc + 1);
    case Do =>
      TwoToReturnLifts(below, l);
      ContinueMatches(lay, pc + 1, callers, TwoToReturn(|below|, l), TwoToReturn(0, Under(below, l)));
    case Branch =>
    case Halt =>
  }

  /** Where the fragment machine does not go on, the next address does not matter. */
  lemma {:induction false} LoopEnds(lay: Layout, callers: seq<Frame>, b: Res, again: bool, c: Res, again1: bool,
      to: nat, on: nat)
    requires Lifts(Below(lay, callers), b, c) && (b.Fine? ==> again == again1)
    ensures Matches(lay, Continue(if again then to else on, callers, b),
                    Proceed(if again1 then Address(lay, to) else Address(lay, on), |Below(lay, callers)|, c))
  {
    hide Address, Below;
  }

  lemma {:induction false} WordMatches(vm: Vm, m: Machine, lay: Layout, f: Fragment, pc: nat, l: Local,
      callers: seq<Frame>, i: Instruction)
    requires SameProgram(vm, m, lay) && i == Instruction(f.op, i.param, Address(lay, pc + 1))
    requires f.op in {DefinedWord, Execute, ExitWord, PushOffsetAddress}
    requires f.op in {DefinedWord, PushOffsetAddress} ==>
        Address(lay, pc) + i.param == Address(lay, IndexOf(lay.code.order, f.param))
    requires f.op == PushOffsetAddress ==> 0 <= f.param < |m.addresses|
    ensures Matches(lay, StepFragment(m, f, pc, l, callers), Perform(vm.env, StateOf(lay, pc, l, callers), i))
  {
    hide Address, Below, Depth, IndexOf, Carries, ExecuteFragment, ExecuteWord, EnterWord, Enter, LeaveWord,
        ExitFragment, Continue, Proceed, Matches;
    match f.op
    case DefinedWord => EnterMatches(lay, m, pc, l, callers, f.param);
    case Execute => ExecuteMatches(vm, m, lay, pc, l, callers);
    case ExitWord =>
      if callers != [] && callers[|callers| - 1].ret.Some? {
        PositiveAddress(vm.image, lay, callers[|callers| - 1].ret.value);
      }
      OrgPositive(vm.image, lay);
      ExitMatches(lay, pc, l, callers);
    case PushOffsetAddress =>
      var below := Below(lay, callers);
      PushLifts(below, l, AddressOf(m, f.param));
      ContinueMatches(lay, pc + 1, callers, Push(l, AddressOf(m, f.param)),
          Push(Under(below, l), AddressOf(m, f.param)));
  }

  lemma {:induction false} OrgPositive(image: Image, lay: Layout)
    requires Carries(image, lay)
    ensures lay.org > 0
  {
  }

  /** One instruction: decoded at the fragment's address and performed, it leaves the byte machine
      where the fragment leaves the fragment machine. */
  lemma {:induction false} StepMatches(vm: Vm, m: Machine, lay: Layout, pc: nat, l: Local, callers: seq<Frame>)
    requires SameProgram(vm, m, lay) && Fetches(lay.code, pc) && !ShapeOf(FragmentAt(lay.code, pc).op).Silent?
    ensures Matches(lay, StepFragment(m, FragmentAt(lay.code, pc), pc, l, callers),
        ByteStep(vm, Going(StateOf(lay, pc, l, callers))))
  {
    hide Address, Below, Decoded, Perform, StepFragment, Matches, Carries;
    var f, i := FragmentAt(lay.code, pc),
        Instruction(FragmentAt(lay.code, pc).op, Operand(lay, pc), Address(lay, pc + 1));
    DecodesAt(vm.image, lay, pc);
    if ShapeOf(f.op).WithTarget? {
      TargetAddress(lay, pc);
      TargetKnown(vm.image, lay, pc);
    }
    if f.op in {BranchIfZero, Branch, Loop, Do, Halt} {
      ControlMatches(vm, m, lay, f, pc, l, callers, i);
    } else if f.op in {DefinedWord, Execute, ExitWord, PushOffsetAddress} {
      WordMatches(vm, m, lay, f, pc, l, callers, i);
    } else {
      PlainMatches(vm, m, lay, f, pc, l, callers, i);
    }
  }

  lemma {:induction false} TargetKnown(image: Image, lay: Layout, k: nat)
    requires Carries(image, lay) && Fetches(lay.code, k) && ShapeOf(FragmentAt(lay.code, k).op).WithTarget?
    ensures 0 <= FragmentAt(lay.code, k).param < |lay.code.frags|
  {
    hide Solved, CodeBytes, Position;
    assert TargetAt(lay.code.frags, lay.code.order, k) < |lay.code.order|;
    IndexFound(lay.code.order, FragmentAt(lay.code, k).param);
  }

  // ----- whole runs -----

  /** Locations and the entry have no bytes: the engine is already at the next fragment. */
  lemma {:induction false} SilentStep(vm: Vm, m: Machine, lay: Layout, pc: nat, l: Local, callers: seq<Frame>)
    requires SameProgram(vm, m, lay) && Fetches(lay.code, pc) && ShapeOf(FragmentAt(lay.code, pc).op).Silent?
    ensures Step(m, Running(pc, l, callers)) == Running(pc + 1, l, callers)
    ensures StateOf(lay, pc + 1, l, callers) == StateOf(lay, pc, l, callers)
  {
    hide Below, Solved, Sound, CodeBytes;
    OffsetStep(lay, pc);
  }

  predicate AtSilent(c: Code, pc: nat) {
    Fetches(c, pc) && ShapeOf(FragmentAt(c, pc).op).Silent?
  }

  lemma {:induction false} SkipSilent(vm: Vm, m: Machine, lay: Layout, pc: nat, l: Local, callers: seq<Frame>)
      returns (n: nat)
    requires SameProgram(vm, m, lay)
    ensures Run(m, n, Running(pc, l, callers)) == Running(pc + n, l, callers) && !AtSilent(lay.code, pc + n)
    ensures StateOf(lay, pc + n, l, callers) == StateOf(lay, pc, l, callers)
    decreases if pc <= |lay.code.order| then |lay.code.order| - pc else 0
  {
    hide SameProgram, StateOf, Step, ShapeOf;
    n := 0;
    if AtSilent(lay.code, pc) {
      SilentStep(vm, m, lay, pc, l, callers);
      var k := SkipSilent(vm, m, lay, pc + 1, l, callers);
      n := k + 1;
    }
  }

  /** One step of the byte machine is one or more steps of the fragment machine. */
  lemma {:induction false} ByteStepFollows(vm: Vm, m: Machine, lay: Layout, b: Config, c: VmConfig) returns (n: nat)
    requires SameProgram(vm, m, lay) && b.Running? && Matches(lay, b, c)
    ensures n >= 1 && Matches(lay, Run(m, n, b), ByteStep(vm, c))
  {
    hide StateOf, Run, ByteStep, StepFragment, ShapeOf, Carries;
    var k := SkipSilent(vm, m, lay, b.pc, b.l, b.callers);
    var b1 := Running(b.pc + k, b.l, b.callers);
    n := k + 1;
    RunAdd(m, k, 1, b);
    StepOnce(m, b1);
    if Fetches(lay.code, b1.pc) {
      StepMatches(vm, m, lay, b1.pc, b.l, b.callers);
    }
  }

  lemma {:induction false} StepOnce(m: Machine, b: Config)
    ensures Run(m, 1, b) == Step(m, b)
  {
    hide Step;
    assert Run(m, 0, Step(m, b)) == Step(m, b);
  }

  /** After any number of instructions the byte machine shows what the fragment machine shows
      after at least as many steps. */
  lemma {:induction false} BytesFollow(vm: Vm, m: Machine, lay: Layout, k: nat, b: Config, c: VmConfig) returns (n: nat)
    requires SameProgram(vm, m, lay) && Matches(lay, b, c)
    ensures n >= k && Matches(lay, Run(m, n, b), ByteRun(vm, k, c))
    decreases k
  {
    hide SameProgram, StateOf, Step, ByteStep;
    if k == 0 {
      n := 0;
    } else if b.Running? {
      var n1 := ByteStepFollows(vm, m, lay, b, c);
      var n2 := BytesFollow(vm, m, lay, k - 1, Run(m, n1, b), ByteStep(vm, c));
      RunAdd(m, n1, n2, b);
      n := n1 + n2;
    } else {
      n := k;
      RunStops(m, k, b);
      if b != Stray { ByteRunStops(vm, k, c); }
    }
  }

  lemma {:induction false} Rests(m: Machine, n: nat, n1: nat, b: Config)
    requires n <= n1 && !Run(m, n, b).Running?
    ensures Run(m, n1, b) == Run(m, n, b)
  {
    hide Run;
    RunAdd(m, n, n1 - n, b);
    RunStops(m, n1 - n, Run(m, n, b));
  }

  /** When the fragment machine has stopped, the byte machine has stopped in the same way. */
  lemma {:induction false} BytesStop(vm: Vm, m: Machine, lay: Layout, n: nat, b: Config, c: VmConfig)
    requires SameProgram(vm, m, lay) && Matches(lay, b, c) && !Run(m, n, b).Running?
    ensures Matches(lay, Run(m, n, b), ByteRun(vm, n, c))
  {
    hide SameProgram, Matches, Run, ByteRun;
    var n1 := BytesFollow(vm, m, lay, n, b, c);
    Rests(m, n, n1, b);
  }

  /** When the byte machine has stopped, the fragment machine stops too. */
  lemma {:induction false} FragmentsStop(vm: Vm, m: Machine, lay: Layout, k: nat, b: Config, c: VmConfig)
      returns (n: nat)
    requires SameProgram(vm, m, lay) && Matches(lay, b, c) && !ByteRun(vm, k, c).Going?
    ensures !Run(m, n, b).Running? && Matches(lay, Run(m, n, b), ByteRun(vm, k, c))
  {
    hide SameProgram, Run, ByteRun;
    n := BytesFollow(vm, m, lay, k, b, c);
  }
}
