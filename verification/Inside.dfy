/** Where the model ends, and that control never leaves the code.  A program strays exactly when a
    word reads or pops return cells that are not its own, or when `execute` is given a number that
    is no execution token. */
module Inside {
  import opened Common
  import opened Fragments
  import opened FrontEnd
  import opened Conservation
  import opened Grammar
  import opened Program
  import opened Partition
  import opened Semantics
  import opened FragmentMachine
  import opened Linking
  import opened SourceMeaning
  import opened VmBackend
  import opened VmMachine
  import opened Frames
  import opened ByteDecoding
  import opened ByteSimulation
  import opened Pipeline
  import opened ExecutionTokens

  // ----- one fragment -----

  /** How many return cells of its own word a fragment must find. */
  function CellsRead(f: Fragment): nat {
    if f.op == Loop then 2
    else if f.op != BuiltinWord then 0
    else if f.param == I_WORD then 1
    else if f.param == J_WORD then 3
    else if f.param == R_FROM || f.param == R_FETCH then 1
    else if f.param == TWO_R_FROM then 2
    else 0
  }

  predicate OnlyReads(f: Fragment) {
    f.op == BuiltinWord && (f.param == I_WORD || f.param == J_WORD)
  }

  /** The fragment needs return cells that its word does not have, below which stand those of a
      suspended word; or it executes what is no token. */
  predicate LeavesModel(m: Machine, f: Fragment, l: Local, callers: seq<Frame>) {
    || (|l.cells| < CellsRead(f) && (OnlyReads(f) || callers != []))
    || (f.op == Execute && RoomForFrame(l, callers) && l.ds != [] && l.ds[|l.ds| - 1] !in Tokens(m))
  }

  lemma {:induction false} DepthOfNone(callers: seq<Frame>)
    ensures Depth(callers) == 0 <==> callers == []
  {
  }

  lemma {:induction false} ReturnWordStrays(n: int, l: Local, callers: seq<Frame>)
    requires IsReturnWord(n)
    ensures ReturnWord(n, Depth(callers), l) == Astray
       <==> |l.cells| < CellsRead(Fragment(BuiltinWord, n, false, false, false))
            && (n == I_WORD || n == J_WORD || callers != [])
  {
    hide Depth;
    DepthOfNone(callers);
  }

  lemma {:induction false} ExecStrays(m: Machine, f: Fragment, l: Local, callers: seq<Frame>)
    requires f.op !in {Loop, Execute, Do}
    ensures Exec(m.env, f.op, f.param, Depth(callers), l) == Astray <==> LeavesModel(m, f, l, callers)
  {
    hide Depth, ReturnWord;
    if f.op == BuiltinWord && IsReturnWord(f.param) { ReturnWordStrays(f.param, l, callers); }
  }

  lemma {:induction false} LoopStrays(l: Local, callers: seq<Frame>)
    ensures TestLoop(Depth(callers), l).0 == Astray <==> |l.cells| < 2 && callers != []
  {
    hide Depth;
    DepthOfNone(callers);
  }

  lemma {:induction false} ExecuteStrays(m: Machine, pc: nat, l: Local, callers: seq<Frame>)
    ensures ExecuteFragment(m, pc, l, callers) == Stray
       <==> RoomForFrame(l, callers) && l.ds != [] && l.ds[|l.ds| - 1] !in Tokens(m)
  {
    hide FindToken, Depth, RoomForFrame;
    FindsFirst(Tokens(m), TopOf(l.ds));
  }

  /** The machine strays at a fragment exactly where the fragment leaves the model. */
  lemma {:induction false} StraysExactly(m: Machine, f: Fragment, pc: nat, l: Local, callers: seq<Frame>)
    ensures StepFragment(m, f, pc, l, callers) == Stray <==> LeavesModel(m, f, l, callers)
  {
    hide Depth, Exec, TestLoop, ExecuteFragment, IndexOf, RoomForFrame, Tokens, AddressOf;
    if f.op == Loop {
      LoopStrays(l, callers);
    } else if f.op == Execute {
      ExecuteStrays(m, pc, l, callers);
    } else if f.op != Do {
      ExecStrays(m, f, l, callers);
    } else {
      DoStays(l, callers);
    }
  }

  lemma {:induction false} DoStays(l: Local, callers: seq<Frame>)
    ensures TwoToReturn(Depth(callers), l) != Astray
  {
    hide Depth;
  }

  // ----- control stays in the code -----

  predicate NeverFallsThrough(op: Opcode) {
    op == Halt || op == ExitWord
  }

  /** Every place holds a fragment, every target and every word has a place, and nothing falls off
      the end. */
  ghost predicate Closed(c: Code) {
    && (forall k :: 0 <= k < |c.order| ==> c.order[k] < |c.frags| && GoodTarget(c, c.frags[c.order[k]]))
    && (forall k :: 0 <= k < |c.words| ==> IndexOf(c.order, c.words[k]) < |c.order|)
    && |c.order| > 0 && NeverFallsThrough(c.frags[c.order[|c.order| - 1]].op)
  }

  predicate GoodTarget(c: Code, f: Fragment) {
    f.op in {Branch, BranchIfZero, Loop, DefinedWord} ==> IndexOf(c.order, f.param) < |c.order|
  }

  /** The running word and the suspended ones all go on at places of the code. */
  ghost predicate InCode(c: Code, x: Config) {
    && (x.Running? ==> x.pc < |c.order| && CallersInCode(c, x.callers))
    && (x.Returned? ==> CallersInCode(c, x.callers))
  }

  ghost predicate CallersInCode(c: Code, callers: seq<Frame>) {
    forall i :: 0 <= i < |callers| && callers[i].ret.Some? ==> callers[i].ret.value < |c.order|
  }

  lemma {:induction false} StepStaysInCode(m: Machine, x: Config)
    requires Closed(m.code) && InCode(m.code, x)
    ensures InCode(m.code, Step(m, x))
  {
    hide IndexOf, Exec, TestLoop, Drop, Push, TwoToReturn, ExecuteFragment, Tokens, AddressOf, RoomForFrame;
    if x.Running? {
      var f := m.code.frags[m.code.order[x.pc]];
      assert GoodTarget(m.code, f);
      if f.op == Execute { ExecuteStaysInCode(m, x.pc, x.l, x.callers); }
    }
  }

  lemma {:induction false} ExecuteStaysInCode(m: Machine, pc: nat, l: Local, callers: seq<Frame>)
    requires Closed(m.code) && pc + 1 < |m.code.order| && CallersInCode(m.code, callers)
    ensures InCode(m.code, ExecuteFragment(m, pc, l, callers))
  {
    hide IndexOf, Depth, FindToken, Tokens, GoodTarget;
  }

  lemma {:induction false} RunStaysInCode(m: Machine, n: nat, x: Config)
    requires Closed(m.code) && InCode(m.code, x)
    ensures InCode(m.code, Run(m, n, x))
  {
    hide Closed, InCode, Step;
    if n > 0 {
      StepStaysInCode(m, x);
      RunStaysInCode(m, n - 1, Step(m, x));
    }
  }

  // ----- accepted code is closed -----

  /** The fragment that will be last: the exit of the last word, or HALT when there is none.  What
      comes after the exit belongs to the main program. */
  lemma {:induction false} LastWordEnds(c: Code, items: seq<Item>) returns (e: nat)
    requires ItemsPlaced(c, items) && Definitions(items) != []
    ensures e < Extent(items) <= |c.order| && InWord(c.frags, c.order[e]) && c.frags[c.order[e]].op == ExitWord
    ensures forall k :: e < k < Extent(items) ==> !InWord(c.frags, c.order[k])
    decreases |items|
  {
    hide Placed, Size;
    var low, last := items[..|items| - 1], items[|items| - 1];
    match last
    case Definition(s) =>
      var at := Extent(low);
      e := at + 1 + Size(s);
      KindIs(c, at, at + ItemSize(last), true, e);
    case Main(s) =>
      e := LastWordEnds(c, low);
      forall k | Extent(low) <= k < Extent(items) ensures !InWord(c.frags, c.order[k]) {
        KindIs(c, Extent(low), Extent(items), false, k);
      }
  }

  lemma {:induction false} AllMain(c: Code, items: seq<Item>)
    requires ItemsPlaced(c, items) && Definitions(items) == []
    ensures Extent(items) <= |c.order| && forall k :: 0 <= k < Extent(items) ==> !InWord(c.frags, c.order[k])
    decreases |items|
  {
    hide Placed, Size;
    if items != [] {
      var low := items[..|items| - 1];
      AllMain(c, low);
      forall k | Extent(low) <= k < Extent(items) ensures !InWord(c.frags, c.order[k]) {
        KindIs(c, Extent(low), Extent(items), false, k);
      }
    } else {
      KindIs(c, 0, 1, false, 0);
    }
  }

  /** The place before linking of the fragment that comes last. */
  lemma {:induction false} EndPlace(c: Code, items: seq<Item>) returns (e: nat)
    requires AllPlaced(c, items)
    ensures e < |c.order| && c.order[e] < |c.frags| && NeverFallsThrough(c.frags[c.order[e]].op)
    ensures forall k :: 0 <= k < |c.order| && k != e ==> NewPlace(c.frags, c.order, k) < NewPlace(c.frags, c.order, e)
  {
    hide ItemsPlaced, NewPlace;
    var h := Extent(items);
    KindIs(c, h, h + 1, false, h);
    if Definitions(items) == [] {
      AllMain(c, items);
      e := h;
    } else {
      e := LastWordEnds(c, items);
    }
    forall k | 0 <= k < |c.order| && k != e ensures NewPlace(c.frags, c.order, k) < NewPlace(c.frags, c.order, e) {
      if k < e { StableOrder(c.frags, c.order, k, e); } else { StableOrder(c.frags, c.order, e, k); }
    }
  }

  lemma {:induction false} LinkedEnds(c: Code, items: seq<Item>)
    requires AllPlaced(c, items) && NoRepeats(c.order)
    ensures var order := Linked(c).order;
      && |order| == |c.order| > 0 && order[|order| - 1] < |c.frags|
      && NeverFallsThrough(c.frags[order[|order| - 1]].op)
  {
    hide ItemsPlaced, NewPlace, Partitioned, At, OfKind;
    var e := EndPlace(c, items);
    var order := Linked(c).order;
    SameLength(c.frags, c.order);
    ComesFrom(c.frags, c.order, |order| - 1);
    var k :| 0 <= k < |c.order| && c.order[k] == order[|order| - 1];
    MovesTo(c.frags, c.order, k);
    MovesTo(c.frags, c.order, e);
    PartitionedNoRepeats(c.frags, c.order);
    assert NewPlace(c.frags, c.order, k) == |order| - 1;
  }

  /** The linked code of accepted tokens is closed. */
  lemma {:induction false} LinkedIsClosed(lr: Option<Opcode -> bool>, ts: seq<Token>)
    requires Compiled(lr, ts).Ok?
    ensures Closed(LinkedCode(lr, ts))
  {
    hide Compiled, Partitioned, SourceWellFormed, SourceText, AllPlaced, Counted, ControlOk, IndexOf, NeverFallsThrough;
    AcceptanceIsExact(lr, ts);
    var items :| SourceWellFormed(items) && ts == SourceText(items, []);
    StructuredIsAccepted(lr, items);
    AllPlacedOnSuccess(lr, ts);
    var st, c := Compiled(lr, ts).value, LinkedCode(lr, ts);
    LinkedEnds(CodeOf(st), items);
    forall k | 0 <= k < |c.order| ensures c.order[k] < |c.frags| && GoodTarget(c, c.frags[c.order[k]]) {
      TargetPlaced(st, k);
    }
    forall k | 0 <= k < |c.words| ensures IndexOf(c.order, c.words[k]) < |c.order| {
      assert WordOk(st, st.words[k]);
      StaysPlaced(st.frags, st.sequence, c.words[k]);
      IndexPresent(c.order, c.words[k]);
    }
  }

  /** In every run of an accepted program control stays in the code, in the running word and in the
      suspended ones. */
  lemma {:induction false} ControlStaysInCode(m: Machine, lr: Option<Opcode -> bool>, ts: seq<Token>, n: nat, w: World)
    requires Compiled(lr, ts).Ok? && m.code == LinkedCode(lr, ts)
    ensures InCode(m.code, Run(m, n, Start(w)))
    ensures Run(m, n, Start(w)).Running? ==> Fetches(m.code, Run(m, n, Start(w)).pc)
  {
    hide LinkedCode, Compiled, Run, GoodTarget, NeverFallsThrough, IndexOf;
    LinkedIsClosed(lr, ts);
    RunStaysInCode(m, n, Start(w));
  }

  // ----- what staying inside means -----

  /** The machine is about to leave the model. */
  ghost predicate Leaving(m: Machine, x: Config) {
    && x.Running? && Fetches(m.code, x.pc)
    && LeavesModel(m, m.code.frags[m.code.order[x.pc]], x.l, x.callers)
  }

  lemma {:induction false} StraysWhereLeaving(m: Machine, x: Config)
    requires x.Running? && Fetches(m.code, x.pc)
    ensures Step(m, x) == Stray <==> Leaving(m, x)
  {
    hide StepFragment, LeavesModel;
    StraysExactly(m, m.code.frags[m.code.order[x.pc]], x.pc, x.l, x.callers);
  }

  lemma {:induction false} RunBackwards(m: Machine, n: nat, x: Config)
    requires n > 0
    ensures Run(m, n, x) == Step(m, Run(m, n - 1, x))
  {
    hide Step;
    RunAdd(m, n - 1, 1, x);
    var y := Run(m, n - 1, x);
    assert Run(m, 1, y) == Run(m, 0, Step(m, y));
  }

  /** A run that has strayed was about to leave the model at some step, and the other way round. */
  lemma {:induction false} StrayedExactly(m: Machine, lr: Option<Opcode -> bool>, ts: seq<Token>, w: World)
    requires Compiled(lr, ts).Ok? && m.code == LinkedCode(lr, ts)
    ensures (exists n: nat :: Run(m, n, Start(w)) == Stray) <==> (exists n: nat :: Leaving(m, Run(m, n, Start(w))))
  {
    hide LinkedCode, Compiled, Run, Step, Leaving;
    if n: nat :| Run(m, n, Start(w)) == Stray {
      var k := FirstStray(m, lr, ts, n, w);
    }
    if n: nat :| Leaving(m, Run(m, n, Start(w))) {
      LeavingRuns(m, Run(m, n, Start(w)));
      StraysWhereLeaving(m, Run(m, n, Start(w)));
      RunBackwards(m, n + 1, Start(w));
    }
  }

  lemma {:induction false} LeavingRuns(m: Machine, x: Config)
    requires Leaving(m, x)
    ensures x.Running? && Fetches(m.code, x.pc)
  {
    hide LeavesModel;
  }

  lemma {:induction false} FirstStray(m: Machine, lr: Option<Opcode -> bool>, ts: seq<Token>, n: nat, w: World)
      returns (k: nat)
    requires Compiled(lr, ts).Ok? && m.code == LinkedCode(lr, ts) && Run(m, n, Start(w)) == Stray
    ensures Leaving(m, Run(m, k, Start(w)))
  {
    hide LinkedCode, Compiled, Leaving, StepFragment, Fetches;
    if n > 0 {
      RunBackwards(m, n, Start(w));
      var x := Run(m, n - 1, Start(w));
      if x == Stray {
        k := FirstStray(m, lr, ts, n - 1, w);
      } else {
        ControlStaysInCode(m, lr, ts, n - 1, w);
        StraysWhereLeaving(m, x);
        k := n - 1;
      }
    }
  }

  /** The premise of the pipeline theorem, as what can be seen at each step: the source stays inside
      the model if and only if no word of the running program ever reads or pops return cells that
      are not its own or executes a number that is no execution token. */
  lemma {:induction false} StaysInsideExactly(vm: Vm, lr: Option<Opcode -> bool>, ts: seq<Token>, r: seq<nat>,
      items: seq<Item>, w: World)
    requires Built(vm, lr, ts, r) && SourceWellFormed(items) && ts == SourceText(items, [])
    ensures StaysInside(vm, LinkedCode(lr, ts), r, items, w)
       <==> forall n: nat ::
              !Leaving(MachineOf(vm, LinkedCode(lr, ts), r), Run(MachineOf(vm, LinkedCode(lr, ts), r), n, Start(w)))
  {
    hide LinkedCode, Built, SourceWellFormed, SourceText, Run, Leaving, Start, SourceOutcome, ProgramPlaced,
        PlainSource,
        Addresses, StaysInside, Means;
    BuiltAccepts(vm, lr, ts, r);
    var m := MachineOf(vm, LinkedCode(lr, ts), r);
    SourcePlaced(lr, ts, items, m);
    StopsExactlyAsMeant(m, items, w, Stray);
    StrayedExactly(m, lr, ts, w);
    LostIsStray(vm, LinkedCode(lr, ts), r, items, w);
  }

  lemma {:induction false} LostIsStray(vm: Vm, c: Code, r: seq<nat>, items: seq<Item>, w: World)
    ensures StaysInside(vm, c, r, items, w)
       <==> !exists fuel: nat :: Means(SourceOutcome(MachineOf(vm, c, r), items, fuel, w), Stray)
  {
    hide SourceOutcome, MachineOf;
    if fuel: nat :| Means(SourceOutcome(MachineOf(vm, c, r), items, fuel, w), Stray) {
      assert MeaningWith(vm, c, r, items, fuel, w).Lost?;
    }
    if !StaysInside(vm, c, r, items, w) {
      var fuel: nat :| MeaningWith(vm, c, r, items, fuel, w).Lost?;
      assert Means(SourceOutcome(MachineOf(vm, c, r), items, fuel, w), Stray);
    }
  }

  // ----- the engine's run -----

  /** An instruction takes no cells below its frame base, unless the return stack underflows. */
  lemma {:induction false} TidyAt(vm: Vm, m: Machine, lay: Layout, pc: nat, l: Local, callers: seq<Frame>)
    requires SameProgram(vm, m, lay) && Fetches(lay.code, pc) && !ShapeOf(FragmentAt(lay.code, pc).op).Silent?
    requires !LeavesModel(m, FragmentAt(lay.code, pc), l, callers)
    requires ByteStep(vm, Going(StateOf(lay, pc, l, callers))).Going?
    ensures Tidy(vm, Going(StateOf(lay, pc, l, callers)))
  {
    hide Address, Below, Decoded, Perform, StepFragment, Carries, ShapeOf, LeavesModel;
    var f := FragmentAt(lay.code, pc);
    DecodesAt(vm.image, lay, pc);
    OperandOfBuiltin(lay, pc);
    StepMatches(vm, m, lay, pc, l, callers);
    TakesItsOwn(m, f, pc, l, callers);
  }

  lemma {:induction false} OperandOfBuiltin(lay: Layout, pc: nat)
    requires Fetches(lay.code, pc)
    ensures FragmentAt(lay.code, pc).op == BuiltinWord ==> Operand(lay, pc) == FragmentAt(lay.code, pc).param
  {
  }

  /** Where the model is not left a fragment finds the cells it takes, or the run fails. */
  lemma {:induction false} TakesItsOwn(m: Machine, f: Fragment, pc: nat, l: Local, callers: seq<Frame>)
    requires !LeavesModel(m, f, l, callers)
    ensures CellsTaken(Instruction(f.op, f.param, 0)) <= |l.cells| || StepFragment(m, f, pc, l, callers).Failure?
  {
    hide Depth, Tokens, RoomForFrame, IndexOf, FindToken, Push, ReturnPush, ExecuteFragment, Enter, TwoToReturn,
        AddressOf, Drop;
    DepthOfNone(callers);
    if |l.cells| < CellsTaken(Instruction(f.op, f.param, 0)) {
      assert callers == [];
      if f.op == Loop { Underflows(l); } else { WordUnderflows(f.param, l); }
    }
  }

  lemma {:induction false} Underflows(l: Local)
    requires |l.cells| < 2
    ensures TestLoop(0, l).0.Fault?
  {
  }

  lemma {:induction false} WordUnderflows(n: int, l: Local)
    requires (n == R_FROM || n == R_FETCH || n == TWO_R_FROM) && |l.cells| < if n == TWO_R_FROM then 2 else 1
    ensures ReturnWord(n, 0, l).Fault?
  {
  }

  /** The fragment machine that a running engine follows. */
  lemma {:induction false} EngineFollows(vm: Vm, lr: Option<Opcode -> bool>, ts: seq<Token>, r: seq<nat>,
      items: seq<Item>, w: World, k: nat) returns (n: nat)
    requires Built(vm, lr, ts, r) && SourceWellFormed(items) && ts == SourceText(items, [])
    requires StaysInside(vm, LinkedCode(lr, ts), r, items, w)
    ensures var m := MachineOf(vm, LinkedCode(lr, ts), r);
      && SameProgram(vm, m, LayoutOf(vm, LinkedCode(lr, ts), r))
      && Matches(LayoutOf(vm, LinkedCode(lr, ts), r), Run(m, n, Start(w)), ByteRun(vm, k, EngineStart(vm, w)))
      && (forall j: nat :: !Leaving(m, Run(m, j, Start(w)))) && (forall j: nat :: Run(m, j, Start(w)) != Stray)
  {
    hide LinkedCode, Built, SourceWellFormed, SourceText, Run, Leaving, StaysInside, Matches, SameProgram, ByteRun,
        Addresses;
    BuiltAccepts(vm, lr, ts, r);
    BuiltRuns(vm, lr, ts, r);
    var m := MachineOf(vm, LinkedCode(lr, ts), r);
    StartMatches(vm, LinkedCode(lr, ts), r, w);
    n := BytesFollow(vm, m, LayoutOf(vm, LinkedCode(lr, ts), r), k, Start(w), EngineStart(vm, w));
    StaysInsideExactly(vm, lr, ts, r, items, w);
    StrayedExactly(m, lr, ts, w);
  }

  /** The engine never meets an unknown instruction or cells outside its stacks in the run of an
      accepted program that stays inside the model. */
  lemma {:induction false} EngineStaysInside(vm: Vm, lr: Option<Opcode -> bool>, ts: seq<Token>, r: seq<nat>,
      items: seq<Item>, w: World, k: nat)
    requires Built(vm, lr, ts, r) && SourceWellFormed(items) && ts == SourceText(items, [])
    requires StaysInside(vm, LinkedCode(lr, ts), r, items, w)
    ensures ByteRun(vm, k, EngineStart(vm, w)) != Wild
  {
    hide LinkedCode, Built, SourceWellFormed, SourceText, Run, Leaving, StaysInside, SameProgram, ByteRun, Addresses,
        StateOf;
    var n := EngineFollows(vm, lr, ts, r, items, w, k);
  }

  /** Nor does an instruction of such a run take return cells below the frame base of its word. */
  lemma {:induction false} EngineIsTidy(vm: Vm, lr: Option<Opcode -> bool>, ts: seq<Token>, r: seq<nat>,
      items: seq<Item>, w: World, k: nat)
    requires Built(vm, lr, ts, r) && SourceWellFormed(items) && ts == SourceText(items, [])
    requires StaysInside(vm, LinkedCode(lr, ts), r, items, w)
    requires ByteRun(vm, k + 1, EngineStart(vm, w)).Going?
    ensures Tidy(vm, ByteRun(vm, k, EngineStart(vm, w)))
  {
    hide LinkedCode, Built, SourceWellFormed, SourceText, Run, LeavesModel, StaysInside, SameProgram, ByteRun,
        Addresses,
        StateOf, ByteStep, StepFragment, ShapeOf;
    BuiltAccepts(vm, lr, ts, r);
    var n := EngineFollows(vm, lr, ts, r, items, w, k);
    var m, lay := MachineOf(vm, LinkedCode(lr, ts), r), LayoutOf(vm, LinkedCode(lr, ts), r);
    var c := EngineStart(vm, w);
    RunBack(vm, k + 1, c);
    var b := Run(m, n, Start(w));
    var j := SkipSilent(vm, m, lay, b.pc, b.l, b.callers);
    RunAdd(m, n, j, Start(w));
    ControlStaysInCode(m, lr, ts, n + j, w);
    assert !Leaving(m, Run(m, n + j, Start(w)));
    TidyAt(vm, m, lay, b.pc + j, b.l, b.callers);
  }

  lemma {:induction false} EngineRunIsTidy(vm: Vm, lr: Option<Opcode -> bool>, ts: seq<Token>, r: seq<nat>,
      items: seq<Item>, w: World, n: nat)
    requires Built(vm, lr, ts, r) && SourceWellFormed(items) && ts == SourceText(items, [])
    requires StaysInside(vm, LinkedCode(lr, ts), r, items, w)
    requires ByteRun(vm, n, EngineStart(vm, w)).Going?
    ensures forall k :: 0 <= k < n ==> Tidy(vm, ByteRun(vm, k, EngineStart(vm, w)))
  {
    hide LinkedCode, Built, SourceWellFormed, SourceText, StaysInside, ByteRun, Tidy, ByteStep;
    if n > 0 {
      RunBack(vm, n, EngineStart(vm, w));
      EngineRunIsTidy(vm, lr, ts, r, items, w, n - 1);
      EngineIsTidy(vm, lr, ts, r, items, w, n - 1);
    }
  }

  /** So at every instruction of the run of an accepted program that stays inside the model, the flat
      return stack is a chain of frames, one for each suspended word. */
  lemma {:induction false} FramesInEveryRun(vm: Vm, lr: Option<Opcode -> bool>, ts: seq<Token>, r: seq<nat>,
      items: seq<Item>, w: World, n: nat)
    requires Built(vm, lr, ts, r) && SourceWellFormed(items) && ts == SourceText(items, [])
    requires StaysInside(vm, LinkedCode(lr, ts), r, items, w)
    requires ByteRun(vm, n, EngineStart(vm, w)).Going?
    ensures Framed(ByteRun(vm, n, EngineStart(vm, w)).s, FramesAfter(vm, n, EngineStart(vm, w).s, []))
  {
    hide LinkedCode, Built, SourceWellFormed, SourceText, StaysInside, ByteRun, Tidy, FramesAfter;
    EngineRunIsTidy(vm, lr, ts, r, items, w, n);
    var s := EngineStart(vm, w).s;
    assert s.rs[..0] == [];
    RunKeepsFrames(vm, n, s, []);
  }
}
