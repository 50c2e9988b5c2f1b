/** Calls and exits on the flat return stack: it is a chain of frames, and leaving a word gives
    the caller back its return stack, frame base and address, whatever the word left above. */
module Frames {
  import opened Common
  import opened Fragments
  import opened Semantics
  import opened VmMachine

  /** A suspended word: the address it goes on at and the return cells it had. */
  datatype Saved = Saved(back: int, cells: seq<int>)

  /** The return stack below the running word: each frame is its cells, its base, its address. */
  function Flat(fs: seq<Saved>): seq<int> {
    if fs == [] then []
    else
      var low, f := fs[..|fs| - 1], fs[|fs| - 1];
      Flat(low) + f.cells + [|Flat(low)|, f.back]
  }

  ghost predicate Framed(s: VmState, fs: seq<Saved>) {
    s.base == |Flat(fs)| && |Flat(fs)| <= |s.rs| && s.rs[..|Flat(fs)|] == Flat(fs)
  }

  /** The cells of the running word. */
  function Own(s: VmState, fs: seq<Saved>): seq<int> {
    if |Flat(fs)| <= |s.rs| then s.rs[|Flat(fs)|..] else []
  }

  /** How many return cells an instruction takes off. */
  function CellsTaken(i: Instruction): nat {
    if i.op == Loop then 2
    else if i.op != BuiltinWord then 0
    else if i.param == R_FROM || i.param == R_FETCH then 1
    else if i.param == TWO_R_FROM then 2
    else 0
  }

  /** The next instruction does not take cells below the frame base. */
  predicate Tidy(vm: Vm, c: VmConfig) {
    c.Going? && Decoded(vm.image, c.s.pc).Some?
    && c.s.base + CellsTaken(Decoded(vm.image, c.s.pc).value) <= |c.s.rs|
  }

  predicate IsCall(op: Opcode) {
    op == DefinedWord || op == Execute
  }

  /** The chain after the next instruction. */
  function NextFrames(vm: Vm, s: VmState, fs: seq<Saved>): seq<Saved> {
    match Decoded(vm.image, s.pc)
    case None => fs
    case Some(i) =>
      if IsCall(i.op) then fs + [Saved(i.next, Own(s, fs))]
      else if i.op == ExitWord && fs != [] then fs[..|fs| - 1]
      else fs
  }

  // ----- what an instruction does above the frame base -----

  /** l1 comes from l by taking at most n cells off the return stack and putting others on. */
  ghost predicate Above(rs: seq<int>, n: nat, r: Res) {
    r.Fine? ==> n <= |rs| && rs[..|rs| - n] <= r.l.cells
  }

  lemma {:induction false} AboveBase(rs: seq<int>, n: nat, r: Res, base: nat)
    requires Above(rs, n, r) && r.Fine? && base + n <= |rs|
    ensures base <= |r.l.cells| && r.l.cells[..base] == rs[..base]
  {
    assert rs[..|rs| - n][..base] == rs[..base];
  }

  lemma {:induction false} ReturnWordAbove(env: Env, i: Instruction, l: Local)
    requires i.op == BuiltinWord
    ensures Above(l.cells, CellsTaken(i), Exec(env, BuiltinWord, i.param, 0, l))
  {
  }

  lemma {:induction false} LoopAbove(l: Local)
    ensures Above(l.cells, 2, TestLoop(0, l).0)
  {
  }

  /** Everything but calls, exits and control flow. */
  lemma {:induction false} ExecAbove(env: Env, i: Instruction, l: Local)
    requires !IsCall(i.op) && i.op !in {ExitWord, Halt, Branch, BranchIfZero, Do, Loop, PushOffsetAddress}
    ensures Above(l.cells, CellsTaken(i), Exec(env, i.op, i.param, 0, l))
  {
    if i.op == BuiltinWord { ReturnWordAbove(env, i, l); }
  }

  lemma {:induction false} StaysFramed(s: VmState, fs: seq<Saved>, n: nat, pc: int, r: Res)
    requires Framed(s, fs) && Above(s.rs, n, r) && s.base + n <= |s.rs| && r.Fine?
    ensures Proceed(pc, s.base, r).Going? && Framed(Proceed(pc, s.base, r).s, fs)
  {
    hide Flat;
    AboveBase(s.rs, n, r, s.base);
  }

  lemma {:induction false} EntersFramed(s: VmState, fs: seq<Saved>, s1: VmState, back: int)
    requires Framed(s, fs) && s1.rs == s.rs + [s.base, back] && s1.base == |s.rs| + 2
    ensures Framed(s1, fs + [Saved(back, Own(s, fs))])
  {
    var gs := fs + [Saved(back, Own(s, fs))];
    assert gs[..|gs| - 1] == fs;
    assert s.rs == Flat(fs) + Own(s, fs);
  }

  lemma {:induction false} LeavesFramed(s: VmState, fs: seq<Saved>)
    requires Framed(s, fs)
    ensures fs == [] ==> LeaveWord(s) == Refusal(STACK_UNDERFLOW, s.w)
    ensures fs != [] ==>
      var low, f := fs[..|fs| - 1], fs[|fs| - 1];
      var s1 := VmState(f.back, s.ds, Flat(low) + f.cells, |Flat(low)|, s.w);
      LeaveWord(s) == if f.back == 0 then Finished(s1) else Going(s1)
  {
    if fs != [] {
      var low, f := fs[..|fs| - 1], fs[|fs| - 1];
      var cut := s.rs[..s.base];
      assert cut == Flat(low) + f.cells + [|Flat(low)|, f.back];
      assert cut[..|cut| - 1][..|cut| - 2] == Flat(low) + f.cells;
    }
  }

  lemma {:induction false} CallFramed(vm: Vm, s: VmState, fs: seq<Saved>, i: Instruction)
    requires Framed(s, fs) && IsCall(i.op) && Perform(vm.env, s, i).Going?
    ensures Framed(Perform(vm.env, s, i).s, fs + [Saved(i.next, Own(s, fs))])
  {
    hide Flat;
    var s1 := Perform(vm.env, s, i).s;
    assert s1.rs == s.rs + [s.base, i.next];
    EntersFramed(s, fs, s1, i.next);
  }

  lemma {:induction false} OtherFramed(vm: Vm, s: VmState, fs: seq<Saved>, i: Instruction)
    requires Framed(s, fs) && !IsCall(i.op) && i.op != ExitWord && s.base + CellsTaken(i) <= |s.rs|
    requires Perform(vm.env, s, i).Going?
    ensures Framed(Perform(vm.env, s, i).s, fs)
  {
    hide Flat, Exec, TestLoop;
    var pc := Perform(vm.env, s, i).s.pc;
    if i.op == Loop {
      LoopAbove(Whole(s));
      StaysFramed(s, fs, 2, pc, TestLoop(0, Whole(s)).0);
    } else if i.op !in {Halt, Branch, BranchIfZero, Do, PushOffsetAddress} {
      ExecAbove(vm.env, i, Whole(s));
      StaysFramed(s, fs, CellsTaken(i), pc, Exec(vm.env, i.op, i.param, 0, Whole(s)));
    } else if i.op == BranchIfZero {
      StaysFramed(s, fs, 0, pc, Drop(Whole(s)));
    } else if i.op == Do {
      StaysFramed(s, fs, 0, pc, TwoToReturn(0, Whole(s)));
    } else if i.op == PushOffsetAddress {
      StaysFramed(s, fs, 0, pc, Push(Whole(s), s.pc + i.param));
    }
  }

  /** One instruction that keeps above its frame base leaves a chain of frames: a call adds the
      caller, an exit takes it off as it was, anything else leaves the chain alone. */
  lemma {:induction false} StepKeepsFrames(vm: Vm, s: VmState, fs: seq<Saved>)
    requires Framed(s, fs) && Tidy(vm, Going(s)) && ByteStep(vm, Going(s)).Going?
    ensures Framed(ByteStep(vm, Going(s)).s, NextFrames(vm, s, fs))
  {
    hide Flat, Perform, LeaveWord;
    var i := Decoded(vm.image, s.pc).value;
    if IsCall(i.op) {
      CallFramed(vm, s, fs, i);
    } else if i.op == ExitWord {
      ExitFramed(vm, s, fs, i);
    } else {
      OtherFramed(vm, s, fs, i);
    }
  }

  lemma {:induction false} ExitFramed(vm: Vm, s: VmState, fs: seq<Saved>, i: Instruction)
    requires Framed(s, fs) && i.op == ExitWord && Perform(vm.env, s, i).Going?
    ensures fs != [] && Framed(Perform(vm.env, s, i).s, fs[..|fs| - 1])
  {
    hide Flat;
    LeavesFramed(s, fs);
  }

  // ----- whole runs -----

  /** The chain after n instructions. */
  ghost function FramesAfter(vm: Vm, n: nat, s: VmState, fs: seq<Saved>): seq<Saved> {
    if n == 0 then fs
    else
      var c, gs := ByteRun(vm, n - 1, Going(s)), FramesAfter(vm, n - 1, s, fs);
      if c.Going? then NextFrames(vm, c.s, gs) else gs
  }

  /** The instructions before step n all keep above their frame bases. */
  ghost predicate TidyRun(vm: Vm, n: nat, s: VmState) {
    forall k :: 0 <= k < n ==> Tidy(vm, ByteRun(vm, k, Going(s)))
  }

  /** In every such run the return stack is a chain of frames. */
  lemma {:induction false} RunKeepsFrames(vm: Vm, n: nat, s: VmState, fs: seq<Saved>)
    requires Framed(s, fs) && TidyRun(vm, n, s) && ByteRun(vm, n, Going(s)).Going?
    ensures Framed(ByteRun(vm, n, Going(s)).s, FramesAfter(vm, n, s, fs))
  {
    hide Framed, Tidy, NextFrames, ByteStep;
    if n > 0 {
      RunBack(vm, n, Going(s));
      RunKeepsFrames(vm, n - 1, s, fs);
      StepKeepsFrames(vm, ByteRun(vm, n - 1, Going(s)).s, FramesAfter(vm, n - 1, s, fs));
    }
  }

  lemma {:induction false} RunBack(vm: Vm, n: nat, c: VmConfig)
    requires n > 0
    ensures ByteRun(vm, n, c) == ByteStep(vm, ByteRun(vm, n - 1, c))
    ensures ByteRun(vm, n, c).Going? ==> ByteRun(vm, n - 1, c).Going?
  {
    hide Perform, Decoded;
    ByteRunAdd(vm, n - 1, 1, c);
    var d := ByteRun(vm, n - 1, c);
    assert ByteRun(vm, 1, d) == ByteRun(vm, 0, ByteStep(vm, d));
  }

  /** After k instructions the frame f is still suspended on top of the chain fs. */
  ghost predicate Suspends(gs: seq<Saved>, fs: seq<Saved>, f: Saved) {
    |gs| > |fs| && gs[..|fs|] == fs && gs[|fs|] == f
  }

  ghost predicate StillInside(vm: Vm, k: nat, s: VmState, fs: seq<Saved>, depth: nat) {
    |FramesAfter(vm, k, s, fs)| > depth
  }

  lemma {:induction false} NextSuspends(vm: Vm, s: VmState, gs: seq<Saved>, fs: seq<Saved>, f: Saved)
    requires Suspends(gs, fs, f) && |NextFrames(vm, s, gs)| > |fs|
    ensures Suspends(NextFrames(vm, s, gs), fs, f)
  {
    hide Flat;
    assert NextFrames(vm, s, gs)[..|fs|] == gs[..|fs|];
  }

  lemma {:induction false} CallSuspends(vm: Vm, s: VmState, fs: seq<Saved>, k: nat, i: Instruction)
    requires Framed(s, fs) && Decoded(vm.image, s.pc) == Some(i) && IsCall(i.op)
    requires k >= 1 && TidyRun(vm, k, s) && ByteRun(vm, k, Going(s)).Going?
    requires forall j :: 1 <= j <= k ==> StillInside(vm, j, s, fs, |fs|)
    ensures Suspends(FramesAfter(vm, k, s, fs), fs, Saved(i.next, Own(s, fs)))
  {
    hide Flat, Framed, Decoded, Perform, ByteStep, Suspends;
    RunBack(vm, k, Going(s));
    var f := Saved(i.next, Own(s, fs));
    if k == 1 {
      FirstCall(vm, s, fs, i);
    } else {
      CallSuspends(vm, s, fs, k - 1, i);
      assert StillInside(vm, k, s, fs, |fs|);
      NextSuspends(vm, ByteRun(vm, k - 1, Going(s)).s, FramesAfter(vm, k - 1, s, fs), fs, f);
    }
  }

  lemma {:induction false} FirstCall(vm: Vm, s: VmState, fs: seq<Saved>, i: Instruction)
    requires Framed(s, fs) && Decoded(vm.image, s.pc) == Some(i) && IsCall(i.op)
    requires TidyRun(vm, 1, s) && ByteRun(vm, 1, Going(s)).Going?
    ensures Suspends(FramesAfter(vm, 1, s, fs), fs, Saved(i.next, Own(s, fs)))
  {
    hide Flat, Framed, Decoded, Perform, ByteStep;
    assert FramesAfter(vm, 0, s, fs) == fs;
  }

  /** A frame that goes away does so at an exit, and is restored exactly. */
  lemma {:induction false} Restored(vm: Vm, s: VmState, gs: seq<Saved>, low: seq<Saved>, f: Saved)
    requires Framed(s, gs) && Suspends(gs, low, f) && ByteStep(vm, Going(s)).Going?
    requires |NextFrames(vm, s, gs)| == |low|
    ensures ByteStep(vm, Going(s)).s.rs == Flat(low) + f.cells
    ensures ByteStep(vm, Going(s)).s.base == |Flat(low)| && ByteStep(vm, Going(s)).s.pc == f.back
  {
    hide Flat, Framed, LeaveWord;
    assert |gs| == |low| + 1 && gs[..|gs| - 1] == low;
    LeavesFramed(s, gs);
  }

  /** A call is undone exactly: at the first moment when the callee's frame is gone, the return
      stack, the frame base and the place to go on are what they were at the call, however many
      loop or `>r` cells the callee left and whatever it called. */
  lemma {:induction false} CallIsUndone(vm: Vm, s: VmState, fs: seq<Saved>, n: nat, i: Instruction)
    requires Framed(s, fs) && Decoded(vm.image, s.pc) == Some(i) && IsCall(i.op)
    requires n >= 2 && TidyRun(vm, n, s) && ByteRun(vm, n, Going(s)).Going?
    requires forall j :: 1 <= j < n ==> StillInside(vm, j, s, fs, |fs|)
    requires !StillInside(vm, n, s, fs, |fs|)
    ensures var s1 := ByteRun(vm, n, Going(s)).s;
      s1.rs == s.rs && s1.base == s.base && s1.pc == i.next
  {
    hide Decoded, Perform, ByteStep, Flat, Suspends;
    RunBack(vm, n, Going(s));
    CallSuspends(vm, s, fs, n - 1, i);
    var t, gs, f := ByteRun(vm, n - 1, Going(s)).s, FramesAfter(vm, n - 1, s, fs), Saved(i.next, Own(s, fs));
    RunKeepsFrames(vm, n - 1, s, fs);
    OnePop(vm, t, gs, fs, f);
    Restored(vm, t, gs, fs, f);
    assert s.rs == Flat(fs) + Own(s, fs);
  }

  lemma {:induction false} OnePop(vm: Vm, s: VmState, gs: seq<Saved>, fs: seq<Saved>, f: Saved)
    requires Framed(s, gs) && Suspends(gs, fs, f) && |NextFrames(vm, s, gs)| <= |fs|
    ensures |NextFrames(vm, s, gs)| == |fs|
  {
    hide Flat, Framed;
  }

  // ----- callbacks -----

  /** What callback_handle makes of the state of a running runtime word: the frame base and a
      null address go on the return stack under the word (vm_engine.c:71-76). */
  function CallbackStart(s: VmState, target: int, ds: seq<int>): VmState {
    VmState(target, ds, s.rs + [s.base, 0], |s.rs| + 2, s.w)
  }

  /** The sentinel is the only frame above fs that has a null address. */
  ghost predicate Guarded(gs: seq<Saved>, fs: seq<Saved>, f: Saved) {
    Suspends(gs, fs, f) && forall j :: |fs| < j < |gs| ==> gs[j].back > 0
  }

  lemma {:induction false} NextIsPositive(image: Image, pc: int)
    requires 0 < image.org && Decoded(image, pc).Some?
    ensures Decoded(image, pc).value.next > 0
  {
    hide OpcodeOf;
  }

  lemma {:induction false} NextGuarded(vm: Vm, s: VmState, gs: seq<Saved>, fs: seq<Saved>, f: Saved)
    requires 0 < vm.image.org && f.back == 0
    requires Framed(s, gs) && Guarded(gs, fs, f) && ByteStep(vm, Going(s)).Going?
    ensures Guarded(NextFrames(vm, s, gs), fs, f)
  {
    hide Flat, Framed, LeaveWord, Decoded;
    LeavesFramed(s, gs);
    NextIsPositive(vm.image, s.pc);
    var hs := NextFrames(vm, s, gs);
    assert |gs| == |fs| + 1 ==> gs[|gs| - 1] == f;
    NextSuspends(vm, s, gs, fs, f);
  }

  lemma {:induction false} CallbackGuarded(vm: Vm, s: VmState, fs: seq<Saved>, f: Saved, n: nat)
    requires 0 < vm.image.org && f.back == 0 && Framed(s, fs + [f])
    requires TidyRun(vm, n, s) && ByteRun(vm, n, Going(s)).Going?
    ensures Guarded(FramesAfter(vm, n, s, fs + [f]), fs, f)
  {
    hide Flat, Framed, ByteStep, Decoded;
    if n > 0 {
      RunBack(vm, n, Going(s));
      CallbackGuarded(vm, s, fs, f, n - 1);
      RunKeepsFrames(vm, n - 1, s, fs + [f]);
      NextGuarded(vm, ByteRun(vm, n - 1, Going(s)).s, FramesAfter(vm, n - 1, s, fs + [f]), fs, f);
    }
  }

  /** A callback that comes back through the exit of its word leaves the return stack and the
      frame base of the interrupted word as they were. */
  lemma {:induction false} CallbackIsUndone(vm: Vm, s: VmState, fs: seq<Saved>, target: int, ds: seq<int>, n: nat)
    requires 0 < vm.image.org && Framed(s, fs) && n > 0
    requires TidyRun(vm, n, CallbackStart(s, target, ds))
    requires ByteRun(vm, n, Going(CallbackStart(s, target, ds))).Finished?
    requires var c := ByteRun(vm, n - 1, Going(CallbackStart(s, target, ds)));
      c.Going? && Decoded(vm.image, c.s.pc).Some? && Decoded(vm.image, c.s.pc).value.op == ExitWord
    ensures var s1 := ByteRun(vm, n, Going(CallbackStart(s, target, ds))).s;
      s1.rs == s.rs && s1.base == s.base && s1.pc == 0
  {
    hide Flat, ByteRun, Decoded, LeaveWord;
    var t, f := CallbackStart(s, target, ds), Saved(0, Own(s, fs));
    EntersFramed(s, fs, t, 0);
    RunBack(vm, n, Going(t));
    CallbackGuarded(vm, t, fs, f, n - 1);
    var u, gs := ByteRun(vm, n - 1, Going(t)).s, FramesAfter(vm, n - 1, t, fs + [f]);
    RunKeepsFrames(vm, n - 1, t, fs + [f]);
    LeavesFramed(u, gs);
    assert |gs| == |fs| + 1 && gs[..|gs| - 1] == fs;
    assert s.rs == Flat(fs) + Own(s, fs);
  }
}
