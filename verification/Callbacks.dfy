/** What C sees of a callback (vm_engine.c:62-84): called with arguments in the middle of a run, it
    runs the word that it was made from, as the source means the word, and hands the interrupted
    word everything back. */
module Callbacks {
  import opened Common
  import opened Fragments
  import opened FrontEnd
  import opened Grammar
  import opened Semantics
  import opened FragmentMachine
  import opened Simulation
  import opened SourceMeaning
  import opened VmMachine
  import opened Frames
  import opened ByteDecoding
  import opened ByteSimulation
  import opened Linking
  import opened Pipeline

  /** What the word means when it is entered with nothing on its part of the return stack. */
  function WordOutcome(d: Dictionary, k: nat, fuel: nat, depth: nat, ds: seq<int>, w: World): Outcome
    requires k < |d.bodies|
  {
    Eval(d, k, d.bodies[k], fuel, depth, Local(ds, [], w))
  }

  /** How the fragment machine stops after that. */
  function CameBackWith(o: Outcome, cells: seq<int>, callers: seq<Frame>): Config
    requires !o.Endless?
  {
    match o
    case Ended(l) => Returned(l.(cells := cells), callers)
    case Exited(l) => Returned(l.(cells := cells), callers)
    case Failed(code, w) => Failure(code, w)
    case Lost => Stray
  }

  lemma {:induction false} ExitReturns(m: Machine, c: Config, l: Local, callers: seq<Frame>, cells: seq<int>)
    requires AtExit(m, c, l, callers + [Frame(None, cells)])
    ensures Run(m, 1, c) == Returned(l.(cells := cells), callers)
  {
    hide Run;
    var all := callers + [Frame(None, cells)];
    assert all[..|all| - 1] == callers;
    OneStep(m, c);
  }

  lemma {:induction false} LocationPassed(m: Machine, k: nat, body: Stmt, l: Local, callers: seq<Frame>)
    requires WordPlaced(m.code, k, body)
    ensures var p := IndexOf(m.code.order, m.code.words[k]);
      Run(m, 1, Running(p, l, callers)) == Running(p + 1, l, callers)
  {
    hide Run, Placed, Size, IndexOf;
    OneStep(m, Running(IndexOf(m.code.order, m.code.words[k]), l, callers));
  }

  /** The word run from its location, above a frame that has no place to go back to. */
  lemma {:induction false} WordComesBack(m: Machine, d: Dictionary, k: nat, fuel: nat, ds: seq<int>, w: World,
      cells: seq<int>, callers: seq<Frame>)
    returns (n: nat)
    requires Loaded(m, d) && k < |d.bodies| && k < |m.code.words|
    requires !WordOutcome(d, k, fuel, Depth(callers + [Frame(None, cells)]), ds, w).Endless?
    ensures Run(m, n, Running(IndexOf(m.code.order, m.code.words[k]), Local(ds, [], w), callers + [Frame(None, cells)]))
         == CameBackWith(WordOutcome(d, k, fuel, Depth(callers + [Frame(None, cells)]), ds, w), cells, callers)
  {
    hide Run, Eval, Placed, Size, IndexOf, PlainOnly, Depth, Loaded;
    BodyPlaced(m, d, k);
    var p, inner, l := IndexOf(m.code.order, m.code.words[k]), callers + [Frame(None, cells)], Local(ds, [], w);
    var from := Running(p, l, inner);
    LocationPassed(m, k, d.bodies[k], l, inner);
    var nb := Simulates(m, d, k, d.bodies[k], m.code.words[k] + 1, p + 1, fuel, l, inner);
    var o, start := WordOutcome(d, k, fuel, Depth(inner), ds, w), Running(p + 1, l, inner);
    RunAdd(m, 1, nb, from);
    n := 1 + nb;
    if o.Ended? || o.Exited? {
      WordEnds(m, k, d.bodies[k], start, nb, o, fuel, inner);
      ExitReturns(m, Run(m, nb, start), o.l, callers, cells);
      RunAdd(m, n, 1, from);
      n := n + 1;
    }
  }

  lemma {:induction false} BodyPlaced(m: Machine, d: Dictionary, k: nat)
    requires Loaded(m, d) && k < |d.bodies|
    ensures k < |m.code.words| && WordPlaced(m.code, k, d.bodies[k]) && PlainOnly(d.bodies[k])
    ensures Placed(m.code, k, d.bodies[k], m.code.words[k] + 1, IndexOf(m.code.order, m.code.words[k]) + 1)
  {
    hide Placed, PlainOnly, Size, IndexOf;
  }

  /** The state that callback_handle starts its run in is that of the word at its location, above a
      frame with the cells of the interrupted word and no place to go back to. */
  lemma {:induction false} CallbackStartMatches(lay: Layout, m: Machine, k: nat, pc: nat, l: Local,
      callers: seq<Frame>, ds: seq<int>)
    requires k < |m.code.words| && m.code == lay.code && m.code.words[k] < |m.addresses| == |lay.code.frags|
    requires forall id :: 0 <= id < |lay.code.frags| ==> m.addresses[id] == Address(lay, IndexOf(lay.code.order, id))
    ensures StateOf(lay, IndexOf(m.code.order, m.code.words[k]), Local(ds, [], l.w), callers + [Frame(None, l.cells)])
         == CallbackStart(StateOf(lay, pc, l, callers), Tokens(m)[k], ds)
  {
    hide Address, IndexOf, Below;
    SavedAdded(lay, callers, Frame(None, l.cells));
    var below := Below(lay, callers);
    assert below + l.cells + [|below|, 0] + [] == below + l.cells + [|below|, 0];
  }

  /** How the engine's nested run ends when the word has this outcome. */
  ghost predicate HandsBack(c: VmConfig, s: VmState, o: Outcome) {
    match o
    case Ended(l) => c.Finished? && c.s.ds == l.ds && c.s.w == l.w && c.s.rs == s.rs && c.s.base == s.base
    case Exited(l) => c.Finished? && c.s.ds == l.ds && c.s.w == l.w && c.s.rs == s.rs && c.s.base == s.base
    case Failed(code, w) => c == Refusal(code, w)
    case Lost => true
    case Endless => true
  }

  lemma {:induction false} HandedBack(lay: Layout, o: Outcome, c: VmConfig, pc: nat, l: Local, callers: seq<Frame>)
    requires !o.Endless? && Matches(lay, CameBackWith(o, l.cells, callers), c)
    ensures HandsBack(c, StateOf(lay, pc, l, callers), o)
  {
    hide Below, Address;
  }

  /** Wherever a run is interrupted, a callback into word k with some arguments does what the word
      means with the arguments on the data stack, and then the return stack and the frame base are
      those of the interrupted word. */
  lemma {:induction false} CallbackMeansWord(vm: Vm, lr: Option<Opcode -> bool>, ts: seq<Token>, r: seq<nat>,
      items: seq<Item>, k: nat, pc: nat, l: Local, callers: seq<Frame>, args: seq<int>, fuel: nat)
    returns (n: nat)
    requires Built(vm, lr, ts, r) && SourceWellFormed(items) && ts == SourceText(items, [])
    requires k < |Definitions(items)|
    requires !WordOutcome(DictionaryOf(MachineOf(vm, LinkedCode(lr, ts), r), items), k, fuel,
        Depth(callers + [Frame(None, l.cells)]), l.ds + args, l.w).Endless?
    ensures var m, s := MachineOf(vm, LinkedCode(lr, ts), r),
        StateOf(LayoutOf(vm, LinkedCode(lr, ts), r), pc, l, callers);
      && k < |Tokens(m)|
      && HandsBack(ByteRun(vm, n, Going(CallbackStart(s, Tokens(m)[k], l.ds + args))), s,
          WordOutcome(DictionaryOf(m, items), k, fuel, Depth(callers + [Frame(None, l.cells)]), l.ds + args, l.w))
  {
    hide LinkedCode, Built, SourceWellFormed, SourceText, Run, ByteRun, Eval, ProgramPlaced, PlainSource, HandsBack,
        Matches, CameBackWith, Addresses, Depth, Tokens, StateOf;
    BuiltAccepts(vm, lr, ts, r);
    BuiltRuns(vm, lr, ts, r);
    var c := LinkedCode(lr, ts);
    var m, lay := MachineOf(vm, c, r), LayoutOf(vm, c, r);
    SourcePlaced(lr, ts, items, m);
    ProgramLoaded(m, items);
    var d, ds, inner := DictionaryOf(m, items), l.ds + args, callers + [Frame(None, l.cells)];
    LoadedBasics(m, d);
    BodyPlaced(m, d, k);
    n := WordComesBack(m, d, k, fuel, ds, l.w, l.cells, callers);
    var from := Running(IndexOf(m.code.order, m.code.words[k]), Local(ds, [], l.w), inner);
    CallbackStartMatches(lay, m, k, pc, l, callers, ds);
    StartsMatching(lay, from.pc, from.l, inner);
    var o := WordOutcome(d, k, fuel, Depth(inner), ds, l.w);
    Stopped(o, l.cells, callers);
    BytesStop(vm, m, lay, n, from, Going(StateOf(lay, from.pc, from.l, inner)));
    HandedBack(lay, o, ByteRun(vm, n, Going(StateOf(lay, from.pc, from.l, inner))), pc, l, callers);
  }

  lemma {:induction false} StartsMatching(lay: Layout, pc: nat, l: Local, callers: seq<Frame>)
    ensures Matches(lay, Running(pc, l, callers), Going(StateOf(lay, pc, l, callers)))
  {
    hide StateOf;
  }

  lemma {:induction false} Stopped(o: Outcome, cells: seq<int>, callers: seq<Frame>)
    requires !o.Endless?
    ensures !CameBackWith(o, cells, callers).Running?
  {
  }
}
