/** A machine that runs fragments where they stand in the sequence.  Its return stack is a list
    of frames: a word pops only cells of its own, and leaving a word drops what it left there. */
module FragmentMachine {
  import opened Common
  import opened Fragments
  import opened Grammar
  import opened Semantics

  /** A suspended word: where to go on (None for the frame that callback_handle or thread_entry
      puts under a word), and its return cells. */
  datatype Frame = Frame(ret: Option<nat>, cells: seq<int>)

  datatype Config =
    | Running(pc: nat, l: Local, callers: seq<Frame>)
    | Halted(l: Local)
    | Returned(l: Local, callers: seq<Frame>)
    | Failure(code: int, w: World)
    | Stray

  /** Code, the address of every fragment, and the environment. */
  datatype Machine = Machine(env: Env, code: Code, addresses: seq<int>)

  /** Two cells for the return address and the frame base go with every suspended word. */
  function Depth(callers: seq<Frame>): nat {
    if callers == [] then 0 else Depth(callers[..|callers| - 1]) + |callers[|callers| - 1].cells| + 2
  }

  /** The place of a fragment; the length of the sequence when it has none. */
  function IndexOf(order: seq<nat>, id: int): nat {
    if order == [] then 0
    else
      var k := IndexOf(order[..|order| - 1], id);
      if k < |order| - 1 || order[|order| - 1] == id then k else |order|
  }

  function AddressOf(m: Machine, id: int): int {
    if 0 <= id < |m.addresses| then m.addresses[id] else 0
  }

  function Tokens(m: Machine): seq<int> {
    seq(|m.code.words|, k requires 0 <= k < |m.code.words| => AddressOf(m, m.code.words[k]))
  }

  function Continue(pc: nat, callers: seq<Frame>, r: Res): Config {
    match r
    case Fine(l) => Running(pc, l, callers)
    case Fault(code, w) => Failure(code, w)
    case Astray => Stray
  }

  /** Entering a word: the caller's frame is suspended and the word starts with no cells. */
  function Enter(m: Machine, pc: nat, l: Local, callers: seq<Frame>, target: int): Config {
    Running(IndexOf(m.code.order, target), l.(cells := []), callers + [Frame(Some(pc + 1), l.cells)])
  }

  function RoomForFrame(l: Local, callers: seq<Frame>): bool {
    Depth(callers) + |l.cells| + 2 <= RETURN_CELLS
  }

  function ExecuteFragment(m: Machine, pc: nat, l: Local, callers: seq<Frame>): Config {
    if !RoomForFrame(l, callers) then Failure(STACK_OVERFLOW, l.w)
    else
      match Drop(l)
      case Fine(l1) =>
        (match FindToken(Tokens(m), TopOf(l.ds))
         case Some(k) => if k < |m.code.words| then Enter(m, pc, l1, callers, m.code.words[k]) else Stray
         case None => Stray)
      case r => Continue(pc, callers, r)
  }

  /** EXIT_WORD: the frame below comes back as it was suspended. */
  function ExitFragment(l: Local, callers: seq<Frame>): Config {
    if callers == [] then Failure(STACK_UNDERFLOW, l.w)
    else
      var f, low := callers[|callers| - 1], callers[..|callers| - 1];
      match f.ret
      case None => Returned(l.(cells := f.cells), low)
      case Some(r) => Running(r, l.(cells := f.cells), low)
  }

  function StepFragment(m: Machine, f: Fragment, pc: nat, l: Local, callers: seq<Frame>): Config {
    match f.op
    case Entry => Running(pc + 1, l, callers)
    case BranchLocation => Running(pc + 1, l, callers)
    case DefinedWordLocation => Running(pc + 1, l, callers)
    case Halt => Halted(l)
    case Branch => Running(IndexOf(m.code.order, f.param), l, callers)
    case BranchIfZero =>
      Continue(if TopOf(l.ds) == 0 then IndexOf(m.code.order, f.param) else pc + 1, callers, Drop(l))
    case Do => Continue(pc + 1, callers, TwoToReturn(Depth(callers), l))
    case Loop =>
      var (r, again) := TestLoop(Depth(callers), l);
      Continue(if again then IndexOf(m.code.order, f.param) else pc + 1, callers, r)
    case DefinedWord =>
      if RoomForFrame(l, callers) then Enter(m, pc, l, callers, f.param) else Failure(STACK_OVERFLOW, l.w)
    case Execute => ExecuteFragment(m, pc, l, callers)
    case ExitWord => ExitFragment(l, callers)
    case PushOffsetAddress => Continue(pc + 1, callers, Push(l, AddressOf(m, f.param)))
    case _ => Continue(pc + 1, callers, Exec(m.env, f.op, f.param, Depth(callers), l))
  }

  predicate Fetches(c: Code, pc: nat) {
    pc < |c.order| && c.order[pc] < |c.frags|
  }

  function Step(m: Machine, c: Config): Config {
    if !c.Running? then c
    else if !Fetches(m.code, c.pc) then Stray
    else StepFragment(m, m.code.frags[m.code.order[c.pc]], c.pc, c.l, c.callers)
  }

  function Run(m: Machine, n: nat, c: Config): Config {
    if n == 0 then c else Run(m, n - 1, Step(m, c))
  }

  lemma {:induction false} RunAdd(m: Machine, a: nat, b: nat, c: Config)
    ensures Run(m, a + b, c) == Run(m, b, Run(m, a, c))
  {
    hide Step;
    if a > 0 { RunAdd(m, a - 1, b, Step(m, c)); }
  }

  lemma {:induction false} RunStops(m: Machine, n: nat, c: Config)
    requires !c.Running?
    ensures Run(m, n, c) == c
  {
    if n > 0 { RunStops(m, n - 1, c); }
  }

  lemma {:induction false} IndexIs(order: seq<nat>, k: nat)
    requires k < |order| && forall i, j :: 0 <= i < j < |order| ==> order[i] != order[j]
    ensures IndexOf(order, order[k]) == k
  {
    var low := order[..|order| - 1];
    if k < |low| {
      IndexIs(low, k);
      assert low[k] == order[k];
    } else {
      IndexAbsent(low, order[k]);
    }
  }

  lemma {:induction false} IndexAbsent(order: seq<nat>, id: nat)
    requires id !in order
    ensures IndexOf(order, id) == |order|
  {
    if order != [] {
      IndexAbsent(order[..|order| - 1], id);
    }
  }

  lemma {:induction false} IndexFound(order: seq<nat>, id: int)
    requires IndexOf(order, id) < |order|
    ensures order[IndexOf(order, id)] == id
  {
    if order != [] && IndexOf(order, id) < |order| - 1 {
      IndexFound(order[..|order| - 1], id);
    }
  }
}
