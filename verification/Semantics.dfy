/** What the words do to the stacks and the world, and the meaning of a structured program. */
module Semantics {
  import opened Common
  import opened Fragments
  import opened Grammar
  import opened NumCodec

  const STACK_UNDERFLOW := 2
  const STACK_OVERFLOW := 3
  const OUT_OF_MEMORY := 5
  const STACK_CELLS := 100
  const RETURN_CELLS := 100

  /** Everything a word can change besides the two stacks: memory, the data-space pointer, the
      variable and constant table, and what has been sent outside. */
  datatype World = World(memory: map<int, int>, here: int, slots: map<int, int>, log: seq<int>)

  /** The outcome of a word that works on the data stack and the world only. */
  datatype Effect = Done(ds: seq<int>, w: World) | Refused(code: int, w: World)

  /** The words whose action is a parameter of the model, and the addresses of the image. */
  datatype Env = Env(
    builtin: (int, seq<int>, World) -> Effect,
    runtime: (int, seq<int>, World) -> Effect,
    threadCreate: (seq<int>, World) -> Effect,
    threadJoin: (seq<int>, World) -> Effect,
    callbackTarget: int -> int,
    unset: int -> int,
    dataStart: int,
    memoryBase: int,
    memoryLen: int)

  /** What a word sees: the data stack, the return cells pushed since its word was entered, and
      the world. */
  datatype Local = Local(ds: seq<int>, cells: seq<int>, w: World)

  /** Astray: the word reads or pops return cells below those of its own word, which hold return
      addresses; what follows is not described. */
  datatype Res = Fine(l: Local) | Fault(code: int, w: World) | Astray

  function Push(l: Local, x: int): Res {
    if |l.ds| >= STACK_CELLS then Fault(STACK_OVERFLOW, l.w) else Fine(l.(ds := l.ds + [x]))
  }

  function Drop(l: Local): Res {
    if l.ds == [] then Fault(STACK_UNDERFLOW, l.w) else Fine(l.(ds := l.ds[..|l.ds| - 1]))
  }

  function TopOf(ds: seq<int>): int {
    if ds == [] then 0 else ds[|ds| - 1]
  }

  /** `depth` is the number of return cells below this word's own. */
  function ReturnPush(depth: nat, l: Local, x: int): Res {
    if depth + |l.cells| >= RETURN_CELLS then Fault(STACK_OVERFLOW, l.w) else Fine(l.(cells := l.cells + [x]))
  }

  function ReturnDrop(depth: nat, l: Local): Res {
    if l.cells != [] then Fine(l.(cells := l.cells[..|l.cells| - 1]))
    else if depth == 0 then Fault(STACK_UNDERFLOW, l.w)
    else Astray
  }

  predicate IsReturnWord(n: int) {
    n in {I_WORD, J_WORD, TO_R, R_FROM, TWO_TO_R, TWO_R_FROM, R_FETCH}
  }

  function PopToReturn(depth: nat, l: Local): Res {
    match Drop(l)
    case Fine(l1) => ReturnPush(depth, l1, TopOf(l.ds))
    case r => r
  }

  function PopFromReturn(depth: nat, l: Local): Res {
    match ReturnDrop(depth, l)
    case Fine(l1) => Push(l1, TopOf(l.cells))
    case r => r
  }

  function TwoToReturn(depth: nat, l: Local): Res {
    match Drop(l)
    case Fine(l1) =>
      (match Drop(l1)
       case Fine(l2) =>
         (match ReturnPush(depth, l2, TopOf(l1.ds))
          case Fine(l3) => ReturnPush(depth, l3, TopOf(l.ds))
          case r => r)
       case r => r)
    case r => r
  }

  function TwoFromReturn(depth: nat, l: Local): Res {
    match ReturnDrop(depth, l)
    case Fine(l1) =>
      (match ReturnDrop(depth, l1)
       case Fine(l2) =>
         (match Push(l2, TopOf(l1.cells))
          case Fine(l3) => Push(l3, TopOf(l.cells))
          case r => r)
       case r => r)
    case r => r
  }

  /** The builtins that touch the return stack (vm_engine.c:287-294, 490-517, 599-605).  DO does
      what `2>r` does: the start and then the limit come off the data stack, the limit goes on
      the return stack first (vm_engine.c:681-688). */
  function ReturnWord(n: int, depth: nat, l: Local): Res {
    if n == I_WORD then
      if |l.cells| < 1 then Astray else Push(l, l.cells[|l.cells| - 1])
    else if n == J_WORD then
      if |l.cells| < 3 then Astray else Push(l, l.cells[|l.cells| - 3])
    else if n == TO_R then PopToReturn(depth, l)
    else if n == R_FROM then PopFromReturn(depth, l)
    else if n == TWO_TO_R then TwoToReturn(depth, l)
    else if n == TWO_R_FROM then TwoFromReturn(depth, l)
    else
      match ReturnDrop(depth, l)
      case Fine(l1) => Push(l, TopOf(l.cells))
      case r => r
  }

  function Lift(e: Effect, cells: seq<int>): Res {
    match e
    case Done(ds, w) => Fine(Local(ds, cells, w))
    case Refused(code, w) => Fault(code, w)
  }

  function Align(p: int): int {
    (p + 3) / 4 * 4
  }

  function Declare(env: Env, slot: int, l: Local): Res {
    var at := Align(l.w.here);
    var w := l.w.(here := at + 4, slots := l.w.slots[slot := at]);
    if env.memoryLen - (w.here - env.memoryBase) < 0 then Fault(OUT_OF_MEMORY, w) else Fine(l.(w := w))
  }

  function Define(slot: int, l: Local): Res {
    match Drop(l)
    case Fine(l1) => Fine(l1.(w := l1.w.(slots := l1.w.slots[slot := TopOf(l.ds)])))
    case r => r
  }

  function SlotValue(env: Env, slot: int, w: World): int {
    if slot in w.slots then w.slots[slot] else env.unset(slot)
  }

  /** One fragment that does not change the flow of control. */
  function Exec(env: Env, op: Opcode, param: int, depth: nat, l: Local): Res {
    match op
    case BuiltinWord =>
      if IsReturnWord(param) then ReturnWord(param, depth, l) else Lift(env.builtin(param, l.ds, l.w), l.cells)
    case RuntimeWord => Lift(env.runtime(param, l.ds, l.w), l.cells)
    case PushLiteral => Push(l, param)
    case PushDataAddress => Push(l, env.dataStart + param)
    case DeclareVariable => Declare(env, param, l)
    case UseVariableOrConstant => Push(l, SlotValue(env, param, l.w))
    case PushCallback => Push(l, env.callbackTarget(param))
    case DeclareConstant => Define(param, l)
    case ThreadCreate => Lift(env.threadCreate(l.ds, l.w), l.cells)
    case ThreadJoin => Lift(env.threadJoin(l.ds, l.w), l.cells)
    case _ => Fine(l)
  }

  /** LOOP: increment the index, go round while it is below the limit (vm_engine.c:689-701). */
  function TestLoop(depth: nat, l: Local): (Res, bool) {
    match ReturnDrop(depth, l)
    case Fine(l1) =>
      (match ReturnDrop(depth, l1)
       case Fine(l2) =>
         var limit, index := TopOf(l1.cells), Wrap(TopOf(l.cells) + 1);
         if index < limit then (Fine(l2.(cells := l2.cells + [limit, index])), true) else (Fine(l2), false)
       case r => (r, false))
    case r => (r, false)
  }

  // ----- the meaning of structured programs -----

  /** The dictionary: word bodies and the execution token of each word. */
  datatype Dictionary = Dictionary(env: Env, bodies: seq<Stmt>, tokens: seq<int>)

  /** The first word with this execution token. */
  function FindToken(tokens: seq<int>, x: int): Option<nat> {
    if tokens == [] then None
    else
      match FindToken(tokens[..|tokens| - 1], x)
      case Some(k) => Some(k)
      case None => if tokens[|tokens| - 1] == x then Some(|tokens| - 1) else None
  }

  /** Ended: control reaches the end.  Exited: an `exit` was met.  Lost: outside the model.
      Endless: the fuel, the number of loop rounds and calls nested in sequence, ran out. */
  datatype Outcome =
    | Ended(l: Local)
    | Exited(l: Local)
    | Failed(code: int, w: World)
    | Lost
    | Endless

  function FromRes(r: Res): Outcome {
    match r
    case Fine(l) => Ended(l)
    case Fault(code, w) => Failed(code, w)
    case Astray => Lost
  }

  function Eval(d: Dictionary, cur: int, s: Stmt, fuel: nat, depth: nat, l: Local): Outcome
    decreases fuel, 3, s, 0
  {
    match s
    case Empty => Ended(l)
    case Unlooped => Ended(l)
    case Prim(op, param) =>
      if op == Execute then EvalExecute(d, fuel, depth, l) else FromRes(Exec(d.env, op, param, depth, l))
    case Call(k) => EvalCall(d, k, fuel, depth, l)
    case TickWord(k) => if k < |d.tokens| then FromRes(Push(l, d.tokens[k])) else Lost
    case SelfCall => EvalCall(d, cur, fuel, depth, l)
    case Leave => Exited(l)
    case Chain(a, b) =>
      (match Eval(d, cur, a, fuel, depth, l)
       case Ended(l1) => Eval(d, cur, b, fuel, depth, l1)
       case o => o)
    case IfThen(b) =>
      (match Drop(l)
       case Fine(l1) => if TopOf(l.ds) == 0 then Ended(l1) else Eval(d, cur, b, fuel, depth, l1)
       case r => FromRes(r))
    case IfElse(a, b) =>
      (match Drop(l)
       case Fine(l1) => Eval(d, cur, if TopOf(l.ds) == 0 then b else a, fuel, depth, l1)
       case r => FromRes(r))
    case BeginUntil(b) =>
      (match Eval(d, cur, b, fuel, depth, l)
       case Ended(l1) =>
         (match Drop(l1)
          case Fine(l2) =>
            if TopOf(l1.ds) != 0 then Ended(l2)
            else if fuel == 0 then Endless
            else Eval(d, cur, s, fuel - 1, depth, l2)
          case r => FromRes(r))
       case o => o)
    case BeginAgain(b) =>
      (match Eval(d, cur, b, fuel, depth, l)
       case Ended(l1) => if fuel == 0 then Endless else Eval(d, cur, s, fuel - 1, depth, l1)
       case o => o)
    case BeginWhile(c, b) =>
      (match Eval(d, cur, c, fuel, depth, l)
       case Ended(l1) =>
         (match Drop(l1)
          case Fine(l2) =>
            if TopOf(l1.ds) == 0 then Ended(l2)
            else
              (match Eval(d, cur, b, fuel, depth, l2)
               case Ended(l3) => if fuel == 0 then Endless else Eval(d, cur, s, fuel - 1, depth, l3)
               case o => o)
          case r => FromRes(r))
       case o => o)
    case DoLoop(b) =>
      (match TwoToReturn(depth, l)
       case Fine(l1) => EvalRounds(d, cur, b, fuel, depth, l1)
       case r => FromRes(r))
  }

  /** The rounds of a do-loop, from the start of one. */
  function EvalRounds(d: Dictionary, cur: int, b: Stmt, fuel: nat, depth: nat, l: Local): Outcome
    decreases fuel, 3, b, 1
  {
    match Eval(d, cur, b, fuel, depth, l)
    case Ended(l1) =>
      (match TestLoop(depth, l1)
       case (Fine(l2), again) =>
         if !again then Ended(l2)
         else if fuel == 0 then Endless
         else EvalRounds(d, cur, b, fuel - 1, depth, l2)
       case (r, _) => FromRes(r))
    case o => o
  }

  /** A call: two cells go on the return stack, the word runs with none of its own, and the
      caller's cells are back afterwards. */
  function EvalCall(d: Dictionary, k: int, fuel: nat, depth: nat, l: Local): Outcome
    decreases fuel, 1
  {
    if !(0 <= k < |d.bodies|) then Lost
    else if depth + |l.cells| + 2 > RETURN_CELLS then Failed(STACK_OVERFLOW, l.w)
    else if fuel == 0 then Endless
    else
      match Eval(d, k, d.bodies[k], fuel - 1, depth + |l.cells| + 2, l.(cells := []))
      case Ended(l1) => Ended(l1.(cells := l.cells))
      case Exited(l1) => Ended(l1.(cells := l.cells))
      case o => o
  }

  function EvalExecute(d: Dictionary, fuel: nat, depth: nat, l: Local): Outcome
    decreases fuel, 2
  {
    if depth + |l.cells| + 2 > RETURN_CELLS then Failed(STACK_OVERFLOW, l.w)
    else
      match Drop(l)
      case Fine(l1) =>
        (match FindToken(d.tokens, TopOf(l.ds))
         case Some(k) => EvalCall(d, k, fuel, depth, l1)
         case None => Lost)
      case r => FromRes(r)
  }

  /** The meaning of a source: its top-level code in order, the definitions being no more than
      entries of the dictionary.  (`cur` does not matter outside definitions.) */
  function EvalSource(d: Dictionary, items: seq<Item>, fuel: nat, l: Local): Outcome {
    if items == [] then Ended(l)
    else
      var low, last := items[..|items| - 1], items[|items| - 1];
      var o := EvalSource(d, low, fuel, l);
      if o.Ended? && last.Main? then Eval(d, |Definitions(low)| - 1, last.body, fuel, 0, o.l) else o
  }

  lemma {:induction false} TokenFound(tokens: seq<int>, x: int)
    ensures FindToken(tokens, x).Some? ==>
        FindToken(tokens, x).value < |tokens| && tokens[FindToken(tokens, x).value] == x
  {
    if tokens != [] { TokenFound(tokens[..|tokens| - 1], x); }
  }
}
