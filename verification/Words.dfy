/** What programs rely on when they use the words that the engine itself provides: literals, the
    return-stack words, variables and constants (vm_engine.c:287-294, 490-517, 599-605, 655-677,
    707-712).  Every law is about the meaning of a piece of source. */
module Words {
  import opened Fragments
  import opened Grammar
  import opened Semantics

  function Word(n: int): Stmt {
    Prim(BuiltinWord, n)
  }

  /** Two words in a row, neither of which calls, branches or executes. */
  lemma {:induction false} TwoWords(d: Dictionary, cur: int, op1: Opcode, p1: int, op2: Opcode, p2: int, fuel: nat,
      depth: nat, l: Local)
    requires op1 != Execute && op2 != Execute
    ensures Eval(d, cur, Chain(Prim(op1, p1), Prim(op2, p2)), fuel, depth, l)
        == FromRes(Then(d.env, depth, Exec(d.env, op1, p1, depth, l), op2, p2))
  {
    hide Exec;
  }

  function Then(env: Env, depth: nat, r: Res, op: Opcode, param: int): Res {
    match r
    case Fine(l) => Exec(env, op, param, depth, l)
    case Fault(_, _) => r
    case Astray => r
  }

  // ----- the stacks -----

  /** A literal is pushed where there is room, and refused where there is none. */
  lemma {:induction false} LiteralIsPushed(d: Dictionary, cur: int, x: int, fuel: nat, depth: nat, l: Local)
    ensures Eval(d, cur, Prim(PushLiteral, x), fuel, depth, l)
        == if |l.ds| < 100 then Ended(l.(ds := l.ds + [x])) else Failed(3, l.w)
  {
  }

  /** One number over to the return stack, and what brings it or a copy of it back. */
  lemma {:induction false} OneMove(depth: nat, low: seq<int>, x: int, cells: seq<int>, w: World)
    requires |low| < 100
    ensures PopToReturn(depth, Local(low + [x], cells, w))
        == if depth + |cells| >= 100 then Fault(3, w) else Fine(Local(low, cells + [x], w))
    ensures PopFromReturn(depth, Local(low, cells + [x], w)) == Fine(Local(low + [x], cells, w))
    ensures ReturnWord(R_FETCH, depth, Local(low, cells + [x], w)) == Fine(Local(low + [x], cells + [x], w))
    ensures ReturnWord(I_WORD, depth, Local(low, cells + [x], w)) == Fine(Local(low + [x], cells + [x], w))
  {
    assert (low + [x])[..|low|] == low && (cells + [x])[..|cells|] == cells;
  }

  lemma {:induction false} NoneToMove(depth: nat, cells: seq<int>, w: World)
    ensures PopToReturn(depth, Local([], cells, w)) == Fault(2, w)
  {
  }

  /** `>r r>` changes nothing, needs a number and room for it, and says which of them is missing. */
  lemma {:induction false} ToRFromIsNothing(d: Dictionary, cur: int, fuel: nat, depth: nat, l: Local)
    requires |l.ds| <= 100
    ensures Eval(d, cur, Chain(Word(TO_R), Word(R_FROM)), fuel, depth, l) ==
      if l.ds == [] then Failed(2, l.w) else if depth + |l.cells| >= 100 then Failed(3, l.w) else Ended(l)
  {
    hide Eval, PopToReturn, PopFromReturn;
    TwoWords(d, cur, BuiltinWord, TO_R, BuiltinWord, R_FROM, fuel, depth, l);
    if l.ds == [] {
      NoneToMove(depth, l.cells, l.w);
    } else {
      var x, low := l.ds[|l.ds| - 1], l.ds[..|l.ds| - 1];
      assert l.ds == low + [x];
      OneMove(depth, low, x, l.cells, l.w);
    }
  }

  /** After `>r`, `r@` and `i` both give a copy of what was moved, and leave it where it is. */
  lemma {:induction false} FetchIsCopy(d: Dictionary, cur: int, fetch: int, fuel: nat, depth: nat, l: Local)
    requires 0 < |l.ds| <= 100 && depth + |l.cells| < 100 && (fetch == R_FETCH || fetch == I_WORD)
    ensures Eval(d, cur, Chain(Word(TO_R), Word(fetch)), fuel, depth, l)
        == Ended(l.(cells := l.cells + [l.ds[|l.ds| - 1]]))
  {
    hide Eval, PopToReturn, PopFromReturn;
    TwoWords(d, cur, BuiltinWord, TO_R, BuiltinWord, fetch, fuel, depth, l);
    var x, low := l.ds[|l.ds| - 1], l.ds[..|l.ds| - 1];
    assert l.ds == low + [x];
    OneMove(depth, low, x, l.cells, l.w);
    ExecsReturnWord(d.env, TO_R, depth, l);
    ExecsReturnWord(d.env, fetch, depth, Local(low, l.cells + [x], l.w));
  }

  lemma {:induction false} ExecsReturnWord(env: Env, n: int, depth: nat, l: Local)
    requires IsReturnWord(n)
    ensures Exec(env, BuiltinWord, n, depth, l) == ReturnWord(n, depth, l)
    ensures n == TO_R ==> ReturnWord(n, depth, l) == PopToReturn(depth, l)
  {
    hide PopToReturn;
  }

  lemma {:induction false} TwoMove(depth: nat, low: seq<int>, x: int, y: int, cells: seq<int>, w: World)
    requires |low| + 2 <= 100 && depth + |cells| + 2 <= 100
    ensures TwoToReturn(depth, Local(low + [x] + [y], cells, w)) == Fine(Local(low, cells + [x] + [y], w))
    ensures TwoFromReturn(depth, Local(low, cells + [x] + [y], w)) == Fine(Local(low + [x] + [y], cells, w))
  {
    assert (low + [x] + [y])[..|low| + 1] == low + [x] && (low + [x])[..|low|] == low;
    assert (cells + [x] + [y])[..|cells| + 1] == cells + [x] && (cells + [x])[..|cells|] == cells;
  }

  /** `2>r 2r>` changes nothing. */
  lemma {:induction false} TwoToRFromIsNothing(d: Dictionary, cur: int, fuel: nat, depth: nat, l: Local)
    requires 2 <= |l.ds| <= 100 && depth + |l.cells| + 2 <= 100
    ensures Eval(d, cur, Chain(Word(TWO_TO_R), Word(TWO_R_FROM)), fuel, depth, l) == Ended(l)
  {
    hide Eval, TwoToReturn, TwoFromReturn;
    TwoWords(d, cur, BuiltinWord, TWO_TO_R, BuiltinWord, TWO_R_FROM, fuel, depth, l);
    var n := |l.ds|;
    var x, y, low := l.ds[n - 2], l.ds[n - 1], l.ds[..n - 2];
    assert l.ds == low + [x] + [y];
    TwoMove(depth, low, x, y, l.cells, l.w);
  }

  /** `2>r` keeps the order of the two: `r>` takes the upper one first. */
  lemma {:induction false} TwoToRKeepsOrder(d: Dictionary, cur: int, fuel: nat, depth: nat, l: Local)
    requires 2 <= |l.ds| <= 100 && depth + |l.cells| + 2 <= 100
    ensures var n := |l.ds|;
      Eval(d, cur, Chain(Word(TWO_TO_R), Word(R_FROM)), fuel, depth, l)
      == Ended(Local(l.ds[..n - 2] + [l.ds[n - 1]], l.cells + [l.ds[n - 2]], l.w))
  {
    hide Eval, TwoToReturn, PopFromReturn;
    TwoWords(d, cur, BuiltinWord, TWO_TO_R, BuiltinWord, R_FROM, fuel, depth, l);
    var n := |l.ds|;
    var x, y, low := l.ds[n - 2], l.ds[n - 1], l.ds[..n - 2];
    assert l.ds == low + [x] + [y];
    TwoMove(depth, low, x, y, l.cells, l.w);
    OneMove(depth, low, y, l.cells + [x], l.w);
  }

  /** A word with no cells of its own, and no word below it, finds the return stack empty. */
  lemma {:induction false} NothingToTake(d: Dictionary, cur: int, n: int, fuel: nat, l: Local)
    requires l.cells == [] && (n == R_FROM || n == TWO_R_FROM || n == R_FETCH)
    ensures Eval(d, cur, Word(n), fuel, 0, l) == Failed(2, l.w)
  {
  }

  // ----- words from outside -----

  /** How a word ends when its action has this effect on the data stack and the world. */
  function Acted(e: Effect, cells: seq<int>): Outcome {
    match e
    case Done(ds, w) => Ended(Local(ds, cells, w))
    case Refused(code, w) => Failed(code, w)
  }

  lemma {:induction false} PrimIs(d: Dictionary, cur: int, op: Opcode, n: int, fuel: nat, depth: nat, l: Local)
    ensures op != Execute ==> Eval(d, cur, Prim(op, n), fuel, depth, l) == FromRes(Exec(d.env, op, n, depth, l))
  {
    hide Exec;
  }

  /** A builtin that does not work on the return stack, a runtime word and a thread word do to stack and
      world what their own action does, and leave the return cells as they are. */
  lemma {:induction false} OutsideWordsAct(d: Dictionary, cur: int, n: int, fuel: nat, depth: nat, l: Local)
    ensures n !in {14, 15, 44, 45, 46, 47, 60} ==>
      Eval(d, cur, Word(n), fuel, depth, l) == Acted(d.env.builtin(n, l.ds, l.w), l.cells)
    ensures Eval(d, cur, Prim(RuntimeWord, n), fuel, depth, l) == Acted(d.env.runtime(n, l.ds, l.w), l.cells)
    ensures Eval(d, cur, Prim(ThreadCreate, n), fuel, depth, l) == Acted(d.env.threadCreate(l.ds, l.w), l.cells)
    ensures Eval(d, cur, Prim(ThreadJoin, n), fuel, depth, l) == Acted(d.env.threadJoin(l.ds, l.w), l.cells)
  {
    hide ReturnWord, Eval, Push, Declare, Define, SlotValue;
    PrimIs(d, cur, BuiltinWord, n, fuel, depth, l);
    PrimIs(d, cur, RuntimeWord, n, fuel, depth, l);
    PrimIs(d, cur, ThreadCreate, n, fuel, depth, l);
    PrimIs(d, cur, ThreadJoin, n, fuel, depth, l);
  }

  /** A data address and a callback are pushed where there is room, and refused where there is none. */
  lemma {:induction false} AddressIsPushed(d: Dictionary, cur: int, n: int, fuel: nat, depth: nat, l: Local)
    ensures Eval(d, cur, Prim(PushDataAddress, n), fuel, depth, l)
        == if |l.ds| < 100 then Ended(l.(ds := l.ds + [d.env.dataStart + n])) else Failed(3, l.w)
    ensures Eval(d, cur, Prim(PushCallback, n), fuel, depth, l)
        == if |l.ds| < 100 then Ended(l.(ds := l.ds + [d.env.callbackTarget(n)])) else Failed(3, l.w)
  {
  }

  // ----- variables and constants -----

  function Variable(slot: int): Stmt {
    Prim(DeclareVariable, slot)
  }

  function Constant(slot: int): Stmt {
    Prim(DeclareConstant, slot)
  }

  function Use(slot: int): Stmt {
    Prim(UseVariableOrConstant, slot)
  }

  /** What the word of a slot pushes. */
  ghost predicate Pushes(d: Dictionary, slot: int, w: World, x: int) {
    forall cur: int, fuel: nat, depth: nat, ds: seq<int>, cells: seq<int> :: |ds| < 100 ==>
      Eval(d, cur, Use(slot), fuel, depth, Local(ds, cells, w)) == Ended(Local(ds + [x], cells, w))
  }

  lemma {:induction false} UseIs(d: Dictionary, cur: int, slot: int, fuel: nat, depth: nat, ds: seq<int>,
      cells: seq<int>, w: World)
    requires |ds| < 100
    ensures Eval(d, cur, Use(slot), fuel, depth, Local(ds, cells, w))
        == Ended(Local(ds + [SlotValue(d.env, slot, w)], cells, w))
  {
    hide SlotValue;
  }

  lemma {:induction false} PushesExactly(d: Dictionary, slot: int, w: World, x: int)
    ensures Pushes(d, slot, w, x) <==> SlotValue(d.env, slot, w) == x
  {
    hide Eval, SlotValue, Use;
    if Pushes(d, slot, w, x) {
      UseIs(d, 0, slot, 0, 0, [], [], w);
      assert Eval(d, 0, Use(slot), 0, 0, Local([], [], w)) == Ended(Local([] + [x], [], w));
      assert ([] + [x])[0] == x;
    }
    if SlotValue(d.env, slot, w) == x {
      forall cur: int, fuel: nat, depth: nat, ds: seq<int>, cells: seq<int> | |ds| < 100
        ensures Eval(d, cur, Use(slot), fuel, depth, Local(ds, cells, w)) == Ended(Local(ds + [x], cells, w))
      {
        UseIs(d, cur, slot, fuel, depth, ds, cells, w);
      }
    }
  }

  lemma {:induction false} VariableIs(d: Dictionary, cur: int, slot: int, fuel: nat, depth: nat, l: Local)
    ensures Eval(d, cur, Variable(slot), fuel, depth, l) == FromRes(Declare(d.env, slot, l))
  {
    hide Declare;
  }

  lemma {:induction false} ConstantIs(d: Dictionary, cur: int, slot: int, fuel: nat, depth: nat, l: Local)
    ensures Eval(d, cur, Constant(slot), fuel, depth, l) == FromRes(Define(slot, l))
  {
    hide Define;
  }

  /** The first multiple of four from here on. */
  ghost predicate NextCell(here: int, a: int) {
    a % 4 == 0 && here <= a < here + 4
  }

  /** `variable v` takes the next aligned cell of the data space, in which nothing changes, and from
      then on `v` pushes its address; it is refused exactly when the cell does not end within the
      memory. */
  lemma {:induction false} VariableIsCell(d: Dictionary, cur: int, slot: int, fuel: nat, depth: nat, l: Local)
    returns (a: int)
    ensures NextCell(l.w.here, a)
    ensures var o, limit := Eval(d, cur, Variable(slot), fuel, depth, l), d.env.memoryBase + d.env.memoryLen;
      if a + 4 > limit then o.Failed? && o.code == 5
      else
        && o.Ended? && o.l.ds == l.ds && o.l.cells == l.cells
        && o.l.w.here == a + 4 && o.l.w.memory == l.w.memory && o.l.w.log == l.w.log && Pushes(d, slot, o.l.w, a)
  {
    hide Eval, Pushes;
    a := Align(l.w.here);
    VariableIs(d, cur, slot, fuel, depth, l);
    var o := Eval(d, cur, Variable(slot), fuel, depth, l);
    if o.Ended? { PushesExactly(d, slot, o.l.w, a); }
  }

  /** `x constant c` takes x off the stack, and from then on `c` pushes it. */
  lemma {:induction false} ConstantIsValue(d: Dictionary, cur: int, slot: int, fuel: nat, depth: nat, l: Local)
    ensures var o := Eval(d, cur, Constant(slot), fuel, depth, l);
      if l.ds == [] then o == Failed(2, l.w)
      else
        && o.Ended? && o.l.ds == l.ds[..|l.ds| - 1] && o.l.cells == l.cells
        && o.l.w.here == l.w.here && o.l.w.memory == l.w.memory && o.l.w.log == l.w.log
        && Pushes(d, slot, o.l.w, l.ds[|l.ds| - 1])
  {
    hide Eval, Pushes;
    ConstantIs(d, cur, slot, fuel, depth, l);
    var o := Eval(d, cur, Constant(slot), fuel, depth, l);
    if o.Ended? { PushesExactly(d, slot, o.l.w, l.ds[|l.ds| - 1]); }
  }

  /** So `x constant c c` pushes x. */
  lemma {:induction false} ConstantComesBack(d: Dictionary, cur: int, slot: int, x: int, fuel: nat, depth: nat,
      l: Local)
    requires |l.ds| < 100
    ensures var o := Eval(d, cur, Chain(Chain(Prim(PushLiteral, x), Constant(slot)), Use(slot)), fuel, depth, l);
      o.Ended? && o.l.ds == l.ds + [x] && o.l.cells == l.cells
  {
    hide Pushes, Constant, Use;
    LiteralIsPushed(d, cur, x, fuel, depth, l);
    var l1 := l.(ds := l.ds + [x]);
    ConstantIsValue(d, cur, slot, fuel, depth, l1);
    assert l1.ds[..|l1.ds| - 1] == l.ds;
    ThenUse(d, cur, slot, fuel, depth, Eval(d, cur, Constant(slot), fuel, depth, l1).l, x);
  }

  lemma {:induction false} ThenUse(d: Dictionary, cur: int, slot: int, fuel: nat, depth: nat, l: Local, x: int)
    requires Pushes(d, slot, l.w, x) && |l.ds| < 100
    ensures Eval(d, cur, Use(slot), fuel, depth, l) == Ended(l.(ds := l.ds + [x]))
  {
    hide Eval;
    assert l == Local(l.ds, l.cells, l.w);
  }

  /** Declaring another variable or constant changes nothing that a word pushes. */
  lemma {:induction false} OthersStay(d: Dictionary, cur: int, s: Stmt, slot: int, other: int, x: int, fuel: nat,
      depth: nat, l: Local)
    requires (s == Variable(other) || s == Constant(other)) && other != slot && Pushes(d, slot, l.w, x)
    requires Eval(d, cur, s, fuel, depth, l).Ended?
    ensures Pushes(d, slot, Eval(d, cur, s, fuel, depth, l).l.w, x)
  {
    hide Eval, Pushes;
    VariableIs(d, cur, other, fuel, depth, l);
    ConstantIs(d, cur, other, fuel, depth, l);
    PushesExactly(d, slot, l.w, x);
    PushesExactly(d, slot, Eval(d, cur, s, fuel, depth, l).l.w, x);
  }

  /** Two variables have different cells, neither of which overlaps the other, whatever happens in
      between as long as the data space is not given back and the first word stays as it is. */
  lemma {:induction false} VariablesApart(d: Dictionary, cur: int, first: int, second: int, fuel: nat, depth: nat,
      l: Local, between: Local, fuel2: nat, depth2: nat)
    returns (a: int, b: int)
    requires first != second
    requires var o := Eval(d, cur, Variable(first), fuel, depth, l);
      && o.Ended? && between.w.here >= o.l.w.here
      && forall x :: Pushes(d, first, o.l.w, x) ==> Pushes(d, first, between.w, x)
    requires Eval(d, cur, Variable(second), fuel2, depth2, between).Ended?
    ensures var w := Eval(d, cur, Variable(second), fuel2, depth2, between).l.w;
      Pushes(d, first, w, a) && Pushes(d, second, w, b) && a + 4 <= b
  {
    hide Pushes, Variable, Eval;
    a := VariableIsCell(d, cur, first, fuel, depth, l);
    b := VariableIsCell(d, cur, second, fuel2, depth2, between);
    OthersStay(d, cur, Variable(second), first, second, a, fuel2, depth2, between);
  }
}
