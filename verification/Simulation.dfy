/** Structured compilation preserves meaning: the fragment machine, started where a structured
    program is placed, does what the program means, whether it ends, exits its word, fails or
    goes on for ever. */
module Simulation {
  import opened Common
  import opened Fragments
  import opened FrontEnd
  import opened Grammar
  import opened Semantics
  import opened FragmentMachine

  /** Single fragments are of the kinds that a single word emits. */
  predicate PlainOnly(s: Stmt) {
    match s
    case Prim(op, _) => IsPlain(op)
    case Chain(a, b) => PlainOnly(a) && PlainOnly(b)
    case IfThen(b) => PlainOnly(b)
    case IfElse(a, b) => PlainOnly(a) && PlainOnly(b)
    case BeginUntil(b) => PlainOnly(b)
    case BeginAgain(b) => PlainOnly(b)
    case BeginWhile(c, b) => PlainOnly(c) && PlainOnly(b)
    case DoLoop(b) => PlainOnly(b)
    case Empty => true
    case Call(_) => true
    case TickWord(_) => true
    case SelfCall => true
    case Leave => true
    case Unlooped => true
  }

  /** Word k with its body: location, body, exit, one after the other. */
  ghost predicate WordPlaced(c: Code, k: nat, body: Stmt) {
    && k < |c.words|
    && var w, p := c.words[k], IndexOf(c.order, c.words[k]);
       && p < |c.order| && c.order[p] == w && w < |c.frags| && c.frags[w].op == DefinedWordLocation
       && Placed(c, k, body, w + 1, p + 1)
       && At(c, p + 1 + Size(body), w + 1 + Size(body), ExitWord, w)
  }

  /** The machine holds the dictionary. */
  ghost predicate Loaded(m: Machine, d: Dictionary) {
    && m.env == d.env && NoRepeats(m.code.order) && d.tokens == Tokens(m)
    && |d.bodies| == |m.code.words|
    && forall k :: 0 <= k < |d.bodies| ==> WordPlaced(m.code, k, d.bodies[k]) && PlainOnly(d.bodies[k])
  }

  /** An exit fragment is next, in the frame that `callers` describes. */
  ghost predicate AtExit(m: Machine, c: Config, l: Local, callers: seq<Frame>) {
    && c.Running? && c.l == l && c.callers == callers && Fetches(m.code, c.pc)
    && m.code.frags[m.code.order[c.pc]].op == ExitWord
  }

  /** After n steps from `from` the machine shows the outcome o; `hi` is the end of the code, and
      an endless outcome with some fuel means at least that many steps without stopping. */
  ghost predicate Shows(m: Machine, from: Config, n: nat, o: Outcome, fuel: nat, callers: seq<Frame>, hi: nat) {
    var c := Run(m, n, from);
    match o
    case Ended(l) => c == Running(hi, l, callers)
    case Exited(l) => AtExit(m, c, l, callers)
    case Failed(code, w) => c == Failure(code, w)
    case Lost => c == Stray
    case Endless => n >= fuel && c.Running?
  }

  // ----- gluing runs -----

  lemma {:induction false} Prepend(m: Machine, from: Config, n1: nat, mid: Config, n2: nat, o: Outcome, f2: nat,
      fuel: nat, callers: seq<Frame>, hi: nat)
    requires Run(m, n1, from) == mid && Shows(m, mid, n2, o, f2, callers, hi) && fuel <= n1 + f2
    ensures Shows(m, from, n1 + n2, o, fuel, callers, hi)
  {
    hide Run;
    RunAdd(m, n1, n2, from);
  }

  lemma {:induction false} OneStep(m: Machine, c: Config)
    ensures Run(m, 1, c) == Step(m, c)
  {
    hide Step;
    assert Run(m, 0, Step(m, c)) == Step(m, c);
  }

  lemma {:induction false} NoStep(m: Machine, c: Config)
    ensures Run(m, 0, c) == c
  {
  }

  /** The machine at place k, where a known fragment stands. */
  lemma {:induction false} StepAt(m: Machine, k: nat, id: nat, op: Opcode, param: int, l: Local, callers: seq<Frame>)
    requires At(m.code, k, id, op, param)
    ensures Run(m, 1, Running(k, l, callers)) == StepFragment(m, m.code.frags[id], k, l, callers)
    ensures m.code.frags[id].op == op && m.code.frags[id].param == param
  {
    hide Run, StepFragment;
    OneStep(m, Running(k, l, callers));
  }

  lemma {:induction false} Target(m: Machine, k: nat, id: nat, op: Opcode, param: int)
    requires At(m.code, k, id, op, param) && NoRepeats(m.code.order)
    ensures IndexOf(m.code.order, id) == k
  {
    IndexIs(m.code.order, k);
  }

  lemma {:induction false} LocationStep(m: Machine, k: nat, id: nat, l: Local, callers: seq<Frame>)
    requires At(m.code, k, id, BranchLocation, -1)
    ensures Run(m, 1, Running(k, l, callers)) == Running(k + 1, l, callers)
  {
    hide Run;
    StepAt(m, k, id, BranchLocation, -1, l, callers);
  }

  lemma {:induction false} BranchStep(m: Machine, k: nat, id: nat, loc: nat, j: nat, l: Local, callers: seq<Frame>)
    requires At(m.code, k, id, Branch, loc) && At(m.code, j, loc, BranchLocation, -1) && NoRepeats(m.code.order)
    ensures Run(m, 1, Running(k, l, callers)) == Running(j, l, callers)
  {
    hide Run, NoRepeats;
    StepAt(m, k, id, Branch, loc, l, callers);
    Target(m, j, loc, BranchLocation, -1);
  }

  lemma {:induction false} BranchIfZeroStep(m: Machine, k: nat, id: nat, loc: nat, j: nat, l: Local,
      callers: seq<Frame>)
    requires At(m.code, k, id, BranchIfZero, loc) && At(m.code, j, loc, BranchLocation, -1) && NoRepeats(m.code.order)
    ensures Run(m, 1, Running(k, l, callers)) == Continue(if TopOf(l.ds) == 0 then j else k + 1, callers, Drop(l))
  {
    hide Run, NoRepeats;
    StepAt(m, k, id, BranchIfZero, loc, l, callers);
    Target(m, j, loc, BranchLocation, -1);
  }

  lemma {:induction false} LoopStep(m: Machine, k: nat, id: nat, loc: nat, j: nat, l: Local, callers: seq<Frame>)
    requires At(m.code, k, id, Loop, loc) && At(m.code, j, loc, BranchLocation, -1) && NoRepeats(m.code.order)
    ensures var (r, again) := TestLoop(Depth(callers), l);
      Run(m, 1, Running(k, l, callers)) == Continue(if again then j else k + 1, callers, r)
  {
    hide Run, NoRepeats, TestLoop;
    StepAt(m, k, id, Loop, loc, l, callers);
    Target(m, j, loc, BranchLocation, -1);
  }

  /** A step that yields a result shows that result when the run continues at the end. */
  lemma {:induction false} ShowsResult(m: Machine, from: Config, r: Res, fuel: nat, callers: seq<Frame>, hi: nat)
    requires Run(m, 1, from) == Continue(hi, callers, r)
    ensures Shows(m, from, 1, FromRes(r), fuel, callers, hi)
  {
    hide Run;
  }

  // ----- one unfolding of the meaning for each construct -----

  /** IF on the result of taking the flag off the stack. */
  function AfterIf(d: Dictionary, cur: int, b: Stmt, fuel: nat, depth: nat, flag: int, r: Res): Outcome {
    match r
    case Fine(l) => if flag == 0 then Ended(l) else Eval(d, cur, b, fuel, depth, l)
    case r => FromRes(r)
  }

  function AfterIfElse(d: Dictionary, cur: int, a: Stmt, b: Stmt, fuel: nat, depth: nat, flag: int, r: Res): Outcome {
    match r
    case Fine(l) => if flag == 0 then Eval(d, cur, b, fuel, depth, l) else Eval(d, cur, a, fuel, depth, l)
    case r => FromRes(r)
  }

  function AfterFirst(d: Dictionary, cur: int, b: Stmt, fuel: nat, depth: nat, o: Outcome): Outcome {
    if o.Ended? then Eval(d, cur, b, fuel, depth, o.l) else o
  }

  /** UNTIL, from the outcome of the body. */
  function AfterUntil(d: Dictionary, cur: int, b: Stmt, fuel: nat, depth: nat, o: Outcome): Outcome {
    if !o.Ended? then o
    else if !Drop(o.l).Fine? then FromRes(Drop(o.l))
    else if TopOf(o.l.ds) != 0 then Ended(Drop(o.l).l)
    else if fuel == 0 then Endless
    else Eval(d, cur, BeginUntil(b), fuel - 1, depth, Drop(o.l).l)
  }

  function AfterAgain(d: Dictionary, cur: int, b: Stmt, fuel: nat, depth: nat, o: Outcome): Outcome {
    if !o.Ended? then o
    else if fuel == 0 then Endless
    else Eval(d, cur, BeginAgain(b), fuel - 1, depth, o.l)
  }

  /** WHILE, from the outcome of the condition. */
  function AfterCond(d: Dictionary, cur: int, c: Stmt, b: Stmt, fuel: nat, depth: nat, o: Outcome): Outcome {
    if !o.Ended? then o
    else if !Drop(o.l).Fine? then FromRes(Drop(o.l))
    else if TopOf(o.l.ds) == 0 then Ended(Drop(o.l).l)
    else AfterBody(d, cur, c, b, fuel, depth, Eval(d, cur, b, fuel, depth, Drop(o.l).l))
  }

  /** REPEAT, from the outcome of the body. */
  function AfterBody(d: Dictionary, cur: int, c: Stmt, b: Stmt, fuel: nat, depth: nat, o: Outcome): Outcome {
    if !o.Ended? then o
    else if fuel == 0 then Endless
    else Eval(d, cur, BeginWhile(c, b), fuel - 1, depth, o.l)
  }

  function AfterDo(d: Dictionary, cur: int, b: Stmt, fuel: nat, depth: nat, r: Res): Outcome {
    if r.Fine? then EvalRounds(d, cur, b, fuel, depth, r.l) else FromRes(r)
  }

  /** LOOP, from the outcome of the body. */
  function AfterRound(d: Dictionary, cur: int, b: Stmt, fuel: nat, depth: nat, o: Outcome): Outcome {
    if !o.Ended? then o
    else
      var (r, again) := TestLoop(depth, o.l);
      if !r.Fine? || !again then FromRes(r)
      else if fuel == 0 then Endless
      else EvalRounds(d, cur, b, fuel - 1, depth, r.l)
  }

  /** Coming back from a word into a caller with these cells. */
  function BackFrom(o: Outcome, cells: seq<int>): Outcome {
    match o
    case Ended(l) => Ended(l.(cells := cells))
    case Exited(l) => Ended(l.(cells := cells))
    case o => o
  }

  lemma {:induction false} EvalAsIfThen(d: Dictionary, cur: int, b: Stmt, fuel: nat, depth: nat, l: Local)
    ensures Eval(d, cur, IfThen(b), fuel, depth, l) == AfterIf(d, cur, b, fuel, depth, TopOf(l.ds), Drop(l))
  {
    hide Drop, FromRes;
  }

  lemma {:induction false} EvalAsIfElse(d: Dictionary, cur: int, a: Stmt, b: Stmt, fuel: nat, depth: nat, l: Local)
    ensures Eval(d, cur, IfElse(a, b), fuel, depth, l) == AfterIfElse(d, cur, a, b, fuel, depth, TopOf(l.ds), Drop(l))
  {
    hide Drop, FromRes;
  }

  lemma {:induction false} EvalAsChain(d: Dictionary, cur: int, a: Stmt, b: Stmt, fuel: nat, depth: nat, l: Local)
    ensures Eval(d, cur, Chain(a, b), fuel, depth, l)
        == AfterFirst(d, cur, b, fuel, depth, Eval(d, cur, a, fuel, depth, l))
  {
  }

  lemma {:induction false} EvalAsUntil(d: Dictionary, cur: int, b: Stmt, fuel: nat, depth: nat, l: Local)
    ensures Eval(d, cur, BeginUntil(b), fuel, depth, l)
        == AfterUntil(d, cur, b, fuel, depth, Eval(d, cur, b, fuel, depth, l))
  {
    hide Drop, FromRes;
  }

  lemma {:induction false} EvalAsAgain(d: Dictionary, cur: int, b: Stmt, fuel: nat, depth: nat, l: Local)
    ensures Eval(d, cur, BeginAgain(b), fuel, depth, l)
        == AfterAgain(d, cur, b, fuel, depth, Eval(d, cur, b, fuel, depth, l))
  {
  }

  lemma {:induction false} EvalAsWhile(d: Dictionary, cur: int, c: Stmt, b: Stmt, fuel: nat, depth: nat, l: Local)
    ensures Eval(d, cur, BeginWhile(c, b), fuel, depth, l)
        == AfterCond(d, cur, c, b, fuel, depth, Eval(d, cur, c, fuel, depth, l))
  {
    hide Drop, FromRes;
  }

  lemma {:induction false} EvalAsDo(d: Dictionary, cur: int, b: Stmt, fuel: nat, depth: nat, l: Local)
    ensures Eval(d, cur, DoLoop(b), fuel, depth, l) == AfterDo(d, cur, b, fuel, depth, TwoToReturn(depth, l))
  {
    hide TwoToReturn, FromRes, EvalRounds;
  }

  lemma {:induction false} RoundsAs(d: Dictionary, cur: int, b: Stmt, fuel: nat, depth: nat, l: Local)
    ensures EvalRounds(d, cur, b, fuel, depth, l) == AfterRound(d, cur, b, fuel, depth, Eval(d, cur, b, fuel, depth, l))
  {
    hide TestLoop, Eval;
  }

  // ----- one construct at a time, given runs of its parts -----

  /** Falling through a location at the end of the code. */
  lemma {:induction false} ThroughLocation(m: Machine, from: Config, n: nat, o: Outcome, fuel: nat,
      callers: seq<Frame>, k: nat, id: nat) returns (n1: nat)
    requires Shows(m, from, n, o, fuel, callers, k) && At(m.code, k, id, BranchLocation, -1)
    ensures Shows(m, from, n1, o, fuel, callers, k + 1)
  {
    hide Run, At;
    if o.Ended? {
      LocationStep(m, k, id, o.l, callers);
      RunAdd(m, n, 1, from);
      n1 := n + 1;
    } else {
      n1 := n;
    }
  }

  /** A conditional branch: r is what taking the flag gave, o what follows when it succeeded. */
  lemma {:induction false} ThroughFlag(m: Machine, k: nat, l: Local, callers: seq<Frame>, zero: nat, r: Res, nb: nat,
      o: Outcome, fuel: nat, hi: nat) returns (n: nat)
    requires Run(m, 1, Running(k, l, callers)) == Continue(zero, callers, r)
    requires r.Fine? ==> Shows(m, Running(zero, r.l, callers), nb, o, fuel, callers, hi)
    ensures Shows(m, Running(k, l, callers), n, if r.Fine? then o else FromRes(r), fuel, callers, hi)
  {
    hide Run, Shows;
    if r.Fine? {
      n := 1 + nb;
      Prepend(m, Running(k, l, callers), 1, Running(zero, r.l, callers), nb, o, fuel, fuel, callers, hi);
    } else {
      n := 1;
      ShowsFault(m, Running(k, l, callers), r, zero, fuel, callers, hi);
    }
  }

  lemma {:induction false} ShowsFault(m: Machine, from: Config, r: Res, k: nat, fuel: nat, callers: seq<Frame>, hi: nat)
    requires Run(m, 1, from) == Continue(k, callers, r) && !r.Fine?
    ensures Shows(m, from, 1, FromRes(r), fuel, callers, hi)
  {
    hide Run;
  }

  lemma {:induction false} ShowsEnd(m: Machine, k: nat, l: Local, fuel: nat, callers: seq<Frame>)
    ensures Shows(m, Running(k, l, callers), 0, Ended(l), fuel, callers, k)
  {
  }

  lemma {:induction false} SimIfThen(m: Machine, d: Dictionary, cur: int, b: Stmt, n0: nat, lo: nat, fuel: nat,
      l: Local, callers: seq<Frame>, nb: nat)
    returns (n: nat)
    requires NoRepeats(m.code.order) && PlacedIfThen(m.code, cur, b, n0, lo)
    requires Drop(l).Fine? && TopOf(l.ds) != 0 ==>
      Shows(m, Running(lo + 1, Drop(l).l, callers), nb, Eval(d, cur, b, fuel, Depth(callers), Drop(l).l), fuel,
          callers, lo + 1 + Size(b))
    ensures Shows(m, Running(lo, l, callers), n, Eval(d, cur, IfThen(b), fuel, Depth(callers), l), fuel, callers,
        lo + 2 + Size(b))
  {
    hide Run, Shows, At, Placed, Size, Eval, NoRepeats, Depth, Drop;
    var k, flag := lo + 1 + Size(b), TopOf(l.ds);
    var depth := Depth(callers);
    EvalAsIfThen(d, cur, b, fuel, depth, l);
    BranchIfZeroStep(m, lo, n0 + 1, n0, k, l, callers);
    if flag == 0 {
      if Drop(l).Fine? { ShowsEnd(m, k, Drop(l).l, fuel, callers); }
      n := ThroughFlag(m, lo, l, callers, k, Drop(l), 0, if Drop(l).Fine? then Ended(Drop(l).l) else Lost, fuel, k);
    } else {
      n := ThroughFlag(m, lo, l, callers, lo + 1, Drop(l), nb,
          if Drop(l).Fine? then Eval(d, cur, b, fuel, depth, Drop(l).l) else Lost, fuel, k);
    }
    n := ThroughLocation(m, Running(lo, l, callers), n, AfterIf(d, cur, b, fuel, depth, flag, Drop(l)), fuel,
        callers, k, n0);
  }

  lemma {:induction false} FromLocation(m: Machine, k: nat, id: nat, l: Local, callers: seq<Frame>, n: nat,
      o: Outcome, fuel: nat, hi: nat)
    requires At(m.code, k, id, BranchLocation, -1)
    requires Shows(m, Running(k + 1, l, callers), n, o, fuel, callers, hi)
    ensures Shows(m, Running(k, l, callers), 1 + n, o, fuel, callers, hi)
  {
    hide Run, At, Shows;
    LocationStep(m, k, id, l, callers);
    Prepend(m, Running(k, l, callers), 1, Running(k + 1, l, callers), n, o, fuel, fuel, callers, hi);
  }

  lemma {:induction false} ThroughBranch(m: Machine, from: Config, n: nat, o: Outcome, fuel: nat,
      callers: seq<Frame>, k: nat, id: nat, loc: nat, j: nat) returns (n1: nat)
    requires Shows(m, from, n, o, fuel, callers, k) && NoRepeats(m.code.order)
    requires At(m.code, k, id, Branch, loc) && At(m.code, j, loc, BranchLocation, -1)
    ensures Shows(m, from, n1, o, fuel, callers, j)
  {
    hide Run, At, NoRepeats;
    if o.Ended? {
      BranchStep(m, k, id, loc, j, o.l, callers);
      RunAdd(m, n, 1, from);
      n1 := n + 1;
    } else {
      n1 := n;
    }
  }

  /** Code that ends at k, and what follows from there. */
  lemma {:induction false} AndThen(m: Machine, from: Config, n1: nat, o1: Outcome, f1: nat, k: nat, n2: nat,
      o2: Outcome, f2: nat, fuel: nat, callers: seq<Frame>, hi: nat)
    returns (n: nat)
    requires Shows(m, from, n1, o1, f1, callers, k) && fuel <= f1
    requires o1.Ended? ==> Shows(m, Running(k, o1.l, callers), n2, o2, f2, callers, hi) && fuel <= n1 + f2
    ensures Shows(m, from, n, if o1.Ended? then o2 else o1, fuel, callers, hi)
  {
    hide Run;
    if o1.Ended? {
      n := n1 + n2;
      hide Shows;
      Prepend(m, from, n1, Running(k, o1.l, callers), n2, o2, f2, fuel, callers, hi) by {
        ShownEnd(m, from, n1, o1, f1, k, callers);
      }
    } else {
      n := n1;
    }
  }

  lemma {:induction false} ShownEnd(m: Machine, from: Config, n: nat, o: Outcome, fuel: nat, k: nat,
      callers: seq<Frame>)
    requires Shows(m, from, n, o, fuel, callers, k) && o.Ended?
    ensures Run(m, n, from) == Running(k, o.l, callers)
  {
    hide Run;
  }

  lemma {:induction false} SimIfElse(m: Machine, d: Dictionary, cur: int, a: Stmt, b: Stmt, n0: nat, lo: nat,
      fuel: nat, l: Local, callers: seq<Frame>, na: nat, nb: nat)
    returns (n: nat)
    requires NoRepeats(m.code.order) && PlacedIfElse(m.code, cur, a, b, n0, lo)
    requires Drop(l).Fine? && TopOf(l.ds) != 0 ==>
      Shows(m, Running(lo + 1, Drop(l).l, callers), na, Eval(d, cur, a, fuel, Depth(callers), Drop(l).l), fuel,
          callers, lo + 1 + Size(a))
    requires Drop(l).Fine? && TopOf(l.ds) == 0 ==>
      Shows(m, Running(lo + 3 + Size(a), Drop(l).l, callers), nb, Eval(d, cur, b, fuel, Depth(callers), Drop(l).l),
          fuel, callers, lo + 3 + Size(a) + Size(b))
    ensures Shows(m, Running(lo, l, callers), n, Eval(d, cur, IfElse(a, b), fuel, Depth(callers), l), fuel, callers,
        lo + 4 + Size(a) + Size(b))
  {
    hide Run, Shows, At, Placed, Size, Eval, NoRepeats, Depth, Drop;
    var k, flag, r := lo + 3 + Size(a) + Size(b), TopOf(l.ds), Drop(l);
    var depth, mid, j := Depth(callers), lo + 2 + Size(a), n0 + 2 + Size(a);
    EvalAsIfElse(d, cur, a, b, fuel, depth, l);
    BranchIfZeroStep(m, lo, n0 + 1, n0, mid, l, callers);
    if !r.Fine? {
      n := 1;
      ShowsFault(m, Running(lo, l, callers), r, if flag == 0 then mid else lo + 1, fuel, callers, k);
    } else if flag == 0 {
      var o := Eval(d, cur, b, fuel, depth, r.l);
      FromLocation(m, mid, n0, r.l, callers, nb, o, fuel, k);
      n := ThroughFlag(m, lo, l, callers, mid, r, 1 + nb, o, fuel, k);
    } else {
      var o := Eval(d, cur, a, fuel, depth, r.l);
      var n1 := ThroughBranch(m, Running(lo + 1, r.l, callers), na, o, fuel, callers, lo + 1 + Size(a), j + 1, j, k);
      n := ThroughFlag(m, lo, l, callers, lo + 1, r, n1, o, fuel, k);
    }
    n := ThroughLocation(m, Running(lo, l, callers), n, AfterIfElse(d, cur, a, b, fuel, depth, flag, r), fuel,
        callers, k, j);
  }

  lemma {:induction false} SimChain(m: Machine, d: Dictionary, cur: int, a: Stmt, b: Stmt, lo: nat, fuel: nat,
      l: Local, callers: seq<Frame>, na: nat, nb: nat)
    returns (n: nat)
    requires var oa := Eval(d, cur, a, fuel, Depth(callers), l);
      && Shows(m, Running(lo, l, callers), na, oa, fuel, callers, lo + Size(a))
      && (oa.Ended? ==> Shows(m, Running(lo + Size(a), oa.l, callers), nb,
          Eval(d, cur, b, fuel, Depth(callers), oa.l), fuel, callers, lo + Size(a) + Size(b)))
    ensures Shows(m, Running(lo, l, callers), n, Eval(d, cur, Chain(a, b), fuel, Depth(callers), l), fuel, callers,
        lo + Size(a) + Size(b))
  {
    hide Run, Shows, Size, Eval, Depth;
    var depth := Depth(callers);
    EvalAsChain(d, cur, a, b, fuel, depth, l);
    var oa := Eval(d, cur, a, fuel, depth, l);
    n := AndThen(m, Running(lo, l, callers), na, oa, fuel, lo + Size(a), nb,
                 if oa.Ended? then Eval(d, cur, b, fuel, depth, oa.l) else Lost, fuel, fuel, callers,
                     lo + Size(a) + Size(b));
  }

  lemma {:induction false} ShowsEndless(m: Machine, k: nat, l: Local, callers: seq<Frame>, hi: nat)
    ensures Shows(m, Running(k, l, callers), 0, Endless, 0, callers, hi)
  {
  }

  lemma {:induction false} SimUntil(m: Machine, d: Dictionary, cur: int, b: Stmt, n0: nat, lo: nat, fuel: nat,
      l: Local, callers: seq<Frame>, nb: nat, nr: nat)
    returns (n: nat)
    requires NoRepeats(m.code.order) && PlacedBeginUntil(m.code, cur, b, n0, lo)
    requires var k, depth := lo + 1 + Size(b), Depth(callers);
      var o := Eval(d, cur, b, fuel, depth, l);
      && Shows(m, Running(lo + 1, l, callers), nb, o, fuel, callers, k)
      && (o.Ended? && Drop(o.l).Fine? && TopOf(o.l.ds) == 0 && fuel > 0 ==>
            Shows(m, Running(lo, Drop(o.l).l, callers), nr,
                Eval(d, cur, BeginUntil(b), fuel - 1, depth, Drop(o.l).l), fuel - 1, callers, k + 1))
    ensures Shows(m, Running(lo, l, callers), n, Eval(d, cur, BeginUntil(b), fuel, Depth(callers), l), fuel, callers,
        lo + 2 + Size(b))
  {
    hide Run, Shows, At, Placed, Size, Eval, NoRepeats, Depth, Drop;
    var k, depth := lo + 1 + Size(b), Depth(callers);
    var o := Eval(d, cur, b, fuel, depth, l);
    EvalAsUntil(d, cur, b, fuel, depth, l);
    FromLocation(m, lo, n0, l, callers, nb, o, fuel, k);
    var n2, o2, f2 := 0, AfterUntil(d, cur, b, fuel, depth, o), fuel;
    if o.Ended? {
      var r := Drop(o.l);
      BranchIfZeroStep(m, k, n0 + 1 + Size(b), n0, lo, o.l, callers);
      if r.Fine? && TopOf(o.l.ds) == 0 {
        if fuel == 0 {
          ShowsEndless(m, k, o.l, callers, k + 1);
        } else {
          f2 := fuel - 1;
          n2 := ThroughFlag(m, k, o.l, callers, lo, r, nr, o2, f2, k + 1);
        }
      } else {
        if r.Fine? { ShowsEnd(m, k + 1, r.l, fuel, callers); }
        n2 := ThroughFlag(m, k, o.l, callers, if TopOf(o.l.ds) == 0 then lo else k + 1, r, 0, o2, fuel, k + 1);
      }
    }
    n := AndThen(m, Running(lo, l, callers), 1 + nb, o, fuel, k, n2, o2, f2, fuel, callers, k + 1);
  }

  lemma {:induction false} SimAgain(m: Machine, d: Dictionary, cur: int, b: Stmt, n0: nat, lo: nat, fuel: nat,
      l: Local, callers: seq<Frame>, nb: nat, nr: nat)
    returns (n: nat)
    requires NoRepeats(m.code.order) && PlacedBeginAgain(m.code, cur, b, n0, lo)
    requires var k, depth := lo + 1 + Size(b), Depth(callers);
      var o := Eval(d, cur, b, fuel, depth, l);
      && Shows(m, Running(lo + 1, l, callers), nb, o, fuel, callers, k)
      && (o.Ended? && fuel > 0 ==>
            Shows(m, Running(lo, o.l, callers), nr, Eval(d, cur, BeginAgain(b), fuel - 1, depth, o.l), fuel - 1,
                callers, k + 1))
    ensures Shows(m, Running(lo, l, callers), n, Eval(d, cur, BeginAgain(b), fuel, Depth(callers), l), fuel, callers,
        lo + 2 + Size(b))
  {
    hide Run, Shows, At, Placed, Size, Eval, NoRepeats, Depth;
    var k, depth := lo + 1 + Size(b), Depth(callers);
    var o := Eval(d, cur, b, fuel, depth, l);
    EvalAsAgain(d, cur, b, fuel, depth, l);
    FromLocation(m, lo, n0, l, callers, nb, o, fuel, k);
    var n2, o2, f2 := 0, AfterAgain(d, cur, b, fuel, depth, o), fuel;
    if o.Ended? {
      if fuel == 0 {
        ShowsEndless(m, k, o.l, callers, k + 1);
      } else {
        f2 := fuel - 1;
        n2 := 1 + nr;
        BranchStep(m, k, n0 + 1 + Size(b), n0, lo, o.l, callers);
        Prepend(m, Running(k, o.l, callers), 1, Running(lo, o.l, callers), nr, o2, f2, f2, callers, k + 1);
      }
    }
    n := AndThen(m, Running(lo, l, callers), 1 + nb, o, fuel, k, n2, o2, f2, fuel, callers, k + 1);
  }

  /** The body of a begin-while-repeat, the branch back and the rounds that follow. */
  lemma {:induction false} SimRepeat(m: Machine, d: Dictionary, cur: int, c: Stmt, b: Stmt, n0: nat, lo: nat,
      fuel: nat, l: Local, callers: seq<Frame>, nb: nat, nr: nat)
    returns (n: nat)
    requires NoRepeats(m.code.order) && PlacedBeginWhile(m.code, cur, c, b, n0, lo)
    requires var k1, k2, depth := lo + 1 + Size(c), lo + 2 + Size(c) + Size(b), Depth(callers);
      var o := Eval(d, cur, b, fuel, depth, l);
      && Shows(m, Running(k1 + 1, l, callers), nb, o, fuel, callers, k2)
      && (o.Ended? && fuel > 0 ==>
            Shows(m, Running(lo, o.l, callers), nr, Eval(d, cur, BeginWhile(c, b), fuel - 1, depth, o.l), fuel - 1,
                callers, k2 + 2))
    ensures Shows(m, Running(lo + 2 + Size(c), l, callers), n,
                  AfterBody(d, cur, c, b, fuel, Depth(callers), Eval(d, cur, b, fuel, Depth(callers), l)), fuel,
                      callers, lo + 4 + Size(c) + Size(b))
  {
    hide Run, Shows, At, Placed, Size, Eval, NoRepeats, Depth;
    var k1, k2, depth := lo + 1 + Size(c), lo + 2 + Size(c) + Size(b), Depth(callers);
    var o := Eval(d, cur, b, fuel, depth, l);
    var n2, o2 := 0, AfterBody(d, cur, c, b, fuel, depth, o);
    if o.Ended? {
      if fuel == 0 {
        ShowsEndless(m, k2, o.l, callers, k2 + 2);
      } else {
        n2 := 1 + nr;
        BranchStep(m, k2, n0 + 3 + Size(c) + Size(b), n0, lo, o.l, callers);
        Prepend(m, Running(k2, o.l, callers), 1, Running(lo, o.l, callers), nr, o2, fuel - 1, fuel, callers, k2 + 2);
      }
    }
    n := AndThen(m, Running(k1 + 1, l, callers), nb, o, fuel, k2, n2, o2, fuel, fuel, callers, k2 + 2);
  }

  lemma {:induction false} SimWhile(m: Machine, d: Dictionary, cur: int, c: Stmt, b: Stmt, n0: nat, lo: nat,
      fuel: nat, l: Local, callers: seq<Frame>, nc: nat, nb: nat)
    returns (n: nat)
    requires NoRepeats(m.code.order) && PlacedBeginWhile(m.code, cur, c, b, n0, lo)
    requires var k1, depth, hi := lo + 1 + Size(c), Depth(callers), lo + 4 + Size(c) + Size(b);
      var o := Eval(d, cur, c, fuel, depth, l);
      && Shows(m, Running(lo + 1, l, callers), nc, o, fuel, callers, k1)
      && (o.Ended? && Drop(o.l).Fine? && TopOf(o.l.ds) != 0 ==>
            Shows(m, Running(k1 + 1, Drop(o.l).l, callers), nb,
                  AfterBody(d, cur, c, b, fuel, depth, Eval(d, cur, b, fuel, depth, Drop(o.l).l)), fuel, callers, hi))
    ensures Shows(m, Running(lo, l, callers), n, Eval(d, cur, BeginWhile(c, b), fuel, Depth(callers), l), fuel,
        callers, lo + 4 + Size(c) + Size(b))
  {
    hide Run, Shows, At, Placed, Size, Eval, NoRepeats, Depth, Drop, AfterBody;
    var k1, depth, hi := lo + 1 + Size(c), Depth(callers), lo + 4 + Size(c) + Size(b);
    var o := Eval(d, cur, c, fuel, depth, l);
    EvalAsWhile(d, cur, c, b, fuel, depth, l);
    FromLocation(m, lo, n0, l, callers, nc, o, fuel, k1);
    var n2, o2 := 0, AfterCond(d, cur, c, b, fuel, depth, o);
    var mm := n0 + 1 + Size(c);
    if o.Ended? {
      var r, flag := Drop(o.l), TopOf(o.l.ds);
      BranchIfZeroStep(m, k1, mm + 1, mm, hi - 1, o.l, callers);
      if !r.Fine? {
        n2 := 1;
        ShowsFault(m, Running(k1, o.l, callers), r, if flag == 0 then hi - 1 else k1 + 1, fuel, callers, hi);
      } else if flag == 0 {
        ShowsEnd(m, hi, r.l, fuel, callers);
        FromLocation(m, hi - 1, mm, r.l, callers, 0, o2, fuel, hi);
        n2 := ThroughFlag(m, k1, o.l, callers, hi - 1, r, 1, o2, fuel, hi);
      } else {
        n2 := ThroughFlag(m, k1, o.l, callers, k1 + 1, r, nb, o2, fuel, hi);
      }
    }
    n := AndThen(m, Running(lo, l, callers), 1 + nc, o, fuel, k1, n2, o2, fuel, fuel, callers, hi);
  }

  /** One round of a do-loop and the rounds after it. */
  lemma {:induction false} SimRound(m: Machine, d: Dictionary, cur: int, b: Stmt, n0: nat, lo: nat, fuel: nat,
      l: Local, callers: seq<Frame>, nb: nat, nr: nat)
    returns (n: nat)
    requires NoRepeats(m.code.order) && PlacedDoLoop(m.code, cur, b, n0, lo)
    requires var k, depth := lo + 2 + Size(b), Depth(callers);
      var o := Eval(d, cur, b, fuel, depth, l);
      && Shows(m, Running(lo + 2, l, callers), nb, o, fuel, callers, k)
      && (o.Ended? && fuel > 0 && TestLoop(depth, o.l).0.Fine? && TestLoop(depth, o.l).1 ==>
            Shows(m, Running(lo + 1, TestLoop(depth, o.l).0.l, callers), nr,
                  EvalRounds(d, cur, b, fuel - 1, depth, TestLoop(depth, o.l).0.l), fuel - 1, callers, k + 1))
    ensures Shows(m, Running(lo + 1, l, callers), n, EvalRounds(d, cur, b, fuel, Depth(callers), l), fuel, callers,
        lo + 3 + Size(b))
  {
    hide Run, Shows, At, Placed, Size, Eval, EvalRounds, NoRepeats, Depth, TestLoop;
    var k, depth := lo + 2 + Size(b), Depth(callers);
    var o := Eval(d, cur, b, fuel, depth, l);
    RoundsAs(d, cur, b, fuel, depth, l);
    FromLocation(m, lo + 1, n0 + 1, l, callers, nb, o, fuel, k);
    var n2, o2, f2 := 0, AfterRound(d, cur, b, fuel, depth, o), fuel;
    if o.Ended? {
      var (r, again) := TestLoop(depth, o.l);
      LoopStep(m, k, n0 + 2 + Size(b), n0 + 1, lo + 1, o.l, callers);
      if r.Fine? && again {
        if fuel == 0 {
          ShowsEndless(m, k, o.l, callers, k + 1);
        } else {
          f2 := fuel - 1;
          n2 := ThroughFlag(m, k, o.l, callers, lo + 1, r, nr, o2, f2, k + 1);
        }
      } else {
        if r.Fine? { ShowsEnd(m, k + 1, r.l, fuel, callers); }
        n2 := ThroughFlag(m, k, o.l, callers, if again then lo + 1 else k + 1, r, 0, o2, fuel, k + 1);
      }
    }
    n := AndThen(m, Running(lo + 1, l, callers), 1 + nb, o, fuel, k, n2, o2, f2, fuel, callers, k + 1);
  }

  lemma {:induction false} SimDo(m: Machine, d: Dictionary, cur: int, b: Stmt, n0: nat, lo: nat, fuel: nat, l: Local,
      callers: seq<Frame>, nr: nat)
    returns (n: nat)
    requires PlacedDoLoop(m.code, cur, b, n0, lo)
    requires var r, depth := TwoToReturn(Depth(callers), l), Depth(callers);
      r.Fine? ==> Shows(m, Running(lo + 1, r.l, callers), nr, EvalRounds(d, cur, b, fuel, depth, r.l), fuel, callers,
          lo + 3 + Size(b))
    ensures Shows(m, Running(lo, l, callers), n, Eval(d, cur, DoLoop(b), fuel, Depth(callers), l), fuel, callers,
        lo + 3 + Size(b))
  {
    hide Run, Shows, At, Placed, Size, Eval, EvalRounds, Depth, TwoToReturn;
    var depth := Depth(callers);
    EvalAsDo(d, cur, b, fuel, depth, l);
    StepAt(m, lo, n0, Do, -1, l, callers);
    var r := TwoToReturn(depth, l);
    n := ThroughFlag(m, lo, l, callers, lo + 1, r, nr,
        if r.Fine? then EvalRounds(d, cur, b, fuel, depth, r.l) else Lost, fuel, lo + 3 + Size(b));
  }

  // ----- calls -----

  lemma {:induction false} DepthPush(callers: seq<Frame>, f: Frame)
    ensures Depth(callers + [f]) == Depth(callers) + |f.cells| + 2
  {
    assert (callers + [f])[..|callers|] == callers;
  }

  /** Leaving a word brings the suspended frame back, whatever the word left on the stack. */
  lemma {:induction false} ExitRestores(m: Machine, c: Config, l: Local, callers: seq<Frame>, ret: nat, cells: seq<int>)
    requires AtExit(m, c, l, callers + [Frame(Some(ret), cells)])
    ensures Run(m, 1, c) == Running(ret, l.(cells := cells), callers)
  {
    hide Run;
    var all := callers + [Frame(Some(ret), cells)];
    assert all[..|all| - 1] == callers;
    OneStep(m, c);
  }

  function EnterBody(d: Dictionary, k: nat, fuel: nat, depth: nat, l: Local): Outcome
    requires k < |d.bodies| && fuel > 0
  {
    Eval(d, k, d.bodies[k], fuel - 1, depth + |l.cells| + 2, l.(cells := []))
  }

  lemma {:induction false} EvalCallAs(d: Dictionary, k: nat, fuel: nat, depth: nat, l: Local)
    requires k < |d.bodies| && depth + |l.cells| + 2 <= RETURN_CELLS
    ensures EvalCall(d, k, fuel, depth, l)
        == if fuel == 0 then Endless else BackFrom(EnterBody(d, k, fuel, depth, l), l.cells)
  {
    hide Eval;
  }

  /** A word entered from `from`: its location, its body, its exit. */
  lemma {:induction false} SimEntered(m: Machine, d: Dictionary, k: nat, from: Config, pc: nat, fuel: nat, l: Local,
      callers: seq<Frame>, nb: nat)
    returns (n: nat)
    requires k < |d.bodies| && WordPlaced(m.code, k, d.bodies[k]) && from.Running?
    requires Depth(callers) + |l.cells| + 2 <= RETURN_CELLS
    requires Run(m, 1, from) == Enter(m, pc, l, callers, m.code.words[k])
    requires fuel > 0 ==>
      var p, inner := IndexOf(m.code.order, m.code.words[k]), callers + [Frame(Some(pc + 1), l.cells)];
      Shows(m, Running(p + 1, l.(cells := []), inner), nb, EnterBody(d, k, fuel, Depth(callers), l), fuel - 1, inner,
          p + 1 + Size(d.bodies[k]))
    ensures Shows(m, from, n, EvalCall(d, k, fuel, Depth(callers), l), fuel, callers, pc + 1)
  {
    hide Run, Eval, EvalCall, Placed, Size, Depth, IndexOf;
    EvalCallAs(d, k, fuel, Depth(callers), l);
    if fuel == 0 {
      n := 0;
      NoStep(m, from);
    } else {
      var w, p, inner := m.code.words[k], IndexOf(m.code.order, m.code.words[k]),
          callers + [Frame(Some(pc + 1), l.cells)];
      var start, o, end := Running(p + 1, l.(cells := []), inner), EnterBody(d, k, fuel, Depth(callers), l),
          p + 1 + Size(d.bodies[k]);
      WordStarts(m, k, d.bodies[k], from, pc, l, callers);
      if o.Ended? || o.Exited? {
        var c := Run(m, nb, start);
        WordEnds(m, k, d.bodies[k], start, nb, o, fuel - 1, inner);
        ExitRestores(m, c, o.l, callers, pc + 1, l.cells);
        RunAdd(m, nb, 1, start);
        RunAdd(m, 2, nb + 1, from);
        n := 2 + (nb + 1);
      } else {
        n := 2 + nb;
        RunAdd(m, 2, nb, from);
      }
    }
  }

  lemma {:induction false} WordStarts(m: Machine, k: nat, body: Stmt, from: Config, pc: nat, l: Local,
      callers: seq<Frame>)
    requires WordPlaced(m.code, k, body)
    requires Run(m, 1, from) == Enter(m, pc, l, callers, m.code.words[k])
    ensures Run(m, 2, from)
         == Running(IndexOf(m.code.order, m.code.words[k]) + 1, l.(cells := []),
             callers + [Frame(Some(pc + 1), l.cells)])
  {
    hide Run, Placed, Size, IndexOf;
    var mid := Enter(m, pc, l, callers, m.code.words[k]);
    OneStep(m, mid);
    RunAdd(m, 1, 1, from);
  }

  lemma {:induction false} WordEnds(m: Machine, k: nat, body: Stmt, from: Config, n: nat, o: Outcome, fuel: nat,
      callers: seq<Frame>)
    requires WordPlaced(m.code, k, body) && (o.Ended? || o.Exited?)
    requires Shows(m, from, n, o, fuel, callers, IndexOf(m.code.order, m.code.words[k]) + 1 + Size(body))
    ensures AtExit(m, Run(m, n, from), o.l, callers)
  {
    hide Run, Placed, Size, IndexOf;
  }

  // ----- single words -----

  lemma {:induction false} SimPrim(m: Machine, d: Dictionary, cur: int, op: Opcode, param: int, n0: nat, lo: nat,
      fuel: nat, l: Local, callers: seq<Frame>)
    requires m.env == d.env && At(m.code, lo, n0, op, param) && IsPlain(op) && op != Execute
    ensures Shows(m, Running(lo, l, callers), 1, Eval(d, cur, Prim(op, param), fuel, Depth(callers), l), fuel,
        callers, lo + 1)
  {
    hide Run, Shows, At, Depth, Exec;
    StepAt(m, lo, n0, op, param, l, callers);
    ShowsResult(m, Running(lo, l, callers), Exec(d.env, op, param, Depth(callers), l), fuel, callers, lo + 1);
  }

  lemma {:induction false} SimTick(m: Machine, d: Dictionary, cur: int, k: nat, n0: nat, lo: nat, fuel: nat,
      l: Local, callers: seq<Frame>)
    requires d.tokens == Tokens(m) && k < |m.code.words| && At(m.code, lo, n0, PushOffsetAddress, m.code.words[k])
    ensures Shows(m, Running(lo, l, callers), 1, Eval(d, cur, TickWord(k), fuel, Depth(callers), l), fuel, callers,
        lo + 1)
  {
    hide Run, Shows, At, Depth, Push;
    StepAt(m, lo, n0, PushOffsetAddress, m.code.words[k], l, callers);
    ShowsResult(m, Running(lo, l, callers), Push(l, d.tokens[k]), fuel, callers, lo + 1);
  }

  lemma {:induction false} LoadedWord(m: Machine, d: Dictionary, k: nat)
    requires Loaded(m, d) && k < |d.bodies|
    ensures WordPlaced(m.code, k, d.bodies[k]) && PlainOnly(d.bodies[k]) && k < |m.code.words|
  {
    hide WordPlaced, PlainOnly, NoRepeats;
  }

  lemma {:induction false} LoadedBasics(m: Machine, d: Dictionary)
    requires Loaded(m, d)
    ensures m.env == d.env && NoRepeats(m.code.order) && d.tokens == Tokens(m) && |d.bodies| == |m.code.words|
    ensures |d.tokens| == |d.bodies|
  {
    hide WordPlaced, PlainOnly, NoRepeats;
  }

  /** A call fragment, given a run of the body. */
  lemma {:induction false} SimCall(m: Machine, d: Dictionary, k: nat, n0: nat, lo: nat, fuel: nat, l: Local,
      callers: seq<Frame>, nb: nat)
    returns (n: nat)
    requires Loaded(m, d) && k < |d.bodies| && At(m.code, lo, n0, DefinedWord, m.code.words[k])
    requires BodyShown(m, d, k, lo, fuel, l, callers, nb)
    ensures Shows(m, Running(lo, l, callers), n, EvalCall(d, k, fuel, Depth(callers), l), fuel, callers, lo + 1)
  {
    hide Run, Shows, At, Depth, Eval, Placed, WordPlaced, Loaded, EnterBody, IndexOf, PlainOnly, BodyShown, Enter;
    LoadedWord(m, d, k);
    EvalCallNoRoom(d, k, fuel, l, callers);
    StepAt(m, lo, n0, DefinedWord, m.code.words[k], l, callers);
    if RoomForFrame(l, callers) {
      n := EnteredShown(m, d, k, Running(lo, l, callers), lo, fuel, l, callers, nb);
    } else {
      n := 1;
      ShowsFault(m, Running(lo, l, callers), Fault(STACK_OVERFLOW, l.w), lo + 1, fuel, callers, lo + 1);
      assert FromRes(Fault(STACK_OVERFLOW, l.w)) == Failed(STACK_OVERFLOW, l.w);
    }
  }

  /** The body of word k has been run from a call at `pc`. */
  ghost predicate BodyShown(m: Machine, d: Dictionary, k: nat, pc: nat, fuel: nat, l: Local, callers: seq<Frame>,
      nb: nat)
    requires k < |d.bodies|
  {
    fuel > 0 && RoomForFrame(l, callers) && k < |m.code.words| ==>
      var p, inner := IndexOf(m.code.order, m.code.words[k]), callers + [Frame(Some(pc + 1), l.cells)];
      Shows(m, Running(p + 1, l.(cells := []), inner), nb, EnterBody(d, k, fuel, Depth(callers), l), fuel - 1, inner,
          p + 1 + Size(d.bodies[k]))
  }

  lemma {:induction false} EvalCallNoRoom(d: Dictionary, k: nat, fuel: nat, l: Local, callers: seq<Frame>)
    requires k < |d.bodies|
    ensures !RoomForFrame(l, callers) ==> EvalCall(d, k, fuel, Depth(callers), l) == Failed(STACK_OVERFLOW, l.w)
  {
    hide Eval, Depth;
  }

  lemma {:induction false} DropKeeps(l: Local)
    ensures Drop(l).Fine? ==> Drop(l).l.cells == l.cells && Drop(l).l.w == l.w
  {
  }

  lemma {:induction false} EnteredShown(m: Machine, d: Dictionary, k: nat, from: Config, pc: nat, fuel: nat,
      l: Local, callers: seq<Frame>, nb: nat)
    returns (n: nat)
    requires k < |d.bodies| && WordPlaced(m.code, k, d.bodies[k]) && from.Running? && k < |m.code.words|
    requires RoomForFrame(l, callers)
    requires Run(m, 1, from) == Enter(m, pc, l, callers, m.code.words[k])
    requires BodyShown(m, d, k, pc, fuel, l, callers, nb)
    ensures Shows(m, from, n, EvalCall(d, k, fuel, Depth(callers), l), fuel, callers, pc + 1)
  {
    hide Run, Shows, Depth, Eval, EvalCall, Placed, WordPlaced, EnterBody, IndexOf, Enter;
    n := SimEntered(m, d, k, from, pc, fuel, l, callers, nb);
  }

  lemma {:induction false} SimExecute(m: Machine, d: Dictionary, n0: nat, lo: nat, param: int, fuel: nat, l: Local,
      callers: seq<Frame>, nb: nat)
    returns (n: nat)
    requires Loaded(m, d) && At(m.code, lo, n0, Execute, param)
    requires var t := FindToken(d.tokens, TopOf(l.ds));
      Drop(l).Fine? && t.Some? ==> t.value < |d.bodies| && BodyShown(m, d, t.value, lo, fuel, Drop(l).l, callers, nb)
    ensures Shows(m, Running(lo, l, callers), n, EvalExecute(d, fuel, Depth(callers), l), fuel, callers, lo + 1)
  {
    hide Run, Shows, At, Depth, Eval, Placed, WordPlaced, Loaded, EnterBody, IndexOf, FindToken, Drop, EvalCall,
        Tokens, BodyShown, Enter, PlainOnly, WordPlaced;
    var t := FindToken(d.tokens, TopOf(l.ds));
    DropKeeps(l);
    LoadedBasics(m, d);
    var from := Running(lo, l, callers);
    StepAt(m, lo, n0, Execute, param, l, callers);
    n := 1;
    if !RoomForFrame(l, callers) {
      ShowsFault(m, from, Fault(STACK_OVERFLOW, l.w), lo + 1, fuel, callers, lo + 1);
    } else if !Drop(l).Fine? {
      ShowsFault(m, from, Drop(l), lo, fuel, callers, lo + 1);
    } else if t.None? {
      ShowsFault(m, from, Astray, lo + 1, fuel, callers, lo + 1);
    } else {
      LoadedWord(m, d, t.value);
      n := EnteredShown(m, d, t.value, from, lo, fuel, Drop(l).l, callers, nb);
    }
  }

  // ----- the whole program -----

  lemma {:induction false} PlainParts(s: Stmt)
    requires PlainOnly(s)
    ensures s.Chain? ==> PlainOnly(s.first) && PlainOnly(s.second)
    ensures s.IfThen? || s.BeginUntil? || s.BeginAgain? || s.DoLoop? ==> PlainOnly(s.body)
    ensures s.IfElse? ==> PlainOnly(s.yes) && PlainOnly(s.no)
    ensures s.BeginWhile? ==> PlainOnly(s.cond) && PlainOnly(s.body)
    ensures s.Prim? ==> IsPlain(s.op)
  {
  }

  lemma {:induction false} PlacedParts(c: Code, cur: int, s: Stmt, n: nat, lo: nat)
    requires Placed(c, cur, s, n, lo)
    ensures s.Chain? ==>
      Placed(c, cur, s.first, n, lo) && Placed(c, cur, s.second, n + Size(s.first), lo + Size(s.first))
    ensures s.IfThen? ==> PlacedIfThen(c, cur, s.body, n, lo) && Placed(c, cur, s.body, n + 2, lo + 1)
    ensures s.BeginUntil? ==> PlacedBeginUntil(c, cur, s.body, n, lo) && Placed(c, cur, s.body, n + 1, lo + 1)
    ensures s.BeginAgain? ==> PlacedBeginAgain(c, cur, s.body, n, lo) && Placed(c, cur, s.body, n + 1, lo + 1)
    ensures s.DoLoop? ==> PlacedDoLoop(c, cur, s.body, n, lo) && Placed(c, cur, s.body, n + 2, lo + 2)
  {
    hide At;
  }

  lemma {:induction false} PlacedTwoParts(c: Code, cur: int, s: Stmt, n: nat, lo: nat)
    requires Placed(c, cur, s, n, lo)
    ensures s.IfElse? ==>
      && PlacedIfElse(c, cur, s.yes, s.no, n, lo) && Placed(c, cur, s.yes, n + 2, lo + 1)
      && Placed(c, cur, s.no, n + 4 + Size(s.yes), lo + 3 + Size(s.yes))
    ensures s.BeginWhile? ==>
      && PlacedBeginWhile(c, cur, s.cond, s.body, n, lo) && Placed(c, cur, s.cond, n + 1, lo + 1)
      && Placed(c, cur, s.body, n + 3 + Size(s.cond), lo + 2 + Size(s.cond))
  {
    hide At;
  }

  lemma {:induction false} SimAtom(m: Machine, d: Dictionary, cur: int, s: Stmt, n0: nat, lo: nat, fuel: nat,
      l: Local, callers: seq<Frame>)
    returns (n: nat)
    requires s.Empty? || s.Unlooped? || s.TickWord? || s.Leave? || (s.Prim? && s.op != Execute)
    requires Loaded(m, d) && PlainOnly(s) && Placed(m.code, cur, s, n0, lo)
    ensures Shows(m, Running(lo, l, callers), n, Eval(d, cur, s, fuel, Depth(callers), l), fuel, callers, lo + Size(s))
  {
    hide Loaded, Depth, Exec, FindToken;
    LoadedBasics(m, d);
    match s
    case Prim(op, param) =>
      n := 1;
      SimPrim(m, d, cur, op, param, n0, lo, fuel, l, callers);
    case TickWord(k) =>
      n := 1;
      SimTick(m, d, cur, k, n0, lo, fuel, l, callers);
    case Leave => n := 0;
    case Empty => n := 0;
    case Unlooped => n := 0;
  }

  lemma {:induction false} EvalCalls(d: Dictionary, cur: int, s: Stmt, fuel: nat, depth: nat, l: Local)
    ensures s.Call? ==> Eval(d, cur, s, fuel, depth, l) == EvalCall(d, s.word, fuel, depth, l)
    ensures s.SelfCall? ==> Eval(d, cur, s, fuel, depth, l) == EvalCall(d, cur, fuel, depth, l)
    ensures s.Prim? && s.op == Execute ==> Eval(d, cur, s, fuel, depth, l) == EvalExecute(d, fuel, depth, l)
    ensures Size(Call(0)) == 1 && (s.Call? || s.SelfCall? || s.Prim? ==> Size(s) == 1)
  {
    hide EvalCall, EvalExecute;
  }

  lemma {:induction false} PlacedCalls(c: Code, cur: int, s: Stmt, n: nat, lo: nat)
    requires Placed(c, cur, s, n, lo)
    ensures s.Call? ==> s.word < |c.words| && At(c, lo, n, DefinedWord, c.words[s.word])
    ensures s.SelfCall? ==> 0 <= cur < |c.words| && At(c, lo, n, DefinedWord, c.words[cur])
    ensures s.Prim? ==> At(c, lo, n, s.op, s.param)
  {
    hide At;
  }

  lemma {:induction false} RunChain(m: Machine, d: Dictionary, cur: int, a: Stmt, b: Stmt, n0: nat, lo: nat,
      fuel: nat, l: Local, callers: seq<Frame>)
    returns (n: nat)
    requires Loaded(m, d) && PlainOnly(Chain(a, b)) && Placed(m.code, cur, Chain(a, b), n0, lo)
    ensures Shows(m, Running(lo, l, callers), n, Eval(d, cur, Chain(a, b), fuel, Depth(callers), l), fuel, callers,
        lo + Size(Chain(a, b)))
    decreases fuel, 3, Chain(a, b), 0
  {
    hide Loaded, Placed, Size, Eval, Shows, PlainOnly, NoRepeats, Depth, Drop, At, AfterBody, TwoToReturn, TestLoop,
      PlacedIfThen, PlacedIfElse, PlacedBeginUntil, PlacedBeginAgain, PlacedBeginWhile, PlacedDoLoop, PlacedChain,
          EvalRounds;
    var depth := Depth(callers);
    LoadedBasics(m, d);
    PlainParts(Chain(a, b));
    AsChain(m.code, cur, a, b, n0, lo);
    PlacedParts(m.code, cur, Chain(a, b), n0, lo);
    var na := Simulates(m, d, cur, a, n0, lo, fuel, l, callers);
    var o, nb := Eval(d, cur, a, fuel, depth, l), 0;
    if o.Ended? {
      nb := Simulates(m, d, cur, b, n0 + Size(a), lo + Size(a), fuel, o.l, callers);
    }
    n := SimChain(m, d, cur, a, b, lo, fuel, l, callers, na, nb);
  }

  lemma {:induction false} RunIfThen(m: Machine, d: Dictionary, cur: int, b: Stmt, n0: nat, lo: nat, fuel: nat,
      l: Local, callers: seq<Frame>)
    returns (n: nat)
    requires Loaded(m, d) && PlainOnly(IfThen(b)) && Placed(m.code, cur, IfThen(b), n0, lo)
    ensures Shows(m, Running(lo, l, callers), n, Eval(d, cur, IfThen(b), fuel, Depth(callers), l), fuel, callers,
        lo + Size(IfThen(b)))
    decreases fuel, 3, IfThen(b), 0
  {
    hide Loaded, Placed, Size, Eval, Shows, PlainOnly, NoRepeats, Depth, Drop, At, AfterBody, TwoToReturn, TestLoop,
      PlacedIfThen, PlacedIfElse, PlacedBeginUntil, PlacedBeginAgain, PlacedBeginWhile, PlacedDoLoop, PlacedChain,
          EvalRounds;
    var depth := Depth(callers);
    LoadedBasics(m, d);
    PlainParts(IfThen(b));
    AsIfThen(m.code, cur, b, n0, lo);
    PlacedParts(m.code, cur, IfThen(b), n0, lo);
    var nb := 0;
    if Drop(l).Fine? && TopOf(l.ds) != 0 {
      nb := Simulates(m, d, cur, b, n0 + 2, lo + 1, fuel, Drop(l).l, callers);
    }
    n := SimIfThen(m, d, cur, b, n0, lo, fuel, l, callers, nb);
  }

  lemma {:induction false} RunIfElse(m: Machine, d: Dictionary, cur: int, a: Stmt, b: Stmt, n0: nat, lo: nat,
      fuel: nat, l: Local, callers: seq<Frame>)
    returns (n: nat)
    requires Loaded(m, d) && PlainOnly(IfElse(a, b)) && Placed(m.code, cur, IfElse(a, b), n0, lo)
    ensures Shows(m, Running(lo, l, callers), n, Eval(d, cur, IfElse(a, b), fuel, Depth(callers), l), fuel, callers,
        lo + Size(IfElse(a, b)))
    decreases fuel, 3, IfElse(a, b), 0
  {
    hide Loaded, Placed, Size, Eval, Shows, PlainOnly, NoRepeats, Depth, Drop, At, AfterBody, TwoToReturn, TestLoop,
      PlacedIfThen, PlacedIfElse, PlacedBeginUntil, PlacedBeginAgain, PlacedBeginWhile, PlacedDoLoop, PlacedChain,
          EvalRounds;
    var depth := Depth(callers);
    LoadedBasics(m, d);
    PlainParts(IfElse(a, b));
    AsIfElse(m.code, cur, a, b, n0, lo);
    PlacedTwoParts(m.code, cur, IfElse(a, b), n0, lo);
    var na, nb := 0, 0;
    if Drop(l).Fine? {
      if TopOf(l.ds) != 0 {
        na := Simulates(m, d, cur, a, n0 + 2, lo + 1, fuel, Drop(l).l, callers);
      } else {
        nb := Simulates(m, d, cur, b, n0 + 4 + Size(a), lo + 3 + Size(a), fuel, Drop(l).l, callers);
      }
    }
    n := SimIfElse(m, d, cur, a, b, n0, lo, fuel, l, callers, na, nb);
  }

  lemma {:induction false} RunUntil(m: Machine, d: Dictionary, cur: int, b: Stmt, n0: nat, lo: nat, fuel: nat,
      l: Local, callers: seq<Frame>)
    returns (n: nat)
    requires Loaded(m, d) && PlainOnly(BeginUntil(b)) && Placed(m.code, cur, BeginUntil(b), n0, lo)
    ensures Shows(m, Running(lo, l, callers), n, Eval(d, cur, BeginUntil(b), fuel, Depth(callers), l), fuel, callers,
        lo + Size(BeginUntil(b)))
    decreases fuel, 3, BeginUntil(b), 0
  {
    hide Loaded, Placed, Size, Eval, Shows, PlainOnly, NoRepeats, Depth, Drop, At, AfterBody, TwoToReturn, TestLoop,
      PlacedIfThen, PlacedIfElse, PlacedBeginUntil, PlacedBeginAgain, PlacedBeginWhile, PlacedDoLoop, PlacedChain,
          EvalRounds;
    var depth := Depth(callers);
    LoadedBasics(m, d);
    PlainParts(BeginUntil(b));
    AsBeginUntil(m.code, cur, b, n0, lo);
    PlacedParts(m.code, cur, BeginUntil(b), n0, lo);
    var nb := Simulates(m, d, cur, b, n0 + 1, lo + 1, fuel, l, callers);
    var o, nr := Eval(d, cur, b, fuel, depth, l), 0;
    if o.Ended? && Drop(o.l).Fine? && TopOf(o.l.ds) == 0 && fuel > 0 {
      nr := Simulates(m, d, cur, BeginUntil(b), n0, lo, fuel - 1, Drop(o.l).l, callers);
    }
    n := SimUntil(m, d, cur, b, n0, lo, fuel, l, callers, nb, nr);
  }

  lemma {:induction false} RunAgain(m: Machine, d: Dictionary, cur: int, b: Stmt, n0: nat, lo: nat, fuel: nat,
      l: Local, callers: seq<Frame>)
    returns (n: nat)
    requires Loaded(m, d) && PlainOnly(BeginAgain(b)) && Placed(m.code, cur, BeginAgain(b), n0, lo)
    ensures Shows(m, Running(lo, l, callers), n, Eval(d, cur, BeginAgain(b), fuel, Depth(callers), l), fuel, callers,
        lo + Size(BeginAgain(b)))
    decreases fuel, 3, BeginAgain(b), 0
  {
    hide Loaded, Placed, Size, Eval, Shows, PlainOnly, NoRepeats, Depth, Drop, At, AfterBody, TwoToReturn, TestLoop,
      PlacedIfThen, PlacedIfElse, PlacedBeginUntil, PlacedBeginAgain, PlacedBeginWhile, PlacedDoLoop, PlacedChain,
          EvalRounds;
    var depth := Depth(callers);
    LoadedBasics(m, d);
    PlainParts(BeginAgain(b));
    AsBeginAgain(m.code, cur, b, n0, lo);
    PlacedParts(m.code, cur, BeginAgain(b), n0, lo);
    var nb := Simulates(m, d, cur, b, n0 + 1, lo + 1, fuel, l, callers);
    var o, nr := Eval(d, cur, b, fuel, depth, l), 0;
    if o.Ended? && fuel > 0 {
      nr := Simulates(m, d, cur, BeginAgain(b), n0, lo, fuel - 1, o.l, callers);
    }
    n := SimAgain(m, d, cur, b, n0, lo, fuel, l, callers, nb, nr);
  }

  lemma {:induction false} RunWhile(m: Machine, d: Dictionary, cur: int, c: Stmt, b: Stmt, n0: nat, lo: nat,
      fuel: nat, l: Local, callers: seq<Frame>)
    returns (n: nat)
    requires Loaded(m, d) && PlainOnly(BeginWhile(c, b)) && Placed(m.code, cur, BeginWhile(c, b), n0, lo)
    ensures Shows(m, Running(lo, l, callers), n, Eval(d, cur, BeginWhile(c, b), fuel, Depth(callers), l), fuel,
        callers, lo + Size(BeginWhile(c, b)))
    decreases fuel, 3, BeginWhile(c, b), 0
  {
    hide Loaded, Placed, Size, Eval, Shows, PlainOnly, NoRepeats, Depth, Drop, At, AfterBody, TwoToReturn, TestLoop,
      PlacedIfThen, PlacedIfElse, PlacedBeginUntil, PlacedBeginAgain, PlacedBeginWhile, PlacedDoLoop, PlacedChain,
          EvalRounds;
    var depth := Depth(callers);
    LoadedBasics(m, d);
    PlainParts(BeginWhile(c, b));
    AsBeginWhile(m.code, cur, c, b, n0, lo);
    PlacedTwoParts(m.code, cur, BeginWhile(c, b), n0, lo);
    var nc := Simulates(m, d, cur, c, n0 + 1, lo + 1, fuel, l, callers);
    var o, nb := Eval(d, cur, c, fuel, depth, l), 0;
    if o.Ended? && Drop(o.l).Fine? && TopOf(o.l.ds) != 0 {
      var l2 := Drop(o.l).l;
      nb := Simulates(m, d, cur, b, n0 + 3 + Size(c), lo + 2 + Size(c), fuel, l2, callers);
      var ob, nr := Eval(d, cur, b, fuel, depth, l2), 0;
      if ob.Ended? && fuel > 0 {
        nr := Simulates(m, d, cur, BeginWhile(c, b), n0, lo, fuel - 1, ob.l, callers);
      }
      nb := SimRepeat(m, d, cur, c, b, n0, lo, fuel, l2, callers, nb, nr);
    }
    n := SimWhile(m, d, cur, c, b, n0, lo, fuel, l, callers, nc, nb);
  }

  lemma {:induction false} RunDo(m: Machine, d: Dictionary, cur: int, b: Stmt, n0: nat, lo: nat, fuel: nat, l: Local,
      callers: seq<Frame>)
    returns (n: nat)
    requires Loaded(m, d) && PlainOnly(DoLoop(b)) && Placed(m.code, cur, DoLoop(b), n0, lo)
    ensures Shows(m, Running(lo, l, callers), n, Eval(d, cur, DoLoop(b), fuel, Depth(callers), l), fuel, callers,
        lo + Size(DoLoop(b)))
    decreases fuel, 3, DoLoop(b), 0
  {
    hide Loaded, Placed, Size, Eval, Shows, PlainOnly, NoRepeats, Depth, Drop, At, AfterBody, TwoToReturn, TestLoop,
      PlacedIfThen, PlacedIfElse, PlacedBeginUntil, PlacedBeginAgain, PlacedBeginWhile, PlacedDoLoop, PlacedChain,
          EvalRounds;
    var depth := Depth(callers);
    LoadedBasics(m, d);
    PlainParts(DoLoop(b));
    AsDoLoop(m.code, cur, b, n0, lo);
    PlacedParts(m.code, cur, DoLoop(b), n0, lo);
    var r, nr := TwoToReturn(depth, l), 0;
    if r.Fine? {
      nr := RunRounds(m, d, cur, b, n0, lo, fuel, r.l, callers);
    }
    n := SimDo(m, d, cur, b, n0, lo, fuel, l, callers, nr);
  }

  lemma {:induction false} RunRounds(m: Machine, d: Dictionary, cur: int, b: Stmt, n0: nat, lo: nat, fuel: nat,
      l: Local, callers: seq<Frame>)
    returns (n: nat)
    requires Loaded(m, d) && PlainOnly(b) && PlacedDoLoop(m.code, cur, b, n0, lo)
        && Placed(m.code, cur, b, n0 + 2, lo + 2)
    ensures Shows(m, Running(lo + 1, l, callers), n, EvalRounds(d, cur, b, fuel, Depth(callers), l), fuel, callers,
        lo + 3 + Size(b))
    decreases fuel, 3, b, 2
  {
    hide Loaded, Placed, Size, Eval, Shows, PlainOnly, NoRepeats, Depth, Drop, At, AfterBody, TwoToReturn, TestLoop,
      PlacedIfThen, PlacedIfElse, PlacedBeginUntil, PlacedBeginAgain, PlacedBeginWhile, PlacedDoLoop, PlacedChain,
          EvalRounds;
    var depth := Depth(callers);
    LoadedBasics(m, d);
    var nb := Simulates(m, d, cur, b, n0 + 2, lo + 2, fuel, l, callers);
    var o, nr := Eval(d, cur, b, fuel, depth, l), 0;
    if o.Ended? && fuel > 0 && TestLoop(depth, o.l).0.Fine? && TestLoop(depth, o.l).1 {
      nr := RunRounds(m, d, cur, b, n0, lo, fuel - 1, TestLoop(depth, o.l).0.l, callers);
    }
    n := SimRound(m, d, cur, b, n0, lo, fuel, l, callers, nb, nr);
  }

  /** The body of a word, run in its own frame. */
  lemma {:induction false} RunBody(m: Machine, d: Dictionary, k: nat, pc: nat, fuel: nat, l: Local, callers: seq<Frame>)
    returns (nb: nat)
    requires Loaded(m, d) && k < |d.bodies|
    ensures BodyShown(m, d, k, pc, fuel, l, callers, nb)
    decreases fuel, 1
  {
    hide Loaded, Placed, Size, Eval, Shows, PlainOnly, NoRepeats, Depth, At, IndexOf;
    LoadedWord(m, d, k);
    nb := 0;
    if fuel > 0 && RoomForFrame(l, callers) {
      var p, inner := IndexOf(m.code.order, m.code.words[k]), callers + [Frame(Some(pc + 1), l.cells)];
      DepthPush(callers, Frame(Some(pc + 1), l.cells));
      nb := Simulates(m, d, k, d.bodies[k], m.code.words[k] + 1, p + 1, fuel - 1, l.(cells := []), inner);
    }
  }

  lemma {:induction false} RunCall(m: Machine, d: Dictionary, k: int, n0: nat, lo: nat, fuel: nat, l: Local,
      callers: seq<Frame>)
    returns (n: nat)
    requires Loaded(m, d) && 0 <= k < |m.code.words| && At(m.code, lo, n0, DefinedWord, m.code.words[k])
    ensures Shows(m, Running(lo, l, callers), n, EvalCall(d, k, fuel, Depth(callers), l), fuel, callers, lo + 1)
    decreases fuel, 2
  {
    hide Loaded, Eval, EvalCall, Shows, Depth, At, BodyShown;
    LoadedBasics(m, d);
    var nb := RunBody(m, d, k, lo, fuel, l, callers);
    n := SimCall(m, d, k, n0, lo, fuel, l, callers, nb);
  }

  lemma {:induction false} RunExecute(m: Machine, d: Dictionary, n0: nat, lo: nat, param: int, fuel: nat, l: Local,
      callers: seq<Frame>)
    returns (n: nat)
    requires Loaded(m, d) && At(m.code, lo, n0, Execute, param)
    ensures Shows(m, Running(lo, l, callers), n, EvalExecute(d, fuel, Depth(callers), l), fuel, callers, lo + 1)
    decreases fuel, 2
  {
    hide Loaded, Eval, EvalExecute, Shows, Depth, At, BodyShown, Drop, FindToken;
    LoadedBasics(m, d);
    var t, nb := FindToken(d.tokens, TopOf(l.ds)), 0;
    TokenFound(d.tokens, TopOf(l.ds));
    if Drop(l).Fine? && t.Some? {
      nb := RunBody(m, d, t.value, lo, fuel, Drop(l).l, callers);
    }
    n := SimExecute(m, d, n0, lo, param, fuel, l, callers, nb);
  }

  /** Structured compilation preserves meaning.  Wherever s is placed, the machine run from there
      shows the outcome that s means: the same stacks and world at the end or at an exit, the
      same failure; and when the meaning runs out of fuel the machine is still running after at
      least that many steps. */
  lemma {:induction false} Simulates(m: Machine, d: Dictionary, cur: int, s: Stmt, n0: nat, lo: nat, fuel: nat,
      l: Local, callers: seq<Frame>)
    returns (n: nat)
    requires Loaded(m, d) && PlainOnly(s) && Placed(m.code, cur, s, n0, lo)
    ensures Shows(m, Running(lo, l, callers), n, Eval(d, cur, s, fuel, Depth(callers), l), fuel, callers, lo + Size(s))
    decreases fuel, 3, s, 1
  {
    hide Loaded, Placed, Size, Eval, Shows, PlainOnly, NoRepeats, Depth, Drop, At, EvalCall, EvalExecute, AfterBody,
        TwoToReturn,
      PlacedIfThen, PlacedIfElse, PlacedBeginUntil, PlacedBeginAgain, PlacedBeginWhile, PlacedDoLoop, EvalRounds,
          FindToken, Tokens;
    LoadedBasics(m, d);
    PlainParts(s);
    PlacedParts(m.code, cur, s, n0, lo);
    PlacedTwoParts(m.code, cur, s, n0, lo);
    PlacedCalls(m.code, cur, s, n0, lo);
    var depth := Depth(callers);
    EvalCalls(d, cur, s, fuel, depth, l);
    match s
    case Empty => n := SimAtom(m, d, cur, s, n0, lo, fuel, l, callers);
    case Unlooped => n := SimAtom(m, d, cur, s, n0, lo, fuel, l, callers);
    case TickWord(_) => n := SimAtom(m, d, cur, s, n0, lo, fuel, l, callers);
    case Leave => n := SimAtom(m, d, cur, s, n0, lo, fuel, l, callers);
    case Prim(op, _) =>
      if op != Execute {
        n := SimAtom(m, d, cur, s, n0, lo, fuel, l, callers);
      } else {
        n := RunExecute(m, d, n0, lo, s.param, fuel, l, callers);
      }
    case Call(k) => n := RunCall(m, d, k, n0, lo, fuel, l, callers);
    case SelfCall => n := RunCall(m, d, cur, n0, lo, fuel, l, callers);
    case Chain(a, b) => n := RunChain(m, d, cur, a, b, n0, lo, fuel, l, callers);
    case IfThen(b) => n := RunIfThen(m, d, cur, b, n0, lo, fuel, l, callers);
    case IfElse(a, b) => n := RunIfElse(m, d, cur, a, b, n0, lo, fuel, l, callers);
    case BeginUntil(b) => n := RunUntil(m, d, cur, b, n0, lo, fuel, l, callers);
    case BeginAgain(b) => n := RunAgain(m, d, cur, b, n0, lo, fuel, l, callers);
    case BeginWhile(c, b) => n := RunWhile(m, d, cur, c, b, n0, lo, fuel, l, callers);
    case DoLoop(b) => n := RunDo(m, d, cur, b, n0, lo, fuel, l, callers);
  }
}
